/** The elite pool `best_programs`: a Python list kept as a binary min-heap
    by `heapq`, seeded with TOP_K + 1 sentinel programs and updated with
    `heappushpop`, and the summary loop of `checkpoint` over it. */
module ElitePool {
  import opened Types

  /** Slot `c` is a child of slot `p` in heapq's layout. */
  predicate IsChild(p: int, c: int)
  {
    c == 2 * p + 1 || c == 2 * p + 2
  }

  /** heapq's invariant: no entry is below its parent. */
  predicate IsHeap(s: seq<Entry>)
  {
    forall p, c {:trigger IsChild(p, c)} :: 0 <= p < c < |s| && IsChild(p, c) ==> EntryLe(s[p], s[c])
  }

  /** The root of a heap is its least entry. */
  lemma {:induction false} HeapRootIsLeast(s: seq<Entry>, i: nat)
    requires IsHeap(s) && i < |s|
    ensures EntryLe(s[0], s[i])
    decreases i
  {
    if i == 0 {
      EntryLeReflexive(s[0]);
    } else {
      HeapRootIsLeast(s, (i - 1) / 2);
      assert IsChild((i - 1) / 2, i);
      EntryLeTransitive(s[0], s[(i - 1) / 2], s[i]);
    }
  }

  /** Writing `v` into slot `i` trades the entry there for `v`. */
  lemma UpdateMultiset(a: seq<Entry>, i: nat, v: Entry)
    requires i < |a|
    ensures multiset(a[i := v]) == multiset(a) - multiset{a[i]} + multiset{v}
  {
  }

  /** Moving entries between two slots of a list keeps its multiset. */
  lemma MoveKeepsMultiset(a: seq<Entry>, i: nat, j: nat, x: Entry)
    requires i < |a| && j < |a| && i != j
    ensures multiset(a[i := a[j]][j := x]) == multiset(a[i := x])
  {
    var b := a[i := a[j]];
    UpdateMultiset(a, i, a[j]);
    UpdateMultiset(b, j, x);
    UpdateMultiset(a, i, x);
    var m := multiset(a) - multiset{a[i]};
    assert multiset(b) == m + multiset{a[j]};
    assert multiset(b[j := x]) == m + multiset{a[j]} - multiset{a[j]} + multiset{x};
  }

  /** Every parent/child pair that avoids slot `h` is in heap order. */
  ghost predicate HeapBut(s: seq<Entry>, h: int)
  {
    forall q, c {:trigger IsChild(q, c)} :: 0 <= q < c < |s| && IsChild(q, c) && q != h && c != h ==> EntryLe(s[q], s[c])
  }

  /** The parent of slot `h` is in order with the children of `h`, so `h`
      can be filled from either side. */
  ghost predicate Bridged(s: seq<Entry>, h: int)
  {
    h > 0 ==> forall c :: 0 <= c < |s| && IsChild(h, c) ==> EntryLe(s[(h - 1) / 2], s[c])
  }

  ghost predicate BelowChildren(s: seq<Entry>, h: int, x: Entry)
  {
    forall c :: 0 <= c < |s| && IsChild(h, c) ==> EntryLe(x, s[c])
  }

  /** The state of `_siftdown`'s loop: around the hole at `h`, `s` is in heap
      order, `x` may go below the hole's parent or into the hole, and putting
      it into the hole gives back the entries the loop started with. */
  ghost predicate HoleRising(s: seq<Entry>, h: int, x: Entry, bag: multiset<Entry>)
  {
    0 <= h < |s| && HeapBut(s, h) && Bridged(s, h) && BelowChildren(s, h, x) && multiset(s[h := x]) == bag
  }

  /** One step of `_siftdown`: the parent moves into the hole, the hole moves up. */
  lemma SiftDownStep(s: seq<Entry>, p: nat, x: Entry, bag: multiset<Entry>)
    requires HoleRising(s, p, x, bag) && p > 0
    requires EntryLt(x, s[(p - 1) / 2])
    ensures HoleRising(s[p := s[(p - 1) / 2]], (p - 1) / 2, x, bag)
  {
    var pp := (p - 1) / 2;
    var s' := s[p := s[pp]];
    EntryLtLe(x, s[pp]);
    forall c | 0 <= c < |s'| && IsChild(pp, c)
      ensures EntryLe(x, s'[c])
    {
      if c != p {
        EntryLeTransitive(x, s[pp], s[c]);
      }
    }
    if pp > 0 {
      forall c | 0 <= c < |s'| && IsChild(pp, c)
        ensures EntryLe(s'[(pp - 1) / 2], s'[c])
      {
        assert IsChild((pp - 1) / 2, pp);
        if c != p {
          EntryLeTransitive(s[(pp - 1) / 2], s[pp], s[c]);
        }
      }
    }
    MoveKeepsMultiset(s, p, pp, x);
  }

  /** `_siftdown` stops at the root or below a parent that is not above the entry. */
  lemma SiftDownDone(s: seq<Entry>, p: nat, x: Entry, bag: multiset<Entry>)
    requires HoleRising(s, p, x, bag)
    requires p > 0 ==> !EntryLt(x, s[(p - 1) / 2])
    ensures IsHeap(s[p := x]) && multiset(s[p := x]) == bag
  {
  }

  /** What sits in the hole does not matter to the pairs that avoid it. */
  lemma HoleIsFree(s: seq<Entry>, h: nat, x: Entry)
    requires h < |s| && HeapBut(s, h)
    ensures HeapBut(s[h := x], h)
  {
    var s' := s[h := x];
    forall q, c | 0 <= q < c < |s'| && IsChild(q, c) && q != h && c != h
      ensures EntryLe(s'[q], s'[c])
    {
      assert s'[q] == s[q] && s'[c] == s[c];
    }
  }

  /** The state of `_siftup`'s loop: around the hole at `h`, `s` is in heap
      order, and putting `x` into the hole gives back the entries the loop
      started with. */
  ghost predicate HoleSinking(s: seq<Entry>, h: int, x: Entry, bag: multiset<Entry>)
  {
    0 <= h < |s| && HeapBut(s, h) && Bridged(s, h) && multiset(s[h := x]) == bag
  }

  /** One step of `_siftup`: the smaller child moves into the hole, the hole moves down. */
  lemma SiftUpStep(s: seq<Entry>, p: nat, m: nat, x: Entry, bag: multiset<Entry>)
    requires HoleSinking(s, p, x, bag) && m < |s| && (m == 2 * p + 1 || m == 2 * p + 2)
    requires m == 2 * p + 2 ==> !EntryLt(s[m - 1], s[m])
    requires m == 2 * p + 1 && m + 1 < |s| ==> EntryLt(s[m], s[m + 1])
    ensures HoleSinking(s[p := s[m]], m, x, bag)
  {
    EntryLeReflexive(s[m]);
    if m == 2 * p + 1 && m + 1 < |s| {
      EntryLtLe(s[m], s[m + 1]);
    }
    MoveKeepsMultiset(s, p, m, x);
  }

  /** Once the hole has sunk, `x` can go into it with only its parent left to check. */
  lemma SiftUpDone(s: seq<Entry>, h: nat, x: Entry, bag: multiset<Entry>)
    requires HoleSinking(s, h, x, bag)
    ensures HeapBut(s[h := x], h) && multiset(s[h := x]) == bag
  {
    HoleIsFree(s, h, x);
  }

  /** One more element of a list adds it to the multiset of its prefix. */
  lemma PrefixStep(s: seq<Entry>, i: nat)
    requires i < |s|
    ensures multiset(s[..i + 1]) == multiset(s[..i]) + multiset{s[i]}
  {
    assert s[..i + 1] == s[..i] + [s[i]];
  }

  /** The sentinel programs `Program(i, str(i))` for i in range(TOP_K + 1). */
  function Seeds(topK: nat): (s: seq<Entry>)
    ensures |s| == topK + 1
    ensures forall i :: 0 <= i < |s| ==> s[i] == Entry(MinFitness, Program(SeedUid(i), false))
  {
    seq(topK + 1, i requires 0 <= i => Entry(MinFitness, Program(SeedUid(i), false)))
  }

  /** What `checkpoint` does to one entry: a scored entry of the final
      checkpoint gets `persist = True`; every other entry is left alone. */
  function Mark(e: Entry, final: bool): (r: Entry)
    ensures SameRank(r, e)
    ensures r.program.persist <==> e.program.persist || (final && e.fitness.Score?)
  {
    if final && e.fitness.Score? then e.(program := e.program.(persist := true)) else e
  }

  /** The `summary` dict `checkpoint` builds: uid -> fitness for the entries
      above MIN_FITNESS, visited in list order, so a later entry with the
      same uid overwrites an earlier one. */
  function Summary(s: seq<Entry>): map<Uid, real>
  {
    if s == [] then map[]
    else
      var m := Summary(s[..|s| - 1]);
      var e := s[|s| - 1];
      if e.fitness.Score? then m[e.program.uid := e.fitness.value] else m
  }

  /** The summary's keys are exactly the uids of the entries above MIN_FITNESS. */
  lemma {:induction false} SummaryKeys(s: seq<Entry>, k: Uid)
    ensures k in Summary(s)
        <==> exists i :: 0 <= i < |s| && s[i].fitness.Score? && s[i].program.uid == k
  {
    if s != [] {
      var t := s[..|s| - 1];
      SummaryKeys(t, k);
      if exists i :: 0 <= i < |t| && t[i].fitness.Score? && t[i].program.uid == k {
        var i :| 0 <= i < |t| && t[i].fitness.Score? && t[i].program.uid == k;
        assert s[i] == t[i];
      }
      if exists i :: 0 <= i < |s| && s[i].fitness.Score? && s[i].program.uid == k {
        var i :| 0 <= i < |s| && s[i].fitness.Score? && s[i].program.uid == k;
        if i < |t| {
          assert t[i] == s[i];
        }
      }
    }
  }

  /** Each key maps to the fitness of the last entry above MIN_FITNESS with that uid. */
  lemma {:induction false} SummaryLastWins(s: seq<Entry>, k: Uid)
    requires k in Summary(s)
    ensures exists i :: 0 <= i < |s| && s[i].fitness.Score? && s[i].program.uid == k
                        && Summary(s)[k] == s[i].fitness.value
                        && forall j :: i < j < |s| ==> !(s[j].fitness.Score? && s[j].program.uid == k)
  {
    var t := s[..|s| - 1];
    var e := s[|s| - 1];
    if e.fitness.Score? && e.program.uid == k {
      assert s[|s| - 1] == e;
    } else {
      SummaryLastWins(t, k);
      var i :| 0 <= i < |t| && t[i].fitness.Score? && t[i].program.uid == k
               && Summary(t)[k] == t[i].fitness.value
               && forall j :: i < j < |t| ==> !(t[j].fitness.Score? && t[j].program.uid == k);
      assert s[i] == t[i];
      forall j | i < j < |s|
        ensures !(s[j].fitness.Score? && s[j].program.uid == k)
      {
        if j < |t| {
          assert s[j] == t[j];
        }
      }
    }
  }

  /** Marking changes no entry's rank, so the heap stays a heap. */
  lemma MarkKeepsHeap(s: seq<Entry>, s': seq<Entry>)
    requires |s| == |s'| && forall i :: 0 <= i < |s| ==> SameRank(s[i], s'[i])
    requires IsHeap(s)
    ensures IsHeap(s')
  {
    forall p, c | 0 <= p < c < |s'| && IsChild(p, c)
      ensures EntryLe(s'[p], s'[c])
    {
      SameRankCompares(s[p], s'[p], s[c]);
      SameRankCompares(s[c], s'[c], s'[p]);
    }
  }

  /** The summary only reads fitness and uid: entries of the same rank give
      the same summary, whatever their `persist` flags. */
  lemma {:induction false} SummaryIgnoresPersist(s: seq<Entry>, s': seq<Entry>)
    requires |s| == |s'| && forall i :: 0 <= i < |s| ==> SameRank(s[i], s'[i])
    ensures Summary(s) == Summary(s')
  {
    if s != [] {
      SummaryIgnoresPersist(s[..|s| - 1], s'[..|s'| - 1]);
    }
  }

  /** An entry with its `persist` flag cleared: the `(fitness, program)`
      tuple as it was pushed. */
  function Unmark(e: Entry): Entry
  {
    e.(program := e.program.(persist := false))
  }

  function Unmarked(s: seq<Entry>): (r: seq<Entry>)
    ensures |r| == |s| && forall i :: 0 <= i < |s| ==> r[i] == Unmark(s[i])
  {
    seq(|s|, i requires 0 <= i < |s| => Unmark(s[i]))
  }

  class Pool {
    /** The list `best_programs`; only its first `size` slots are in use. */
    var entries: array<Entry>
    var size: nat

    ghost predicate Valid()
      reads this, entries
    {
      size <= entries.Length && IsHeap(entries[..size])
    }

    ghost function Contents(): seq<Entry>
      reads this, entries
      requires size <= entries.Length
    {
      entries[..size]
    }

    /** `best_programs = []` followed by `heappush` of the TOP_K + 1 sentinels. */
    constructor Seeded(topK: nat)
      ensures Valid() && fresh(entries)
      ensures entries.Length == topK + 1 && size == topK + 1
      ensures multiset(Contents()) == multiset(Seeds(topK))
    {
      entries := new Entry[topK + 1](_ => Entry(MinFitness, Program(SeedUid(0), false)));
      size := 0;
      new;
      hide Seeds;
      var seeds := Seeds(topK);
      for i := 0 to topK + 1
        invariant Valid() && fresh(entries) && entries.Length == topK + 1 && size == i
        invariant multiset(Contents()) == multiset(seeds[..i])
      {
        Push(seeds[i]);
        PrefixStep(seeds, i);
      }
      assert seeds[..topK + 1] == seeds;
    }

    /** `heappush`: append, then sift the new entry toward the root. */
    method Push(item: Entry)
      requires Valid() && size < entries.Length
      modifies this, entries
      ensures Valid() && entries == old(entries) && size == old(size) + 1
      ensures multiset(Contents()) == multiset(old(Contents())) + multiset{item}
    {
      ghost var before := entries[..size];
      entries[size] := item;
      size := size + 1;
      assert entries[..size] == before + [item];
      SiftDown(size - 1);
    }

    /** `heappushpop`: when the root is strictly below `item`, swap `item` in
        at the root, sift it toward the leaves and return the old root;
        otherwise return `item` and leave the heap alone. Either way the
        returned entry is below or equal to everything kept. */
    method PushPop(item: Entry) returns (out: Entry)
      requires Valid()
      modifies entries
      ensures Valid()
      ensures old(size) > 0 && EntryLt(old(entries[0]), item) ==>
                out == old(entries[0])
                && multiset(Contents()) == multiset(old(Contents())) - multiset{out} + multiset{item}
      ensures !(old(size) > 0 && EntryLt(old(entries[0]), item)) ==>
                out == item && Contents() == old(Contents())
      ensures EntryLe(out, item)
      ensures forall e :: e in Contents() ==> EntryLe(out, e)
    {
      out := item;
      ghost var before := entries[..size];
      if size > 0 && EntryLt(entries[0], item) {
        out := entries[0];
        entries[0] := item;
        assert entries[..size] == before[0 := item];
        SiftUp();
        EntryLtLe(out, item);
        forall e | e in entries[..size]
          ensures EntryLe(out, e)
        {
          assert e in multiset(entries[..size]);
          if e != item {
            assert e in multiset(before);
            var i :| 0 <= i < |before| && before[i] == e;
            HeapRootIsLeast(before, i);
          }
        }
      } else {
        if size > 0 {
          EntryLeTotal(entries[0], item);
          forall e | e in entries[..size]
            ensures EntryLe(out, e)
          {
            var i :| 0 <= i < size && entries[..size][i] == e;
            HeapRootIsLeast(entries[..size], i);
            EntryLeTransitive(item, entries[0], e);
          }
        }
        EntryLeReflexive(item);
      }
    }

    /** heapq's `_siftdown(heap, 0, pos)`: the entry at the leaf `pos` moves
        toward the root past every parent it is strictly below. */
    method SiftDown(pos: nat)
      requires size <= entries.Length && pos < size && 2 * pos + 1 >= size
      requires HeapBut(entries[..size], pos)
      modifies entries
      ensures IsHeap(entries[..size])
      ensures multiset(entries[..size]) == multiset(old(entries[..size]))
    {
      var a, endpos := entries, size;
      var newitem := a[pos];
      var p := pos;
      ghost var bag := multiset(a[..endpos]);
      assert a[..endpos][p := newitem] == a[..endpos];
      assert HoleRising(a[..endpos], p, newitem, bag);
      hide *;
      while p > 0
        invariant p < endpos
        invariant HoleRising(a[..endpos], p, newitem, bag)
      {
        var parentpos := (p - 1) / 2;
        var parent := a[parentpos];
        if EntryLt(newitem, parent) {
          ghost var s := a[..endpos];
          SiftDownStep(s, p, newitem, bag);
          a[p] := parent;
          assert a[..endpos] == s[p := s[parentpos]];
          p := parentpos;
        } else {
          break;
        }
      }
      ghost var s := a[..endpos];
      SiftDownDone(s, p, newitem, bag);
      a[p] := newitem;
      assert a[..endpos] == s[p := newitem];
    }

    /** heapq's `_siftup(heap, 0)`: the hole at the root follows the smaller
        child down to a leaf, the root's entry is put there, and
        `_siftdown` moves it back up as far as it belongs. */
    method SiftUp()
      requires size <= entries.Length && 0 < size
      requires HeapBut(entries[..size], 0)
      modifies entries
      ensures IsHeap(entries[..size])
      ensures multiset(entries[..size]) == multiset(old(entries[..size]))
    {
      var a, endpos := entries, size;
      var newitem := a[0];
      var p, childpos := 0, 1;
      ghost var bag := multiset(a[..endpos]);
      assert a[..endpos][p := newitem] == a[..endpos];
      assert HoleSinking(a[..endpos], p, newitem, bag);
      hide *;
      while childpos < endpos
        invariant p < endpos && childpos == 2 * p + 1
        invariant HoleSinking(a[..endpos], p, newitem, bag)
        decreases endpos - p
      {
        var rightpos := childpos + 1;
        if rightpos < endpos && !EntryLt(a[childpos], a[rightpos]) {
          childpos := rightpos;
        }
        ghost var s := a[..endpos];
        SiftUpStep(s, p, childpos, newitem, bag);
        a[p] := a[childpos];
        assert a[..endpos] == s[p := s[childpos]];
        p, childpos := childpos, 2 * childpos + 1;
      }
      ghost var s := a[..endpos];
      SiftUpDone(s, p, newitem, bag);
      a[p] := newitem;
      assert a[..endpos] == s[p := newitem];
      SiftDown(p);
    }

    /** The loop of `checkpoint`: build the summary of the entries above
        MIN_FITNESS and, on the final checkpoint, set `persist` on exactly
        those entries. */
    method Summarize(final: bool) returns (summary: map<Uid, real>)
      requires Valid()
      modifies entries
      ensures Valid()
      ensures summary == Summary(old(Contents()))
      ensures forall i :: 0 <= i < size ==> entries[i] == Mark(old(entries[i]), final)
    {
      ghost var before := entries[..size];
      summary := map[];
      for i := 0 to size
        invariant summary == Summary(before[..i])
        invariant forall j :: 0 <= j < i ==> entries[j] == Mark(before[j], final)
        invariant forall j :: i <= j < size ==> entries[j] == before[j]
      {
        var e := entries[i];
        assert before[..i + 1][..i] == before[..i];
        if e.fitness.Score? {
          summary := summary[e.program.uid := e.fitness.value];
          if final {
            entries[i] := e.(program := e.program.(persist := true));
          }
        }
      }
      assert before[..size] == before;
      MarkKeepsHeap(before, entries[..size]);
    }
  }
}
