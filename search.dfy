/** The search loop of the script's main block: evaluate each candidate the
    optimizer asks for, keep the best programs in the pool, write a summary
    every CHECKPOINT_INTERVAL iterations and once more at the end. */
module SearchLoop {
  import opened Types
  import opened Evaluation
  import opened ElitePool

  /** The candidate evaluated at some point of the run, asked for or
      recommended: its uid and how evaluating it ends. */
  datatype Candidate = Candidate(uid: string, outcome: Outcome)

  /** One periodic call of `checkpoint`: the loop index it was written at and
      the summary file, or None when evaluating the recommendation raised
      before the file was written. */
  datatype Snapshot = Snapshot(idx: nat, summary: Option<map<Uid, real>>)

  /** What `evaluate_candidate` returns, or the exception it lets escape. */
  function FitnessOf(o: Outcome): (r: Result<Fitness>)
    ensures r.Ok? && r.value == MinFitness <==> o.Failed?
    ensures r.Err? <==> o.Raised?
  {
    match o
    case Failed => Ok(MinFitness)
    case Scored(s) => Ok(Score(s))
    case Raised(e) => Err(e)
  }

  /** The `(fitness, program)` tuple a scored candidate offers the pool. */
  function CandidateEntry(c: Candidate): Entry
    requires c.outcome.Scored?
  {
    Entry(Score(c.outcome.score), Program(CandidateUid(c.uid), false))
  }

  /** The tuples evaluating `c` offers the pool: one when it was scored. */
  function Offered(c: Candidate): seq<Entry>
  {
    if c.outcome.Scored? then [CandidateEntry(c)] else []
  }

  /** The tuples the first `n` evaluations offered the pool, in order. */
  function OfferedBy(next: nat -> Candidate, n: nat): seq<Entry>
  {
    if n == 0 then [] else OfferedBy(next, n - 1) + Offered(next(n - 1))
  }

  /** The fitness values of the reports `wandb.log` received from the first
      `n` evaluations: one per evaluation that did not raise. */
  function Reports(next: nat -> Candidate, n: nat): seq<Fitness>
  {
    if n == 0 then []
    else
      Reports(next, n - 1) + match FitnessOf(next(n - 1).outcome) case Ok(f) => [f] case Err(_) => []
  }

  /** `best_fitness` after a run of reports: `max(fitness, best_fitness)` folded
      from MIN_FITNESS. */
  function BestOf(reports: seq<Fitness>): Fitness
  {
    if reports == [] then MinFitness
    else MaxFitness(reports[|reports| - 1], BestOf(reports[..|reports| - 1]))
  }

  /** `best_fitness` is the largest reported fitness, or MIN_FITNESS before
      any score. */
  lemma {:induction false} BestOfIsMaximum(reports: seq<Fitness>)
    ensures forall i :: 0 <= i < |reports| ==> !FitnessLt(BestOf(reports), reports[i])
    ensures BestOf(reports) == MinFitness || BestOf(reports) in reports
  {
    if reports != [] {
      var front := reports[..|reports| - 1];
      BestOfIsMaximum(front);
      forall i | 0 <= i < |reports|
        ensures !FitnessLt(BestOf(reports), reports[i])
      {
        if i < |front| {
          assert reports[i] == front[i];
        }
      }
      if BestOf(front) != MinFitness {
        assert BestOf(front) in front;
      }
    }
  }

  /** The iterations after which the loop writes a periodic summary:
      `idx % interval == 0` for idx in range(n). */
  function Multiples(n: nat, interval: nat): seq<nat>
    requires interval > 0
  {
    if n == 0 then []
    else Multiples(n - 1, interval) + if CheckpointDue(n - 1, interval) then [n - 1] else []
  }

  /** The checkpoint test with CHECKPOINT_INTERVAL a positive int. */
  predicate CheckpointDue(idx: nat, interval: nat)
    requires interval > 0
  {
    idx % interval == 0
  }

  lemma MultipleIsDue(q: nat, interval: nat)
    requires interval > 0
    ensures CheckpointDue(q * interval, interval)
  {
    assert q * interval == interval * q;
  }

  /** A checkpoint is due exactly at the multiples of the interval. */
  lemma CheckpointDueSpec(idx: nat, interval: nat)
    requires interval > 0
    ensures CheckpointDue(idx, interval) <==> exists q: nat :: idx == q * interval
  {
    if CheckpointDue(idx, interval) {
      var q := idx / interval;
      assert idx == q * interval;
    }
    if exists q: nat :: idx == q * interval {
      var q: nat :| idx == q * interval;
      MultipleIsDue(q, interval);
    }
  }

  /** The periodic checkpoints come after the iterations below `n` that are
      multiples of the interval, in increasing order; the first iteration
      always checkpoints. */
  lemma {:induction false} MultiplesSpec(n: nat, interval: nat)
    requires interval > 0
    ensures forall x: nat :: x in Multiples(n, interval) <==> x < n && CheckpointDue(x, interval)
    ensures forall i, j :: 0 <= i < j < |Multiples(n, interval)| ==> Multiples(n, interval)[i] < Multiples(n, interval)[j]
    ensures n > 0 ==> |Multiples(n, interval)| > 0 && Multiples(n, interval)[0] == 0
  {
    if n > 0 {
      MultiplesSpec(n - 1, interval);
      var m := Multiples(n - 1, interval);
      var m' := Multiples(n, interval);
      assert m' == m + if CheckpointDue(n - 1, interval) then [n - 1] else [];
      forall i, j | 0 <= i < j < |m'|
        ensures m'[i] < m'[j]
      {
        if j == |m| {
          assert m[i] in m;
        }
      }
      if n == 1 {
        assert CheckpointDue(0, interval);
      }
    }
  }

  /** How CHECKPOINT_INTERVAL is configured: the default, or the text of the
      environment variable. */
  datatype IntervalSetting = Unset | FromEnvironment(text: string)

  /** `idx % CHECKPOINT_INTERVAL` as the script computes it: `os.environ.get`
      returns a str and nothing converts it, so with the variable set to a
      non-empty value the modulo of an int by a str raises TypeError. An
      empty value is falsy, and `or 100` falls back to the int 100. */
  function CheckpointDueAsWritten(idx: nat, setting: IntervalSetting): (r: Result<bool>)
    ensures r.Err? <==> setting.FromEnvironment? && setting.text != ""
    ensures r.Err? ==> r.error == TypeError
    ensures r.Ok? ==> r.value == CheckpointDue(idx, 100)
  {
    match setting
    case Unset => Ok(CheckpointDue(idx, 100))
    case FromEnvironment(text) => if text == "" then Ok(CheckpointDue(idx, 100)) else Err(TypeError)
  }

  /** With CHECKPOINT_INTERVAL set to a non-empty value, the very first
      iteration raises instead of writing the checkpoint that `CheckpointDue`
      calls for. */
  lemma EnvironmentIntervalRaises(text: string, interval: nat)
    requires interval > 0 && text != ""
    ensures CheckpointDueAsWritten(0, FromEnvironment(text)) == Err(TypeError)
    ensures CheckpointDue(0, interval)
  {
  }

  /** Every entry with fitness MIN_FITNESS has an int uid and every scored
      one a str uid. */
  ghost predicate KindsAgree(s: seq<Entry>)
  {
    forall e :: e in s ==> (e.fitness.MinFitness? <==> e.program.uid.SeedUid?)
  }

  /** So the tuple comparisons of the pool never compare an int uid with a
      str uid: equal fitness means the same kind of uid. */
  lemma NoMixedTies(s: seq<Entry>, item: Entry, i: nat)
    requires KindsAgree(s) && i < |s| && item.fitness.Score? && item.program.uid.CandidateUid?
    requires s[i].fitness == item.fitness
    ensures s[i].program.uid.CandidateUid?
  {
    assert s[i] in s;
  }

  /** Every evicted tuple ranks at or below every tuple still in the pool. */
  ghost predicate EvictedBelow(evicted: seq<Entry>, kept: seq<Entry>)
  {
    forall a, b :: a in evicted && b in kept ==> EntryLe(a, b)
  }

  ghost predicate NonePersist(s: seq<Entry>)
  {
    forall e :: e in s ==> !e.program.persist
  }

  lemma FromOldOrItem(before: seq<Entry>, after: seq<Entry>, out: Entry, item: Entry)
    requires multiset(after) == multiset(before) - multiset{out} + multiset{item}
    ensures forall x :: x in after ==> x in before || x == item
  {
    forall x | x in after
      ensures x in before || x == item
    {
      assert x in multiset(after);
      if x != item {
        assert x in multiset(before);
      }
    }
  }

  /** `heappushpop` of a scored candidate's tuple keeps the invariants of the
      pool: the tuple it returns was the root it replaced or the tuple itself,
      and ranks at or below everything kept. */
  lemma PushPopKeeps(before: seq<Entry>, after: seq<Entry>, evicted: seq<Entry>, out: Entry, item: Entry)
    requires KindsAgree(before) && NonePersist(before) && EvictedBelow(evicted, before)
    requires item.fitness.Score? && item.program.uid.CandidateUid? && !item.program.persist
    requires || (out in before && multiset(after) == multiset(before) - multiset{out} + multiset{item})
             || (out == item && after == before)
    requires forall e :: e in after ==> EntryLe(out, e)
    ensures KindsAgree(after) && NonePersist(after) && EvictedBelow(evicted + [out], after)
    ensures multiset(after) + multiset(evicted + [out]) == multiset(before) + multiset(evicted) + multiset{item}
  {
    if out != item || after != before {
      FromOldOrItem(before, after, out, item);
      forall a, b | a in evicted + [out] && b in after
        ensures EntryLe(a, b)
      {
        if a != out && b == item {
          EntryLeTransitive(a, out, item);
        }
      }
    }
  }

  /** What `heappushpop(best_programs, item)` does to the list `before`,
      returning `out`: when the root is strictly below `item`, the root
      leaves and `item` comes in; otherwise the list is left alone and `item`
      comes straight back. */
  ghost predicate PushPopped(before: seq<Entry>, after: seq<Entry>, item: Entry, out: Entry)
  {
    if |before| > 0 && EntryLt(before[0], item) then
      out == before[0] && multiset(after) == multiset(before) - multiset{out} + multiset{item}
    else
      out == item && after == before
  }

  /** What evaluating `c` does to the pool's list and to the evicted tuples:
      a scored candidate goes through `heappushpop`, which evicts one tuple;
      a failed or raising one never reaches it and changes neither. */
  ghost predicate EvaluationEffect(before: seq<Entry>, after: seq<Entry>, c: Candidate,
                                   evicted: seq<Entry>, evicted': seq<Entry>)
  {
    if c.outcome.Scored? then
      && |evicted'| == |evicted| + 1 && evicted'[..|evicted|] == evicted
      && PushPopped(before, after, CandidateEntry(c), evicted'[|evicted|])
    else
      after == before && evicted' == evicted
  }

  /** The two cases `heappushpop` promises, read off the list before it. */
  lemma PushPopEffect(before: seq<Entry>, after: seq<Entry>, c: Candidate, evicted: seq<Entry>, out: Entry,
                      rootBelow: bool)
    requires c.outcome.Scored?
    requires rootBelow == (|before| > 0 && EntryLt(before[0], CandidateEntry(c)))
    requires rootBelow ==>
               out == before[0]
               && multiset(after) == multiset(before) - multiset{out} + multiset{CandidateEntry(c)}
    requires !rootBelow ==> out == CandidateEntry(c) && after == before
    ensures EvaluationEffect(before, after, c, evicted, evicted + [out])
  {
    assert (evicted + [out])[..|evicted|] == evicted;
  }

  /** `evaluate_candidate`: a scored candidate raises `best_fitness` and goes
      through `heappushpop`; the evicted tuple is recorded in `evicted'`. The
      pool keeps its invariants, and the tuples in the pool plus the evicted
      ones are the ones before plus the one offered. */
  method EvaluateCandidate(pool: Pool, c: Candidate, best: Fitness, ghost evicted: seq<Entry>)
    returns (fitness: Result<Fitness>, best': Fitness, ghost evicted': seq<Entry>)
    requires pool.Valid() && KindsAgree(pool.Contents()) && NonePersist(pool.Contents())
    requires EvictedBelow(evicted, pool.Contents())
    modifies pool.entries
    ensures pool.Valid() && KindsAgree(pool.Contents()) && NonePersist(pool.Contents())
    ensures EvictedBelow(evicted', pool.Contents())
    ensures multiset(pool.Contents()) + multiset(evicted')
         == multiset(old(pool.Contents())) + multiset(evicted) + multiset(Offered(c))
    ensures |evicted'| == |evicted| + |Offered(c)|
    ensures EvaluationEffect(old(pool.Contents()), pool.Contents(), c, evicted, evicted')
    ensures fitness == FitnessOf(c.outcome)
    ensures fitness.Ok? ==> best' == MaxFitness(fitness.value, best)
    ensures fitness.Err? ==> best' == best
  {
    fitness := FitnessOf(c.outcome);
    best' := best;
    evicted' := evicted;
    match c.outcome {
      case Scored(score) =>
        best' := MaxFitness(Score(score), best);
        var item := CandidateEntry(c);
        assert Offered(c) == [item];
        ghost var before := pool.Contents();
        ghost var rootBelow := |before| > 0 && EntryLt(before[0], item);
        assert rootBelow == (pool.size > 0 && EntryLt(pool.entries[0], item));
        assert rootBelow ==> before[0] == pool.entries[0];
        hide *;
        var out := pool.PushPop(item);
        PushPopKeeps(before, pool.Contents(), evicted, out, item);
        PushPopEffect(before, pool.Contents(), c, evicted, out, rootBelow);
        evicted' := evicted + [out];
      case Failed =>
        best' := MaxFitness(MinFitness, best);
        assert EvaluationEffect(old(pool.Contents()), pool.Contents(), c, evicted, evicted');
      case Raised(_) =>
    }
  }

  /** `checkpoint`'s marking keeps the invariants of the pool, leaves the
      summary alone, is undone by clearing `persist`, and sets `persist`
      exactly on the scored entries of the final checkpoint. */
  lemma MarkKeeps(kept: seq<Entry>, marked: seq<Entry>, evicted: seq<Entry>, final: bool)
    requires KindsAgree(kept) && NonePersist(kept) && EvictedBelow(evicted, kept)
    requires |marked| == |kept| && forall i :: 0 <= i < |kept| ==> marked[i] == Mark(kept[i], final)
    ensures KindsAgree(marked) && EvictedBelow(evicted, marked)
    ensures Unmarked(marked) == kept && Summary(marked) == Summary(kept)
    ensures forall i :: 0 <= i < |marked| ==> (marked[i].program.persist <==> final && marked[i].fitness.Score?)
  {
    forall i | 0 <= i < |kept|
      ensures Unmarked(marked)[i] == kept[i]
      ensures marked[i].program.persist <==> final && marked[i].fitness.Score?
    {
      assert kept[i] in kept;
    }
    SummaryIgnoresPersist(kept, marked);
    forall e | e in marked
      ensures e.fitness.MinFitness? <==> e.program.uid.SeedUid?
    {
      var i :| 0 <= i < |marked| && marked[i] == e;
      assert kept[i] in kept;
    }
    forall a, b | a in evicted && b in marked
      ensures EntryLe(a, b)
    {
      var i :| 0 <= i < |marked| && marked[i] == b;
      assert kept[i] in kept;
      SameRankCompares(kept[i], b, a);
    }
  }

  /** `checkpoint(final)`: evaluate the optimizer's recommendation like any
      candidate; if that did not raise, write the summary of the pool and,
      for the final one, mark every scored program to persist. */
  method Checkpoint(pool: Pool, final: bool, rec: Candidate, best: Fitness, ghost evicted: seq<Entry>)
    returns (summary: Option<map<Uid, real>>, fitness: Result<Fitness>, best': Fitness, ghost evicted': seq<Entry>)
    requires pool.Valid() && KindsAgree(pool.Contents()) && NonePersist(pool.Contents())
    requires EvictedBelow(evicted, pool.Contents())
    modifies pool.entries
    ensures pool.Valid() && KindsAgree(pool.Contents()) && EvictedBelow(evicted', pool.Contents())
    ensures multiset(Unmarked(pool.Contents())) + multiset(evicted')
         == multiset(old(pool.Contents())) + multiset(evicted) + multiset(Offered(rec))
    ensures |evicted'| == |evicted| + |Offered(rec)|
    ensures EvaluationEffect(old(pool.Contents()), Unmarked(pool.Contents()), rec, evicted, evicted')
    ensures fitness.Err? ==> pool.Contents() == old(pool.Contents())
    ensures fitness == FitnessOf(rec.outcome)
    ensures fitness.Ok? ==> best' == MaxFitness(fitness.value, best)
    ensures fitness.Err? ==> best' == best
    ensures summary.None? <==> fitness.Err?
    ensures summary.Some? ==> summary.value == Summary(pool.Contents())
    ensures forall i :: 0 <= i < |pool.Contents()| ==>
              (pool.Contents()[i].program.persist <==> final && summary.Some? && pool.Contents()[i].fitness.Score?)
  {
    fitness, best', evicted' := EvaluateCandidate(pool, rec, best, evicted);
    ghost var kept := pool.Contents();
    if fitness.Err? {
      summary := None;
      MarkKeeps(kept, kept, evicted', false);
    } else {
      var m := pool.Summarize(final);
      summary := Some(m);
      MarkKeeps(kept, pool.Contents(), evicted', final);
    }
  }

  /** The loop indices of the periodic checkpoints, in order. */
  function PeriodicIdxs(cs: seq<Snapshot>): seq<nat>
  {
    if cs == [] then [] else PeriodicIdxs(cs[..|cs| - 1]) + [cs[|cs| - 1].idx]
  }

  /** The periodic checkpoints after `tells` told iterations: one for every
      due iteration, in order, and, while nothing has raised, each with its
      summary. */
  ghost predicate PeriodicLog(cs: seq<Snapshot>, tells: nat, interval: nat, allOk: bool)
    requires interval > 0
  {
    && PeriodicIdxs(cs) == Multiples(tells, interval)
    && (allOk ==> forall k :: 0 <= k < |cs| ==> cs[k].summary.Some?)
  }

  /** Telling iteration `tells` appends its snapshot exactly when it is due. */
  lemma LogStep(cs: seq<Snapshot>, tells: nat, interval: nat, snapshot: Option<Snapshot>, allOk: bool)
    requires interval > 0 && PeriodicLog(cs, tells, interval, true)
    requires snapshot.Some? <==> CheckpointDue(tells, interval)
    requires snapshot.Some? ==> snapshot.value.idx == tells
    requires snapshot.Some? && allOk ==> snapshot.value.summary.Some?
    ensures PeriodicLog(cs + if snapshot.Some? then [snapshot.value] else [], tells + 1, interval, allOk)
  {
    var cs' := cs + if snapshot.Some? then [snapshot.value] else [];
    assert Multiples(tells + 1, interval) == Multiples(tells, interval) + if CheckpointDue(tells, interval) then [tells] else [];
    if snapshot.Some? {
      assert cs'[..|cs'| - 1] == cs;
      assert PeriodicIdxs(cs') == PeriodicIdxs(cs) + [tells];
    } else {
      assert cs' == cs;
    }
    if allOk {
      forall k | 0 <= k < |cs'|
        ensures cs'[k].summary.Some?
      {
        if k < |cs| {
          assert cs'[k] == cs[k];
        }
      }
    }
  }

  /** One more evaluation adds its report, if any, and `best_fitness`
      follows the reports. */
  lemma Step(next: nat -> Candidate, n: nat, reports: seq<Fitness>, best: Fitness, fitness: Result<Fitness>, best': Fitness)
    requires reports == Reports(next, n) && best == BestOf(reports)
    requires fitness == FitnessOf(next(n).outcome)
    requires fitness.Ok? ==> best' == MaxFitness(fitness.value, best)
    requires fitness.Err? ==> best' == best
    ensures Reports(next, n + 1) == if fitness.Ok? then reports + [fitness.value] else reports
    ensures best' == BestOf(Reports(next, n + 1))
  {
    if fitness.Ok? {
      assert (reports + [fitness.value])[..|reports|] == reports;
    }
  }

  /** None of the first `n` evaluations raised. */
  predicate AllOk(next: nat -> Candidate, n: nat)
  {
    n == 0 || (AllOk(next, n - 1) && FitnessOf(next(n - 1).outcome).Ok?)
  }

  lemma {:induction false} AllOkMeans(next: nat -> Candidate, n: nat)
    ensures AllOk(next, n) <==> forall e :: 0 <= e < n ==> FitnessOf(next(e).outcome).Ok?
  {
    if n > 0 {
      AllOkMeans(next, n - 1);
    }
  }

  /** The pool's invariants after `n` evaluations: a heap, int uids exactly on
      the sentinels, nothing marked to persist yet, every evicted tuple at or
      below every kept one, and the kept and evicted tuples together are the
      ones `start` held plus every tuple offered so far. */
  ghost predicate Accounted(kept: seq<Entry>, evicted: seq<Entry>, start: seq<Entry>, offered: seq<Entry>)
  {
    && KindsAgree(kept) && NonePersist(kept)
    && EvictedBelow(evicted, kept)
    && Balanced(kept, evicted, start, offered)
  }

  /** How often `e` occurs in `s`. */
  ghost function Occurrences(s: seq<Entry>, e: Entry): nat
  {
    if s == [] then 0 else Occurrences(s[..|s| - 1], e) + if s[|s| - 1] == e then 1 else 0
  }

  lemma {:induction false} OccurrencesCount(s: seq<Entry>, e: Entry)
    ensures Occurrences(s, e) == multiset(s)[e]
  {
    if s != [] {
      OccurrencesCount(s[..|s| - 1], e);
      assert s == s[..|s| - 1] + [s[|s| - 1]];
    }
  }

  /** The books of the run: every tuple occurs as often among the kept and
      evicted ones as among the seeded and offered ones. This is the multiset
      equation of `BalancedMeans` stated tuple by tuple: in the invariants of
      the loop, the count is unfolded only where `Conserves` asks for it, while
      a sum of four multisets would be expanded at every pass. */
  ghost predicate Balanced(kept: seq<Entry>, evicted: seq<Entry>, start: seq<Entry>, offered: seq<Entry>)
  {
    forall e :: Occurrences(kept, e) + Occurrences(evicted, e) == Occurrences(start, e) + Occurrences(offered, e)
  }

  lemma BalancedMeans(kept: seq<Entry>, evicted: seq<Entry>, start: seq<Entry>, offered: seq<Entry>)
    ensures Balanced(kept, evicted, start, offered)
        <==> multiset(kept) + multiset(evicted) == multiset(start) + multiset(offered)
  {
    forall e
      ensures Occurrences(kept, e) + Occurrences(evicted, e) == Occurrences(start, e) + Occurrences(offered, e)
          <==> (multiset(kept) + multiset(evicted))[e] == (multiset(start) + multiset(offered))[e]
    {
      OccurrencesCount(kept, e);
      OccurrencesCount(evicted, e);
      OccurrencesCount(start, e);
      OccurrencesCount(offered, e);
    }
  }

  /** One evaluation keeps the books: the tuples it added to those kept and
      evicted are the ones it offered. */
  lemma Conserves(kept: seq<Entry>, evicted: seq<Entry>, start: seq<Entry>, offered: seq<Entry>,
                  kept': seq<Entry>, evicted': seq<Entry>, added: seq<Entry>)
    requires Balanced(kept, evicted, start, offered)
    requires multiset(kept') + multiset(evicted') == multiset(kept) + multiset(evicted) + multiset(added)
    ensures Balanced(kept', evicted', start, offered + added)
  {
    BalancedMeans(kept, evicted, start, offered);
    BalancedMeans(kept', evicted', start, offered + added);
  }

  /** `candidate = optimizer.ask()` and `evaluate_candidate(candidate)` as the
      `n`-th evaluation of the run. */
  method Ask(pool: Pool, next: nat -> Candidate, n: nat, best: Fitness, reports: seq<Fitness>,
             ghost evicted: seq<Entry>, ghost start: seq<Entry>)
    returns (fitness: Result<Fitness>, best': Fitness, reports': seq<Fitness>, ghost evicted': seq<Entry>)
    requires pool.Valid() && Accounted(pool.Contents(), evicted, start, OfferedBy(next, n))
    requires reports == Reports(next, n) && best == BestOf(reports)
    modifies pool.entries
    ensures pool.Valid() && Accounted(pool.Contents(), evicted', start, OfferedBy(next, n + 1))
    ensures EvaluationEffect(old(pool.Contents()), pool.Contents(), next(n), evicted, evicted')
    ensures reports' == Reports(next, n + 1) && best' == BestOf(reports')
    ensures fitness == FitnessOf(next(n).outcome)
  {
    ghost var kept := pool.Contents();
    fitness, best', evicted' := EvaluateCandidate(pool, next(n), best, evicted);
    Step(next, n, reports, best, fitness, best');
    Conserves(kept, evicted, start, OfferedBy(next, n), pool.Contents(), evicted', Offered(next(n)));
    reports' := Reports(next, n + 1);
  }

  /** `checkpoint(final=False)` inside the loop as the `n`-th evaluation of the
      run: no entry gets marked, so the pool is left as the recommendation's
      evaluation leaves it. */
  method PeriodicCheckpoint(pool: Pool, next: nat -> Candidate, n: nat, best: Fitness, reports: seq<Fitness>,
                            ghost evicted: seq<Entry>, ghost start: seq<Entry>)
    returns (summary: Option<map<Uid, real>>, fitness: Result<Fitness>, best': Fitness, reports': seq<Fitness>,
             ghost evicted': seq<Entry>)
    requires pool.Valid() && Accounted(pool.Contents(), evicted, start, OfferedBy(next, n))
    requires reports == Reports(next, n) && best == BestOf(reports)
    modifies pool.entries
    ensures pool.Valid() && Accounted(pool.Contents(), evicted', start, OfferedBy(next, n + 1))
    ensures EvaluationEffect(old(pool.Contents()), pool.Contents(), next(n), evicted, evicted')
    ensures reports' == Reports(next, n + 1) && best' == BestOf(reports')
    ensures fitness == FitnessOf(next(n).outcome)
    ensures summary.None? <==> fitness.Err?
    ensures summary.Some? ==> summary.value == Summary(pool.Contents())
  {
    ghost var kept := pool.Contents();
    summary, fitness, best', evicted' := Checkpoint(pool, false, next(n), best, evicted);
    assert NonePersist(pool.Contents()) by {
      forall e | e in pool.Contents()
        ensures !e.program.persist
      {
        var i :| 0 <= i < |pool.Contents()| && pool.Contents()[i] == e;
      }
    }
    MarkKeeps(pool.Contents(), pool.Contents(), evicted', false);
    Step(next, n, reports, best, fitness, best');
    Conserves(kept, evicted, start, OfferedBy(next, n), pool.Contents(), evicted', Offered(next(n)));
    reports' := Reports(next, n + 1);
  }

  /** What `optimizer.tell` and the periodic checkpoint of iteration `idx`
      do: when no checkpoint is due nothing is written and the list is left
      alone; when one is due, the recommendation `c` is evaluated and the one
      snapshot written holds the summary of the list as the evaluation left
      it. */
  ghost predicate TellEffect(before: seq<Entry>, after: seq<Entry>, c: Candidate, idx: nat, due: bool,
                             evicted: seq<Entry>, evicted': seq<Entry>, written: seq<Snapshot>)
  {
    if due then
      && |written| == 1 && written[0].idx == idx
      && EvaluationEffect(before, after, c, evicted, evicted')
      && (written[0].summary.None? <==> FitnessOf(c.outcome).Err?)
      && (written[0].summary.Some? ==> written[0].summary.value == Summary(after))
    else
      written == [] && after == before && evicted' == evicted
  }

  /** The snapshot of a due iteration, or none, makes up `TellEffect`. */
  lemma TellEffectOf(before: seq<Entry>, after: seq<Entry>, c: Candidate, idx: nat, due: bool,
                     evicted: seq<Entry>, evicted': seq<Entry>, summary: Option<map<Uid, real>>)
    requires due ==>
               && EvaluationEffect(before, after, c, evicted, evicted')
               && (summary.None? <==> FitnessOf(c.outcome).Err?)
               && (summary.Some? ==> summary.value == Summary(after))
    requires !due ==> after == before && evicted' == evicted
    ensures TellEffect(before, after, c, idx, due, evicted, evicted', if due then [Snapshot(idx, summary)] else [])
  {
  }

  /** The rest of a pass of the `for` loop once the asked candidate did not
      raise: `optimizer.tell`, then `checkpoint(final=False)` when `idx` calls
      for one. `n` evaluations came before, none of which raised; `written`
      is the periodic snapshot this pass adds, if any. */
  method Tell(pool: Pool, interval: nat, next: nat -> Candidate, idx: nat, n: nat, best: Fitness,
              reports: seq<Fitness>, periodic: seq<Snapshot>, ghost evicted: seq<Entry>, ghost start: seq<Entry>)
    returns (n': nat, best': Fitness, reports': seq<Fitness>, written: seq<Snapshot>, raised: Option<Exception>,
             ghost evicted': seq<Entry>)
    requires interval > 0
    requires pool.Valid() && Accounted(pool.Contents(), evicted, start, OfferedBy(next, n))
    requires reports == Reports(next, n) && best == BestOf(reports)
    requires AllOk(next, n)
    requires PeriodicLog(periodic, idx, interval, true)
    modifies pool.entries
    ensures pool.Valid() && Accounted(pool.Contents(), evicted', start, OfferedBy(next, n'))
    ensures reports' == Reports(next, n') && best' == BestOf(reports')
    ensures raised.None? <==> AllOk(next, n')
    ensures n' == n + |written|
    ensures PeriodicLog(periodic + written, idx + 1, interval, raised.None?)
    ensures TellEffect(old(pool.Contents()), pool.Contents(), next(n), idx, CheckpointDue(idx, interval),
                       evicted, evicted', written)
    ensures raised == if CheckpointDue(idx, interval) && FitnessOf(next(n).outcome).Err?
                      then Some(FitnessOf(next(n).outcome).error) else None
  {
    ghost var before := pool.Contents();
    hide *;
    n', best', reports', evicted' := n, best, reports, evicted;
    raised := None;
    var snapshot := None;
    var summary: Option<map<Uid, real>> := None;
    if CheckpointDue(idx, interval) {
      var fitness;
      summary, fitness, best', reports', evicted' := PeriodicCheckpoint(pool, next, n, best, reports, evicted, start);
      n' := n + 1;
      AllOkStep(next, n);
      if fitness.Err? {
        raised := Some(fitness.error);
      }
      snapshot := Some(Snapshot(idx, summary));
    }
    LogStep(periodic, idx, interval, snapshot, raised.None?);
    written := if snapshot.Some? then [snapshot.value] else [];
    TellEffectOf(before, pool.Contents(), next(n), idx, CheckpointDue(idx, interval),
                 evicted, evicted', summary);
  }

  /** `checkpoint(final=True)` in the `finally` clause as the `n`-th evaluation
      of the run: when the recommendation's evaluation does not raise, every
      scored program is marked to persist. */
  method FinalCheckpoint(pool: Pool, next: nat -> Candidate, n: nat, best: Fitness, reports: seq<Fitness>,
                         ghost evicted: seq<Entry>, ghost start: seq<Entry>)
    returns (summary: Option<map<Uid, real>>, fitness: Result<Fitness>, best': Fitness, reports': seq<Fitness>,
             ghost evicted': seq<Entry>)
    requires pool.Valid() && Accounted(pool.Contents(), evicted, start, OfferedBy(next, n))
    requires reports == Reports(next, n) && best == BestOf(reports)
    modifies pool.entries
    ensures pool.Valid() && KindsAgree(pool.Contents()) && EvictedBelow(evicted', pool.Contents())
    ensures Balanced(Unmarked(pool.Contents()), evicted', start, OfferedBy(next, n + 1))
    ensures EvaluationEffect(old(pool.Contents()), Unmarked(pool.Contents()), next(n), evicted, evicted')
    ensures reports' == Reports(next, n + 1) && best' == BestOf(reports')
    ensures fitness == FitnessOf(next(n).outcome)
    ensures summary.None? <==> fitness.Err?
    ensures summary.Some? ==> summary.value == Summary(pool.Contents())
    ensures forall i :: 0 <= i < |pool.Contents()| ==>
              (pool.Contents()[i].program.persist <==> summary.Some? && pool.Contents()[i].fitness.Score?)
  {
    ghost var kept := pool.Contents();
    summary, fitness, best', evicted' := Checkpoint(pool, true, next(n), best, evicted);
    Step(next, n, reports, best, fitness, best');
    Conserves(kept, evicted, start, OfferedBy(next, n), Unmarked(pool.Contents()), evicted', Offered(next(n)));
    reports' := Reports(next, n + 1);
  }

  /** The run of evaluations that did not raise grows by one exactly when
      the next evaluation does not raise either. */
  lemma AllOkStep(next: nat -> Candidate, n: nat)
    ensures AllOk(next, n + 1) <==> AllOk(next, n) && FitnessOf(next(n).outcome).Ok?
  {
  }

  /** Once something raised, the log keeps its order without the promise of summaries. */
  lemma LogForgets(cs: seq<Snapshot>, tells: nat, interval: nat)
    requires interval > 0 && PeriodicLog(cs, tells, interval, true)
    ensures PeriodicLog(cs, tells, interval, false)
  {
  }

  /** One pass of the `for` loop with index `tells`: `optimizer.ask()` and
      `evaluate_candidate`, then, unless that raised, `optimizer.tell` and the
      periodic checkpoint when one is due. */
  method Pass(pool: Pool, interval: nat, next: nat -> Candidate, tells: nat, evaluations: nat, best: Fitness,
              reports: seq<Fitness>, periodic: seq<Snapshot>, ghost evicted: seq<Entry>, ghost start: seq<Entry>)
    returns (evaluations': nat, best': Fitness, reports': seq<Fitness>, periodic': seq<Snapshot>, tells': nat,
             raised: Option<Exception>, ghost evicted': seq<Entry>, ghost asked: seq<Entry>, ghost evictedByAsk: seq<Entry>)
    requires interval > 0
    requires pool.Valid() && Accounted(pool.Contents(), evicted, start, OfferedBy(next, evaluations))
    requires reports == Reports(next, evaluations) && best == BestOf(reports)
    requires AllOk(next, evaluations) && evaluations == tells + |periodic|
    requires PeriodicLog(periodic, tells, interval, true)
    modifies pool.entries
    ensures pool.Valid() && Accounted(pool.Contents(), evicted', start, OfferedBy(next, evaluations'))
    ensures reports' == Reports(next, evaluations') && best' == BestOf(reports')
    ensures raised.None? <==> AllOk(next, evaluations')
    ensures tells <= tells' <= tells + 1 && (raised.None? ==> tells' == tells + 1)
    ensures raised.None? ==> evaluations' == tells' + |periodic'|
    ensures PeriodicLog(periodic', tells', interval, raised.None?)
    ensures EvaluationEffect(old(pool.Contents()), asked, next(evaluations), evicted, evictedByAsk)
    ensures tells' == tells <==> FitnessOf(next(evaluations).outcome).Err?
    ensures FitnessOf(next(evaluations).outcome).Err? ==>
              && raised == Some(FitnessOf(next(evaluations).outcome).error)
              && evaluations' == evaluations + 1 && periodic' == periodic
              && pool.Contents() == asked && evicted' == evictedByAsk
    ensures FitnessOf(next(evaluations).outcome).Ok? ==>
              && |periodic| <= |periodic'| && periodic'[..|periodic|] == periodic
              && evaluations' == evaluations + 1 + |periodic'| - |periodic|
              && TellEffect(asked, pool.Contents(), next(evaluations + 1), tells, CheckpointDue(tells, interval),
                            evictedByAsk, evicted', periodic'[|periodic|..])
  {
    hide *;
    var fitness;
    fitness, best', reports', evicted' := Ask(pool, next, evaluations, best, reports, evicted, start);
    asked, evictedByAsk := pool.Contents(), evicted';
    evaluations', periodic', tells', raised := evaluations + 1, periodic, tells, None;
    AllOkStep(next, evaluations);
    if fitness.Err? {
      raised := Some(fitness.error);
      LogForgets(periodic, tells, interval);
    } else {
      var written;
      evaluations', best', reports', written, raised, evicted' :=
        Tell(pool, interval, next, tells, evaluations', best', reports', periodic, evicted', start);
      periodic', tells' := periodic + written, tells + 1;
      assert periodic'[..|periodic|] == periodic && periodic'[|periodic|..] == written;
    }
  }

  /** The `for` loop of the main block inside its `try`: BUDGET passes, cut
      short by the first exception. It starts with the sentinels in the pool. */
  method MainLoop(pool: Pool, budget: nat, interval: nat, next: nat -> Candidate, ghost start: seq<Entry>)
    returns (best: Fitness, reports: seq<Fitness>, periodic: seq<Snapshot>,
             tells: nat, evaluations: nat, raised: Option<Exception>, ghost evicted: seq<Entry>)
    requires interval > 0
    requires pool.Valid() && Accounted(pool.Contents(), [], start, [])
    modifies pool.entries
    ensures pool.Valid() && Accounted(pool.Contents(), evicted, start, OfferedBy(next, evaluations))
    ensures reports == Reports(next, evaluations) && best == BestOf(reports)
    ensures raised.None? <==> AllOk(next, evaluations)
    ensures tells <= budget && (raised.None? ==> tells == budget)
    ensures raised.None? ==> evaluations == tells + |periodic|
    ensures PeriodicLog(periodic, tells, interval, raised.None?)
  {
    best, reports, periodic, tells, evaluations, raised, evicted := MinFitness, [], [], 0, 0, None, [];
    while tells < budget && raised.None?
      invariant pool.Valid() && Accounted(pool.Contents(), evicted, start, OfferedBy(next, evaluations))
      invariant reports == Reports(next, evaluations) && best == BestOf(reports)
      invariant raised.None? <==> AllOk(next, evaluations)
      invariant tells <= budget
      invariant raised.None? ==> evaluations == tells + |periodic|
      invariant PeriodicLog(periodic, tells, interval, raised.None?)
      decreases budget - tells, if raised.None? then 1 else 0
    {
      ghost var asked, evictedByAsk;
      evaluations, best, reports, periodic, tells, raised, evicted, asked, evictedByAsk :=
        Pass(pool, interval, next, tells, evaluations, best, reports, periodic, evicted, start);
    }
  }

  /** Whatever order the sentinels end up in, they are MIN_FITNESS entries
      with int uids, none marked to persist. */
  lemma SeedsAgree(s: seq<Entry>, topK: nat)
    requires multiset(s) == multiset(Seeds(topK))
    ensures KindsAgree(s) && NonePersist(s)
  {
    forall e | e in s
      ensures (e.fitness.MinFitness? <==> e.program.uid.SeedUid?) && !e.program.persist
    {
      assert e in multiset(Seeds(topK));
    }
  }

  /** The main block: TOP_K + 1 sentinels, then BUDGET iterations of ask,
      evaluate, tell and the periodic checkpoint, and in `finally` the final
      checkpoint, whose summary is `final`. The e-th evaluation of the run,
      asked or recommended, is `next(e)`; `raised` is the exception the script
      ends with, if any. The ghost `evicted` lists the tuples `heappushpop`
      returned. */
  method Run(topK: nat, budget: nat, interval: nat, next: nat -> Candidate)
    returns (pool: Pool, best: Fitness, reports: seq<Fitness>, periodic: seq<Snapshot>,
             final: Option<map<Uid, real>>, tells: nat, evaluations: nat, raised: Option<Exception>,
             ghost evicted: seq<Entry>)
    requires interval > 0
    ensures fresh(pool) && pool.Valid() && pool.size == pool.entries.Length == topK + 1
    ensures reports == Reports(next, evaluations) && best == BestOf(reports)
    ensures raised.None? <==> AllOk(next, evaluations)
    ensures tells <= budget && (raised.None? ==> tells == budget)
    ensures raised.None? ==> evaluations == tells + |periodic| + 1
    ensures PeriodicLog(periodic, tells, interval, raised.None?)
    ensures evaluations > 0 && (final.None? <==> FitnessOf(next(evaluations - 1).outcome).Err?)
    ensures final.Some? ==> final.value == Summary(pool.Contents())
    ensures forall i :: 0 <= i < |pool.Contents()| ==>
              (pool.Contents()[i].program.persist <==> final.Some? && pool.Contents()[i].fitness.Score?)
    ensures KindsAgree(pool.Contents()) && EvictedBelow(evicted, pool.Contents())
    ensures multiset(Unmarked(pool.Contents())) + multiset(evicted)
         == multiset(Seeds(topK)) + multiset(OfferedBy(next, evaluations))
  {
    hide *;
    pool := new Pool.Seeded(topK);
    ghost var start := pool.Contents();
    SeedsAgree(pool.Contents(), topK);
    BalancedMeans(start, [], start, []);
    best, reports, periodic, tells, evaluations, raised, evicted := MainLoop(pool, budget, interval, next, start);
    var fitness;
    final, fitness, best, reports, evicted := FinalCheckpoint(pool, next, evaluations, best, reports, evicted, start);
    AllOkStep(next, evaluations);
    if fitness.Err? && raised.None? {
      LogForgets(periodic, tells, interval);
    }
    evaluations := evaluations + 1;
    if fitness.Err? {
      raised := Some(fitness.error);
    }
    BalancedMeans(Unmarked(pool.Contents()), evicted, start, OfferedBy(next, evaluations));
  }
}
