/** Values shared by the evaluation pipeline, the elite pool and the search loop
    of the latent-space program search, and the orders Python uses on them. */
module Types {

  /** The Python exceptions the core raises or catches. */
  datatype Exception = AssertionError | ZeroDivisionError | ValueError | TypeError

  datatype Result<T> = Ok(value: T) | Err(error: Exception)

  datatype Option<T> = None | Some(value: T)

  /** A fitness: the sentinel MIN_FITNESS (the float -inf) or a score. */
  datatype Fitness = MinFitness | Score(value: real)

  /** Python's `<` on fitness values: -inf is below every score. */
  predicate FitnessLt(a: Fitness, b: Fitness)
  {
    b.Score? && (a.MinFitness? || a.value < b.value)
  }

  /** Python's `max(a, b)`: `a` unless `b` is strictly greater. */
  function MaxFitness(a: Fitness, b: Fitness): (m: Fitness)
    ensures m == a || m == b
    ensures !FitnessLt(m, a) && !FitnessLt(m, b)
  {
    if FitnessLt(a, b) then b else a
  }

  /** The sentinel is strictly below every score and never wins a comparison. */
  lemma MinFitnessIsLeast(f: Fitness)
    ensures !FitnessLt(f, MinFitness)
    ensures f.Score? <==> FitnessLt(MinFitness, f)
  {
  }

  /** Python's `<` on str: code point by code point, a proper prefix first. */
  predicate StrLt(a: string, b: string)
    decreases |a|
  {
    |b| > 0 && (|a| == 0 || a[0] < b[0] || (a[0] == b[0] && StrLt(a[1..], b[1..])))
  }

  lemma {:induction false} StrLtIrreflexive(a: string)
    ensures !StrLt(a, a)
    decreases |a|
  {
    if |a| > 0 {
      StrLtIrreflexive(a[1..]);
    }
  }

  lemma {:induction false} StrLtTransitive(a: string, b: string, c: string)
    requires StrLt(a, b) && StrLt(b, c)
    ensures StrLt(a, c)
    decreases |a|
  {
    if |a| > 0 && a[0] == b[0] && b[0] == c[0] {
      StrLtTransitive(a[1..], b[1..], c[1..]);
    }
  }

  /** Python's string order is total: two strings are equal or one is below the other. */
  lemma {:induction false} StrLtTotal(a: string, b: string)
    ensures a == b || StrLt(a, b) || StrLt(b, a)
    decreases |a|
  {
    if |a| > 0 && |b| > 0 && a[0] == b[0] {
      StrLtTotal(a[1..], b[1..]);
      if a[1..] == b[1..] {
        assert a == [a[0]] + a[1..] && b == [b[0]] + b[1..];
      }
    }
  }

  /** One test case: the lines fed to the program and the lines it must print. */
  datatype TestCase = TestCase(input: seq<string>, output: seq<string>)

  /** A program's uid: the int `i` of a seeded sentinel program, or the
      optimizer's string uid of a candidate. */
  datatype Uid = SeedUid(index: nat) | CandidateUid(name: string)

  /** `Program.__lt__`: ints by value, strings as Python compares them. Python
      raises TypeError when an int uid meets a str uid; the pool never asks
      that question (see SearchLoop.KindsAgree), and the model puts seeds first. */
  predicate UidLt(a: Uid, b: Uid)
  {
    if a.SeedUid? then b.CandidateUid? || a.index < b.index
    else b.CandidateUid? && StrLt(a.name, b.name)
  }

  /** A program as the pool sees it: its uid and whether its source survives the run. */
  datatype Program = Program(uid: Uid, persist: bool)

  /** One `(fitness, program)` tuple of the pool. */
  datatype Entry = Entry(fitness: Fitness, program: Program)

  /** Python's `<` on `(fitness, program)` tuples: by fitness, ties by uid. */
  predicate EntryLt(a: Entry, b: Entry)
  {
    FitnessLt(a.fitness, b.fitness)
    || (a.fitness == b.fitness && UidLt(a.program.uid, b.program.uid))
  }

  predicate EntryLe(a: Entry, b: Entry)
  {
    !EntryLt(b, a)
  }

  /** Two entries the tuple order cannot tell apart. */
  predicate SameRank(a: Entry, b: Entry)
  {
    a.fitness == b.fitness && a.program.uid == b.program.uid
  }

  lemma EntryLtIrreflexive(a: Entry)
    ensures !EntryLt(a, a)
  {
    match a.program.uid
    case SeedUid(_) =>
    case CandidateUid(s) => StrLtIrreflexive(s);
  }

  lemma EntryLtTransitive(a: Entry, b: Entry, c: Entry)
    requires EntryLt(a, b) && EntryLt(b, c)
    ensures EntryLt(a, c)
  {
    var s, t, u := a.program.uid, b.program.uid, c.program.uid;
    if a.fitness == b.fitness == c.fitness && s.CandidateUid? && t.CandidateUid? && u.CandidateUid? {
      StrLtTransitive(s.name, t.name, u.name);
    }
  }

  /** Trichotomy: one entry is below the other, or they rank the same. */
  lemma EntryTrichotomy(a: Entry, b: Entry)
    ensures EntryLt(a, b) || EntryLt(b, a) || SameRank(a, b)
  {
    var s, t := a.program.uid, b.program.uid;
    if s.CandidateUid? && t.CandidateUid? {
      StrLtTotal(s.name, t.name);
    }
  }

  lemma EntryLtAsymmetric(a: Entry, b: Entry)
    requires EntryLt(a, b)
    ensures !EntryLt(b, a)
  {
    if EntryLt(b, a) {
      EntryLtTransitive(a, b, a);
      EntryLtIrreflexive(a);
    }
  }

  /** `<=` on tuples is a total preorder: reflexive, transitive and total. */
  lemma EntryLeReflexive(a: Entry)
    ensures EntryLe(a, a)
  {
    EntryLtIrreflexive(a);
  }

  lemma EntryLeTransitive(a: Entry, b: Entry, c: Entry)
    requires EntryLe(a, b) && EntryLe(b, c)
    ensures EntryLe(a, c)
  {
    if EntryLt(c, a) {
      EntryTrichotomy(a, b);
      if EntryLt(a, b) {
        EntryLtTransitive(c, a, b);
      }
    }
  }

  lemma EntryLeTotal(a: Entry, b: Entry)
    ensures EntryLe(a, b) || EntryLe(b, a)
  {
    if EntryLt(a, b) {
      EntryLtAsymmetric(a, b);
    }
  }

  lemma EntryLtLe(a: Entry, b: Entry)
    requires EntryLt(a, b)
    ensures EntryLe(a, b)
  {
    EntryLtAsymmetric(a, b);
  }

  /** Entries of the same rank compare alike against everything. */
  lemma SameRankCompares(a: Entry, a': Entry, b: Entry)
    requires SameRank(a, a')
    ensures EntryLt(a, b) == EntryLt(a', b) && EntryLt(b, a) == EntryLt(b, a')
  {
  }
}
