/** Scoring a program's output: `correctness` for one test case and
    `test_program` over a whole sampled test set. */
module Scoring {
  import opened Types

  function Min(a: nat, b: nat): nat
  {
    if a <= b then a else b
  }

  /** The number of positions below `n` where the two line lists agree. */
  function CountEqual(expected: seq<string>, actual: seq<string>, n: nat): nat
    requires n <= |expected| && n <= |actual|
  {
    if n == 0 then 0
    else CountEqual(expected, actual, n - 1) + (if expected[n - 1] == actual[n - 1] then 1 else 0)
  }

  /** The number of equal pairs `zip(expected, actual)` yields: pairing stops
      at the shorter list. */
  function Matches(expected: seq<string>, actual: seq<string>): nat
  {
    CountEqual(expected, actual, Min(|expected|, |actual|))
  }

  /** What `correctness` returns: the matches over the number of expected
      lines, or ZeroDivisionError when nothing is expected. */
  function CorrectnessOf(expected: seq<string>, actual: seq<string>): (r: Result<real>)
    ensures r.Err? <==> |expected| == 0
    ensures r.Err? ==> r.error == ZeroDivisionError
    ensures r.Ok? ==> 0.0 <= r.value <= 1.0
  {
    if |expected| == 0 then Err(ZeroDivisionError)
    else
      CountEqualBound(expected, actual, Min(|expected|, |actual|));
      FractionInUnitInterval(Matches(expected, actual) as real, |expected| as real);
      Ok(Matches(expected, actual) as real / |expected| as real)
  }

  /** `correctness`: accumulates one point per equal pair, then divides. */
  method Correctness(expected: seq<string>, actual: seq<string>) returns (r: Result<real>)
    ensures r == CorrectnessOf(expected, actual)
  {
    var score: nat := 0;
    var n := Min(|expected|, |actual|);
    for i := 0 to n
      invariant score == CountEqual(expected, actual, i)
    {
      if expected[i] == actual[i] {
        score := score + 1;
      }
    }
    if |expected| == 0 {
      r := Err(ZeroDivisionError);
    } else {
      r := Ok(score as real / |expected| as real);
    }
  }

  lemma {:induction false} CountEqualBound(expected: seq<string>, actual: seq<string>, n: nat)
    requires n <= |expected| && n <= |actual|
    ensures CountEqual(expected, actual, n) <= n
  {
    if n > 0 {
      CountEqualBound(expected, actual, n - 1);
    }
  }

  /** Every position below `n` matches exactly when the count is `n`. */
  lemma {:induction false} CountEqualAll(expected: seq<string>, actual: seq<string>, n: nat)
    requires n <= |expected| && n <= |actual|
    ensures CountEqual(expected, actual, n) == n <==> expected[..n] == actual[..n]
  {
    if n > 0 {
      CountEqualAll(expected, actual, n - 1);
      CountEqualBound(expected, actual, n - 1);
      assert expected[..n] == expected[..n - 1] + [expected[n - 1]];
      assert actual[..n] == actual[..n - 1] + [actual[n - 1]];
      if expected[..n] == actual[..n] {
        assert expected[..n - 1] == expected[..n][..n - 1];
        assert actual[..n - 1] == actual[..n][..n - 1];
        assert expected[n - 1] == expected[..n][n - 1];
        assert actual[n - 1] == actual[..n][n - 1];
      }
    }
  }

  /** No position below `n` matches exactly when the count is zero. */
  lemma {:induction false} CountEqualNone(expected: seq<string>, actual: seq<string>, n: nat)
    requires n <= |expected| && n <= |actual|
    ensures CountEqual(expected, actual, n) == 0 <==> forall i :: 0 <= i < n ==> expected[i] != actual[i]
  {
    if n > 0 {
      CountEqualNone(expected, actual, n - 1);
    }
  }

  /** The count below `n` only looks at the first `n` lines of each side. */
  lemma {:induction false} CountEqualPrefix(expected: seq<string>, actual: seq<string>, actual': seq<string>, n: nat)
    requires n <= |expected| && n <= |actual| && n <= |actual'|
    requires actual[..n] == actual'[..n]
    ensures CountEqual(expected, actual, n) == CountEqual(expected, actual', n)
  {
    if n > 0 {
      assert actual[n - 1] == actual[..n][n - 1] == actual'[..n][n - 1] == actual'[n - 1];
      assert actual[..n - 1] == actual[..n][..n - 1];
      assert actual'[..n - 1] == actual'[..n][..n - 1];
      CountEqualPrefix(expected, actual, actual', n - 1);
    }
  }

  lemma FractionInUnitInterval(m: real, d: real)
    requires 0.0 <= m <= d && d > 0.0
    ensures 0.0 <= m / d <= 1.0
  {
    assert (m / d) * d == m;
  }

  /** Full marks exactly when `actual` starts with all of `expected`. */
  lemma CorrectnessPerfect(expected: seq<string>, actual: seq<string>)
    requires |expected| > 0
    ensures CorrectnessOf(expected, actual) == Ok(1.0)
        <==> |expected| <= |actual| && actual[..|expected|] == expected
  {
    var n := Min(|expected|, |actual|);
    CountEqualBound(expected, actual, n);
    CountEqualAll(expected, actual, n);
    RatioIsOne(Matches(expected, actual), |expected|);
    if |expected| <= |actual| {
      assert expected[..n] == expected;
    }
  }

  /** Arithmetic helper for CorrectnessPerfect: a ratio of counts is 1 only
      when they are equal. */
  lemma RatioIsOne(m: nat, d: nat)
    requires d > 0
    ensures m as real / d as real == 1.0 <==> m == d
  {
    if m as real / d as real == 1.0 {
      assert m as real == (m as real / d as real) * d as real;
    }
  }

  /** Zero exactly when no paired lines agree. */
  lemma CorrectnessZero(expected: seq<string>, actual: seq<string>)
    requires |expected| > 0
    ensures CorrectnessOf(expected, actual) == Ok(0.0)
        <==> forall i :: 0 <= i < |expected| && i < |actual| ==> expected[i] != actual[i]
  {
    CountEqualNone(expected, actual, Min(|expected|, |actual|));
  }

  /** Lines `actual` prints beyond the expected ones do not change the score. */
  lemma CorrectnessIgnoresTrailing(expected: seq<string>, actual: seq<string>, extra: seq<string>)
    requires |expected| <= |actual|
    ensures CorrectnessOf(expected, actual + extra) == CorrectnessOf(expected, actual)
  {
    var n := |expected|;
    assert (actual + extra)[..n] == actual[..n];
    CountEqualPrefix(expected, actual + extra, actual, n);
  }

  /** A run of the program under test on the given input lines: its output
      lines, or AssertionError when it wrote to stderr. */
  type Runner = seq<string> -> Result<seq<string>>

  /** The list comprehension of `test_program`: run and score each case in
      order; the first exception ends it. */
  function CaseScores(cases: seq<TestCase>, run: Runner): (r: Result<seq<real>>)
    ensures r.Ok? ==> |r.value| == |cases| && forall i :: 0 <= i < |r.value| ==> 0.0 <= r.value[i] <= 1.0
  {
    if cases == [] then Ok([])
    else
      match run(cases[0].input)
      case Err(e) => Err(e)
      case Ok(out) =>
        match CorrectnessOf(cases[0].output, out)
        case Err(e) => Err(e)
        case Ok(s) =>
          match CaseScores(cases[1..], run)
          case Err(e) => Err(e)
          case Ok(rest) => Ok([s] + rest)
  }

  /** Python's `sum` over a list of scores. */
  function Sum(s: seq<real>): real
  {
    if s == [] then 0.0 else s[0] + Sum(s[1..])
  }

  /** `test_program`: the mean of the per-case scores, ZeroDivisionError for
      no cases. */
  function TestProgram(cases: seq<TestCase>, run: Runner): (r: Result<real>)
    ensures r.Ok? <==> CaseScores(cases, run).Ok? && cases != []
    ensures cases == [] ==> r == Err(ZeroDivisionError)
  {
    match CaseScores(cases, run)
    case Err(e) => Err(e)
    case Ok(scores) =>
      if |scores| == 0 then Err(ZeroDivisionError)
      else Ok(Sum(scores) / |scores| as real)
  }

  /** The case scores exist exactly when every run succeeds and every case
      expects some output; then there is one score per case, in order, and it
      is that case's `correctness`. */
  lemma {:induction false} CaseScoresSpec(cases: seq<TestCase>, run: Runner)
    ensures CaseScores(cases, run).Ok?
        <==> forall i :: 0 <= i < |cases| ==> run(cases[i].input).Ok? && |cases[i].output| > 0
    ensures CaseScores(cases, run).Ok? ==>
              |CaseScores(cases, run).value| == |cases|
              && forall i :: 0 <= i < |cases| ==>
                   CorrectnessOf(cases[i].output, run(cases[i].input).value)
                   == Ok(CaseScores(cases, run).value[i])
  {
    if cases != [] {
      CaseScoresSpec(cases[1..], run);
      assert forall i :: 1 <= i < |cases| ==> cases[i] == cases[1..][i - 1];
    }
  }

  lemma {:induction false} SumBounds(s: seq<real>)
    requires forall i :: 0 <= i < |s| ==> 0.0 <= s[i] <= 1.0
    ensures 0.0 <= Sum(s) <= |s| as real
  {
    if s != [] {
      SumBounds(s[1..]);
    }
  }

  lemma {:induction false} SumOfOnes(s: seq<real>)
    requires forall i :: 0 <= i < |s| ==> s[i] == 1.0
    ensures Sum(s) == |s| as real
  {
    if s != [] {
      SumOfOnes(s[1..]);
    }
  }

  /** Whenever `test_program` returns a fitness, it lies in [0, 1]. */
  lemma TestProgramInUnitInterval(cases: seq<TestCase>, run: Runner)
    ensures TestProgram(cases, run).Ok? ==> 0.0 <= TestProgram(cases, run).value <= 1.0
  {
    CaseScoresSpec(cases, run);
    if CaseScores(cases, run).Ok? && cases != [] {
      var scores := CaseScores(cases, run).value;
      SumBounds(scores);
      FractionInUnitInterval(Sum(scores), |scores| as real);
    }
  }

  /** A program whose every run starts with the expected lines scores exactly 1. */
  lemma TestProgramPerfect(cases: seq<TestCase>, run: Runner)
    requires cases != []
    requires forall i :: 0 <= i < |cases| ==>
               && |cases[i].output| > 0
               && run(cases[i].input).Ok?
               && |cases[i].output| <= |run(cases[i].input).value|
               && run(cases[i].input).value[..|cases[i].output|] == cases[i].output
    ensures TestProgram(cases, run) == Ok(1.0)
  {
    CaseScoresSpec(cases, run);
    var scores := CaseScores(cases, run).value;
    forall i | 0 <= i < |scores|
      ensures scores[i] == 1.0
    {
      CorrectnessPerfect(cases[i].output, run(cases[i].input).value);
    }
    SumOfOnes(scores);
    SelfRatio(|scores| as real);
  }

  /** Arithmetic helper for TestProgramPerfect. */
  lemma SelfRatio(x: real)
    requires x > 0.0
    ensures x / x == 1.0
  {
  }
}
