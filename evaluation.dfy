/** The part of `evaluate_candidate` that turns one candidate into a fitness:
    decode, compile, sample the test cases, run and score them, with
    `except AssertionError` catching the expected failures. */
module Evaluation {
  import opened Types
  import opened Scoring
  import opened TestCases

  /** How one evaluation ends: an assertion failed somewhere (the fitness is
      MIN_FITNESS), the program was scored, or another exception escaped. */
  datatype Outcome = Failed | Scored(score: real) | Raised(error: Exception)

  /** `except AssertionError: fitness = MIN_FITNESS`: only assertion failures
      are caught; a score passes through and any other exception escapes. */
  function Catch(r: Result<real>): (o: Outcome)
    ensures o.Failed? <==> r == Err(AssertionError)
    ensures o.Scored? <==> r.Ok?
    ensures o.Scored? ==> o.score == r.value
    ensures o.Raised? ==> r == Err(o.error) && o.error != AssertionError
  {
    match r
    case Ok(f) => Scored(f)
    case Err(AssertionError) => Failed
    case Err(e) => Raised(e)
  }

  /** A run of a compiled program fails only by asserting that it wrote
      nothing to stderr. */
  ghost predicate FailsOnlyByAssertion(run: Runner)
  {
    forall input :: run(input).Err? ==> run(input).error == AssertionError
  }

  /** The body of the `try` in `evaluate_candidate` up to the fitness.
      `decoded` is whether the decoding server answered ok, `compiles` whether
      g++ wrote nothing to stderr; the test set is `sample_tests` over the
      task's edge and random cases, `chosen` being the indices `sample` drew. */
  function Evaluate(decoded: bool, compiles: bool, edge: seq<Case>, random: seq<Case>, maxTests: int,
                    chosen: seq<nat>, run: Runner): (o: Outcome)
    requires forall k :: 0 <= k < |chosen| ==> chosen[k] < |random|
    requires forall k, l :: 0 <= k < l < |chosen| ==> chosen[k] != chosen[l]
    requires 0 <= maxTests <= |random| ==> |chosen| == maxTests
    requires FailsOnlyByAssertion(run)
    ensures o.Scored? ==> 0.0 <= o.score <= 1.0
    ensures o.Raised? ==> o.error == ValueError || o.error == ZeroDivisionError
    ensures !decoded || !compiles ==> o == Failed
    ensures decoded && compiles && (maxTests < 0 || |random| < maxTests) ==> o == Raised(ValueError)
  {
    if !decoded || !compiles then Failed
    else
      match SampleTests(edge, random, maxTests, chosen)
      case Err(e) => Catch(Err(e))
      case Ok(cases) =>
        TestProgramInUnitInterval(cases, run);
        TestProgramErrors(cases, run);
        Catch(TestProgram(cases, run))
  }

  /** With runs that fail only by assertion, `test_program` raises nothing
      but AssertionError and ZeroDivisionError. */
  lemma {:induction false} TestProgramErrors(cases: seq<TestCase>, run: Runner)
    requires FailsOnlyByAssertion(run)
    ensures TestProgram(cases, run).Err? ==>
              TestProgram(cases, run).error == AssertionError || TestProgram(cases, run).error == ZeroDivisionError
  {
    CaseScoresErrors(cases, run);
  }

  lemma {:induction false} CaseScoresErrors(cases: seq<TestCase>, run: Runner)
    requires FailsOnlyByAssertion(run)
    ensures CaseScores(cases, run).Err? ==>
              CaseScores(cases, run).error == AssertionError || CaseScores(cases, run).error == ZeroDivisionError
  {
    if cases != [] {
      CaseScoresErrors(cases[1..], run);
    }
  }

  /** MAX_TESTS = 0 selects no cases, and the mean over no results divides by zero. */
  lemma EvaluateNoTests(edge: seq<Case>, random: seq<Case>, run: Runner)
    requires FailsOnlyByAssertion(run)
    ensures Evaluate(true, true, edge, random, 0, [], run) == Raised(ZeroDivisionError)
  {
  }

  /** A selected case without "output1" expects no lines; once the program
      runs, `correctness` divides by zero for it. */
  lemma EvaluateCaseWithoutOutput(edge: seq<Case>, random: seq<Case>, maxTests: int, chosen: seq<nat>, run: Runner)
    requires forall k :: 0 <= k < |chosen| ==> chosen[k] < |random|
    requires forall k, l :: 0 <= k < l < |chosen| ==> chosen[k] != chosen[l]
    requires 0 <= maxTests <= |random| ==> |chosen| == maxTests
    requires FailsOnlyByAssertion(run)
    requires 0 < maxTests <= |random| && |edge| > 0 && Key("output", 1) !in edge[0]
    requires run(ParseTestCase(edge[0]).input).Ok?
    ensures Evaluate(true, true, edge, random, maxTests, chosen, run) == Raised(ZeroDivisionError)
  {
    var cases := SampleTests(edge, random, maxTests, chosen).value;
    DisnumeratedIsRun(edge[0], "output", []);
    assert cases[0].output == [];
  }

  /** The program's output on the case starts with the expected lines, of
      which there is at least one. */
  predicate Passes(t: TestCase, run: Runner)
  {
    && |t.output| > 0 && run(t.input).Ok?
    && |t.output| <= |run(t.input).value| && run(t.input).value[..|t.output|] == t.output
  }

  /** A program whose every run starts with the expected lines of every
      selected case scores exactly 1. */
  lemma EvaluatePerfect(edge: seq<Case>, random: seq<Case>, maxTests: int, chosen: seq<nat>, run: Runner)
    requires forall k :: 0 <= k < |chosen| ==> chosen[k] < |random|
    requires forall k, l :: 0 <= k < l < |chosen| ==> chosen[k] != chosen[l]
    requires 0 <= maxTests <= |random| ==> |chosen| == maxTests
    requires FailsOnlyByAssertion(run)
    requires 0 < maxTests <= |random|
    requires forall c :: c in edge || c in random ==> Passes(ParseTestCase(c), run)
    ensures Evaluate(true, true, edge, random, maxTests, chosen, run) == Scored(1.0)
  {
    var cases := SampleTests(edge, random, maxTests, chosen).value;
    forall i | 0 <= i < |cases|
      ensures Passes(cases[i], run)
    {
      if i < |edge| {
        assert edge[i] in edge;
      } else {
        assert random[chosen[i - |edge|]] in random;
      }
    }
    TestProgramPerfect(cases, run);
  }
}
