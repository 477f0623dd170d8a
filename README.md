# autoencoderopt search core in Dafny

`opt.py` searches for C++ programs by optimising a latent vector with nevergrad. It decodes each candidate vector into a program, compiles it with `g++`, and scores it on a sample of the task's test cases. It keeps the `TOP_K + 1` best `(fitness, program)` tuples in a `heapq` min-heap. A checkpoint writes a summary of that heap every `CHECKPOINT_INTERVAL` iterations and once more when the run ends. This project models the sequential core of that script and proves what it promises.

The model has six modules, one per file:

- `types.dfy` (`Types`): exceptions, `Result`/`Option`, and fitness as `MinFitness | Score(real)`, so the `-inf` sentinel is a constructor rather than an IEEE float. It also holds program uids, pool entries, and the orders Python uses on them: `max`, `str <`, tuple `<` and `Program.__lt__`. It proves those orders are strict and total.
- `scoring.dfy` (`Scoring`): `correctness` as a loop method proved against a specification function, and `test_program` as a function. `correctness` takes the output lines the run produced; `test_program` and its per-case scores take the run itself as a parameter.
- `testcases.dfy` (`TestCases`): `disnumerate_prefix` and `objects2lines` as loop methods proved against specification functions. `parse_test_case` works on an already parsed map. `sample_tests` takes the indices that `random.sample` drew as a parameter.
- `evaluation.dfy` (`Evaluation`): the `try` block of `evaluate_candidate`, from decoding to the fitness, and its `except AssertionError`.
- `pool.dfy` (`ElitePool`): the list `best_programs` as a class over an array. `heappush`, `heappushpop`, `_siftdown` and `_siftup` follow `heapq`'s algorithm step by step and are proved to keep the heap invariant and the multiset of entries. The module also holds the summary-and-persist loop of `checkpoint`.
- `search.dfy` (`SearchLoop`): `evaluate_candidate`, `checkpoint`, and the main `for` loop under `try/finally`.
  - The optimizer is an oracle `next(e)`: the candidate of the `e`-th evaluation (asked for or recommended) and how evaluating it ends.
  - The proofs cover `best_fitness` and the checkpoint schedule.
  - They also cover a ledger of the pool: the tuples kept plus the tuples `heappushpop` returned are exactly the sentinels plus every tuple offered. Every returned tuple ranks at or below every kept one.

## Model

| member | source | states |
|---|---|---|
| `Types.MaxFitness` | opt.py:143 | `max(a, b)` returns one of its arguments, and neither argument is above it |
| `Types.MinFitnessIsLeast` | opt.py:15 | MIN_FITNESS (`-inf`) is below every score and above nothing |
| `Types.FitnessLt` | opt.py:197 | Python's `<` on fitness: MIN_FITNESS is below every score, and scores compare as reals |
| `Types.StrLtIrreflexive` | opt.py:56-57 | no uid string is below itself |
| `Types.StrLt` | opt.py:57 | Python's `<` on str: code point by code point, with a proper prefix first |
| `Types.StrLtTransitive` | opt.py:56-57 | Python's string order is transitive |
| `Types.StrLtTotal` | opt.py:56-57 | two uid strings are equal or one is below the other |
| `Types.UidLt` | opt.py:56-57 | `Program.__lt__`: int uids by value, str uids as strings; an int uid is placed below a str uid where Python would raise (see Left out) |
| `Types.EntryLt` | opt.py:184 | Python's `<` on `(fitness, program)` tuples: by fitness, with ties broken by `Program.__lt__` |
| `Types.EntryLtIrreflexive` | opt.py:56-57 | no `(fitness, program)` tuple is below itself |
| `Types.EntryLtTransitive` | opt.py:56-57 | tuple order (fitness first, then `Program.__lt__` on uids) is transitive |
| `Types.EntryTrichotomy` | opt.py:56-57 | of two tuples, one is below the other or they have the same fitness and uid |
| `Types.EntryLtAsymmetric` | opt.py:56-57 | two tuples are never each below the other |
| `Types.EntryLeReflexive` | opt.py:56-57 | `<=` on tuples is reflexive |
| `Types.EntryLeTransitive` | opt.py:56-57 | `<=` on tuples is transitive |
| `Types.EntryLeTotal` | opt.py:56-57 | any two tuples are comparable by `<=` |
| `Types.EntryLtLe` | opt.py:56-57 | `<` implies `<=` |
| `Types.SameRankCompares` | opt.py:56-57 | tuples with the same fitness and uid compare alike against every tuple, whatever their `persist` flag |
| `Scoring.Correctness` | opt.py:80-85 | the accumulator loop returns the count of equal pairs over `zip` divided by the number of expected lines, and ZeroDivisionError when none are expected |
| `Scoring.CorrectnessOf` | opt.py:80-85 | `correctness` raises ZeroDivisionError exactly when no lines are expected; otherwise the score lies in [0, 1] |
| `Scoring.CountEqualBound` | opt.py:82-83 | at most one point per compared pair |
| `Scoring.CountEqualAll` | opt.py:82-83 | the count equals the number of pairs exactly when all those pairs are equal |
| `Scoring.CountEqualNone` | opt.py:82-83 | the count is zero exactly when no pair is equal |
| `Scoring.CountEqualPrefix` | opt.py:82-83 | the count over the first `n` pairs reads only the first `n` actual lines |
| `Scoring.CorrectnessPerfect` | opt.py:80-85 | the score is 1 exactly when the output starts with all the expected lines |
| `Scoring.CorrectnessZero` | opt.py:80-85 | the score is 0 exactly when no paired lines agree |
| `Scoring.CorrectnessIgnoresTrailing` | opt.py:80-85 | lines printed beyond the expected ones do not change the score |
| `Scoring.CaseScores` | opt.py:88 | when every case is scored, there is one score per case, each in [0, 1] |
| `Scoring.CaseScoresSpec` | opt.py:88 | the comprehension succeeds exactly when every run succeeds and every case expects output; it then gives one score per case, in order, and each is that case's `correctness` |
| `Scoring.SumBounds` | opt.py:89 | a sum of scores in [0, 1] lies between 0 and the number of scores |
| `Scoring.SumOfOnes` | opt.py:89 | a sum of ones is the number of terms |
| `Scoring.TestProgram` | opt.py:87-89 | `test_program` returns a mean exactly when every case is scored and there is at least one case; no cases raise ZeroDivisionError |
| `Scoring.TestProgramInUnitInterval` | opt.py:87-89 | any mean `test_program` returns lies in [0, 1] |
| `Scoring.TestProgramPerfect` | opt.py:87-89 | when every run starts with the expected lines, the mean is exactly 1 |
| `TestCases.DecimalString` | opt.py:107 | `str(n)` is a non-empty string of digits with no leading zero |
| `TestCases.DecimalRoundTrip` | opt.py:107 | `int(str(n)) == n` |
| `TestCases.DecimalStringInjective` | opt.py:95 | different numbers have different decimal strings |
| `TestCases.KeyInjective` | opt.py:95 | `f'{prefix}{n}'` names a different key for every `n` |
| `TestCases.KeysUpToSize` | opt.py:93-95 | the keys `prefix1 .. prefixn` are `n` distinct keys |
| `TestCases.PresentKeysBound` | opt.py:93-97 | a run of present numbered keys is no longer than the map, so the `itertools.count` loop ends |
| `TestCases.CollectFrom` | opt.py:92-97 | collecting from key number `i` gives at most as many values as the map has keys left after the first `i - 1` |
| `TestCases.CollectFromIsRun` | opt.py:92-97 | collecting from `i` gives the values under `prefix i, prefix i+1, ...` in order, stopping at the first missing key |
| `TestCases.NumberedRunUnique` | opt.py:91-98 | a map and a prefix have only one such run |
| `TestCases.Disnumerated` | opt.py:91-98 | the value `disnumerate_prefix` returns: the values collected from `prefix1` on; `TestCases.DisnumeratedIsRun` characterises it |
| `TestCases.DisnumeratedIsRun` | opt.py:91-98 | `disnumerate_prefix` returns exactly the run `data[prefix1] .. data[prefixn]` whose next key is missing, and `[]` when `prefix1` is missing |
| `TestCases.DisnumeratedIgnoresKeysAfterGap` | opt.py:93-97 | adding or changing a key numbered after a missing one does not change the result |
| `TestCases.DisnumeratedReadsOnlyNumberedKeys` | opt.py:91-98 | maps that agree on the numbered keys give the same result |
| `TestCases.DisnumeratePrefix` | opt.py:91-98 | the append loop returns that run |
| `TestCases.SplitJoin` | opt.py:108 | splitting the space-joined line at spaces gives the elements back, when there is at least one and none holds a space |
| `TestCases.ListLinesReadBack` | opt.py:103-108 | a list gives exactly two lines: its length in decimal, then its elements, which can be read back |
| `TestCases.ObjectLines` | opt.py:103-110 | a list gives two lines, any other object one |
| `TestCases.Lines` | opt.py:100-111 | `objects2lines` gives one line per object plus one more per list |
| `TestCases.LinesConcat` | opt.py:100-111 | `objects2lines` distributes over concatenation of its input |
| `TestCases.ObjectsToLines` | opt.py:100-111 | the append loop returns each object's lines in order |
| `TestCases.ParseTestCase` | opt.py:113-120 | the lines of the `input` run and of the `output` run of a parsed case; `TestCases.ParseTestCaseReadsOnlyNumberedKeys` characterises it |
| `TestCases.ParseTestCaseReadsOnlyNumberedKeys` | opt.py:113-120 | a test case depends only on the keys `input1, ...` and `output1, ...`; without `input1` (or `output1`) it has no input (or output) lines |
| `TestCases.SelectCases` | opt.py:126 | raises ValueError exactly when `sample` cannot draw MAX_TESTS cases; otherwise exactly MAX_TESTS cases, the edge cases first in file order and then the drawn random cases |
| `TestCases.SampleTests` | opt.py:122-127 | the selected cases, parsed: ValueError exactly when `sample` cannot draw; otherwise MAX_TESTS test cases, the parsed edge cases first and then the parsed drawn random cases |
| `Evaluation.Catch` | opt.py:185-186 | only AssertionError becomes MIN_FITNESS; a score passes through and any other exception escapes |
| `Evaluation.Evaluate` | opt.py:178-186 | a failed decode or compile gives MIN_FITNESS; too few random cases escapes as ValueError; a score lies in [0, 1]; nothing escapes except ValueError and ZeroDivisionError |
| `Evaluation.TestProgramErrors` | opt.py:87-89 | when runs fail only by assertion, `test_program` raises only AssertionError or ZeroDivisionError |
| `Evaluation.CaseScoresErrors` | opt.py:88 | the same holds for the per-case comprehension |
| `Evaluation.EvaluateNoTests` | opt.py:89 | with MAX_TESTS = 0, the mean over no results raises ZeroDivisionError, and it escapes |
| `Evaluation.EvaluateCaseWithoutOutput` | opt.py:84 | a selected case without `output1` makes `correctness` divide by zero once the program runs |
| `Evaluation.EvaluatePerfect` | opt.py:178-184 | a program that passes every case scores exactly 1 |
| `ElitePool.HeapRootIsLeast` | opt.py:184 | the root of the heap is at or below every entry |
| `ElitePool.SiftDownStep` | opt.py:174 | one step of `_siftdown` moves the parent into the hole and keeps the loop's invariant |
| `ElitePool.SiftDownDone` | opt.py:174 | when `_siftdown` stops, writing the entry into the hole gives a heap with the same multiset |
| `ElitePool.HoleIsFree` | opt.py:184 | what sits in the hole does not affect the parent/child pairs that avoid it |
| `ElitePool.SiftUpStep` | opt.py:184 | one step of `_siftup` moves the smaller child into the hole and keeps the loop's invariant |
| `ElitePool.SiftUpDone` | opt.py:184 | at a leaf, writing the entry into the hole leaves only its parent out of order |
| `ElitePool.MoveKeepsMultiset` | opt.py:184 | moving an entry into the hole and the hole along keeps the multiset |
| `ElitePool.Seeds` | opt.py:173-174 | TOP_K + 1 sentinels, the `i`-th with fitness MIN_FITNESS and uid `i` |
| `ElitePool.Mark` | opt.py:199-200 | marking keeps an entry's rank and sets `persist` exactly when it was set or the checkpoint is final and the entry is scored |
| `ElitePool.Summary` | opt.py:194-198 | the dict `checkpoint` builds: uid to fitness for the entries above MIN_FITNESS, in list order; `ElitePool.SummaryKeys` and `ElitePool.SummaryLastWins` characterise it |
| `ElitePool.SummaryKeys` | opt.py:196-198 | the summary's keys are exactly the uids of the entries above MIN_FITNESS |
| `ElitePool.SummaryLastWins` | opt.py:196-198 | a repeated uid maps to the fitness of its last entry in list order |
| `ElitePool.SummaryIgnoresPersist` | opt.py:196-200 | the summary reads only fitness and uid |
| `ElitePool.MarkKeepsHeap` | opt.py:199-200 | setting `persist` changes no entry's rank, so the heap stays a heap |
| `ElitePool.Pool.Seeded` | opt.py:171-174 | after the TOP_K + 1 pushes, the pool is a heap, is full, and holds exactly the sentinels |
| `ElitePool.Pool.Push` | opt.py:174 | `heappush` keeps the heap, grows the size by one and adds the item to the multiset |
| `ElitePool.Pool.PushPop` | opt.py:184 | `heappushpop` swaps the item in only when the root is strictly below it; it then returns the old root, otherwise the item with the pool unchanged. The size stays the same, and the returned tuple is at or below the item and every kept entry |
| `ElitePool.Pool.SiftDown` | opt.py:174 | `_siftdown` turns a heap with one entry out of place into a heap with the same multiset |
| `ElitePool.Pool.SiftUp` | opt.py:184 | `_siftup` turns a heap with a new root into a heap with the same multiset |
| `ElitePool.Pool.Summarize` | opt.py:194-200 | the loop returns the summary of the pool; on the final checkpoint it sets `persist` on exactly the entries above MIN_FITNESS, and changes nothing else |
| `SearchLoop.FitnessOf` | opt.py:185-189 | `evaluate_candidate` returns MIN_FITNESS exactly on a caught assertion and raises exactly when the evaluation raised |
| `SearchLoop.BestOf` | opt.py:143 | `best_fitness` after the reports so far: `max(fitness, best_fitness)` folded from MIN_FITNESS; `SearchLoop.BestOfIsMaximum` characterises it |
| `SearchLoop.BestOfIsMaximum` | opt.py:143 | `best_fitness` is at or above every reported fitness, and is MIN_FITNESS or one of them |
| `SearchLoop.CheckpointDue` | opt.py:210 | the checkpoint test `idx % interval == 0` with the interval a positive int; `SearchLoop.CheckpointDueSpec` characterises it |
| `SearchLoop.CheckpointDueSpec` | opt.py:210 | a periodic checkpoint is due exactly at the multiples of the interval |
| `SearchLoop.MultiplesSpec` | opt.py:206-211 | the periodic checkpoints come after exactly the due iterations, in increasing order, starting with iteration 0 |
| `SearchLoop.CheckpointDueAsWritten` | opt.py:16 | the checkpoint test as written: TypeError exactly when CHECKPOINT_INTERVAL is set to a non-empty value; unset or empty, the default 100 applies |
| `SearchLoop.EnvironmentIntervalRaises` | opt.py:16 | with CHECKPOINT_INTERVAL set to a non-empty value, iteration 0 raises TypeError where a checkpoint is due |
| `SearchLoop.NoMixedTies` | opt.py:56-57 | while sentinels alone hold MIN_FITNESS, a scored tuple ties only with str uids, so `Program.__lt__` never compares an int with a str |
| `SearchLoop.PushPopKeeps` | opt.py:184 | `heappushpop` keeps the uid kinds, the unmarked flags and the evicted-below-kept order, and balances the ledger |
| `SearchLoop.PushPopped` | opt.py:184 | what `heappushpop` does to the list: when the root is strictly below the item, the root leaves and the item comes in; otherwise the list is unchanged and the item comes back |
| `SearchLoop.EvaluationEffect` | opt.py:178-186 | only a scored candidate reaches `heappushpop` and evicts one tuple; a failed or raising one leaves the list and the evicted tuples alone |
| `SearchLoop.PushPopEffect` | opt.py:184 | the two cases `heappushpop` promises give that effect, with the returned tuple appended to the evicted ones |
| `SearchLoop.EvaluateCandidate` | opt.py:176-189 | the fitness as evaluated; `best_fitness` raised by a non-raising result; the new list and evicted tuples are exactly `EvaluationEffect`, so a failed or raising candidate leaves the list unchanged; the pool stays a heap; the ledger balances |
| `SearchLoop.MarkKeeps` | opt.py:196-200 | marking keeps the invariants and the summary; clearing `persist` undoes it; `persist` ends up set exactly on the scored entries of the final checkpoint |
| `SearchLoop.Checkpoint` | opt.py:191-203 | evaluates the recommendation; with `persist` cleared, the list is the one that evaluation left, and it is unchanged when the evaluation raised; writes the pool's summary exactly when that did not raise; on the final call marks exactly the scored entries |
| `SearchLoop.LogStep` | opt.py:210-211 | a pass appends a snapshot exactly when its index is due |
| `SearchLoop.Step` | opt.py:183 | one evaluation adds its report, if any, and `best_fitness` stays the running maximum |
| `SearchLoop.AllOkMeans` | opt.py:205-209 | the run has not raised exactly when no evaluation so far raised |
| `SearchLoop.OccurrencesCount` | opt.py:184 | the occurrence count of a tuple is its multiplicity |
| `SearchLoop.BalancedMeans` | opt.py:184 | the ledger balances exactly when kept plus evicted equals seeded plus offered, as multisets |
| `SearchLoop.Conserves` | opt.py:184 | an evaluation that adds exactly what it offered keeps the ledger balanced |
| `SearchLoop.Ask` | opt.py:207-208 | `optimizer.ask()` then `evaluate_candidate` has the effect of that evaluation and keeps every invariant |
| `SearchLoop.PeriodicCheckpoint` | opt.py:210-211 | the non-final checkpoint marks nothing, so the list is exactly what the recommendation's evaluation left; every invariant holds |
| `SearchLoop.TellEffect` | opt.py:209-211 | a pass with no checkpoint due writes nothing and leaves the list alone; a due one writes one snapshot for `idx` whose summary is that of the list after the recommendation's evaluation, or none when it raised |
| `SearchLoop.Tell` | opt.py:209-211 | after `tell`, a snapshot is written exactly when a checkpoint is due; when none is due the list and the evicted tuples are unchanged; when one is due, the recommendation's evaluation has its effect on the list, the snapshot holds the summary of the list it leaves (none when it raised), and that exception is the one raised |
| `SearchLoop.FinalCheckpoint` | opt.py:212-213 | the `finally` checkpoint writes the summary and marks exactly the scored entries, unless evaluating the recommendation raises; with `persist` cleared, the list is what that evaluation left |
| `SearchLoop.Pass` | opt.py:206-211 | one pass of the `for` loop keeps every invariant: the ask's evaluation has its effect on the list; if it raised, the pass ends there with that exception, no tell and no snapshot; otherwise the tell's effect follows, with the snapshot holding the summary of the list |
| `SearchLoop.MainLoop` | opt.py:205-211 | BUDGET passes unless an exception cuts the loop short |
| `SearchLoop.SeedsAgree` | opt.py:173-174 | the sentinels hold MIN_FITNESS with int uids and are not marked |
| `SearchLoop.Run` | opt.py:170-213 | see the list below |

`SearchLoop.Run` states the following about a whole run of the main block:

- The pool stays a full heap of TOP_K + 1 tuples.
- `best_fitness` is the running maximum of the reports.
- The run has not raised exactly when no evaluation raised, and then all BUDGET iterations ran.
- A periodic checkpoint runs at exactly the due iterations. When the run has not raised, each one wrote its summary. Per pass, `SearchLoop.TellEffect` adds that a periodic checkpoint whose recommendation raises writes no summary.
- One final checkpoint always runs.
- Its summary is the pool's summary. It is written unless evaluating the recommendation raises.
- When the final summary is written, `persist` is set on exactly the scored entries. Otherwise no entry has it set.
- Every evicted tuple ranks at or below every kept one.
- The kept tuples plus the evicted ones are the sentinels plus every tuple offered.

## Findings

| source | as written | input that shows it | evidently intended | confidence | as-written member | corrected member |
|---|---|---|---|---|---|---|
| opt.py:16 | `CHECKPOINT_INTERVAL` keeps the `str` from `os.environ.get` when the variable is set to a non-empty value, so `idx % CHECKPOINT_INTERVAL` at line 210 raises TypeError | environment `CHECKPOINT_INTERVAL=5`: iteration 0 raises TypeError, and the run ends after the final checkpoint | convert it with `int(...)`, as `TOP_K` and `LATENT_DIM` are on lines 17-18 | high; not executed | `SearchLoop.EnvironmentIntervalRaises` | `SearchLoop.CheckpointDueSpec` |

The rest of the model uses the corrected, integer interval (`SearchLoop.CheckpointDue`). `SearchLoop.CheckpointDueAsWritten` keeps the code as written.

## Left out

- The HTTP calls (fetching `imports`, `decode_vector`) are network I/O. Decoding is the parameter `decoded` of `Evaluation.Evaluate`, and a failed decode counts as a caught AssertionError.
- Other failures are not modelled:
  - a connection error or malformed reply from the decoding server;
  - a `KeyError` on `['program']`;
  - an OS error from `subprocess` or `g++`;
  - a UnicodeDecodeError from decoding the program's output at opt.py:70.
- Writing the program's source file, compiling with `g++`, running the binary, and `unlink` are file and process I/O.
  - Compilation is the parameter `compiles`.
  - A run is a `Runner` that returns the output lines or AssertionError when the program wrote to stderr.
- `Evaluation.Evaluate`: requires runs to fail only by AssertionError. Two other run failures are left out. One is an OS error from `subprocess`. The other is the UnicodeDecodeError (a ValueError) that `stdout.decode()` at opt.py:70 raises when the program writes bytes that are not valid UTF-8. `except AssertionError` does not catch either, so either would end the run.
- `Program.__del__` depends on garbage collection. Only the `persist` flag is kept, as data.
- `json.loads` and reading the dataset files are parsing and file I/O. `parse_test_case` starts from the parsed map. A JSON value is represented by its `str`: a list by the `str` of each element, anything else by its own `str`.
- `random.sample` is randomness. The drawn indices are a parameter, required to be distinct, in range, and exactly MAX_TESTS of them when the sample is possible.
- nevergrad is a foreign library: the optimizer, `ask`, `tell`, `provide_recommendation` and the registry. The `e`-th evaluated candidate and its outcome are the oracle `next(e)`. The contracts hold for every oracle, so they hold for whatever the optimizer does.
- The `tell(candidate, -fitness)` feedback itself is left out.
- wandb and `make_report` are a metrics sink. The model keeps the fitness each report carries (`SearchLoop.Reports`) and the running maximum `best_fitness`.
- Environment and config parsing and the `blake2b` config hash are left out; `config_str` is never used.
- `SearchLoop.Run`: CHECKPOINT_INTERVAL is taken as a positive int; the code as written is covered under Findings.
- The JSON dump of the summary is file I/O. Each periodic summary is kept as a value in `SearchLoop.Snapshot`, and the final one is `Run`'s `final`.
- IEEE floats: fitness and scores are exact reals, and `-inf` is the constructor `MinFitness`.
- `Types.UidLt`: Python raises TypeError when an int uid meets a str uid. The model orders int uids first instead. `SearchLoop.NoMixedTies` and the `KindsAgree` invariant show the pool never makes that comparison.
- `ElitePool.Pool.Push`: the array has the fixed capacity TOP_K + 1, the most the script ever pushes; a Python list grows without bound.
