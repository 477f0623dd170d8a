/** Turning the parsed JSON objects of a task's dataset into test cases:
    `disnumerate_prefix`, `objects2lines`, `parse_test_case` and the
    selection of `sample_tests`. */
module TestCases {
  import opened Types

  /** A value of a parsed test-case object: a JSON list, given by the `str`
      of each element, or any other value, given by its own `str`. */
  datatype Obj = Scalar(text: string) | List(items: seq<string>)

  /** One parsed line of a dataset file: a JSON object with keys such as
      "input1", "input2", "output1". */
  type Case = map<string, Obj>

  predicate IsDigits(s: string)
  {
    forall i :: 0 <= i < |s| ==> '0' <= s[i] <= '9'
  }

  function DigitChar(d: nat): char
    requires d < 10
  {
    ('0' as int + d) as char
  }

  /** `str(n)` for a non-negative int: its decimal digits. */
  function DecimalString(n: nat): (s: string)
    ensures |s| >= 1 && IsDigits(s)
    ensures |s| > 1 ==> s[0] != '0'
  {
    if n < 10 then [DigitChar(n)] else DecimalString(n / 10) + [DigitChar(n % 10)]
  }

  /** `int(s)` for a string of decimal digits. */
  function DecimalValue(s: string): nat
    requires IsDigits(s)
  {
    if s == [] then 0 else DecimalValue(s[..|s| - 1]) * 10 + (s[|s| - 1] as int - '0' as int)
  }

  /** `int(str(n)) == n`. */
  lemma {:induction false} DecimalRoundTrip(n: nat)
    ensures DecimalValue(DecimalString(n)) == n
  {
    var s := DecimalString(n);
    if n >= 10 {
      DecimalRoundTrip(n / 10);
      assert s[..|s| - 1] == DecimalString(n / 10);
    }
  }

  lemma DecimalStringInjective(a: nat, b: nat)
    requires DecimalString(a) == DecimalString(b)
    ensures a == b
  {
    DecimalRoundTrip(a);
    DecimalRoundTrip(b);
  }

  /** The key `f'{prefix}{n}'`. */
  function Key(prefix: string, n: nat): string
  {
    prefix + DecimalString(n)
  }

  lemma KeyInjective(prefix: string, i: nat, j: nat)
    requires Key(prefix, i) == Key(prefix, j)
    ensures i == j
  {
    assert DecimalString(i) == Key(prefix, i)[|prefix|..];
    assert DecimalString(j) == Key(prefix, j)[|prefix|..];
    DecimalStringInjective(i, j);
  }

  ghost function KeysUpTo(prefix: string, n: nat): set<string>
  {
    set j | 1 <= j <= n :: Key(prefix, j)
  }

  lemma {:induction false} KeysUpToSize(prefix: string, n: nat)
    ensures |KeysUpTo(prefix, n)| == n
  {
    if n > 0 {
      KeysUpToSize(prefix, n - 1);
      assert KeysUpTo(prefix, n) == KeysUpTo(prefix, n - 1) + {Key(prefix, n)};
      if Key(prefix, n) in KeysUpTo(prefix, n - 1) {
        var j :| 1 <= j <= n - 1 && Key(prefix, j) == Key(prefix, n);
        KeyInjective(prefix, j, n);
      }
    }
  }

  lemma {:induction false} SubsetSize<T>(a: set<T>, b: set<T>)
    requires a <= b
    ensures |a| <= |b|
    decreases |a|
  {
    if a != {} {
      var x :| x in a;
      SubsetSize(a - {x}, b - {x});
    }
  }

  /** A run of present keys `prefix1 .. prefixn` cannot be longer than the map. */
  lemma PresentKeysBound(data: map<string, Obj>, prefix: string, n: nat)
    requires forall j :: 1 <= j <= n ==> Key(prefix, j) in data
    ensures n <= |data|
  {
    KeysUpToSize(prefix, n);
    SubsetSize(KeysUpTo(prefix, n), data.Keys);
  }

  /** `data[prefix + str(i)]`, `data[prefix + str(i + 1)]`, ... up to the
      first missing key. */
  function CollectFrom(data: map<string, Obj>, prefix: string, i: nat): (r: seq<Obj>)
    requires 1 <= i
    requires forall j :: 1 <= j < i ==> Key(prefix, j) in data
    ensures i + |r| <= |data| + 1
    decreases |data| + 1 - i
  {
    if Key(prefix, i) in data then
      PresentKeysBound(data, prefix, i);
      [data[Key(prefix, i)]] + CollectFrom(data, prefix, i + 1)
    else
      PresentKeysBound(data, prefix, i - 1);
      []
  }

  /** The value `disnumerate_prefix(data, prefix)` returns. */
  function Disnumerated(data: map<string, Obj>, prefix: string): seq<Obj>
  {
    CollectFrom(data, prefix, 1)
  }

  /** `r` lists `data[prefix + "1"] .. data[prefix + str(|r|)]` in order and
      `prefix + str(|r| + 1)` is missing. */
  predicate IsNumberedRun(data: map<string, Obj>, prefix: string, r: seq<Obj>)
  {
    && (forall n :: 1 <= n <= |r| ==> Key(prefix, n) in data && data[Key(prefix, n)] == r[n - 1])
    && Key(prefix, |r| + 1) !in data
  }

  lemma {:induction false} CollectFromIsRun(data: map<string, Obj>, prefix: string, i: nat)
    requires 1 <= i
    requires forall j :: 1 <= j < i ==> Key(prefix, j) in data
    ensures var r := CollectFrom(data, prefix, i);
            && (forall n :: i <= n < i + |r| ==> Key(prefix, n) in data && data[Key(prefix, n)] == r[n - i])
            && Key(prefix, i + |r|) !in data
    decreases |data| + 1 - i
  {
    if Key(prefix, i) in data {
      PresentKeysBound(data, prefix, i);
      CollectFromIsRun(data, prefix, i + 1);
      var r := CollectFrom(data, prefix, i);
      var rest := CollectFrom(data, prefix, i + 1);
      assert r == [data[Key(prefix, i)]] + rest;
      forall n | i < n < i + |r|
        ensures Key(prefix, n) in data && data[Key(prefix, n)] == r[n - i]
      {
        assert r[n - i] == rest[n - (i + 1)];
      }
    }
  }

  /** Two runs for the same map and prefix are the same run. */
  lemma {:induction false} NumberedRunUnique(data: map<string, Obj>, prefix: string, r: seq<Obj>, r': seq<Obj>)
    requires IsNumberedRun(data, prefix, r) && IsNumberedRun(data, prefix, r')
    ensures r == r'
  {
    assert |r| == |r'|;
    forall k | 0 <= k < |r|
      ensures r[k] == r'[k]
    {
      assert Key(prefix, k + 1) in data;
    }
  }

  /** `disnumerate_prefix` returns exactly the run of values under
      `prefix1, prefix2, ...` that stops at the first missing key; it is
      empty when `prefix1` is missing. */
  lemma DisnumeratedIsRun(data: map<string, Obj>, prefix: string, r: seq<Obj>)
    ensures IsNumberedRun(data, prefix, r) <==> r == Disnumerated(data, prefix)
    ensures Key(prefix, 1) !in data ==> Disnumerated(data, prefix) == []
  {
    CollectFromIsRun(data, prefix, 1);
    var d := Disnumerated(data, prefix);
    if IsNumberedRun(data, prefix, r) {
      NumberedRunUnique(data, prefix, r, d);
    }
  }

  /** Keys numbered past a gap are never read: adding or changing one does
      not change the result. */
  lemma DisnumeratedIgnoresKeysAfterGap(data: map<string, Obj>, prefix: string, gap: nat, later: nat, v: Obj)
    requires 1 <= gap < later && Key(prefix, gap) !in data
    ensures Disnumerated(data[Key(prefix, later) := v], prefix) == Disnumerated(data, prefix)
  {
    var d := Disnumerated(data, prefix);
    var data' := data[Key(prefix, later) := v];
    DisnumeratedIsRun(data, prefix, d);
    assert |d| < gap;
    forall n | 1 <= n <= |d| + 1
      ensures Key(prefix, n) != Key(prefix, later)
    {
      if Key(prefix, n) == Key(prefix, later) {
        KeyInjective(prefix, n, later);
      }
    }
    assert IsNumberedRun(data', prefix, d);
    DisnumeratedIsRun(data', prefix, d);
  }

  /** Maps that agree on every key `prefix1, prefix2, ...` give the same result. */
  lemma DisnumeratedReadsOnlyNumberedKeys(data: map<string, Obj>, data': map<string, Obj>, prefix: string)
    requires forall n :: 1 <= n ==> (Key(prefix, n) in data <==> Key(prefix, n) in data')
    requires forall n :: 1 <= n && Key(prefix, n) in data ==> data[Key(prefix, n)] == data'[Key(prefix, n)]
    ensures Disnumerated(data, prefix) == Disnumerated(data', prefix)
  {
    var d := Disnumerated(data, prefix);
    DisnumeratedIsRun(data, prefix, d);
    assert IsNumberedRun(data', prefix, d);
    DisnumeratedIsRun(data', prefix, d);
  }

  /** `disnumerate_prefix`: append `data[f'{prefix}{n}']` for n = 1, 2, ...
      until a KeyError. */
  method DisnumeratePrefix(data: map<string, Obj>, prefix: string) returns (lines: seq<Obj>)
    ensures lines == Disnumerated(data, prefix)
  {
    lines := [];
    var n := 1;
    while Key(prefix, n) in data
      invariant 1 <= n
      invariant forall j :: 1 <= j < n ==> Key(prefix, j) in data
      invariant lines + CollectFrom(data, prefix, n) == Disnumerated(data, prefix)
      decreases |data| + 1 - n
    {
      PresentKeysBound(data, prefix, n);
      lines := lines + [data[Key(prefix, n)]];
      n := n + 1;
    }
  }

  /** `' '.join(items)` and its kin for another separator. */
  function Join(items: seq<string>, sep: char): string
  {
    if items == [] then ""
    else if |items| == 1 then items[0]
    else items[0] + [sep] + Join(items[1..], sep)
  }

  /** `s.split(sep)` for a one-character separator. */
  function Split(s: string, sep: char): (parts: seq<string>)
    ensures |parts| >= 1
    decreases |s|
  {
    if sep !in s then [s]
    else
      var i := FirstIndex(s, sep);
      [s[..i]] + Split(s[i + 1..], sep)
  }

  function FirstIndex(s: string, c: char): (i: nat)
    requires c in s
    ensures i < |s| && s[i] == c && c !in s[..i]
  {
    if s[0] == c then 0 else 1 + FirstIndex(s[1..], c)
  }

  /** Splitting the joined line at the separator gives the elements back,
      provided there is at least one and none contains the separator. */
  lemma {:induction false} SplitJoin(items: seq<string>, sep: char)
    requires |items| >= 1
    requires forall i :: 0 <= i < |items| ==> sep !in items[i]
    ensures Split(Join(items, sep), sep) == items
  {
    if |items| > 1 {
      var rest := Join(items[1..], sep);
      var s := items[0] + [sep] + rest;
      assert sep in s by { assert s[|items[0]|] == sep; }
      FirstIndexAfter(items[0], sep, rest);
      assert s[..|items[0]|] == items[0];
      assert s[|items[0]| + 1..] == rest;
      SplitJoin(items[1..], sep);
      assert items == [items[0]] + items[1..];
    }
  }

  lemma {:induction false} FirstIndexAfter(a: string, c: char, b: string)
    requires c !in a
    ensures c in a + [c] + b && FirstIndex(a + [c] + b, c) == |a|
    decreases |a|
  {
    var s := a + [c] + b;
    assert s[|a|] == c;
    if |a| > 0 {
      assert s[1..] == a[1..] + [c] + b;
      FirstIndexAfter(a[1..], c, b);
    }
  }

  /** The lines `objects2lines` writes for one object: a list gives its
      length and then its elements joined by single spaces; anything else
      gives its `str`. */
  function ObjectLines(o: Obj): (r: seq<string>)
    ensures |r| == if o.List? then 2 else 1
  {
    match o
    case List(items) => [DecimalString(|items|), Join(items, ' ')]
    case Scalar(text) => [text]
  }

  /** A list's two lines read back as its length and, when it has elements
      none of which holds a space, its elements. */
  lemma ListLinesReadBack(items: seq<string>)
    ensures |ObjectLines(List(items))| == 2
    ensures IsDigits(ObjectLines(List(items))[0])
    ensures DecimalValue(ObjectLines(List(items))[0]) == |items|
    ensures |items| >= 1 && (forall i :: 0 <= i < |items| ==> ' ' !in items[i]) ==>
              Split(ObjectLines(List(items))[1], ' ') == items
  {
    DecimalRoundTrip(|items|);
    if |items| >= 1 && (forall i :: 0 <= i < |items| ==> ' ' !in items[i]) {
      SplitJoin(items, ' ');
    }
  }

  /** The value `objects2lines(objects)` returns: one line per object plus
      one more per list. */
  function Lines(objs: seq<Obj>): (r: seq<string>)
    ensures |r| == |objs| + ListCount(objs)
  {
    if objs == [] then [] else Lines(objs[..|objs| - 1]) + ObjectLines(objs[|objs| - 1])
  }

  function ListCount(objs: seq<Obj>): nat
  {
    if objs == [] then 0 else ListCount(objs[..|objs| - 1]) + (if objs[|objs| - 1].List? then 1 else 0)
  }

  /** `objects2lines` distributes over concatenation of its input. */
  lemma {:induction false} LinesConcat(a: seq<Obj>, b: seq<Obj>)
    ensures Lines(a + b) == Lines(a) + Lines(b)
    decreases |b|
  {
    if b != [] {
      var b' := b[..|b| - 1];
      assert (a + b)[..|a + b| - 1] == a + b';
      assert (a + b)[|a + b| - 1] == b[|b| - 1];
      LinesConcat(a, b');
    } else {
      assert a + b == a;
    }
  }

  /** `objects2lines`: append each object's lines in order. */
  method ObjectsToLines(objects: seq<Obj>) returns (lines: seq<string>)
    ensures lines == Lines(objects)
  {
    lines := [];
    for i := 0 to |objects|
      invariant lines == Lines(objects[..i])
    {
      var o := objects[i];
      match o {
        case List(items) =>
          lines := lines + [DecimalString(|items|)];
          lines := lines + [Join(items, ' ')];
        case Scalar(text) =>
          lines := lines + [text];
      }
      assert objects[..i + 1][..i] == objects[..i];
    }
    assert objects[..|objects|] == objects;
  }

  /** The value `parse_test_case` returns for an already parsed object. */
  function ParseTestCase(data: Case): TestCase
  {
    TestCase(Lines(Disnumerated(data, "input")), Lines(Disnumerated(data, "output")))
  }

  /** A test case depends only on the keys "input1", "input2", ... and
      "output1", "output2", ...; a case without "input1" has no input lines,
      one without "output1" no output lines. */
  lemma ParseTestCaseReadsOnlyNumberedKeys(data: Case, data': Case)
    requires forall n :: 1 <= n ==> (Key("input", n) in data <==> Key("input", n) in data')
    requires forall n :: 1 <= n && Key("input", n) in data ==> data[Key("input", n)] == data'[Key("input", n)]
    requires forall n :: 1 <= n ==> (Key("output", n) in data <==> Key("output", n) in data')
    requires forall n :: 1 <= n && Key("output", n) in data ==> data[Key("output", n)] == data'[Key("output", n)]
    ensures ParseTestCase(data) == ParseTestCase(data')
    ensures Key("input", 1) !in data ==> ParseTestCase(data).input == []
    ensures Key("output", 1) !in data ==> ParseTestCase(data).output == []
  {
    DisnumeratedReadsOnlyNumberedKeys(data, data', "input");
    DisnumeratedReadsOnlyNumberedKeys(data, data', "output");
    DisnumeratedIsRun(data, "input", []);
    DisnumeratedIsRun(data, "output", []);
  }

  /** The selection of `sample_tests`: `(edge + sample(random,
      maxTests))[:maxTests]`. `chosen` holds the distinct indices `sample`
      drew; `sample` raises ValueError unless 0 <= maxTests <= |random|.
      Otherwise there are exactly `maxTests` cases: the edge cases first, in
      file order, then the drawn random cases. */
  function SelectCases(edge: seq<Case>, random: seq<Case>, maxTests: int, chosen: seq<nat>): (r: Result<seq<Case>>)
    requires forall k :: 0 <= k < |chosen| ==> chosen[k] < |random|
    requires forall k, l :: 0 <= k < l < |chosen| ==> chosen[k] != chosen[l]
    requires 0 <= maxTests <= |random| ==> |chosen| == maxTests
    ensures r.Err? <==> maxTests < 0 || |random| < maxTests
    ensures r.Err? ==> r.error == ValueError
    ensures r.Ok? ==> |r.value| == maxTests
    ensures r.Ok? ==> forall i :: 0 <= i < |r.value| && i < |edge| ==> r.value[i] == edge[i]
    ensures r.Ok? ==> forall i :: |edge| <= i < |r.value| ==> r.value[i] == random[chosen[i - |edge|]]
  {
    if maxTests < 0 || |random| < maxTests then Err(ValueError)
    else
      var drawn := seq(|chosen|, k requires 0 <= k < |chosen| => random[chosen[k]]);
      Ok((edge + drawn)[..maxTests])
  }

  /** `sample_tests` after the files are read: the selected cases, parsed. */
  function SampleTests(edge: seq<Case>, random: seq<Case>, maxTests: int, chosen: seq<nat>): (r: Result<seq<TestCase>>)
    requires forall k :: 0 <= k < |chosen| ==> chosen[k] < |random|
    requires forall k, l :: 0 <= k < l < |chosen| ==> chosen[k] != chosen[l]
    requires 0 <= maxTests <= |random| ==> |chosen| == maxTests
    ensures r.Err? <==> maxTests < 0 || |random| < maxTests
    ensures r.Err? ==> r.error == ValueError
    ensures r.Ok? ==> |r.value| == maxTests
    ensures r.Ok? ==> forall i :: 0 <= i < |r.value| && i < |edge| ==> r.value[i] == ParseTestCase(edge[i])
    ensures r.Ok? ==> forall i :: |edge| <= i < |r.value| ==> r.value[i] == ParseTestCase(random[chosen[i - |edge|]])
  {
    match SelectCases(edge, random, maxTests, chosen)
    case Err(e) => Err(e)
    case Ok(selected) => Ok(seq(|selected|, i requires 0 <= i < |selected| => ParseTestCase(selected[i])))
  }
}
