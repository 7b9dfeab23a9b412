/**
 `scripts/ut_results.py`: reconciling what the test processes reported with the manifest of test
 methods counted from source, and the verdict over all of them.
 */
module RunResults {
  import opened Numerals
  import opened Sequences

  /** A codeunit of the manifest, which lists its methods once each. */
  datatype Entry = Entry(id: nat, name: string, methods: seq<string>)

  /** A line of the results: not JSON, JSON of another shape, or a record of one method. */
  datatype Line = NotJson | Malformed | Record(id: int, codeunit: string, test: string, passed: bool)

  /** What a codeunit's run left behind; `summaries` are the `N of M passed` lines of its log. */
  datatype Artifact = Artifact(lines: seq<Line>, summaries: seq<(string, string)>, status: int)

  datatype Standing = Passed | Failed | Missing | Duplicate
  datatype Result = Result(test: string, standing: Standing)

  datatype Complaint =
    | InvalidJson(line: nat)
    | UnexpectedResult(line: nat)
    | MissingMethod(test: string)
    | DuplicateMethod(test: string)
    | SummaryDiffers
    | ExitDiffers

  /** A well-formed record of this codeunit. */
  predicate Expected(e: Entry, line: Line) {
    line.Record? && line.id == e.id && line.codeunit == e.name && line.test in e.methods
  }

  /** The well-formed records of one method, in order. */
  function Records(e: Entry, lines: seq<Line>, test: string): seq<Line> {
    if lines == [] then [] else
    var last := lines[|lines| - 1];
    Records(e, lines[..|lines| - 1], test) + if Expected(e, last) && last.test == test then [last] else []
  }

  lemma {:induction false} RecordsAreRecords(e: Entry, lines: seq<Line>, test: string)
    ensures forall i :: 0 <= i < |Records(e, lines, test)| ==>
      Expected(e, Records(e, lines, test)[i]) && Records(e, lines, test)[i].test == test
  {
    if lines != [] {
      RecordsAreRecords(e, lines[..|lines| - 1], test);
    }
  }

  /** The lines that record one method, by position. */
  ghost function Recorded(e: Entry, lines: seq<Line>, test: string): set<nat> {
    set i | 0 <= i < |lines| && Reports(e, lines[i], test)
  }

  /** A line that is a well-formed record of the method. */
  predicate Reports(e: Entry, line: Line, test: string) {
    && line.Record? && line.id == e.id && line.codeunit == e.name
    && test in e.methods && line.test == test
  }

  ghost predicate Among(e: Entry, lines: seq<Line>, test: string, r: Line) {
    exists i :: i in Recorded(e, lines, test) && lines[i] == r
  }

  /** The records of a method are the lines that record it, as many and with the same verdicts. */
  lemma {:induction false} RecordsCount(e: Entry, lines: seq<Line>, test: string)
    ensures |Records(e, lines, test)| == |Recorded(e, lines, test)|
    ensures forall r :: r in Records(e, lines, test) <==> Among(e, lines, test, r)
  {
    if lines != [] {
      var n := |lines| - 1;
      RecordsCount(e, lines[..n], test);
      assert forall i :: 0 <= i < n ==> lines[..n][i] == lines[i];
      assert Recorded(e, lines, test) ==
             Recorded(e, lines[..n], test) + if Reports(e, lines[n], test) then {n} else {};
      RecordedMembers(e, lines, test);
    } else {
      assert Recorded(e, lines, test) == {};
    }
  }

  lemma RecordedMembers(e: Entry, lines: seq<Line>, test: string)
    requires lines != []
    ensures var n := |lines| - 1; forall r :: Among(e, lines, test, r) <==>
              Among(e, lines[..n], test, r) || (Reports(e, lines[n], test) && r == lines[n])
  {
    var n := |lines| - 1;
    forall i | 0 <= i < n
      ensures i in Recorded(e, lines, test) <==> i in Recorded(e, lines[..n], test)
      ensures lines[..n][i] == lines[i]
    {
    }
    assert n in Recorded(e, lines, test) <==> Reports(e, lines[n], test);
  }

  function Judge(e: Entry, lines: seq<Line>, test: string): Standing {
    var records := Records(e, lines, test);
    RecordsAreRecords(e, lines, test);
    if |records| == 0 then Missing
    else if |records| > 1 then Duplicate
    else if records[0].passed then Passed
    else Failed
  }

  /** A method passed or failed by its only record; it is missing without one and duplicate with more. */
  lemma JudgeByRecords(e: Entry, lines: seq<Line>, test: string)
    ensures var found := Recorded(e, lines, test);
      match Judge(e, lines, test)
      case Passed => |found| == 1 && forall i :: i in found ==> lines[i].Record? && lines[i].passed
      case Failed => |found| == 1 && exists i :: i in found && lines[i].Record? && !lines[i].passed
      case Missing => found == {}
      case Duplicate => |found| > 1
  {
    RecordsCount(e, lines, test);
    RecordsAreRecords(e, lines, test);
    var records := Records(e, lines, test);
    if |records| == 1 {
      forall i | i in Recorded(e, lines, test)
        ensures lines[i] == records[0]
      {
        assert lines[i] in records;
      }
      assert Among(e, lines, test, records[0]);
    }
  }

  /** How many of the first `n` methods passed. */
  function PassedCount(e: Entry, lines: seq<Line>, n: nat): nat
    requires n <= |e.methods|
  {
    if n == 0 then 0 else PassedCount(e, lines, n - 1) + if Judge(e, lines, e.methods[n - 1]).Passed? then 1 else 0
  }

  /** `len(expected)`. */
  function ExpectedCount(e: Entry): nat {
    |Elements(e.methods)|
  }

  predicate AllExpected(e: Entry, lines: seq<Line>) {
    forall i :: 0 <= i < |lines| ==> Expected(e, lines[i])
  }

  /** Each of the first `n` methods has exactly one record. */
  predicate RecordedOnce(e: Entry, lines: seq<Line>, n: nat)
    requires n <= |e.methods|
  {
    forall i :: 0 <= i < n ==> |Records(e, lines, e.methods[i])| == 1
  }

  /** Nothing to complain about: the codeunit's results are complete and agree with each other. */
  ghost predicate Reconciled(e: Entry, a: Artifact) {
    var passed := PassedCount(e, a.lines, |e.methods|);
    && AllExpected(e, a.lines) && RecordedOnce(e, a.lines, |e.methods|)
    && a.summaries == [(Decimal(passed), Decimal(ExpectedCount(e)))]
    && a.status == if passed == ExpectedCount(e) then 0 else 1
  }

  predicate AboutLine(e: Entry, line: Line, number: nat, c: Complaint) {
    || (c == InvalidJson(number) && line.NotJson?)
    || (c == UnexpectedResult(number) && !line.NotJson? && !Expected(e, line))
  }

  /** The complaints about the first `n` lines, which are numbered from 1. */
  ghost predicate AboutLines(e: Entry, lines: seq<Line>, n: nat, c: Complaint)
    requires n <= |lines|
  {
    exists i :: 0 <= i < n && AboutLine(e, lines[i], i + 1, c)
  }

  ghost predicate AboutMethod(e: Entry, lines: seq<Line>, test: string, c: Complaint) {
    || (c == MissingMethod(test) && Recorded(e, lines, test) == {})
    || (c == DuplicateMethod(test) && |Recorded(e, lines, test)| > 1)
  }

  /** The complaints about the first `n` methods. */
  ghost predicate AboutMethods(e: Entry, lines: seq<Line>, n: nat, c: Complaint)
    requires n <= |e.methods|
  {
    exists i :: 0 <= i < n && AboutMethod(e, lines, e.methods[i], c)
  }

  /** The complaints about the log and the exit status. */
  ghost predicate AboutRun(e: Entry, a: Artifact, c: Complaint) {
    var passed := PassedCount(e, a.lines, |e.methods|);
    match c
    case SummaryDiffers => a.summaries != [(Decimal(passed), Decimal(ExpectedCount(e)))]
    case ExitDiffers => a.status != if passed == ExpectedCount(e) then 0 else 1
    case _ => false
  }

  /** All there is to complain about. */
  ghost predicate Complains(e: Entry, a: Artifact, c: Complaint) {
    AboutLines(e, a.lines, |a.lines|, c) || AboutMethods(e, a.lines, |e.methods|, c) || AboutRun(e, a, c)
  }

  /** The records of the first `n` lines, by method. */
  ghost predicate SortedTo(e: Entry, lines: seq<Line>, n: nat, seen: map<string, seq<Line>>)
    requires n <= |lines|
  {
    forall name :: name in e.methods ==> name in seen && seen[name] == Records(e, lines[..n], name)
  }

  /** One turn of the first loop. */
  method ReadLine(e: Entry, lines: seq<Line>, n: nat, before: map<string, seq<Line>>)
    returns (seen: map<string, seq<Line>>, errors: seq<Complaint>)
    requires n < |lines| && SortedTo(e, lines, n, before)
    ensures SortedTo(e, lines, n + 1, seen)
    ensures errors == [] <==> Expected(e, lines[n])
    ensures forall c :: c in errors <==> AboutLine(e, lines[n], n + 1, c)
  {
    assert lines[..n + 1][..n] == lines[..n];
    var line := lines[n];
    seen, errors := before, [];
    if line.NotJson? {
      errors := [InvalidJson(n + 1)];
    } else if !Expected(e, line) {
      errors := [UnexpectedResult(n + 1)];
    } else {
      seen := seen[line.test := seen[line.test] + [line]];
    }
  }

  /** The first loop: sorting the records by method, complaining of every other line. */
  method ReadRecords(e: Entry, lines: seq<Line>) returns (seen: map<string, seq<Line>>, errors: seq<Complaint>)
    ensures forall name :: name in e.methods ==> name in seen && seen[name] == Records(e, lines, name)
    ensures errors == [] <==> AllExpected(e, lines)
    ensures forall c :: c in errors <==> AboutLines(e, lines, |lines|, c)
  {
    seen := map name | name in e.methods :: [];
    errors := [];
    for n := 0 to |lines|
      invariant SortedTo(e, lines, n, seen)
      invariant errors == [] <==> forall i :: 0 <= i < n ==> Expected(e, lines[i])
      invariant forall c :: c in errors <==> AboutLines(e, lines, n, c)
    {
      var more;
      seen, more := ReadLine(e, lines, n, seen);
      errors := errors + more;
    }
    assert lines[..|lines|] == lines;
  }

  /** One turn of the second loop. */
  method JudgeMethod(e: Entry, lines: seq<Line>, name: string, matches: seq<Line>)
    returns (result: Result, errors: seq<Complaint>)
    requires matches == Records(e, lines, name)
    ensures result == Result(name, Judge(e, lines, name))
    ensures errors == [] <==> |matches| == 1
    ensures forall c :: c in errors <==> AboutMethod(e, lines, name, c)
  {
    RecordsAreRecords(e, lines, name);
    RecordsCount(e, lines, name);
    if |matches| != 1 {
      errors := [if matches == [] then MissingMethod(name) else DuplicateMethod(name)];
      result := Result(name, if matches == [] then Missing else Duplicate);
    } else {
      errors := [];
      result := Result(name, if matches[0].passed then Passed else Failed);
    }
  }

  /** The second loop: one result per method of the manifest. */
  method JudgeMethods(e: Entry, lines: seq<Line>, seen: map<string, seq<Line>>)
    returns (results: seq<Result>, errors: seq<Complaint>)
    requires forall name :: name in e.methods ==> name in seen && seen[name] == Records(e, lines, name)
    ensures |results| == |e.methods|
    ensures forall i :: 0 <= i < |results| ==> results[i] == Result(e.methods[i], Judge(e, lines, e.methods[i]))
    ensures errors == [] <==> RecordedOnce(e, lines, |e.methods|)
    ensures forall c :: c in errors <==> AboutMethods(e, lines, |e.methods|, c)
  {
    results, errors := [], [];
    for n := 0 to |e.methods|
      invariant |results| == n
      invariant forall i :: 0 <= i < n ==> results[i] == Result(e.methods[i], Judge(e, lines, e.methods[i]))
      invariant errors == [] <==> RecordedOnce(e, lines, n)
      invariant forall c :: c in errors <==> AboutMethods(e, lines, n, c)
    {
      var result, more := JudgeMethod(e, lines, e.methods[n], seen[e.methods[n]]);
      results, errors := results + [result], errors + more;
    }
  }

  /** `sum(row['passed'] for row in methods)`. */
  method CountPassed(e: Entry, lines: seq<Line>, results: seq<Result>) returns (passed: nat)
    requires |results| == |e.methods|
    requires forall i :: 0 <= i < |results| ==> results[i] == Result(e.methods[i], Judge(e, lines, e.methods[i]))
    ensures passed == PassedCount(e, lines, |e.methods|)
  {
    passed := 0;
    for n := 0 to |results|
      invariant passed == PassedCount(e, lines, n)
    {
      passed := passed + if results[n].standing.Passed? then 1 else 0;
    }
  }

  method Reconcile(e: Entry, a: Artifact) returns (results: seq<Result>, errors: seq<Complaint>)
    ensures |results| == |e.methods|
    ensures forall i :: 0 <= i < |results| ==> results[i] == Result(e.methods[i], Judge(e, a.lines, e.methods[i]))
    ensures errors == [] <==> Reconciled(e, a)
    ensures forall c :: c in errors <==> Complains(e, a, c)
  {
    var seen, unexpected := ReadRecords(e, a.lines);
    var unrecorded;
    results, unrecorded := JudgeMethods(e, a.lines, seen);
    errors := unexpected + unrecorded;
    var passed := CountPassed(e, a.lines, results);
    if a.summaries != [(Decimal(passed), Decimal(ExpectedCount(e)))] {
      errors := errors + [SummaryDiffers];
    }
    if a.status != if passed == ExpectedCount(e) then 0 else 1 {
      errors := errors + [ExitDiffers];
    }
    forall c
      ensures c in errors <==> Complains(e, a, c)
    {
      assert c in errors <==> c in unexpected || c in unrecorded || AboutRun(e, a, c);
    }
  }

  // ------------------------------------------------------------------ the verdict

  /**
   Every line is a well-formed record of the codeunit, every method has exactly one record and it
   passed, the log says so in its one summary, and the process exited 0.
   */
  ghost predicate Perfect(e: Entry, a: Artifact) {
    && AllExpected(e, a.lines)
    && (forall i :: 0 <= i < |e.methods| ==> PassedOnce(e, a, e.methods[i]))
    && a.summaries == [(Decimal(|e.methods|), Decimal(|e.methods|))]
    && a.status == 0
  }

  ghost predicate PassedOnce(e: Entry, a: Artifact, test: string) {
    var found := Recorded(e, a.lines, test);
    |found| == 1 && forall i :: i in found ==> a.lines[i].Record? && a.lines[i].passed
  }

  lemma {:induction false} PassedCountBound(e: Entry, lines: seq<Line>, n: nat)
    requires n <= |e.methods|
    ensures PassedCount(e, lines, n) <= n
    ensures PassedCount(e, lines, n) == n <==> forall i :: 0 <= i < n ==> Judge(e, lines, e.methods[i]).Passed?
  {
    if n > 0 {
      PassedCountBound(e, lines, n - 1);
    }
  }

  /** A codeunit without complaint whose methods all passed is perfect, and conversely. */
  lemma PerfectIffReconciledAndPassed(e: Entry, a: Artifact)
    requires Distinct(e.methods)
    ensures Perfect(e, a) <==> Reconciled(e, a) && PassedCount(e, a.lines, |e.methods|) == |e.methods|
  {
    PassedCountBound(e, a.lines, |e.methods|);
    CountDistinct(e.methods);
    forall i | 0 <= i < |e.methods|
      ensures Judge(e, a.lines, e.methods[i]).Passed? <==> PassedOnce(e, a, e.methods[i])
    {
      JudgeByRecords(e, a.lines, e.methods[i]);
      RecordsCount(e, a.lines, e.methods[i]);
    }
  }

  /** `aggregate`: 0 exactly when every codeunit of the manifest is perfect. */
  method Aggregate(manifest: seq<Entry>, artifacts: seq<Artifact>) returns (status: int)
    requires |artifacts| == |manifest| && forall i :: 0 <= i < |manifest| ==> Distinct(manifest[i].methods)
    ensures status == 0 || status == 1
    ensures status == 0 <==> forall i :: 0 <= i < |manifest| ==> Perfect(manifest[i], artifacts[i])
  {
    var passed, expected, incomplete := 0, 0, 0;
    for n := 0 to |manifest|
      invariant passed <= expected && incomplete >= 0
      invariant passed == expected && incomplete == 0 <==> forall i :: 0 <= i < n ==> Perfect(manifest[i], artifacts[i])
    {
      var e, a := manifest[n], artifacts[n];
      var results, errors := Reconcile(e, a);
      PassedCountBound(e, a.lines, |e.methods|);
      PerfectIffReconciledAndPassed(e, a);
      var count := CountPassed(e, a.lines, results);
      passed, expected := passed + count, expected + |e.methods|;
      if errors != [] {
        incomplete := incomplete + 1;
      }
    }
    return if passed == expected && incomplete == 0 then 0 else 1;
  }
}
