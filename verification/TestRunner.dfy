/** The compatibility test runner of src/testing/NodeJSTestRunner.cpp: runTestSuite,
    runTestSuiteParallel and the cache of expected outputs they share. Running a test file under
    Node.js or protoJS is a function of the file: deterministic tests, timings left out. */
module TestRunner {

  datatype Outputs = Outputs(node: string -> string, protojs: string -> string)

  datatype TestResult = TestResult(testName: string, passed: bool, expected: string, actual: string, error: string)

  datatype Report = Report(
    total: nat, passed: nat, failed: nat, passRate: real,
    results: seq<TestResult>, issues: seq<string>, priority: string)

  // ---------------------------------------------------------------- one test

  predicate IsBlank(c: char) { c == ' ' || c == '\n' || c == '\r' || c == '\t' }

  function Trim(s: string): string {
    if s != "" && IsBlank(s[|s| - 1]) then Trim(s[..|s| - 1]) else s
  }

  const MISMATCH := "Output mismatch between Node.js and protoJS"

  /** What a test's result must be, whoever runs it and whatever is cached. */
  function ResultOf(o: Outputs, file: string): TestResult {
    var passed := Trim(o.node(file)) == Trim(o.protojs(file));
    TestResult(file, passed, o.node(file), o.protojs(file), if passed then "" else MISMATCH)
  }

  // ---------------------------------------------------------------- the report

  function ResultsOf(o: Outputs, files: seq<string>): seq<TestResult> {
    seq(|files|, i requires 0 <= i < |files| => ResultOf(o, files[i]))
  }

  function IssueText(testName: string, error: string): string {
    testName + ": " + error
  }

  function IssueOf(r: TestResult): seq<string> {
    if r.passed then [] else [IssueText(r.testName, r.error)]
  }

  function Passed(rs: seq<TestResult>): (n: nat)
    ensures n <= |rs|
  {
    if rs == [] then 0 else Passed(rs[..|rs| - 1]) + (if rs[|rs| - 1].passed then 1 else 0)
  }

  function Issues(rs: seq<TestResult>): seq<string> {
    if rs == [] then [] else Issues(rs[..|rs| - 1]) + IssueOf(rs[|rs| - 1])
  }

  function PassRate(passed: nat, total: nat): real {
    if total > 0 then passed as real / total as real * 100.0 else 0.0
  }

  const HIGH := "High - Significant compatibility issues detected"
  const MEDIUM := "Medium - Some compatibility issues need attention"
  const LOW := "Low - Good compatibility, minor issues remain"

  function Priority(rate: real): string {
    if rate < 80.0 then HIGH else if rate < 95.0 then MEDIUM else LOW
  }

  /** The report a list of results calls for. */
  function Summary(rs: seq<TestResult>): Report {
    var rate := PassRate(Passed(rs), |rs|);
    Report(|rs|, Passed(rs), |rs| - Passed(rs), rate, rs, Issues(rs), Priority(rate))
  }

  /** The running counters of both loops. */
  predicate Tally(rs: seq<TestResult>, passed: nat, failed: nat, issues: seq<string>) {
    passed == Passed(rs) && failed == |rs| - passed && issues == Issues(rs)
  }

  lemma TallyStep(rs: seq<TestResult>, passed: nat, failed: nat, issues: seq<string>, r: TestResult)
    requires Tally(rs, passed, failed, issues)
    ensures if r.passed then Tally(rs + [r], passed + 1, failed, issues)
            else Tally(rs + [r], passed, failed + 1, issues + [IssueText(r.testName, r.error)])
  {
    assert (rs + [r])[..|rs|] == rs;
    assert issues + [] == issues;
  }

  lemma SoFarStep(all: seq<TestResult>, rs: seq<TestResult>)
    requires |rs| < |all| && rs == all[..|rs|]
    ensures rs + [all[|rs|]] == all[..|rs| + 1]
  {
  }

  /** The slots of the sequential results. */
  lemma ResultAt(o: Outputs, files: seq<string>, i: nat)
    requires i < |files|
    ensures ResultsOf(o, files)[i] == ResultOf(o, files[i]) && ResultsOf(o, files)[i].testName == files[i]
  {
  }

  /** The counts cover every test, and an issue is noted exactly for each failed one. */
  lemma {:induction false} CountsAddUp(rs: seq<TestResult>)
    ensures Passed(rs) + |Issues(rs)| == |rs|
    ensures Passed(rs) == |rs| <==> forall i :: 0 <= i < |rs| ==> rs[i].passed
  {
    if rs != [] {
      CountsAddUp(rs[..|rs| - 1]);
      var init := rs[..|rs| - 1];
      assert rs == init + [rs[|rs| - 1]];
      if forall i :: 0 <= i < |init| ==> init[i].passed {
        assert forall i :: 0 <= i < |rs| - 1 ==> rs[i] == init[i];
      } else {
        var i :| 0 <= i < |init| && !init[i].passed;
        assert rs[i] == init[i];
      }
    }
  }

  // ---------------------------------------------------------------- what a result and a report say

  predicate Blanks(s: string) {
    forall i :: 0 <= i < |s| ==> s[i] == ' ' || s[i] == '\n' || s[i] == '\r' || s[i] == '\t'
  }

  /** Trim takes the blanks at the end away, all of them and nothing else. */
  lemma {:induction false} TrimMeans(s: string)
    ensures Trim(s) <= s && Blanks(s[|Trim(s)|..])
    ensures Trim(s) != "" ==> !IsBlank(Trim(s)[|Trim(s)| - 1])
  {
    if s != "" && IsBlank(s[|s| - 1]) {
      var init := s[..|s| - 1];
      TrimMeans(init);
      assert s[|Trim(s)|..] == init[|Trim(s)|..] + [s[|s| - 1]];
    }
  }

  lemma {:induction false} TrimOver(t: string, blanks: string)
    requires Blanks(blanks) && (t == "" || !IsBlank(t[|t| - 1]))
    ensures Trim(t + blanks) == t
  {
    var s := t + blanks;
    if blanks == "" {
      assert s == t;
    } else {
      assert s[..|s| - 1] == t + blanks[..|blanks| - 1] && IsBlank(s[|s| - 1]);
      TrimOver(t, blanks[..|blanks| - 1]);
    }
  }

  /** s is t, which ends in no blank, and then blanks. */
  predicate EndsIn(s: string, t: string) {
    t <= s && Blanks(s[|t|..]) && (t == "" || !IsBlank(t[|t| - 1]))
  }

  lemma TrimIff(s: string, t: string)
    ensures Trim(s) == t <==> EndsIn(s, t)
  {
    TrimMeans(s);
    if EndsIn(s, t) {
      TrimOver(t, s[|t|..]);
      assert t + s[|t|..] == s;
    }
  }

  /** A test passes if and only if the two outputs are the same up to blanks at the end; a failed one
      carries a message and a passed one none. */
  lemma PassedIff(o: Outputs, file: string)
    ensures var r := ResultOf(o, file);
      && (r.passed <==> exists t :: EndsIn(o.node(file), t) && EndsIn(o.protojs(file), t))
      && r.testName == file && r.expected == o.node(file) && r.actual == o.protojs(file)
      && (r.error == "" <==> r.passed)
  {
    var node, protojs := o.node(file), o.protojs(file);
    TrimIff(node, Trim(node));
    TrimIff(protojs, Trim(node));
    if t :| EndsIn(node, t) && EndsIn(protojs, t) {
      TrimIff(node, t);
      TrimIff(protojs, t);
    }
  }

  function PassedIn(rs: seq<TestResult>): set<int> {
    set i | 0 <= i < |rs| && rs[i].passed
  }

  lemma {:induction false} PassedIsCount(rs: seq<TestResult>)
    ensures Passed(rs) == |PassedIn(rs)|
  {
    if rs != [] {
      var n := |rs| - 1;
      var init := rs[..n];
      PassedIsCount(init);
      assert PassedIn(rs) == PassedIn(init) + (if rs[n].passed then {n} else {});
    }
  }

  lemma Cancel(p: real, n: real)
    requires n > 0.0
    ensures p / n * n == p
  {
  }

  lemma Commute(q: real, c: real, n: real)
    ensures q * c * n == c * (q * n)
  {
  }

  lemma Positive(a: real, b: real)
    requires a > 0.0 && b > 0.0
    ensures a * b > 0.0
  {
  }

  lemma Distribute(x: real, y: real, n: real)
    ensures (y - x) * n == y * n - x * n
  {
  }

  lemma Scaled(x: real, y: real, n: real)
    requires n > 0.0
    ensures x < y <==> x * n < y * n
  {
    Distribute(x, y, n);
    if x < y {
      Positive(y - x, n);
    } else if x > y {
      Distribute(y, x, n);
      Positive(x - y, n);
    }
  }

  lemma RateOf(p: nat, n: nat)
    requires n > 0
    ensures PassRate(p, n) * n as real == 100.0 * p as real
  {
    Cancel(p as real, n as real);
    Commute(p as real / n as real, 100.0, n as real);
  }

  lemma BelowScaled(rate: real, n: real, c: real, p: real)
    requires n > 0.0 && rate * n == p
    ensures rate < c <==> p < c * n
  {
    Scaled(rate, c, n);
  }

  lemma Cast(c: nat, n: nat)
    ensures c as real * n as real == (c * n) as real
  {
  }

  lemma CastLess(a: nat, b: nat)
    ensures a as real < b as real <==> a < b
  {
  }

  /** In integers: whether the rate is below c per cent. */
  lemma RateBelow(p: nat, n: nat, c: nat)
    requires n > 0
    ensures PassRate(p, n) < c as real <==> 100 * p < c * n
  {
    RateOf(p, n);
    Cast(100, p);
    Cast(c, n);
    BelowScaled(PassRate(p, n), n as real, c as real, (100 * p) as real);
    CastLess(100 * p, c * n);
  }

  lemma PrioritiesDiffer()
    ensures |HIGH| == 48 && |MEDIUM| == 49 && |LOW| == 45
  {
  }

  lemma PriorityOf(p: nat, n: nat)
    requires n > 0
    ensures var priority := Priority(PassRate(p, n));
      && (priority == HIGH <==> 100 * p < 80 * n)
      && (priority == MEDIUM <==> 80 * n <= 100 * p < 95 * n)
      && (priority == LOW <==> 100 * p >= 95 * n)
  {
    RateBelow(p, n, 80);
    RateBelow(p, n, 95);
    PrioritiesDiffer();
  }

  /** The numbers of a report, from the tests that passed alone. Without tests the rate is 0.0. */
  lemma SummaryMeans(rs: seq<TestResult>)
    ensures var s := Summary(rs); var p := |PassedIn(rs)|;
      && s.total == |rs| && s.passed == p && s.failed == |rs| - p && s.results == rs
      && (rs == [] ==> s.passRate == 0.0 && s.priority == HIGH)
      && (rs != [] ==>
            && s.passRate * |rs| as real == 100.0 * p as real
            && (s.priority == HIGH <==> 100 * p < 80 * |rs|)
            && (s.priority == MEDIUM <==> 80 * |rs| <= 100 * p < 95 * |rs|)
            && (s.priority == LOW <==> 100 * p >= 95 * |rs|))
  {
    PassedIsCount(rs);
    if rs != [] {
      RateOf(|PassedIn(rs)|, |rs|);
      PriorityOf(|PassedIn(rs)|, |rs|);
    }
  }

  predicate Ascending(ks: seq<int>) {
    forall i, j :: 0 <= i < j < |ks| ==> ks[i] < ks[j]
  }

  /** The places of the failed tests. */
  function FailedIn(rs: seq<TestResult>): (ks: seq<int>)
    ensures forall k :: 0 <= k < |ks| ==> 0 <= ks[k] < |rs|
  {
    if rs == [] then []
    else FailedIn(rs[..|rs| - 1]) + if rs[|rs| - 1].passed then [] else [|rs| - 1]
  }

  lemma {:induction false} FailedMeans(rs: seq<TestResult>, i: int)
    ensures Ascending(FailedIn(rs))
    ensures i in FailedIn(rs) <==> 0 <= i < |rs| && !rs[i].passed
  {
    if rs != [] {
      var init := rs[..|rs| - 1];
      FailedMeans(init, i);
      assert forall k :: 0 <= k < |FailedIn(init)| ==> FailedIn(init)[k] < |init|;
    }
  }

  lemma {:induction false} IssuesAt(rs: seq<TestResult>, k: nat)
    ensures |Issues(rs)| == |FailedIn(rs)|
    ensures k < |Issues(rs)| ==>
      Issues(rs)[k] == IssueText(rs[FailedIn(rs)[k]].testName, rs[FailedIn(rs)[k]].error)
  {
    if rs != [] { IssuesAt(rs[..|rs| - 1], k); }
  }

  /** The issues are the names and messages of the failed tests, each once and in their order. */
  lemma IssuesMean(rs: seq<TestResult>)
    ensures Ascending(FailedIn(rs)) && forall i :: i in FailedIn(rs) <==> 0 <= i < |rs| && !rs[i].passed
    ensures |Issues(rs)| == |FailedIn(rs)|
    ensures forall k :: 0 <= k < |Issues(rs)| ==>
      Issues(rs)[k] == rs[FailedIn(rs)[k]].testName + ": " + rs[FailedIn(rs)[k]].error
  {
    forall i ensures i in FailedIn(rs) <==> 0 <= i < |rs| && !rs[i].passed {
      FailedMeans(rs, i);
    }
    FailedMeans(rs, 0);
    IssuesAt(rs, 0);
    forall k | 0 <= k < |Issues(rs)|
      ensures Issues(rs)[k] == IssueText(rs[FailedIn(rs)[k]].testName, rs[FailedIn(rs)[k]].error)
    {
      IssuesAt(rs, k);
    }
  }

  // ---------------------------------------------------------------- the runner

  /** Where a concurrent test stands: nothing done, cache consulted, expected output known and
      stored, result written. */
  datatype Phase = Launched | Looked | Known | Written

  function Todo(p: Phase): nat {
    match p case Launched => 3 case Looked => 2 case Known => 1 case Written => 0
  }

  function TodoAll(ps: seq<Phase>): nat {
    if ps == [] then 0 else Todo(ps[0]) + TodoAll(ps[1..])
  }

  lemma {:induction false} TodoDrops(ps: seq<Phase>, t: nat, p: Phase)
    requires t < |ps| && Todo(p) < Todo(ps[t])
    ensures TodoAll(ps[t := p]) < TodoAll(ps)
  {
    if t == 0 {
      assert ps[0 := p][1..] == ps[1..];
    } else {
      assert ps[t := p][1..] == ps[1..][t - 1 := p];
      TodoDrops(ps[1..], t - 1, p);
    }
  }

  /** What holds of a concurrent test in each phase; `blank` is what its slot held at launch. */
  ghost predicate TaskOk(o: Outputs, file: string, phase: Phase, expected: string, result: TestResult, blank: TestResult, writes: nat) {
    && (phase == Looked ==> expected == "" || expected == o.node(file))
    && (phase == Known ==> expected == o.node(file))
    && writes == (if phase == Written then 1 else 0)
    && result == (if phase == Written then ResultOf(o, file) else blank)
  }

  /** All tests of a batch, and the slots outside it. */
  ghost predicate BatchOk(o: Outputs, files: seq<string>, lo: nat, hi: nat, before: seq<TestResult>,
                          phases: seq<Phase>, expected: seq<string>, results: seq<TestResult>, writes: seq<nat>) {
    && lo <= hi <= |files| == |before| == |results|
    && |phases| == |expected| == |writes| == hi - lo
    && (forall i | 0 <= i < |before| && (i < lo || hi <= i) :: results[i] == before[i])
    && (forall t :: 0 <= t < |phases| ==> TaskOk(o, files[lo + t], phases[t], expected[t], results[lo + t], before[lo + t], writes[t]))
  }

  lemma BatchStep(o: Outputs, files: seq<string>, lo: nat, hi: nat, before: seq<TestResult>,
                  phases: seq<Phase>, expected: seq<string>, results: seq<TestResult>, writes: seq<nat>,
                  t: nat, p: Phase, e: string, r: TestResult, w: nat)
    requires BatchOk(o, files, lo, hi, before, phases, expected, results, writes)
    requires t < |phases| && TaskOk(o, files[lo + t], p, e, r, before[lo + t], w)
    ensures BatchOk(o, files, lo, hi, before, phases[t := p], expected[t := e], results[lo + t := r], writes[t := w])
  {
  }

  class NodeJSTestRunner {
    var testCacheEnabled: bool
    var expectedOutputCache: map<string, string>

    constructor (enabled: bool)
      ensures testCacheEnabled == enabled && expectedOutputCache == map[]
    {
      testCacheEnabled, expectedOutputCache := enabled, map[];
    }

    /** Cached outputs are Node's. */
    ghost predicate Valid(o: Outputs)
      reads this
    {
      forall f :: f in expectedOutputCache ==> expectedOutputCache[f] == o.node(f)
    }

    /** First critical section of runTestInternal. */
    method Look(file: string) returns (expected: string)
      ensures expected == if testCacheEnabled && file in expectedOutputCache then expectedOutputCache[file] else ""
    {
      expected := "";
      if testCacheEnabled {
        if file in expectedOutputCache {
          expected := expectedOutputCache[file];
        }
      }
    }

    /** Run Node unless the cache had an answer, and store what it printed. */
    method FindExpected(o: Outputs, file: string, looked: string) returns (expected: string)
      requires Valid(o) && (looked == "" || looked == o.node(file))
      modifies this`expectedOutputCache
      ensures Valid(o) && expected == o.node(file)
    {
      expected := looked;
      if expected == "" {
        expected := o.node(file);
        if testCacheEnabled {
          expectedOutputCache := expectedOutputCache[file := expected];
        }
      }
    }

    /** Run protoJS and compare. */
    method Compare(o: Outputs, file: string, expected: string) returns (r: TestResult)
      ensures expected == o.node(file) ==> r == ResultOf(o, file)
    {
      var actual := o.protojs(file);
      var passed := Trim(expected) == Trim(actual);
      var error := "";
      if !passed {
        error := MISMATCH;
      }
      r := TestResult(file, passed, expected, actual, error);
    }

    method RunTestInternal(o: Outputs, file: string) returns (r: TestResult)
      requires Valid(o)
      modifies this`expectedOutputCache
      ensures Valid(o) && r == ResultOf(o, file)
    {
      var expected := Look(file);
      expected := FindExpected(o, file, expected);
      r := Compare(o, file, expected);
    }

    method RunTestSuite(o: Outputs, files: seq<string>) returns (report: Report)
      requires Valid(o)
      modifies this`expectedOutputCache
      ensures Valid(o) && report == Summary(ResultsOf(o, files))
    {
      var passed: nat, failed: nat := 0, 0;
      var results: seq<TestResult>, issues: seq<string> := [], [];
      ghost var all := ResultsOf(o, files);
      for i := 0 to |files|
        invariant Valid(o) && |results| == i && results == all[..i]
        invariant Tally(results, passed, failed, issues)
      {
        var result := RunTestInternal(o, files[i]);
        TallyStep(results, passed, failed, issues, result);
        ResultAt(o, files, i);
        SoFarStep(all, results);
        results := results + [result];
        if result.passed {
          passed := passed + 1;
        } else {
          failed := failed + 1;
          issues := issues + [IssueText(files[i], result.error)];
        }
      }
      assert results == all;
      var rate := PassRate(passed, |files|);
      report := Report(|files|, passed, failed, rate, results, issues, Priority(rate));
    }

    /** The next step of one concurrent test: consult the cache, make the expected output known,
        or compare. `result` and `writes` are its slot of the report and how often it was written. */
    method Step(o: Outputs, file: string, phase: Phase, expected: string, result: TestResult, ghost blank: TestResult, ghost writes: nat)
      returns (phase': Phase, expected': string, result': TestResult, ghost writes': nat)
      requires Valid(o) && phase != Written && TaskOk(o, file, phase, expected, result, blank, writes)
      modifies this`expectedOutputCache
      ensures Valid(o) && TaskOk(o, file, phase', expected', result', blank, writes')
      ensures Todo(phase') < Todo(phase)
    {
      result', writes' := result, writes;
      match phase {
        case Launched =>
          expected' := Look(file);
          phase' := Looked;
        case Looked =>
          expected' := FindExpected(o, file, expected);
          phase' := Known;
        case Known =>
          result' := Compare(o, file, expected);
          expected', phase', writes' := expected, Written, writes + 1;
      }
    }

    /** One batch of std::async tasks, files[lo..hi]: in every turn any unfinished task takes its
        next step, so all interleavings of their cache accesses and result writes are covered. */
    method RunBatch(o: Outputs, files: seq<string>, lo: nat, hi: nat, before: seq<TestResult>)
      returns (results: seq<TestResult>, ghost writes: seq<nat>)
      requires Valid(o) && lo <= hi <= |files| == |before|
      modifies this`expectedOutputCache
      ensures Valid(o) && |results| == |before|
      ensures forall i | 0 <= i < |before| && (i < lo || hi <= i) :: results[i] == before[i]
      ensures forall i :: lo <= i < hi ==> results[i] == ResultOf(o, files[i])
      ensures |writes| == hi - lo && forall t :: 0 <= t < hi - lo ==> writes[t] == 1
    {
      results := before;
      var phases := seq(hi - lo, _ => Launched);
      var expected := seq(hi - lo, _ => "");
      writes := seq(hi - lo, _ => 0);
      while exists t :: 0 <= t < |phases| && phases[t] != Written
        invariant Valid(o) && |phases| == hi - lo
        invariant BatchOk(o, files, lo, hi, before, phases, expected, results, writes)
        decreases TodoAll(phases)
      {
        var t :| 0 <= t < |phases| && phases[t] != Written;
        ghost var start := phases;
        var p, e, r;
        ghost var w;
        p, e, r, w := Step(o, files[lo + t], phases[t], expected[t], results[lo + t], before[lo + t], writes[t]);
        BatchStep(o, files, lo, hi, before, phases, expected, results, writes, t, p, e, r, w);
        phases, expected, results, writes := phases[t := p], expected[t := e], results[lo + t := r], writes[t := w];
        TodoDrops(start, t, p);
      }
      forall i | lo <= i < hi ensures results[i] == ResultOf(o, files[i]) {
        var t := i - lo;
        assert phases[t] == Written && TaskOk(o, files[lo + t], phases[t], expected[t], results[lo + t], before[lo + t], writes[t]);
      }
    }

    /** The parallel runner gives the sequential report for every limit and schedule; every index
        is written exactly once, and no batch is larger than the limit. */
    method RunTestSuiteParallel(o: Outputs, files: seq<string>, limit: nat)
      returns (report: Report, ghost writes: seq<nat>, ghost widest: nat)
      requires Valid(o)
      modifies this`expectedOutputCache
      ensures Valid(o) && report == Summary(ResultsOf(o, files))
      ensures |writes| == |files| && forall i :: 0 <= i < |files| ==> writes[i] == 1
      ensures widest <= if limit == 0 then 1 else limit
    {
      var maxConcurrency := if limit == 0 then 1 else limit;
      var results := seq(|files|, _ => TestResult("", false, "", "", ""));
      writes, widest := [], 0;
      var next := 0;
      while next < |files|
        invariant Valid(o) && next <= |files| == |results|
        invariant forall i :: 0 <= i < next ==> results[i] == ResultOf(o, files[i])
        invariant |writes| == next && forall i :: 0 <= i < next ==> writes[i] == 1
        invariant widest <= maxConcurrency
        decreases |files| - next
      {
        var lo, i := next, 0;
        while i < maxConcurrency && next < |files|
          invariant 0 <= i <= maxConcurrency && next == lo + i <= |files|
        {
          next := next + 1;
          i := i + 1;
        }
        ghost var w;
        results, w := RunBatch(o, files, lo, next, results);
        writes := writes + w;
        widest := if next - lo > widest then next - lo else widest;
      }
      assert results == ResultsOf(o, files);
      report := Summarise(results);
    }

    /** The counting loop at the end of the parallel runner. */
    method Summarise(results: seq<TestResult>) returns (report: Report)
      ensures report == Summary(results)
    {
      var passed: nat, failed: nat := 0, 0;
      var issues: seq<string> := [];
      for i := 0 to |results|
        invariant Tally(results[..i], passed, failed, issues)
      {
        var result := results[i];
        assert results[..i + 1] == results[..i] + [result];
        TallyStep(results[..i], passed, failed, issues, result);
        if result.passed {
          passed := passed + 1;
        } else {
          failed := failed + 1;
          issues := issues + [IssueText(result.testName, result.error)];
        }
      }
      assert results[..|results|] == results;
      var rate := PassRate(passed, |results|);
      report := Report(|results|, passed, failed, rate, results, issues, Priority(rate));
    }
  }
}
