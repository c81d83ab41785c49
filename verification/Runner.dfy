/** Running a suite in order: retries, variables, fail-fast and the counts of the result. */
module Runner {
  import opened Bits
  import opened Options
  import opened Tests

  // ----- One test with retries

  /** Whether attempt number `n` is the last one. */
  predicate Finishes(t: Test, n: nat, a: Attempt) {
    Passes(a) || (t.traceOnly && TraceConfirmed(a)) || n >= t.attempts
  }

  /** The first attempt at or after `n` that ends the retry loop. */
  function LastAttempt(t: Test, outcome: nat -> Attempt, n: nat): (k: nat)
    ensures n <= k && Finishes(t, k, outcome(k))
    ensures forall j :: n <= j < k ==> !Finishes(t, j, outcome(j))
    decreases t.attempts - n
  {
    if Finishes(t, n, outcome(n)) then n else LastAttempt(t, outcome, n + 1)
  }

  /** `time.Sleep` returns at once for a duration that is not positive. */
  function Sleep(d: I64): nat {
    if d > 0 then d else 0
  }

  /** The backoff after `k` doublings, in 64-bit arithmetic. */
  function Backoff(initial: I64, k: nat): I64 {
    if k == 0 then initial else ToI64(2 * Backoff(initial, k - 1) as int)
  }

  /** Nanoseconds slept in front of attempt `n`. */
  function Slept(initial: I64, n: nat): nat {
    if n <= 1 then 0 else Slept(initial, n - 1) + Sleep(Backoff(initial, n - 2))
  }

  /** The backoff after `k` doublings without a width. */
  function Exact(b: nat, k: nat): nat {
    if k == 0 then b else 2 * Exact(b, k - 1)
  }

  lemma {:induction false} WrapTwice(x: int)
    ensures ToI64(2 * ToI64(x) as int) == ToI64(2 * x)
  {
    var m := 0x1_0000_0000_0000_0000;
    var q, r := x / m, x % m;
    var t, h := (2 * r) / m, (2 * r) % m;
    DivModUnique(2 * x, m, 2 * q + t, h);
    DivModUnique(2 * (r - m), m, t - 2, h);
    assert ToI64(x) == r || ToI64(x) == r - m;
  }

  /** Doubling with wrap-around is wrapping the exact value. */
  lemma {:induction false} BackoffWraps(b: I64, k: nat)
    requires b > 0
    ensures Backoff(b, k) == ToI64(Exact(b, k))
    decreases k
  {
    if k > 0 {
      BackoffWraps(b, k - 1);
      WrapTwice(Exact(b, k - 1));
    }
  }

  lemma {:induction false} SleepExact(x: nat)
    ensures Sleep(ToI64(x)) <= x
    ensures Sleep(ToI64(x)) == x <==> x < 0x8000_0000_0000_0000
  {}

  lemma {:induction false} SleptBound(b: I64, n: nat)
    requires b > 0 && n >= 1
    ensures Slept(b, n) <= Exact(b, n - 1) - b
    ensures Slept(b, n) == Exact(b, n - 1) - b <==> n == 1 || Exact(b, n - 2) < 0x8000_0000_0000_0000
    decreases n
  {
    if n > 1 {
      SleptBound(b, n - 1);
      BackoffWraps(b, n - 2);
      SleepExact(Exact(b, n - 2));
    }
  }

  lemma {:induction false} ExactIsPower(b: nat, k: nat)
    ensures Exact(b, k) == b * Pow2(k)
    decreases k
  {
    if k > 0 {
      ExactIsPower(b, k - 1);
      assert b * (2 * Pow2(k - 1)) == 2 * (b * Pow2(k - 1));
    }
  }

  /** With a backoff `b` and `n` attempts the loop sleeps `b * (2^(n-1) - 1)` in all, exactly as long as
      the last sleep still fits a 64-bit duration; after that it sleeps less. */
  lemma {:induction false} RetryTime(b: I64, n: nat)
    requires b > 0 && n >= 1
    ensures Slept(b, n) == b * (Pow2(n - 1) - 1) <==> n == 1 || b * Pow2(n - 2) < 0x8000_0000_0000_0000
    ensures Slept(b, n) <= b * (Pow2(n - 1) - 1)
  {
    SleptBound(b, n);
    ExactIsPower(b, n - 1);
    if n > 1 { ExactIsPower(b, n - 2); }
    assert b * (Pow2(n - 1) - 1) == b * Pow2(n - 1) - b;
  }

  // ----- One test on the shared variables

  /** `env` is the environment of the before_all hooks, written to the variables at the start of every
      test; `exec` stands for running command `cmd` as attempt `n` of test `i`. */
  datatype World = World(env: Store, exec: (nat, nat, string) -> Attempt)

  /** Without a command, or with one that comes to nothing, the output is empty and so is all that is
      found in it. */
  function Attempted(w: World, i: nat, n: nat, cmd: string): Attempt {
    match w.exec(i, n, cmd)
    case Ran(assertions, json, matched) => if cmd == "" then Ran(assertions, "", "") else Ran(assertions, json, matched)
    case a => a
  }

  function Outcomes(w: World, i: nat, cmd: string): nat -> Attempt {
    (n: nat) => Attempted(w, i, n, cmd)
  }

  function Apply(store: Store, writes: seq<(string, string)>): Store
    decreases |writes|
  {
    if writes == [] then store else Apply(store[writes[0].0 := writes[0].1], writes[1..])
  }

  lemma {:induction false} ApplyUpToTwo(store: Store, writes: seq<(string, string)>)
    requires |writes| <= 2
    ensures writes == [] ==> Apply(store, writes) == store
    ensures |writes| == 1 ==> Apply(store, writes) == store[writes[0].0 := writes[0].1]
    ensures |writes| == 2 ==> Apply(store, writes) == store[writes[0].0 := writes[0].1][writes[1].0 := writes[1].1]
    decreases |writes|
  {
    if writes != [] {
      ApplyUpToTwo(store[writes[0].0 := writes[0].1], writes[1..]);
    }
  }

  /** Test `i` run alone from `store`: its result and the variables afterwards. */
  function Solo(w: World, t: Test, i: nat, store: Store): (TestResult, Store) {
    var begun := store + w.env;
    var f := Outcomes(w, i, Command(begun, t.run));
    var n := LastAttempt(t, f, 1);
    (Report(t, f(n), n), Apply(begun, Writes(t, f(n))))
  }

  // ----- What is reported and stored, told from the executions alone

  /** The execution ran and none of its assertions failed. */
  predicate AllHeld(a: Attempt) {
    a.Ran? && forall k :: 0 <= k < |a.assertions| ==> a.assertions[k].passed
  }

  /** `r` reports that the last attempt, number `n`, went like `a`. */
  predicate Tells(t: Test, n: nat, a: Attempt, r: TestResult) {
    && r.name == t.name && r.attempts == n
    && (r.passed <==> AllHeld(a))
    && (r.skipped <==> a.Skipped?)
    && (r.allowedFailure <==> t.allowFailure && !a.Skipped? && !AllHeld(a))
    && r.error == (if a.Errored? then a.error else "")
    && r.assertions == (if a.Ran? then a.assertions else [])
  }

  /** After this execution the test is not tried again. */
  predicate Enough(t: Test, a: Attempt) {
    || AllHeld(a)
    || (t.traceOnly && a.Ran?
        && (exists k :: 0 <= k < |a.assertions| && a.assertions[k].kind == "otel_trace" && a.assertions[k].passed))
  }

  /** `v` gets the text that the pattern matched. */
  predicate FromMatch(t: Test, cmd: string, a: Attempt, v: string) {
    && AllHeld(a) && cmd != "" && a.matched != "" && v == t.extract && v != ""
    && exists k :: 0 <= k < |t.stdoutMatches| && (t.stdoutMatches[k].Var? || t.stdoutMatches[k].text != "")
  }

  /** `v` gets the value found in the JSON output. */
  predicate FromJson(t: Test, cmd: string, a: Attempt, v: string) {
    AllHeld(a) && cmd != "" && a.json != "" && v == t.json && v != ""
  }

  /** The execution `a` of `cmd` turned the variables `before` into `after`: the matched text is stored last. */
  ghost predicate Stores(t: Test, cmd: string, a: Attempt, before: Store, after: Store) {
    forall v ::
      && (v in after <==> v in before || FromMatch(t, cmd, a, v) || FromJson(t, cmd, a, v))
      && (FromMatch(t, cmd, a, v) ==> after[v] == a.matched)
      && (FromJson(t, cmd, a, v) && !FromMatch(t, cmd, a, v) ==> after[v] == a.json)
      && (v in before && !FromJson(t, cmd, a, v) && !FromMatch(t, cmd, a, v) ==> after[v] == before[v])
  }

  /** Test `i`, started with the variables `before`, ended with the result `r` and the variables `after`. */
  ghost predicate Happened(w: World, t: Test, i: nat, before: Store, r: TestResult, after: Store) {
    var cmd, n := Command(before, t.run), r.attempts;
    && Tells(t, n, w.exec(i, n, cmd), r)
    && 1 <= n && (n == 1 || n <= t.attempts)
    && (n < t.attempts ==> Enough(t, w.exec(i, n, cmd)))
    && (forall k :: 1 <= k < n ==> !Enough(t, w.exec(i, k, cmd)))
    && Stores(t, cmd, w.exec(i, n, cmd), before, after)
  }

  lemma {:induction false} StoresWrites(w: World, t: Test, i: nat, n: nat, cmd: string, before: Store)
    ensures Stores(t, cmd, w.exec(i, n, cmd), before, Apply(before, Writes(t, Attempted(w, i, n, cmd))))
  {
    RawIsEmpty(t.stdoutMatches);
    ApplyUpToTwo(before, Writes(t, Attempted(w, i, n, cmd)));
  }

  lemma {:induction false} EnoughIs(w: World, t: Test, i: nat, n: nat, cmd: string)
    ensures Finishes(t, n, Attempted(w, i, n, cmd)) <==> Enough(t, w.exec(i, n, cmd)) || n >= t.attempts
  {}

  lemma {:induction false} TellsReport(w: World, t: Test, i: nat, n: nat, cmd: string)
    ensures Tells(t, n, w.exec(i, n, cmd), Report(t, Attempted(w, i, n, cmd), n))
  {}

  /** What the specification of a test says, told from the executions. */
  lemma {:induction false} LastHappened(w: World, t: Test, i: nat, before: Store)
    ensures var cmd := Command(before, t.run);
      var n := LastAttempt(t, Outcomes(w, i, cmd), 1);
      var o := Attempted(w, i, n, cmd);
      Happened(w, t, i, before, Report(t, o, n), Apply(before, Writes(t, o)))
  {
    var cmd := Command(before, t.run);
    var f := Outcomes(w, i, cmd);
    var n := LastAttempt(t, f, 1);
    assert f(n) == Attempted(w, i, n, cmd);
    TellsReport(w, t, i, n, cmd);
    StoresWrites(w, t, i, n, cmd, before);
    EnoughIs(w, t, i, n, cmd);
    forall k | 1 <= k < n ensures !Enough(t, w.exec(i, k, cmd)) && k < t.attempts {
      assert f(k) == Attempted(w, i, k, cmd);
      EnoughIs(w, t, i, k, cmd);
    }
    if n > 1 {
      assert !Enough(t, w.exec(i, n - 1, cmd));
    }
  }

  // ----- The suite in order

  datatype Class = Pass | Skip | Allowed | Fail

  function Classify(r: TestResult): Class {
    if r.passed then Pass else if r.skipped then Skip else if r.allowedFailure then Allowed else Fail
  }

  function Count(rs: seq<TestResult>, c: Class): nat {
    if rs == [] then 0 else Count(rs[..|rs| - 1], c) + (if Classify(rs[|rs| - 1]) == c then 1 else 0)
  }

  function SkippedResult(t: Test): TestResult {
    TestResult(t.name, false, true, false, [], "", 0)
  }

  /** Results and variables after the first `n` tests, without fail-fast. */
  function RunFirst(w: World, tests: seq<Test>, n: nat): (r: (seq<TestResult>, Store))
    requires n <= |tests|
    ensures |r.0| == n
  {
    if n == 0 then ([], map[])
    else
      var (rs, store) := RunFirst(w, tests, n - 1);
      var (r, next) := Solo(w, tests[n - 1], n - 1, store);
      (rs + [r], next)
  }

  function RunAll(w: World, tests: seq<Test>): (r: (seq<TestResult>, Store))
    ensures |r.0| == |tests|
  {
    RunFirst(w, tests, |tests|)
  }

  /** Index of the first result that stops a fail-fast run, or the number of results. */
  function FirstFailure(rs: seq<TestResult>): (k: nat)
    ensures k <= |rs|
    ensures forall i :: 0 <= i < k ==> Classify(rs[i]) != Fail
    ensures k < |rs| ==> Classify(rs[k]) == Fail
  {
    if rs == [] then 0
    else
      var k := FirstFailure(rs[..|rs| - 1]);
      if k < |rs| - 1 || Classify(rs[|rs| - 1]) == Fail then k else |rs|
  }

  datatype SuiteResult = SuiteResult(total: nat, passed: nat, failed: nat, skipped: nat, allowed: nat,
                                     tests: seq<TestResult>)

  /** The counts are those of the results so far. */
  predicate Tallied(s: SuiteResult) {
    && s.passed == Count(s.tests, Pass) && s.failed == Count(s.tests, Fail)
    && s.skipped == Count(s.tests, Skip) && s.allowed == Count(s.tests, Allowed)
  }

  predicate Accounted(s: SuiteResult) {
    s.total == |s.tests| && Tallied(s)
  }

  function Record(s: SuiteResult, r: TestResult): SuiteResult {
    var s' := s.(tests := s.tests + [r]);
    match Classify(r)
    case Pass => s'.(passed := s.passed + 1)
    case Skip => s'.(skipped := s.skipped + 1)
    case Allowed => s'.(allowed := s.allowed + 1)
    case Fail => s'.(failed := s.failed + 1)
  }

  /** The runner with its variable store. */
  class Runner {
    const w: World
    var vars: Store

    constructor (w: World)
      ensures this.w == w && vars == map[]
    {
      this.w := w;
      vars := map[];
    }

    /** Stores the values found in the output of a passing attempt. */
    method ProcessExtracts(t: Test, a: Attempt)
      requires Passes(a)
      modifies this`vars
      ensures vars == Apply(old(vars), Writes(t, a))
    {
      ghost var start := vars;
      ApplyUpToTwo(start, Writes(t, a));
      if t.json != "" {
        if a.json != "" {
          vars := vars[t.json := a.json];
        }
      }
      if Raw(t.stdoutMatches) != "" && t.extract != "" {
        if a.matched != "" {
          vars := vars[t.extract := a.matched];
        }
      }
    }

    /** One attempt: resolve the command, run it, store what it extracts. */
    method RunTestOnce(t: Test, i: nat, attempt: nat) returns (a: Attempt)
      modifies this`vars
      ensures a == Attempted(w, i, attempt, Command(old(vars), t.run))
      ensures vars == Apply(old(vars), Writes(t, a))
      ensures var cmd := Command(old(vars), t.run); Stores(t, cmd, w.exec(i, attempt, cmd), old(vars), vars)
    {
      StoresWrites(w, t, i, attempt, Command(vars, t.run), vars);
      a := Attempted(w, i, attempt, Command(vars, t.run));
      if Passes(a) {
        ProcessExtracts(t, a);
      }
    }

    /** `runs` counts executions and `slept` the time spent between them. */
    method RunTest(t: Test, i: nat) returns (r: TestResult, runs: nat, slept: nat)
      modifies this`vars
      ensures var outcome := Outcomes(w, i, Command(old(vars), t.run));
        && runs == LastAttempt(t, outcome, 1)
        && r == Report(t, outcome(runs), runs)
        && vars == Apply(old(vars), Writes(t, outcome(runs)))
      ensures slept == Slept(ToI64(t.backoff), runs)
      ensures Happened(w, t, i, old(vars), r, vars) && r.attempts == runs
    {
      LastHappened(w, t, i, vars);
      r, runs, slept := Retry(t, i);
    }

    /** The retry loop. */
    method Retry(t: Test, i: nat) returns (r: TestResult, runs: nat, slept: nat)
      modifies this`vars
      ensures var outcome := Outcomes(w, i, Command(old(vars), t.run));
        && runs == LastAttempt(t, outcome, 1)
        && r == Report(t, outcome(runs), runs)
        && vars == Apply(old(vars), Writes(t, outcome(runs)))
      ensures slept == Slept(ToI64(t.backoff), runs)
    {
      runs, slept := 0, 0;
      ghost var outcome := Outcomes(w, i, Command(vars, t.run));
      var last: Attempt;
      if t.attempts <= 1 {
        last := RunTestOnce(t, i, 1);
        runs := 1;
        assert outcome(1) == last;
        r := Report(t, last, 1);
        return;
      }
      var backoff := ToI64(t.backoff);
      var attempt := 1;
      while attempt <= t.attempts
        invariant 1 <= attempt <= t.attempts
        invariant vars == old(vars)
        invariant runs == attempt - 1 && slept == Slept(ToI64(t.backoff), attempt)
        invariant backoff == Backoff(ToI64(t.backoff), attempt - 1)
        invariant LastAttempt(t, outcome, 1) == LastAttempt(t, outcome, attempt)
        decreases t.attempts - attempt
      {
        last := RunTestOnce(t, i, attempt);
        assert outcome(attempt) == last;
        runs := runs + 1;
        if Passes(last) {
          return Report(t, last, attempt), runs, slept;
        }
        if t.traceOnly && TraceConfirmed(last) {
          return Report(t, last, attempt), runs, slept;
        }
        if attempt < t.attempts {
          slept := slept + Sleep(backoff);
          backoff := ToI64(2 * backoff as int);
        } else {
          break;
        }
        attempt := attempt + 1;
      }
      r := Report(t, last, t.attempts);
    }

    /** One test with the hooks' environment; the time between attempts is left to `RunTest`. */
    method RunTestWithHooks(t: Test, i: nat) returns (r: TestResult)
      modifies this
      ensures (r, vars) == Solo(w, t, i, old(vars))
      ensures Happened(w, t, i, old(vars) + w.env, r, vars)
    {
      vars := vars + w.env;
      var result, runs, slept := RunTest(t, i);
      r := result;
    }

    method RunSequential(tests: seq<Test>, failFast: bool) returns (suite: SuiteResult)
      requires vars == map[]
      modifies this
      ensures Accounted(suite) && |suite.tests| == |tests|
      // without fail-fast, every test runs in order
      ensures !failFast ==> (suite.tests, vars) == RunAll(w, tests)
      // with it, the same up to the first failure, and everything after that is skipped
      ensures failFast ==>
        var all := RunAll(w, tests).0;
        && StoppedAt(tests, all, suite.tests, FirstFailure(all))
        && suite.failed == (if FirstFailure(all) < |tests| then 1 else 0)
      // the same, told from the executions
      ensures Counted(suite)
      ensures !failFast ==> exists stores :: InTurn(w, tests, suite.tests, stores) && stores[|tests|] == vars
      ensures failFast ==> exists all, stores :: InTurn(w, tests, all, stores) && CutShort(tests, all, suite.tests)
    {
      var stopped := false;
      suite := SuiteResult(|tests|, 0, 0, 0, 0, []);
      for i := 0 to |tests|
        invariant SuiteSoFar(w, tests, failFast, i, stopped, suite, vars)
      {
        suite, stopped := RunNext(tests, failFast, i, suite, stopped);
      }
      SuiteEnds(w, tests, failFast, stopped, suite, vars);
      AccountedIsCounted(suite);
      ghost var stores := RunAllInTurn(w, tests);
      if failFast { StoppedIsCutShort(tests, RunAll(w, tests).0, suite.tests); }
    }

    /** The body of the source's loop. */
    method RunNext(tests: seq<Test>, failFast: bool, i: nat, suite: SuiteResult, stopped: bool)
      returns (suite': SuiteResult, stopped': bool)
      requires i < |tests| && SuiteSoFar(w, tests, failFast, i, stopped, suite, vars)
      modifies this
      ensures SuiteSoFar(w, tests, failFast, i + 1, stopped', suite', vars)
    {
      stopped' := stopped;
      if stopped {
        SuiteSkips(w, tests, failFast, i, suite, vars);
        suite' := Record(suite, SkippedResult(tests[i]));
        return;
      }
      SuiteRuns(w, tests, failFast, i, suite, vars);
      var r := RunTestWithHooks(tests[i], i);
      suite' := Record(suite, r);
      if Classify(r) == Fail {
        if failFast {
          stopped' := true;
        }
      }
    }
  }

  lemma {:induction false} CountMore(rs: seq<TestResult>, r: TestResult, c: Class)
    ensures Count(rs + [r], c) == Count(rs, c) + (if Classify(r) == c then 1 else 0)
  {
    assert (rs + [r])[..|rs|] == rs;
  }

  lemma {:induction false} RecordTallies(s: SuiteResult, r: TestResult)
    requires Tallied(s)
    ensures Tallied(Record(s, r))
  {
    CountMore(s.tests, r, Pass);
    CountMore(s.tests, r, Fail);
    CountMore(s.tests, r, Skip);
    CountMore(s.tests, r, Allowed);
  }

  lemma {:induction false} FirstFailureMore(rs: seq<TestResult>, r: TestResult)
    ensures FirstFailure(rs + [r]) ==
            if FirstFailure(rs) < |rs| || Classify(r) == Fail then FirstFailure(rs) else |rs| + 1
  {
    assert (rs + [r])[..|rs|] == rs;
  }

  /** What a stopped run has reported after `i` tests, of which `all` are the results it would have. */
  ghost predicate StoppedAt(tests: seq<Test>, all: seq<TestResult>, reported: seq<TestResult>, k: nat)
    requires |all| == |reported| <= |tests|
  {
    && (forall j :: 0 <= j < |all| && j <= k ==> reported[j] == all[j])
    && (forall j :: k < j < |all| ==> reported[j] == SkippedResult(tests[j]))
  }

  ghost predicate SuiteSoFar(w: World, tests: seq<Test>, failFast: bool, i: nat, stopped: bool,
                             suite: SuiteResult, vars: Store)
    requires i <= |tests|
  {
    var (all, store) := RunFirst(w, tests, i);
    && suite.total == |tests| && Tallied(suite) && |suite.tests| == i == |all|
    && (stopped ==> failFast && FirstFailure(all) < i && suite.failed == 1
                    && StoppedAt(tests, all, suite.tests, FirstFailure(all)))
    && (!stopped ==> suite.tests == all && vars == store)
    && (!stopped && failFast ==> FirstFailure(all) == i && suite.failed == 0)
  }

  lemma {:induction false} SuiteSkips(w: World, tests: seq<Test>, failFast: bool, i: nat,
                                      suite: SuiteResult, vars: Store)
    requires i < |tests| && SuiteSoFar(w, tests, failFast, i, true, suite, vars)
    ensures SuiteSoFar(w, tests, failFast, i + 1, true, Record(suite, SkippedResult(tests[i])), vars)
  {
    var (all, store) := RunFirst(w, tests, i);
    var r := Solo(w, tests[i], i, store).0;
    RecordTallies(suite, SkippedResult(tests[i]));
    FirstFailureMore(all, r);
    StoppedMore(tests, all, suite.tests, FirstFailure(all), r);
  }

  lemma {:induction false} StoppedMore(tests: seq<Test>, all: seq<TestResult>, reported: seq<TestResult>,
                                       k: nat, r: TestResult)
    requires k < |all| == |reported| < |tests| && StoppedAt(tests, all, reported, k)
    ensures StoppedAt(tests, all + [r], reported + [SkippedResult(tests[|all|])], k)
  {}

  lemma {:induction false} SuiteRuns(w: World, tests: seq<Test>, failFast: bool, i: nat,
                                     suite: SuiteResult, vars: Store)
    requires i < |tests| && SuiteSoFar(w, tests, failFast, i, false, suite, vars)
    ensures var (r, next) := Solo(w, tests[i], i, vars);
            SuiteSoFar(w, tests, failFast, i + 1, failFast && Classify(r) == Fail, Record(suite, r), next)
  {
    var (all, store) := RunFirst(w, tests, i);
    var r := Solo(w, tests[i], i, store).0;
    RecordTallies(suite, r);
    FirstFailureMore(all, r);
  }

  lemma {:induction false} SuiteEnds(w: World, tests: seq<Test>, failFast: bool, stopped: bool,
                                     suite: SuiteResult, vars: Store)
    requires SuiteSoFar(w, tests, failFast, |tests|, stopped, suite, vars)
    ensures Accounted(suite) && |suite.tests| == |tests|
    ensures !failFast ==> (suite.tests, vars) == RunAll(w, tests)
    ensures failFast ==>
      var all := RunAll(w, tests).0;
      && StoppedAt(tests, all, suite.tests, FirstFailure(all))
      && suite.failed == (if FirstFailure(all) < |tests| then 1 else 0)
  {}

  /** The tests ran one after the other from an empty store, each after the hooks' variables were stored. */
  ghost predicate InTurn(w: World, tests: seq<Test>, rs: seq<TestResult>, stores: seq<Store>) {
    && |rs| == |tests| && |stores| == |tests| + 1 && stores[0] == map[]
    && forall i :: 0 <= i < |tests| ==> Happened(w, tests[i], i, stores[i] + w.env, rs[i], stores[i + 1])
  }

  lemma {:induction false} SoloHappened(w: World, t: Test, i: nat, store: Store)
    ensures Happened(w, t, i, store + w.env, Solo(w, t, i, store).0, Solo(w, t, i, store).1)
  {
    LastHappened(w, t, i, store + w.env);
  }

  lemma {:induction false} InTurnMore(w: World, tests: seq<Test>, t: Test, rs: seq<TestResult>, stores: seq<Store>,
                                      r: TestResult, after: Store)
    requires InTurn(w, tests, rs, stores)
    requires Happened(w, t, |tests|, stores[|tests|] + w.env, r, after)
    ensures InTurn(w, tests + [t], rs + [r], stores + [after])
  {
    var n := |tests|;
    forall i | 0 <= i <= n
      ensures Happened(w, (tests + [t])[i], i, (stores + [after])[i] + w.env, (rs + [r])[i], (stores + [after])[i + 1])
    {
      if i < n { assert Happened(w, tests[i], i, stores[i] + w.env, rs[i], stores[i + 1]); }
    }
  }

  lemma {:induction false} RunFirstInTurn(w: World, tests: seq<Test>, n: nat) returns (stores: seq<Store>)
    requires n <= |tests|
    ensures InTurn(w, tests[..n], RunFirst(w, tests, n).0, stores) && stores[n] == RunFirst(w, tests, n).1
    decreases n
  {
    if n == 0 {
      stores := [map[]];
    } else {
      stores := RunFirstInTurn(w, tests, n - 1);
      stores := RunOneMore(w, tests, n - 1, stores);
    }
  }

  lemma {:induction false} RunOneMore(w: World, tests: seq<Test>, n: nat, stores: seq<Store>) returns (more: seq<Store>)
    requires n < |tests| && InTurn(w, tests[..n], RunFirst(w, tests, n).0, stores)
    requires stores[n] == RunFirst(w, tests, n).1
    ensures InTurn(w, tests[..n + 1], RunFirst(w, tests, n + 1).0, more) && more[n + 1] == RunFirst(w, tests, n + 1).1
  {
    var (rs, store) := RunFirst(w, tests, n);
    var (r, after) := Solo(w, tests[n], n, store);
    SoloHappened(w, tests[n], n, store);
    InTurnMore(w, tests[..n], tests[n], rs, stores, r, after);
    more := stores + [after];
    assert tests[..n + 1] == tests[..n] + [tests[n]];
    RunFirstStep(w, tests, n);
  }

  lemma {:induction false} RunFirstStep(w: World, tests: seq<Test>, n: nat)
    requires n < |tests|
    ensures var (rs, store) := RunFirst(w, tests, n);
            var (r, after) := Solo(w, tests[n], n, store);
            RunFirst(w, tests, n + 1) == (rs + [r], after)
  {}

  lemma {:induction false} RunAllInTurn(w: World, tests: seq<Test>) returns (stores: seq<Store>)
    ensures InTurn(w, tests, RunAll(w, tests).0, stores) && stores[|tests|] == RunAll(w, tests).1
  {
    stores := RunFirstInTurn(w, tests, |tests|);
    assert tests[..|tests|] == tests;
  }

  /** Neither passed nor skipped nor allowed to fail. */
  predicate Broke(r: TestResult) {
    !r.passed && !r.skipped && !r.allowedFailure
  }

  predicate BrokeBefore(all: seq<TestResult>, j: int) {
    exists k :: 0 <= k < j && k < |all| && Broke(all[k])
  }

  /** `reported` is `all` up to the first test that broke, and every later test is reported as skipped. */
  ghost predicate CutShort(tests: seq<Test>, all: seq<TestResult>, reported: seq<TestResult>) {
    && |reported| == |all| == |tests|
    && forall j :: 0 <= j < |all| ==>
         if BrokeBefore(all, j) then
           reported[j] == TestResult(tests[j].name, false, true, false, [], "", 0)
         else reported[j] == all[j]
  }

  lemma {:induction false} StoppedIsCutShort(tests: seq<Test>, all: seq<TestResult>, reported: seq<TestResult>)
    requires |reported| == |all| == |tests| && StoppedAt(tests, all, reported, FirstFailure(all))
    ensures CutShort(tests, all, reported)
  {
    var first := FirstFailure(all);
    forall j | 0 <= j < |all| ensures BrokeBefore(all, j) <==> first < j {
      if first < j { assert Broke(all[first]); }
    }
  }

  /** How many of the results have a given outcome. */
  predicate Counted(s: SuiteResult) {
    && s.total == |s.tests|
    && s.passed == |set k: nat | k < |s.tests| && s.tests[k].passed|
    && s.skipped == |set k: nat | k < |s.tests| && !s.tests[k].passed && s.tests[k].skipped|
    && s.allowed ==
       |set k: nat | k < |s.tests| && !s.tests[k].passed && !s.tests[k].skipped && s.tests[k].allowedFailure|
    && s.failed == |set k: nat | k < |s.tests| && Broke(s.tests[k])|
  }

  lemma {:induction false} CountIsSize(rs: seq<TestResult>, c: Class, ks: set<nat>)
    requires forall k: nat :: k in ks <==> k < |rs| && Classify(rs[k]) == c
    ensures |ks| == Count(rs, c)
    decreases |rs|
  {
    if rs == [] {
      assert ks == {};
    } else {
      var n := |rs| - 1;
      CountIsSize(rs[..n], c, ks - {n});
      assert n in ks ==> ks == (ks - {n}) + {n};
      assert n !in ks ==> ks == ks - {n};
    }
  }

  lemma {:induction false} AccountedIsCounted(s: SuiteResult)
    requires Accounted(s)
    ensures Counted(s)
  {
    var rs := s.tests;
    CountIsSize(rs, Pass, set k: nat | k < |rs| && rs[k].passed);
    CountIsSize(rs, Skip, set k: nat | k < |rs| && !rs[k].passed && rs[k].skipped);
    CountIsSize(rs, Allowed, set k: nat | k < |rs| && !rs[k].passed && !rs[k].skipped && rs[k].allowedFailure);
    CountIsSize(rs, Fail, set k: nat | k < |rs| && Broke(rs[k]));
  }

  /** Every result falls into exactly one class. */
  lemma {:induction false} CountsAddUp(rs: seq<TestResult>)
    ensures Count(rs, Pass) + Count(rs, Fail) + Count(rs, Skip) + Count(rs, Allowed) == |rs|
  {
    if rs != [] { CountsAddUp(rs[..|rs| - 1]); }
  }

  lemma {:induction false} Conservation(s: SuiteResult)
    requires Accounted(s)
    ensures s.passed + s.failed + s.skipped + s.allowed == s.total == |s.tests|
  {
    CountsAddUp(s.tests);
  }

  // ----- Several suites

  lemma {:induction false} CountConcat(a: seq<TestResult>, b: seq<TestResult>, c: Class)
    ensures Count(a + b, c) == Count(a, c) + Count(b, c)
  {
    if b == [] {
      assert a + b == a;
    } else {
      var n := |b| - 1;
      assert a + b == (a + b[..n]) + [b[n]] && b == b[..n] + [b[n]];
      CountConcat(a, b[..n], c);
      CountMore(a + b[..n], b[n], c);
      CountMore(b[..n], b[n], c);
    }
  }

  function Merge(a: SuiteResult, b: SuiteResult): SuiteResult {
    SuiteResult(a.total + b.total, a.passed + b.passed, a.failed + b.failed,
                a.skipped + b.skipped, a.allowed + b.allowed, a.tests + b.tests)
  }

  lemma {:induction false} MergeAccounted(a: SuiteResult, b: SuiteResult)
    requires Accounted(a) && Accounted(b)
    ensures Accounted(Merge(a, b))
  {
    CountConcat(a.tests, b.tests, Pass);
    CountConcat(a.tests, b.tests, Fail);
    CountConcat(a.tests, b.tests, Skip);
    CountConcat(a.tests, b.tests, Allowed);
  }

  /** The results of the first `n` sub-suites, in order. */
  function AllTests(results: seq<Option<SuiteResult>>, n: nat): seq<TestResult>
    requires n <= |results|
  {
    if n == 0 then []
    else AllTests(results, n - 1) + (if results[n - 1].Some? then results[n - 1].value.tests else [])
  }

  /** The totals over all sub-suites; `None` is a sub-configuration that fails to load or run, which ends
      the whole run with an error. */
  method RunMonorepo(results: seq<Option<SuiteResult>>) returns (suite: Option<SuiteResult>)
    requires forall i :: 0 <= i < |results| && results[i].Some? ==> Accounted(results[i].value)
    ensures suite.Some? <==> forall i :: 0 <= i < |results| ==> results[i].Some?
    ensures suite.Some? ==> Accounted(suite.value) && suite.value.tests == AllTests(results, |results|)
    ensures suite.Some? ==> Counted(suite.value)
    ensures suite.Some? ==> EachInPlace(results, suite.value.tests)
  {
    var total := SuiteResult(0, 0, 0, 0, 0, []);
    for i := 0 to |results|
      invariant Accounted(total) && total.tests == AllTests(results, i)
      invariant forall j :: 0 <= j < i ==> results[j].Some?
    {
      if results[i].None? {
        return None;
      }
      MergeAccounted(total, results[i].value);
      total := Merge(total, results[i].value);
    }
    AccountedIsCounted(total);
    AllInPlace(results);
    suite := Some(total);
  }

  /** The results of each sub-suite follow those of the sub-suites before it. */
  ghost predicate EachInPlace(results: seq<Option<SuiteResult>>, tests: seq<TestResult>) {
    forall i :: 0 <= i < |results| ==> results[i].Some? && HasAt(tests, |AllTests(results, i)|, results[i].value.tests)
  }

  predicate HasAt(tests: seq<TestResult>, from: nat, part: seq<TestResult>) {
    from + |part| <= |tests| && tests[from..from + |part|] == part
  }

  lemma {:induction false} AllInPlace(results: seq<Option<SuiteResult>>)
    requires forall i :: 0 <= i < |results| ==> results[i].Some?
    ensures EachInPlace(results, AllTests(results, |results|))
  {
    forall i | 0 <= i < |results|
      ensures HasAt(AllTests(results, |results|), |AllTests(results, i)|, results[i].value.tests)
    {
      InItsPlace(results, i, |results|);
    }
  }

  lemma {:induction false} InItsPlace(results: seq<Option<SuiteResult>>, i: nat, n: nat)
    requires i < n <= |results| && results[i].Some?
    ensures HasAt(AllTests(results, n), |AllTests(results, i)|, results[i].value.tests)
    decreases n
  {
    var before := AllTests(results, n - 1);
    if i < n - 1 {
      InItsPlace(results, i, n - 1);
      var from, len := |AllTests(results, i)|, |results[i].value.tests|;
      assert AllTests(results, n)[from..from + len] == before[from..from + len];
    } else {
      assert AllTests(results, n) == before + results[i].value.tests;
    }
  }
}
