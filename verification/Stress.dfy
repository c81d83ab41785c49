/** The stress scheduler: a main loop, a counting semaphore and one goroutine per run, as a system of
    atomic steps; and the grouping of the error messages it collects. */
module Stress {
  import opened Options
  import opened Tests

  datatype Config = Config(runs: nat, workers: nat, failFast: bool)

  /** The main loop: the fail-fast check, the wait for a semaphore slot, the wait for all goroutines. */
  datatype Main = Checking | Acquiring | Waiting | Finished

  /** A goroutine: the test runs; its counter is bumped; its message is logged; its duration is stored;
      its slot is free; the wait group knows. */
  datatype Stage = Running | Counted | Logged | Timed | Released | Joined

  datatype Worker = Worker(stage: Stage, passed: bool, message: string, duration: nat)

  /** `launchedAtFailure` records how many runs had been launched when the first failure was counted. */
  datatype State = State(main: Main, slots: nat, passes: nat, failures: nat,
                         errors: seq<string>, durations: seq<nat>, workers: seq<Worker>,
                         launchedAtFailure: Option<nat>)

  const Initial := State(Checking, 0, 0, 0, [], [], [], None)

  // ----- Steps

  /** A slot is taken and the goroutine started. */
  function Launched(a: State, g: Worker): State {
    a.(main := Checking, slots := a.slots + 1, workers := a.workers + [g])
  }

  ghost predicate MainStep(c: Config, a: State, b: State) {
    match a.main
    case Checking =>
      b == a.(main := if |a.workers| >= c.runs || (c.failFast && a.failures > 0) then Waiting else Acquiring)
    case Acquiring =>
      a.slots < c.workers && exists g: Worker :: g.stage == Running && b == Launched(a, g)
    case Waiting =>
      (forall i :: 0 <= i < |a.workers| ==> a.workers[i].stage == Joined) && b == a.(main := Finished)
    case Finished => false
  }

  /** The state after goroutine `i` moved on to `g`. */
  function Moved(a: State, i: nat, stage: Stage): State
    requires i < |a.workers|
  {
    a.(workers := a.workers[i := a.workers[i].(stage := stage)])
  }

  ghost predicate WorkerStep(a: State, b: State, i: nat)
    requires i < |a.workers|
  {
    var g := a.workers[i];
    match g.stage
    case Running =>
      if g.passed then b == Moved(a, i, Counted).(passes := a.passes + 1)
      else b == Moved(a, i, Counted).(failures := a.failures + 1,
        launchedAtFailure := if a.failures == 0 then Some(|a.workers|) else a.launchedAtFailure)
    case Counted =>
      b == Moved(a, i, Logged).(errors := if !g.passed && g.message != "" then a.errors + [g.message] else a.errors)
    case Logged => b == Moved(a, i, Timed).(durations := a.durations + [g.duration])
    case Timed => a.slots > 0 && b == Moved(a, i, Released).(slots := a.slots - 1)
    case Released => b == Moved(a, i, Joined)
    case Joined => false
  }

  ghost predicate Step(c: Config, a: State, b: State) {
    MainStep(c, a, b) || exists i :: 0 <= i < |a.workers| && WorkerStep(a, b, i)
  }

  ghost predicate Run(c: Config, ss: seq<State>) {
    ss != [] && ss[0] == Initial && forall k :: 0 < k < |ss| ==> Step(c, ss[k - 1], ss[k])
  }

  ghost predicate Reachable(c: Config, s: State) {
    exists ss :: Run(c, ss) && ss[|ss| - 1] == s
  }

  // ----- Counting goroutines

  datatype Measure =
    | Holding | InFlight | Passed | Failed | HasLogged | HasTimed
    | LoggedAs(text: string) | TimedAs(d: nat) | Work

  function Order(s: Stage): nat {
    match s
    case Running => 0 case Counted => 1 case Logged => 2 case Timed => 3 case Released => 4 case Joined => 5
  }

  function One(b: bool): nat {
    if b then 1 else 0
  }

  function Weight(g: Worker, m: Measure): nat {
    var at := Order(g.stage);
    match m
    case Holding => One(at <= 3)
    case InFlight => One(at == 0)
    case Passed => One(at >= 1 && g.passed)
    case Failed => One(at >= 1 && !g.passed)
    case HasLogged => One(at >= 2 && !g.passed && g.message != "")
    case HasTimed => One(at >= 3)
    case LoggedAs(text) => One(at >= 2 && !g.passed && g.message != "" && g.message == text)
    case TimedAs(d) => One(at >= 3 && g.duration == d)
    case Work => 5 - at
  }

  function Sum(gs: seq<Worker>, m: Measure): nat {
    if gs == [] then 0 else Sum(gs[..|gs| - 1], m) + Weight(gs[|gs| - 1], m)
  }

  lemma {:induction false} SumMore(gs: seq<Worker>, g: Worker, m: Measure)
    ensures Sum(gs + [g], m) == Sum(gs, m) + Weight(g, m)
  {
    assert (gs + [g])[..|gs|] == gs;
  }

  lemma {:induction false} SumUpdate(gs: seq<Worker>, i: nat, g: Worker, m: Measure)
    requires i < |gs|
    ensures Sum(gs[i := g], m) == Sum(gs, m) - Weight(gs[i], m) + Weight(g, m)
    ensures Sum(gs, m) >= Weight(gs[i], m)
    decreases |gs|
  {
    var n := |gs| - 1;
    if i < n {
      assert gs[i := g][..n] == gs[..n][i := g];
      SumUpdate(gs[..n], i, g, m);
    } else {
      assert gs[i := g][..n] == gs[..n];
    }
  }

  lemma {:induction false} SumBelow(gs: seq<Worker>, m: Measure, l: Measure)
    requires forall i :: 0 <= i < |gs| ==> Weight(gs[i], m) <= Weight(gs[i], l)
    ensures Sum(gs, m) <= Sum(gs, l)
    decreases |gs|
  {
    if gs != [] { SumBelow(gs[..|gs| - 1], m, l); }
  }

  /** A positive sum has a positive term. */
  lemma {:induction false} SumPositive(gs: seq<Worker>, m: Measure) returns (i: nat)
    requires Sum(gs, m) > 0
    ensures i < |gs| && Weight(gs[i], m) > 0
    decreases |gs|
  {
    i := |gs| - 1;
    if Weight(gs[i], m) == 0 { i := SumPositive(gs[..i], m); }
  }

  /** Every goroutine is running, or counted on one side. */
  lemma {:induction false} SumSides(gs: seq<Worker>)
    ensures Sum(gs, InFlight) + Sum(gs, Passed) + Sum(gs, Failed) == |gs|
  {
    if gs != [] { SumSides(gs[..|gs| - 1]); }
  }

  // ----- The invariant

  /** The counters and logs hold what the goroutines have put there. */
  ghost predicate CountsInv(s: State) {
    s.slots == Sum(s.workers, Holding) && TalliesInv(s) && SizesInv(s)
  }

  ghost predicate TalliesInv(s: State) {
    s.passes == Sum(s.workers, Passed) && s.failures == Sum(s.workers, Failed)
  }

  ghost predicate SizesInv(s: State) {
    |s.errors| == Sum(s.workers, HasLogged) && |s.durations| == Sum(s.workers, HasTimed)
  }

  ghost predicate LogsInv(s: State) {
    && (forall m :: multiset(s.errors)[m] == Sum(s.workers, LoggedAs(m)))
    && (forall d :: multiset(s.durations)[d] == Sum(s.workers, TimedAs(d)))
  }

  ghost predicate ShapeInv(c: Config, s: State) {
    && s.slots <= c.workers
    && |s.workers| <= c.runs && (s.main == Acquiring ==> |s.workers| < c.runs)
    && (s.main.Waiting? || s.main.Finished? ==> |s.workers| == c.runs || (c.failFast && s.failures > 0))
    && (s.main == Finished ==> forall i :: 0 <= i < |s.workers| ==> s.workers[i].stage == Joined)
  }

  /** Once a failure is counted, at most the run that already passed the check is still launched. */
  ghost predicate FailFastInv(c: Config, s: State) {
    && (s.launchedAtFailure.None? <==> s.failures == 0)
    && (c.failFast && s.failures > 0 ==>
         && s.launchedAtFailure.value <= |s.workers| <= s.launchedAtFailure.value + 1
         && (s.main == Acquiring ==> |s.workers| == s.launchedAtFailure.value)
         && s.failures + Sum(s.workers, InFlight) + One(s.main == Acquiring) <= c.workers + 1)
  }

  ghost predicate Inv(c: Config, s: State) {
    CountsInv(s) && LogsInv(s) && ShapeInv(c, s) && FailFastInv(c, s)
  }

  lemma {:induction false} LaunchKeepsInv(c: Config, a: State, g: Worker)
    requires Inv(c, a) && a.main == Acquiring && a.slots < c.workers && g.stage == Running
    ensures Inv(c, Launched(a, g))
  {
    var b := Launched(a, g);
    assert CountsInv(b) by {
      SumMore(a.workers, g, Holding);
      SumMore(a.workers, g, Passed);
      SumMore(a.workers, g, Failed);
      SumMore(a.workers, g, HasLogged);
      SumMore(a.workers, g, HasTimed);
    }
    assert LogsInv(b) by {
      forall m ensures Sum(b.workers, LoggedAs(m)) == Sum(a.workers, LoggedAs(m)) {
        SumMore(a.workers, g, LoggedAs(m));
      }
      forall d ensures Sum(b.workers, TimedAs(d)) == Sum(a.workers, TimedAs(d)) { SumMore(a.workers, g, TimedAs(d)); }
    }
    SumMore(a.workers, g, InFlight);
  }

  lemma {:induction false} MainKeepsInv(c: Config, a: State, b: State)
    requires Inv(c, a) && MainStep(c, a, b)
    ensures Inv(c, b)
  {
    if a.main == Acquiring {
      var g: Worker :| g.stage == Running && b == Launched(a, g);
      LaunchKeepsInv(c, a, g);
    }
  }

  lemma {:induction false} WorkerKeepsCounts(a: State, b: State, i: nat)
    requires CountsInv(a) && i < |a.workers| && WorkerStep(a, b, i)
    ensures CountsInv(b)
  {
    var h := b.workers[i];
    assert b.workers == a.workers[i := h];
    SumUpdate(a.workers, i, h, Holding);
    WorkerKeepsTallies(a, b, i);
    WorkerKeepsSizes(a, b, i);
  }

  lemma {:induction false} WorkerKeepsTallies(a: State, b: State, i: nat)
    requires TalliesInv(a) && i < |a.workers| && WorkerStep(a, b, i)
    ensures TalliesInv(b)
  {
    var h := b.workers[i];
    assert b.workers == a.workers[i := h];
    SumUpdate(a.workers, i, h, Passed);
    SumUpdate(a.workers, i, h, Failed);
  }

  lemma {:induction false} WorkerKeepsSizes(a: State, b: State, i: nat)
    requires SizesInv(a) && i < |a.workers| && WorkerStep(a, b, i)
    ensures SizesInv(b)
  {
    WorkerKeepsLogged(a, b, i);
    WorkerKeepsTimed(a, b, i);
  }

  lemma {:induction false} WorkerKeepsLogged(a: State, b: State, i: nat)
    requires |a.errors| == Sum(a.workers, HasLogged) && i < |a.workers| && WorkerStep(a, b, i)
    ensures |b.errors| == Sum(b.workers, HasLogged)
  {
    assert b.workers == a.workers[i := b.workers[i]];
    SumUpdate(a.workers, i, b.workers[i], HasLogged);
  }

  lemma {:induction false} WorkerKeepsTimed(a: State, b: State, i: nat)
    requires |a.durations| == Sum(a.workers, HasTimed) && i < |a.workers| && WorkerStep(a, b, i)
    ensures |b.durations| == Sum(b.workers, HasTimed)
  {
    assert b.workers == a.workers[i := b.workers[i]];
    SumUpdate(a.workers, i, b.workers[i], HasTimed);
  }

  lemma {:induction false} WorkerKeepsErrors(a: State, b: State, i: nat, m: string)
    requires multiset(a.errors)[m] == Sum(a.workers, LoggedAs(m)) && i < |a.workers| && WorkerStep(a, b, i)
    ensures multiset(b.errors)[m] == Sum(b.workers, LoggedAs(m))
  {
    assert b.workers == a.workers[i := b.workers[i]];
    SumUpdate(a.workers, i, b.workers[i], LoggedAs(m));
  }

  lemma {:induction false} WorkerKeepsDurations(a: State, b: State, i: nat, d: nat)
    requires multiset(a.durations)[d] == Sum(a.workers, TimedAs(d)) && i < |a.workers| && WorkerStep(a, b, i)
    ensures multiset(b.durations)[d] == Sum(b.workers, TimedAs(d))
  {
    assert b.workers == a.workers[i := b.workers[i]];
    SumUpdate(a.workers, i, b.workers[i], TimedAs(d));
  }

  lemma {:induction false} WorkerKeepsFailFast(c: Config, a: State, b: State, i: nat)
    requires CountsInv(a) && ShapeInv(c, a) && FailFastInv(c, a) && i < |a.workers| && WorkerStep(a, b, i)
    ensures FailFastInv(c, b)
  {
    assert b.workers == a.workers[i := b.workers[i]];
    SumUpdate(a.workers, i, b.workers[i], InFlight);
    SumBelow(a.workers, InFlight, Holding);
  }

  lemma {:induction false} WorkerKeepsInv(c: Config, a: State, b: State, i: nat)
    requires Inv(c, a) && i < |a.workers| && WorkerStep(a, b, i)
    ensures Inv(c, b)
  {
    WorkerKeepsCounts(a, b, i);
    WorkerKeepsFailFast(c, a, b, i);
    forall m ensures multiset(b.errors)[m] == Sum(b.workers, LoggedAs(m)) { WorkerKeepsErrors(a, b, i, m); }
    forall d ensures multiset(b.durations)[d] == Sum(b.workers, TimedAs(d)) { WorkerKeepsDurations(a, b, i, d); }
    WorkerKeepsShape(c, a, b, i);
  }

  lemma {:induction false} WorkerKeepsShape(c: Config, a: State, b: State, i: nat)
    requires ShapeInv(c, a) && i < |a.workers| && WorkerStep(a, b, i)
    ensures ShapeInv(c, b)
  {}

  lemma {:induction false} StepKeepsInv(c: Config, a: State, b: State)
    requires Inv(c, a) && Step(c, a, b)
    ensures Inv(c, b)
  {
    if MainStep(c, a, b) {
      MainKeepsInv(c, a, b);
    } else {
      var i :| 0 <= i < |a.workers| && WorkerStep(a, b, i);
      WorkerKeepsInv(c, a, b, i);
    }
  }

  lemma {:induction false} RunPrefix(c: Config, ss: seq<State>)
    requires Run(c, ss) && |ss| > 1
    ensures Run(c, ss[..|ss| - 1]) && Step(c, ss[|ss| - 2], ss[|ss| - 1])
    ensures ss[..|ss| - 1][|ss| - 2] == ss[|ss| - 2]
  {}

  lemma {:induction false} RunKeepsInv(c: Config, ss: seq<State>)
    requires Run(c, ss)
    ensures Inv(c, ss[|ss| - 1])
    decreases |ss|
  {
    if |ss| > 1 {
      RunPrefix(c, ss);
      RunKeepsInv(c, ss[..|ss| - 1]);
      StepKeepsInv(c, ss[|ss| - 2], ss[|ss| - 1]);
    }
  }

  // ----- Safety

  lemma {:induction false} ReachableInv(c: Config, s: State)
    requires Reachable(c, s)
    ensures Inv(c, s)
  {
    var ss :| Run(c, ss) && ss[|ss| - 1] == s;
    RunKeepsInv(c, ss);
  }

  /** In every reachable state: runs in flight fit the semaphore; every launched run is in flight or
      counted once; under fail-fast at most one run is launched after the first failure, and at most one
      more than `workers` runs fail. */
  lemma {:induction false} Safety(c: Config, s: State)
    requires Reachable(c, s)
    ensures Sum(s.workers, InFlight) <= s.slots <= c.workers
    ensures s.passes + s.failures + Sum(s.workers, InFlight) == |s.workers| <= c.runs
    ensures c.failFast && s.failures > 0 ==>
      s.launchedAtFailure.Some? && |s.workers| <= s.launchedAtFailure.value + 1 && s.failures <= c.workers + 1
  {
    ReachableInv(c, s);
    SumBelow(s.workers, InFlight, Holding);
    SumSides(s.workers);
  }

  lemma {:induction false} AllJoined(gs: seq<Worker>)
    requires forall i :: 0 <= i < |gs| ==> gs[i].stage == Joined
    ensures Sum(gs, InFlight) == 0 && Sum(gs, HasTimed) == |gs|
    decreases |gs|
  {
    if gs != [] { AllJoined(gs[..|gs| - 1]); }
  }

  /** When it ends, every launched run is counted and timed exactly once, and the errors are the
      non-empty messages of the failed runs. */
  lemma {:induction false} FinalCounts(c: Config, s: State)
    requires Reachable(c, s) && s.main == Finished
    ensures s.passes + s.failures == |s.workers| == |s.durations|
    ensures s.passes == Sum(s.workers, Passed) && s.failures == Sum(s.workers, Failed)
    ensures forall m :: multiset(s.errors)[m] == Sum(s.workers, LoggedAs(m))
    ensures forall d :: multiset(s.durations)[d] == Sum(s.workers, TimedAs(d))
    ensures !c.failFast || s.failures == 0 ==> |s.workers| == c.runs
  {
    ReachableInv(c, s);
    AllJoined(s.workers);
    SumSides(s.workers);
  }

  // ----- Progress

  function MainWork(m: Main): nat {
    match m
    case Checking => 2 case Acquiring => 1 case Waiting => 1 case Finished => 0
  }

  /** Bounds the steps still to come. */
  function Variant(c: Config, s: State): int {
    7 * (c.runs - |s.workers|) + MainWork(s.main) + Sum(s.workers, Work)
  }

  lemma {:induction false} LaunchCounts(c: Config, a: State, g: Worker)
    requires a.main == Acquiring && |a.workers| < c.runs && g.stage == Running
    ensures 0 <= Variant(c, Launched(a, g)) < Variant(c, a)
  {
    SumMore(a.workers, g, Work);
  }

  lemma {:induction false} MainStepCounts(c: Config, a: State, b: State)
    requires ShapeInv(c, a) && MainStep(c, a, b)
    ensures 0 <= Variant(c, b) < Variant(c, a)
  {
    if a.main == Acquiring {
      var g: Worker :| g.stage == Running && b == Launched(a, g);
      LaunchCounts(c, a, g);
    }
  }

  lemma {:induction false} WorkerStepCounts(c: Config, a: State, b: State, i: nat)
    requires |a.workers| <= c.runs && i < |a.workers| && WorkerStep(a, b, i)
    ensures 0 <= Variant(c, b) < Variant(c, a)
  {
    assert b.workers == a.workers[i := b.workers[i]];
    SumUpdate(a.workers, i, b.workers[i], Work);
  }

  lemma {:induction false} EveryStepCounts(c: Config, a: State, b: State)
    requires Inv(c, a) && Step(c, a, b)
    ensures 0 <= Variant(c, b) < Variant(c, a)
  {
    if MainStep(c, a, b) {
      MainStepCounts(c, a, b);
    } else {
      var i :| 0 <= i < |a.workers| && WorkerStep(a, b, i);
      WorkerStepCounts(c, a, b, i);
    }
  }

  /** No run of the scheduler is longer than seven steps per requested run and two more. */
  lemma {:induction false} RunsEnd(c: Config, ss: seq<State>)
    requires Run(c, ss)
    ensures |ss| - 1 + Variant(c, ss[|ss| - 1]) <= 7 * c.runs + 2
    ensures |ss| - 1 <= 7 * c.runs + 2
    decreases |ss|
  {
    if |ss| > 1 {
      var a, b := ss[|ss| - 2], ss[|ss| - 1];
      RunPrefix(c, ss);
      RunsEnd(c, ss[..|ss| - 1]);
      RunKeepsInv(c, ss[..|ss| - 1]);
      EveryStepCounts(c, a, b);
    }
  }

  ghost predicate CanStep(c: Config, s: State) {
    exists b :: Step(c, s, b)
  }

  /** A goroutine that has not ended can always go on. */
  lemma {:induction false} WorkerCanStep(c: Config, s: State, i: nat)
    requires Inv(c, s) && i < |s.workers| && s.workers[i].stage != Joined
    ensures CanStep(c, s)
  {
    var g := s.workers[i];
    SumUpdate(s.workers, i, g, Holding);
    var b := match g.stage
      case Running =>
        if g.passed then Moved(s, i, Counted).(passes := s.passes + 1)
        else Moved(s, i, Counted).(failures := s.failures + 1,
          launchedAtFailure := if s.failures == 0 then Some(|s.workers|) else s.launchedAtFailure)
      case Counted =>
        Moved(s, i, Logged).(errors := if !g.passed && g.message != "" then s.errors + [g.message] else s.errors)
      case Logged => Moved(s, i, Timed).(durations := s.durations + [g.duration])
      case Timed => Moved(s, i, Released).(slots := s.slots - 1)
      case Released => Moved(s, i, Joined)
      case Joined => s;
    assert WorkerStep(s, b, i);
    assert Step(c, s, b);
  }

  lemma {:induction false} NoWorkersNoLaunch(c: Config, ss: seq<State>)
    requires Run(c, ss) && c.workers == 0
    ensures ss[|ss| - 1].workers == []
    decreases |ss|
  {
    var n := |ss| - 1;
    if n > 0 {
      NoWorkersNoLaunch(c, ss[..n]);
      assert Step(c, ss[n - 1], ss[n]);
    }
  }

  /** A state that has not finished is stuck exactly when there are no worker slots and the main loop
      waits for one. */
  lemma {:induction false} StuckIff(c: Config, s: State)
    requires Reachable(c, s) && s.main != Finished
    ensures !CanStep(c, s) <==> c.workers == 0 && s.main == Acquiring
  {
    ReachableInv(c, s);
    match s.main
    case Checking =>
      var next := if |s.workers| >= c.runs || (c.failFast && s.failures > 0) then Waiting else Acquiring;
      assert Step(c, s, s.(main := next));
    case Waiting =>
      if i :| 0 <= i < |s.workers| && s.workers[i].stage != Joined {
        WorkerCanStep(c, s, i);
      } else {
        assert Step(c, s, s.(main := Finished));
      }
    case Acquiring =>
      if s.slots < c.workers {
        assert Step(c, s, Launched(s, Worker(Running, true, "", 0)));
      } else if c.workers > 0 {
        var i := SumPositive(s.workers, Holding);
        WorkerCanStep(c, s, i);
      } else {
        var ss :| Run(c, ss) && ss[|ss| - 1] == s;
        NoWorkersNoLaunch(c, ss);
      }
  }

  /** The scheduler can deadlock exactly when it is given runs and no workers. */
  lemma {:induction false} DeadlockIff(c: Config)
    ensures (exists s :: Reachable(c, s) && s.main != Finished && !CanStep(c, s)) <==> c.workers == 0 && c.runs > 0
  {
    if s :| Reachable(c, s) && s.main != Finished && !CanStep(c, s) {
      StuckIff(c, s);
      ReachableInv(c, s);
    }
    if c.workers == 0 && c.runs > 0 {
      var s := Initial.(main := Acquiring);
      var ss := [Initial, s];
      assert Step(c, Initial, s);
      assert Run(c, ss) && ss[|ss| - 1] == s;
      StuckIff(c, s);
    }
  }

  lemma {:induction false} ReachStep(c: Config, a: State, b: State)
    requires Reachable(c, a) && Step(c, a, b)
    ensures Reachable(c, b)
  {
    var ss :| Run(c, ss) && ss[|ss| - 1] == a;
    assert Run(c, ss + [b]) && (ss + [b])[|ss|] == b;
  }

  lemma {:induction false} ReachWorkerStep(c: Config, a: State, b: State, i: nat)
    requires Reachable(c, a) && i < |a.workers| && WorkerStep(a, b, i)
    ensures Reachable(c, b)
  {
    ReachStep(c, a, b);
  }

  /** A run that is going to fail. */
  const Failing := Worker(Running, false, "", 0)

  /** `n` runs are launched and none has got further. */
  function AllLaunched(n: nat): State {
    State(Checking, n, 0, 0, [], [], seq(n, _ => Failing), None)
  }

  lemma {:induction false} ReachLaunched(c: Config, n: nat)
    requires n <= c.workers && n <= c.runs
    ensures Reachable(c, AllLaunched(n))
    decreases n
  {
    if n == 0 {
      assert AllLaunched(0) == Initial;
      assert Run(c, [Initial]);
    } else {
      ReachLaunched(c, n - 1);
      var a := AllLaunched(n - 1);
      var b := a.(main := Acquiring);
      ReachStep(c, a, b);
      ReachStep(c, b, Launched(b, Failing));
      assert Launched(b, Failing) == AllLaunched(n);
    }
  }

  /** The first run fails and frees its slot after the main loop has passed the check. */
  lemma {:induction false} ReachFreed(c: Config) returns (s: State)
    requires 1 <= c.workers < c.runs
    ensures Reachable(c, s) && s.main == Acquiring && s.slots == c.workers - 1
    ensures s.passes == 0 && s.failures == 1 && |s.workers| == c.workers
    ensures forall i :: 0 <= i < |s.workers| && s.workers[i].stage == Running ==> !s.workers[i].passed
  {
    ReachLaunched(c, c.workers);
    var a := AllLaunched(c.workers);
    var b := a.(main := Acquiring);
    ReachStep(c, a, b);
    var counted := Moved(b, 0, Counted).(failures := 1, launchedAtFailure := Some(c.workers));
    ReachWorkerStep(c, b, counted, 0);
    var logged := Moved(counted, 0, Logged);
    ReachWorkerStep(c, counted, logged, 0);
    var timed := Moved(logged, 0, Timed).(durations := [0]);
    ReachWorkerStep(c, logged, timed, 0);
    s := Moved(timed, 0, Released).(slots := c.workers - 1);
    ReachWorkerStep(c, timed, s, 0);
  }

  /** All runs in flight go on to fail. */
  lemma {:induction false} ReachCounted(c: Config, a: State) returns (s: State)
    requires Reachable(c, a)
    requires forall i :: 0 <= i < |a.workers| && a.workers[i].stage == Running ==> !a.workers[i].passed
    ensures Reachable(c, s) && s.failures == a.failures + Sum(a.workers, InFlight)
    decreases Sum(a.workers, InFlight)
  {
    if Sum(a.workers, InFlight) == 0 {
      s := a;
    } else {
      var i := SumPositive(a.workers, InFlight);
      var b := Moved(a, i, Counted).(failures := a.failures + 1,
        launchedAtFailure := if a.failures == 0 then Some(|a.workers|) else a.launchedAtFailure);
      ReachWorkerStep(c, a, b, i);
      SumUpdate(a.workers, i, b.workers[i], InFlight);
      s := ReachCounted(c, b);
    }
  }

  /** Under fail-fast more runs than workers can fail exactly when there are more runs than workers, and a
      worker at all: the check comes before the wait for the slot, so one more run is launched. */
  lemma {:induction false} FailureBoundIsTight(c: Config)
    requires c.failFast
    ensures (exists s :: Reachable(c, s) && s.failures > c.workers) <==> 1 <= c.workers < c.runs
    ensures 1 <= c.workers < c.runs ==> exists s :: Reachable(c, s) && s.failures == c.workers + 1
  {
    if s :| Reachable(c, s) && s.failures > c.workers {
      Safety(c, s);
      if c.workers == 0 {
        var ss :| Run(c, ss) && ss[|ss| - 1] == s;
        NoWorkersNoLaunch(c, ss);
      }
    }
    if 1 <= c.workers < c.runs {
      var a := ReachFreed(c);
      var b := Launched(a, Failing);
      ReachStep(c, a, b);
      Safety(c, b);
      var s := ReachCounted(c, b);
      assert s.failures == c.workers + 1;
    }
  }

  // ----- Messages

  /** The message of a failed run: its first failed assertion, or else its error. */
  method TestErrorMessage(r: TestResult) returns (message: string)
    ensures (forall i :: 0 <= i < |r.assertions| ==> r.assertions[i].passed) ==> message == r.error
    ensures forall i :: FirstFailed(r.assertions, i) ==>
      var a := r.assertions[i]; message == a.kind + ": expected " + a.expected + ", got " + a.actual
  {
    for i := 0 to |r.assertions|
      invariant forall j :: 0 <= j < i ==> r.assertions[j].passed
    {
      if !r.assertions[i].passed {
        return Describe(r.assertions[i]);
      }
    }
    return r.error;
  }

  predicate FirstFailed(assertions: seq<Assertion>, i: int) {
    0 <= i < |assertions| && !assertions[i].passed && forall j :: 0 <= j < i ==> assertions[j].passed
  }

  function Describe(a: Assertion): string {
    a.kind + ": expected " + a.expected + ", got " + a.actual
  }

  datatype Group = Group(message: string, count: nat)

  function Total(groups: seq<Group>): nat {
    if groups == [] then 0 else Total(groups[..|groups| - 1]) + groups[|groups| - 1].count
  }

  lemma {:induction false} TotalMore(groups: seq<Group>, g: Group)
    ensures Total(groups + [g]) == Total(groups) + g.count
  {
    assert (groups + [g])[..|groups|] == groups;
  }

  method CountMessages(errors: seq<string>) returns (counts: map<string, nat>)
    ensures forall m :: m in counts <==> m in errors
    ensures forall m :: m in counts ==> counts[m] == multiset(errors)[m]
  {
    counts := map[];
    for i := 0 to |errors|
      invariant forall m :: m in counts <==> m in errors[..i]
      invariant forall m :: m in counts ==> counts[m] == multiset(errors[..i])[m]
    {
      var e := errors[i];
      assert errors[..i + 1] == errors[..i] + [e];
      counts := counts[e := if e in counts then counts[e] + 1 else 1];
    }
    assert errors[..|errors|] == errors;
  }

  lemma {:induction false} MostFrequentExists(counts: map<string, nat>, todo: set<string>)
    requires todo != {} && todo <= counts.Keys
    ensures exists m :: m in todo && forall k :: k in todo ==> counts[k] <= counts[m]
    decreases todo
  {
    var x :| x in todo;
    if todo == {x} {
      assert forall k :: k in todo ==> k == x;
    } else {
      MostFrequentExists(counts, todo - {x});
      var m :| m in todo - {x} && forall k :: k in todo - {x} ==> counts[k] <= counts[m];
      var best := if counts[x] > counts[m] then x else m;
      assert best in todo && forall k :: k in todo ==> k == x || k in todo - {x};
    }
  }

  predicate HasGroup(groups: seq<Group>, m: string) {
    exists k :: 0 <= k < |groups| && groups[k].message == m
  }

  /** The groups are right, distinct and in order, and the messages still to do are the rarer ones. */
  ghost predicate Grouped(errors: seq<string>, groups: seq<Group>, todo: set<string>) {
    && (forall k :: 0 <= k < |groups| ==> groups[k].count == multiset(errors)[groups[k].message] > 0)
    && (forall k, l :: 0 <= k < l < |groups| ==>
         groups[k].message != groups[l].message && groups[k].count >= groups[l].count)
    && (forall m :: m in errors <==> m in todo || HasGroup(groups, m))
    && (forall m, k :: m in todo && 0 <= k < |groups| ==>
         m != groups[k].message && multiset(errors)[m] <= groups[k].count)
  }

  lemma {:induction false} GroupMore(errors: seq<string>, groups: seq<Group>, todo: set<string>, m: string)
    requires Grouped(errors, groups, todo) && m in todo
    requires forall k :: k in todo ==> multiset(errors)[k] <= multiset(errors)[m]
    ensures Grouped(errors, groups + [Group(m, multiset(errors)[m])], todo - {m})
  {
    var more := groups + [Group(m, multiset(errors)[m])];
    assert m in errors;
    forall x ensures HasGroup(more, x) <==> HasGroup(groups, x) || x == m {
      if HasGroup(groups, x) {
        var k :| 0 <= k < |groups| && groups[k].message == x;
        assert more[k].message == x;
      }
      assert more[|groups|].message == m;
    }
  }

  /** One group per distinct message with the number of its occurrences, most frequent first; the counts
      add up to the number of errors. */
  method DedupErrors(errors: seq<string>) returns (groups: seq<Group>)
    ensures forall m :: m in errors <==> HasGroup(groups, m)
    ensures forall k :: 0 <= k < |groups| ==> groups[k].count == multiset(errors)[groups[k].message] > 0
    ensures forall k, l :: 0 <= k < l < |groups| ==>
      groups[k].message != groups[l].message && groups[k].count >= groups[l].count
    ensures Total(groups) == |errors|
  {
    var counts := CountMessages(errors);
    groups := [];
    var todo := counts.Keys;
    ghost var rest := multiset(errors);
    while todo != {}
      invariant todo <= counts.Keys
      invariant Grouped(errors, groups, todo)
      invariant forall m :: rest[m] == if m in todo then multiset(errors)[m] else 0
      invariant Total(groups) + |rest| == |errors|
      decreases todo
    {
      MostFrequentExists(counts, todo);
      var m :| m in todo && forall k :: k in todo ==> counts[k] <= counts[m];
      TotalMore(groups, Group(m, counts[m]));
      GroupMore(errors, groups, todo, m);
      groups := groups + [Group(m, counts[m])];
      todo := todo - {m};
      rest := rest[m := 0];
    }
    assert rest == multiset{};
  }
}
