/** Parallel execution: one goroutine per test on a shared variable store, every interleaving of their
    steps, and exactly when all of them give what running in order gives. */
module Parallel {
  import opened Options
  import opened Tests
  import opened Chains
  import opened Runner

  // ----- The step model

  /** Where a test's goroutine is. */
  datatype Thread =
    | Propagating(todo: set<string>)                                   // hook variables still to be stored
    | Starting(attempt: nat)                                           // about to resolve the command
    | Running(attempt: nat, cmd: string)                               // the command runs
    | Storing(result: TestResult, writes: seq<(string, string)>)       // extracted values still to be stored
    | Done(result: TestResult)

  datatype State = State(store: Store, threads: seq<Thread>)

  function InitialThread(w: World): Thread {
    Propagating(w.env.Keys)
  }

  function Initial(w: World, tests: seq<Test>): State {
    State(map[], seq(|tests|, i => InitialThread(w)))
  }

  /** One atomic step of the goroutine of test `i`; the hook variables are stored in any order. */
  ghost predicate ThreadStep(w: World, t: Test, i: nat, s: Store, th: Thread, s': Store, th': Thread) {
    match th
    case Propagating(todo) =>
      if todo == {} then s' == s && th' == Starting(1)
      else exists k :: k in todo && k in w.env && s' == s[k := w.env[k]] && th' == Propagating(todo - {k})
    case Starting(n) => s' == s && th' == Running(n, Command(s, t.run))
    case Running(n, cmd) =>
      var a := Attempted(w, i, n, cmd);
      s' == s && th' == if Finishes(t, n, a) then Storing(Report(t, a, n), Writes(t, a)) else Starting(n + 1)
    case Storing(r, writes) =>
      if writes == [] then s' == s && th' == Done(r)
      else s' == s[writes[0].0 := writes[0].1] && th' == Storing(r, writes[1..])
    case Done(_) => false
  }

  ghost predicate Step(w: World, tests: seq<Test>, a: State, b: State) {
    |a.threads| == |b.threads| == |tests| &&
    exists i :: 0 <= i < |tests| && ThreadStep(w, tests[i], i, a.store, a.threads[i], b.store, b.threads[i])
      && b.threads == a.threads[i := b.threads[i]]
  }

  /** A run of the goroutines from the start. */
  ghost predicate Run(w: World, tests: seq<Test>, ss: seq<State>) {
    ss != [] && ss[0] == Initial(w, tests) && forall k :: 0 < k < |ss| ==> Step(w, tests, ss[k - 1], ss[k])
  }

  ghost predicate Reachable(w: World, tests: seq<Test>, s: State) {
    exists ss :: Run(w, tests, ss) && ss[|ss| - 1] == s
  }

  predicate Finished(s: State) {
    forall i :: 0 <= i < |s.threads| ==> s.threads[i].Done?
  }

  function Results(s: State): seq<TestResult>
    requires Finished(s)
  {
    seq(|s.threads|, i requires 0 <= i < |s.threads| => s.threads[i].result)
  }

  // ----- When the order cannot matter

  /** The command of a test is not empty when the hooks' variables are filled in. */
  predicate HasCommand(t: Test, env: Store) {
    Command(env, t.run) != ""
  }

  /** Test `t` can store variable `v`. */
  predicate CanExtract(t: Test, env: Store, v: string) {
    v != "" && HasCommand(t, env) && (t.json == v || (t.extract == v && Raw(t.stdoutMatches) != ""))
  }

  /** Every variable of the command of test `i` can be there when the others have run. */
  predicate Resolvable(tests: seq<Test>, env: Store, i: nat)
    requires i < |tests|
  {
    forall u :: u in Names(tests[i].run) ==>
      IsField(u) && (u in env || exists j :: 0 <= j < |tests| && j != i && CanExtract(tests[j], env, u))
  }

  /** If test `j` stores `v`, then no hook and no test `i` stores it, and test `i` does not read it in a
      command that can be resolved at all. */
  predicate Apart(tests: seq<Test>, env: Store, i: nat, j: nat, v: string)
    requires i < |tests| && j < |tests|
  {
    CanExtract(tests[j], env, v) ==>
      !CanExtract(tests[i], env, v) && v !in env && (v in Names(tests[i].run) ==> !Resolvable(tests, env, i))
  }

  ghost predicate Independent(tests: seq<Test>, env: Store) {
    forall i: nat, j: nat, v :: i < |tests| && j < |tests| && i != j ==> Apart(tests, env, i, j, v)
  }

  /** Every interleaving gives each test the result, and the variables the values, of the run in order. */
  ghost predicate ScheduleIndependent(tests: seq<Test>, env: Store) {
    forall exec: (nat, nat, string) -> Attempt, s ::
      Reachable(World(env, exec), tests, s) && Finished(s) ==>
        (Results(s), s.store) == RunAll(World(env, exec), tests)
  }

  // ----- Facts about resolving and storing

  /** A variable of the text is missing, or cannot be named in a template. */
  predicate Lacks(store: Store, text: Text, u: string) {
    u in Names(text) && !(IsField(u) && u in store)
  }

  lemma {:induction false} NamesTail(text: Text)
    requires text != []
    ensures Names(text) == Names(text[1..]) + (match text[0] case Lit(_) => {} case Var(name) => {name})
  {
    assert text == [text[0]] + text[1..];
  }

  lemma {:induction false} ResolveMissing(store: Store, text: Text, u: string)
    requires Lacks(store, text, u)
    ensures Resolve(store, text) == None
    decreases |text|
  {
    if text != [] {
      NamesTail(text);
      if u in Names(text[1..]) { ResolveMissing(store, text[1..], u); }
    }
  }

  lemma {:induction false} ResolveAgree(a: Store, b: Store, text: Text)
    requires forall u :: u in Names(text) ==> (u in a <==> u in b) && (u in a ==> a[u] == b[u])
    ensures Resolve(a, text) == Resolve(b, text)
    decreases |text|
  {
    if text != [] {
      NamesTail(text);
      ResolveAgree(a, b, text[1..]);
    }
  }

  /** A command that resolves is at least as long as each value in it. */
  lemma {:induction false} ResolveLength(store: Store, text: Text, u: string)
    requires forall v :: v in Names(text) ==> IsField(v) && v in store
    ensures Resolve(store, text).Some?
    ensures u in Names(text) ==> |Resolve(store, text).value| >= |store[u]|
    decreases |text|
  {
    if text != [] {
      NamesTail(text);
      ResolveLength(store, text[1..], u);
    }
  }

  /** The value last written to `v`. */
  function Lookup(writes: seq<(string, string)>, v: string): Option<string> {
    if writes == [] then None
    else if writes[|writes| - 1].0 == v then Some(writes[|writes| - 1].1)
    else Lookup(writes[..|writes| - 1], v)
  }

  lemma {:induction false} ApplyLooksUp(store: Store, writes: seq<(string, string)>, v: string)
    ensures v in Apply(store, writes) <==> Lookup(writes, v).Some? || v in store
    ensures v in Apply(store, writes) ==>
            Apply(store, writes)[v] == if Lookup(writes, v).Some? then Lookup(writes, v).value else store[v]
    decreases |writes|
  {
    if writes != [] {
      var n := |writes| - 1;
      ApplyLast(store, writes);
      ApplyLooksUp(store, writes[..n], v);
    }
  }

  lemma {:induction false} ApplyLast(store: Store, writes: seq<(string, string)>)
    requires writes != []
    ensures var n := |writes| - 1; Apply(store, writes) == Apply(store, writes[..n])[writes[n].0 := writes[n].1]
    decreases |writes|
  {
    var n := |writes| - 1;
    if n > 0 {
      ApplyLast(store[writes[0].0 := writes[0].1], writes[1..]);
      assert writes[1..][..n - 1] == writes[..n][1..];
    }
  }

  lemma {:induction false} WritesExtract(t: Test, a: Attempt, v: string)
    requires Lookup(Writes(t, a), v).Some?
    ensures v != "" && (t.json == v || (t.extract == v && Raw(t.stdoutMatches) != ""))
    ensures Lookup(Writes(t, a), v).value != ""
  {
    var k := LookupIndex(Writes(t, a), v);
  }

  lemma {:induction false} LookupIndex(writes: seq<(string, string)>, v: string) returns (k: nat)
    requires Lookup(writes, v).Some?
    ensures k < |writes| && writes[k] == (v, Lookup(writes, v).value)
    decreases |writes|
  {
    k := |writes| - 1;
    if writes[k].0 != v { k := LookupIndex(writes[..k], v); }
  }

  lemma {:induction false} LookupPrefix(writes: seq<(string, string)>, n: nat, v: string)
    requires n <= |writes| && Lookup(writes[..n], v).Some?
    ensures Lookup(writes, v).Some?
    decreases |writes|
  {
    if n < |writes| {
      assert writes[..|writes| - 1][..n] == writes[..n];
      LookupPrefix(writes[..|writes| - 1], n, v);
    } else {
      assert writes[..n] == writes;
    }
  }

  // ----- What a test does when only the hooks' variables are there

  function OwnCommand(w: World, t: Test): string {
    Command(w.env, t.run)
  }

  function OwnLast(w: World, t: Test, i: nat): nat {
    LastAttempt(t, Outcomes(w, i, OwnCommand(w, t)), 1)
  }

  function OwnAttempt(w: World, t: Test, i: nat): Attempt {
    Attempted(w, i, OwnLast(w, t, i), OwnCommand(w, t))
  }

  function OwnResult(w: World, t: Test, i: nat): TestResult {
    Report(t, OwnAttempt(w, t, i), OwnLast(w, t, i))
  }

  function OwnWrites(w: World, t: Test, i: nat): seq<(string, string)> {
    Writes(t, OwnAttempt(w, t, i))
  }

  // ----- The invariant

  /** Of the writes `all`, those that have reached the store. */
  function PutOf(all: seq<(string, string)>, th: Thread): seq<(string, string)> {
    match th
    case Storing(_, writes) => if |writes| <= |all| then all[..|all| - |writes|] else []
    case Done(_) => all
    case _ => []
  }

  function Put(w: World, t: Test, i: nat, th: Thread): seq<(string, string)> {
    PutOf(OwnWrites(w, t, i), th)
  }

  predicate Suffix(writes: seq<(string, string)>, all: seq<(string, string)>) {
    |writes| <= |all| && writes == all[|all| - |writes|..]
  }

  ghost predicate ThreadOk(w: World, t: Test, i: nat, th: Thread) {
    match th
    case Propagating(todo) => todo <= w.env.Keys
    case Starting(n) => 1 <= n <= OwnLast(w, t, i)
    case Running(n, cmd) => 1 <= n <= OwnLast(w, t, i) && cmd == OwnCommand(w, t)
    case Storing(r, writes) => r == OwnResult(w, t, i) && Suffix(writes, OwnWrites(w, t, i))
    case Done(r) => r == OwnResult(w, t, i)
  }

  /** The thread has stored hook variable `v`. */
  predicate Past(th: Thread, v: string) {
    th.Propagating? ==> v !in th.todo
  }

  ghost predicate ThreadsOk(w: World, tests: seq<Test>, s: State) {
    |s.threads| == |tests| && forall i :: 0 <= i < |tests| ==> ThreadOk(w, tests[i], i, s.threads[i])
  }

  /** For each test, its writes that have reached the store. */
  function Puts(w: World, tests: seq<Test>, threads: seq<Thread>): (puts: seq<seq<(string, string)>>)
    requires |threads| == |tests|
    ensures |puts| == |tests| && forall i :: 0 <= i < |tests| ==> puts[i] == Put(w, tests[i], i, threads[i])
  {
    seq(|tests|, i requires 0 <= i < |tests| => Put(w, tests[i], i, threads[i]))
  }

  predicate SomePast(threads: seq<Thread>, v: string) {
    exists i :: 0 <= i < |threads| && Past(threads[i], v)
  }

  /** Where the value of `v` comes from: a test that stored it, or else the hooks. */
  ghost predicate Origin(env: Store, puts: seq<seq<(string, string)>>, past: bool, store: Store, v: string) {
    && (forall i :: 0 <= i < |puts| && Lookup(puts[i], v).Some? ==> v in store && store[v] == Lookup(puts[i], v).value)
    && (v in store && (forall i :: 0 <= i < |puts| ==> Lookup(puts[i], v).None?) ==> v in env && store[v] == env[v])
    && (v in env && past ==> v in store)
  }

  ghost predicate ValueOk(w: World, tests: seq<Test>, s: State, v: string)
    requires |s.threads| == |tests|
  {
    Origin(w.env, Puts(w, tests, s.threads), SomePast(s.threads, v), s.store, v)
  }

  ghost predicate Inv(w: World, tests: seq<Test>, s: State) {
    ThreadsOk(w, tests, s) && forall v :: ValueOk(w, tests, s, v)
  }

  /** What a test stores with the hooks' variables alone is what it can extract: an empty command has no
      output to find anything in. */
  lemma {:induction false} OwnWritesExtract(w: World, t: Test, i: nat, v: string)
    requires Lookup(OwnWrites(w, t, i), v).Some?
    ensures CanExtract(t, w.env, v)
  {
    NoOutputNoWrites(w, t, i);
    WritesExtract(t, OwnAttempt(w, t, i), v);
  }

  lemma {:induction false} NoOutputNoWrites(w: World, t: Test, i: nat)
    ensures OwnCommand(w, t) == "" ==> OwnWrites(w, t, i) == []
  {}

  lemma {:induction false} PutExtracts(w: World, t: Test, i: nat, th: Thread, v: string)
    requires Lookup(Put(w, t, i, th), v).Some?
    ensures CanExtract(t, w.env, v)
  {
    var all := OwnWrites(w, t, i);
    match th
    case Storing(_, writes) => LookupPrefix(all, |all| - |writes|, v); OwnWritesExtract(w, t, i, v);
    case Done(_) => OwnWritesExtract(w, t, i, v);
    case _ =>
  }

  lemma {:induction false} InitialInv(w: World, tests: seq<Test>)
    ensures Inv(w, tests, Initial(w, tests))
  {}

  /** A test that starts sees every hook variable with the hooks' value. */
  lemma {:induction false} HookValue(w: World, tests: seq<Test>, s: State, i: nat, u: string)
    requires Independent(tests, w.env) && Inv(w, tests, s) && i < |tests| && s.threads[i].Starting? && u in w.env
    ensures u in s.store && s.store[u] == w.env[u]
  {
    assert ValueOk(w, tests, s, u);
    assert Past(s.threads[i], u);
    var puts := Puts(w, tests, s.threads);
    OtherPuts(w, tests, s, i, u);
  }

  /** A command that reads another test's variable cannot be resolved, now or with the hooks alone. */
  lemma {:induction false} NeverResolves(w: World, tests: seq<Test>, s: State, i: nat, u: string)
    requires Independent(tests, w.env) && Inv(w, tests, s) && i < |tests| && s.threads[i].Starting?
    requires u in Names(tests[i].run) && u in s.store && u !in w.env
    ensures Resolve(s.store, tests[i].run) == None == Resolve(w.env, tests[i].run)
  {
    var text := tests[i].run;
    OthersValue(w, tests, s, i, u);
    var k :| 0 <= k < |tests| && k != i && CanExtract(tests[k], w.env, u);
    assert Apart(tests, w.env, i, k, u);
    var x :| x in Names(text) && !(IsField(x) && (x in w.env || exists j ::
      0 <= j < |tests| && j != i && CanExtract(tests[j], w.env, x)));
    if IsField(x) && x in s.store { OthersValue(w, tests, s, i, x); }
    ResolveMissing(s.store, text, x);
    ResolveMissing(w.env, text, x);
  }

  /** A command resolves in every reachable state as it does with the hooks' variables alone. */
  lemma {:induction false} CommandIsOwn(w: World, tests: seq<Test>, s: State, i: nat)
    requires Independent(tests, w.env) && Inv(w, tests, s) && i < |tests| && s.threads[i].Starting?
    ensures Command(s.store, tests[i].run) == OwnCommand(w, tests[i])
  {
    var text := tests[i].run;
    if u :| u in Names(text) && u in s.store && u !in w.env {
      NeverResolves(w, tests, s, i, u);
    } else {
      forall u | u in w.env ensures u in s.store && s.store[u] == w.env[u] { HookValue(w, tests, s, i, u); }
      ResolveAgree(s.store, w.env, text);
    }
  }

  /** A variable that no hook stores was stored by another test, as long as test `i` has stored nothing. */
  lemma {:induction false} OthersValue(w: World, tests: seq<Test>, s: State, i: nat, u: string)
    requires Inv(w, tests, s) && i < |tests| && s.threads[i].Starting? && u in s.store && u !in w.env
    ensures exists j :: 0 <= j < |tests| && j != i && CanExtract(tests[j], w.env, u)
  {
    assert ValueOk(w, tests, s, u);
    var puts := Puts(w, tests, s.threads);
    var j :| 0 <= j < |tests| && Lookup(puts[j], u).Some?;
    PutExtracts(w, tests[j], j, s.threads[j], u);
  }

  lemma {:induction false} StepKeepsInv(w: World, tests: seq<Test>, a: State, b: State)
    requires Independent(tests, w.env) && Inv(w, tests, a) && Step(w, tests, a, b)
    ensures Inv(w, tests, b)
  {
    var i :| 0 <= i < |tests| && ThreadStep(w, tests[i], i, a.store, a.threads[i], b.store, b.threads[i])
             && b.threads == a.threads[i := b.threads[i]];
    assert ThreadOk(w, tests[i], i, a.threads[i]);
    match a.threads[i]
    case Propagating(todo) =>
      if todo == {} {
        OwnLastPositive(w, tests[i], i);
        QuietKeepsInv(w, tests, a, b, i);
      } else {
        var k :| k in todo && k in w.env
          && b.store == a.store[k := w.env[k]] && b.threads[i] == Propagating(todo - {k});
        PropagateKeepsInv(w, tests, a, b, i, k);
      }
    case Starting(n) =>
      CommandIsOwn(w, tests, a, i);
      QuietKeepsInv(w, tests, a, b, i);
    case Running(n, cmd) =>
      AttemptEnds(w, tests[i], i, n);
      QuietKeepsInv(w, tests, a, b, i);
    case Storing(r, writes) =>
      if writes == [] {
        QuietKeepsInv(w, tests, a, b, i);
      } else {
        StoreKeepsInv(w, tests, a, b, i);
      }
  }

  lemma {:induction false} OwnLastPositive(w: World, t: Test, i: nat)
    ensures OwnLast(w, t, i) >= 1
  {}

  lemma {:induction false} AttemptEnds(w: World, t: Test, i: nat, n: nat)
    requires 1 <= n <= OwnLast(w, t, i)
    ensures Finishes(t, n, Attempted(w, i, n, OwnCommand(w, t))) <==> n == OwnLast(w, t, i)
  {
    assert Outcomes(w, i, OwnCommand(w, t))(n) == Attempted(w, i, n, OwnCommand(w, t));
  }

  /** A step that stores nothing. */
  lemma {:induction false} QuietKeepsInv(w: World, tests: seq<Test>, a: State, b: State, i: nat)
    requires Inv(w, tests, a) && i < |tests| == |b.threads| && b.store == a.store
    requires b.threads == a.threads[i := b.threads[i]] && ThreadOk(w, tests[i], i, b.threads[i])
    requires Put(w, tests[i], i, b.threads[i]) == Put(w, tests[i], i, a.threads[i])
    requires forall v :: v in w.env && Past(b.threads[i], v) ==> Past(a.threads[i], v)
    ensures Inv(w, tests, b)
  {
    assert Puts(w, tests, b.threads) == Puts(w, tests, a.threads);
    forall v ensures ValueOk(w, tests, b, v) {
      assert ValueOk(w, tests, a, v);
      if v in w.env && SomePast(b.threads, v) {
        var j :| 0 <= j < |b.threads| && Past(b.threads[j], v);
        assert Past(a.threads[j], v);
      }
    }
  }

  /** No other test stores a variable that test `i` or a hook stores. */
  lemma {:induction false} OtherPuts(w: World, tests: seq<Test>, s: State, i: nat, k: string)
    requires Independent(tests, w.env) && |s.threads| == |tests| && i < |tests|
    requires CanExtract(tests[i], w.env, k) || k in w.env
    ensures forall j :: 0 <= j < |tests| && j != i ==> Lookup(Puts(w, tests, s.threads)[j], k).None?
  {
    forall j | 0 <= j < |tests| && j != i ensures Lookup(Puts(w, tests, s.threads)[j], k).None? {
      assert Apart(tests, w.env, i, j, k) && Apart(tests, w.env, j, i, k);
      if Lookup(Puts(w, tests, s.threads)[j], k).Some? { PutExtracts(w, tests[j], j, s.threads[j], k); }
    }
  }

  /** Storing a hook variable. */
  lemma {:induction false} PropagateKeepsInv(w: World, tests: seq<Test>, a: State, b: State, i: nat, k: string)
    requires Independent(tests, w.env) && Inv(w, tests, a) && i < |tests|
    requires a.threads[i].Propagating? && k in a.threads[i].todo && k in w.env
    requires b == State(a.store[k := w.env[k]], a.threads[i := Propagating(a.threads[i].todo - {k})])
    ensures Inv(w, tests, b)
  {
    assert ThreadOk(w, tests[i], i, a.threads[i]);
    var puts := Puts(w, tests, a.threads);
    assert Puts(w, tests, b.threads) == puts;
    OtherPuts(w, tests, a, i, k);
    forall v ensures ValueOk(w, tests, b, v) {
      assert ValueOk(w, tests, a, v);
      if v != k && SomePast(b.threads, v) {
        var j :| 0 <= j < |b.threads| && Past(b.threads[j], v);
        assert Past(a.threads[j], v);
      }
    }
  }

  lemma {:induction false} LookupMore(writes: seq<(string, string)>, k: string, x: string, v: string)
    ensures Lookup(writes + [(k, x)], v) == if v == k then Some(x) else Lookup(writes, v)
  {
    assert (writes + [(k, x)])[..|writes|] == writes;
  }

  lemma {:induction false} PutMore(all: seq<(string, string)>, r: TestResult, writes: seq<(string, string)>)
    requires writes != [] && Suffix(writes, all)
    ensures Suffix(writes[1..], all)
    ensures PutOf(all, Storing(r, writes[1..])) == PutOf(all, Storing(r, writes)) + [writes[0]]
  {}

  lemma {:induction false} OriginAfterPut(env: Store, puts: seq<seq<(string, string)>>, past: bool, store: Store,
                                          i: nat, k: string, x: string, v: string)
    requires i < |puts| && Origin(env, puts, past, store, v)
    requires forall j :: 0 <= j < |puts| && j != i ==> Lookup(puts[j], k).None?
    ensures Origin(env, puts[i := puts[i] + [(k, x)]], past, store[k := x], v)
  {
    var more := puts[i := puts[i] + [(k, x)]];
    LookupMore(puts[i], k, x, v);
    LookupMore(puts[i], k, x, k);
    assert Lookup(more[i], v) == if v == k then Some(x) else Lookup(puts[i], v);
    if v != k {
      assert forall j :: 0 <= j < |puts| ==> Lookup(more[j], v) == Lookup(puts[j], v);
    }
  }

  /** Storing an extracted value. */
  lemma {:induction false} StoreKeepsInv(w: World, tests: seq<Test>, a: State, b: State, i: nat)
    requires Independent(tests, w.env) && Inv(w, tests, a) && i < |tests|
    requires a.threads[i].Storing? && a.threads[i].writes != []
    requires var (k, x) := a.threads[i].writes[0];
             b == State(a.store[k := x], a.threads[i := Storing(a.threads[i].result, a.threads[i].writes[1..])])
    ensures Inv(w, tests, b)
  {
    var (k, x) := a.threads[i].writes[0];
    var puts := Puts(w, tests, a.threads);
    assert ThreadOk(w, tests[i], i, a.threads[i]);
    PutMore(OwnWrites(w, tests[i], i), a.threads[i].result, a.threads[i].writes);
    assert Puts(w, tests, b.threads) == puts[i := puts[i] + [(k, x)]];
    LookupMore(puts[i], k, x, k);
    PutExtracts(w, tests[i], i, b.threads[i], k);
    OtherPuts(w, tests, a, i, k);
    forall v ensures ValueOk(w, tests, b, v) {
      assert ValueOk(w, tests, a, v);
      OriginAfterPut(w.env, puts, SomePast(a.threads, v), a.store, i, k, x, v);
      if SomePast(b.threads, v) {
        var j :| 0 <= j < |b.threads| && Past(b.threads[j], v);
        assert Past(a.threads[j], v);
      }
    }
  }

  lemma {:induction false} RunPrefix(w: World, tests: seq<Test>, ss: seq<State>)
    requires Run(w, tests, ss) && |ss| > 1
    ensures var n := |ss| - 1; Run(w, tests, ss[..n]) && Step(w, tests, ss[n - 1], ss[n])
  {}

  lemma {:induction false} RunKeepsInv(w: World, tests: seq<Test>, ss: seq<State>)
    requires Independent(tests, w.env) && Run(w, tests, ss)
    ensures Inv(w, tests, ss[|ss| - 1])
    decreases |ss|
  {
    if |ss| == 1 {
      InitialInv(w, tests);
    } else {
      RunPrefix(w, tests, ss);
      var last := ss[..|ss| - 1][|ss| - 2];
      RunKeepsInv(w, tests, ss[..|ss| - 1]);
      StepKeepsInv(w, tests, last, ss[|ss| - 1]);
    }
  }

  /** The store of a finished run is determined. */
  lemma {:induction false} FinishedValue(w: World, tests: seq<Test>, a: State, b: State, v: string)
    requires Inv(w, tests, a) && Inv(w, tests, b) && Finished(a) && Finished(b)
    requires tests == [] ==> a.store == b.store
    ensures v in a.store <==> v in b.store
    ensures v in a.store ==> a.store[v] == b.store[v]
  {
    assert ValueOk(w, tests, a, v) && ValueOk(w, tests, b, v);
    var puts := Puts(w, tests, a.threads);
    assert Puts(w, tests, b.threads) == puts;
    if tests != [] {
      assert Past(a.threads[0], v) && Past(b.threads[0], v);
    }
  }

  lemma {:induction false} NoTestsNoStore(w: World, ss: seq<State>)
    requires Run(w, [], ss)
    ensures |ss| == 1
  {
    assert |ss| > 1 ==> Step(w, [], ss[0], ss[1]);
  }

  /** All finished runs agree. */
  lemma {:induction false} FinishedAgree(w: World, tests: seq<Test>, a: State, b: State)
    requires Independent(tests, w.env)
    requires Reachable(w, tests, a) && Reachable(w, tests, b) && Finished(a) && Finished(b)
    ensures Results(a) == Results(b) && a.store == b.store
  {
    var ra :| Run(w, tests, ra) && ra[|ra| - 1] == a;
    var rb :| Run(w, tests, rb) && rb[|rb| - 1] == b;
    RunKeepsInv(w, tests, ra);
    RunKeepsInv(w, tests, rb);
    if tests == [] { NoTestsNoStore(w, ra); NoTestsNoStore(w, rb); }
    assert Results(a) == Results(b) by {
      forall i | 0 <= i < |tests| ensures a.threads[i].result == b.threads[i].result {
        assert ThreadOk(w, tests[i], i, a.threads[i]) && ThreadOk(w, tests[i], i, b.threads[i]);
      }
    }
    forall v ensures (v in a.store <==> v in b.store) && (v in a.store ==> a.store[v] == b.store[v]) {
      FinishedValue(w, tests, a, b, v);
    }
  }

  // ----- Every run ends

  function Tries(t: Test): nat {
    if t.attempts > 1 then t.attempts else 1
  }

  predicate Shaped(w: World, t: Test, th: Thread) {
    match th
    case Propagating(todo) => todo <= w.env.Keys
    case Starting(n) => 1 <= n <= Tries(t)
    case Running(n, _) => 1 <= n <= Tries(t)
    case _ => true
  }

  /** Bounds the steps a goroutine has still to make. */
  function Work(t: Test, th: Thread): nat {
    match th
    case Propagating(todo) => |todo| + 2 * Tries(t) + 4
    case Starting(n) => if n <= Tries(t) then 2 * (Tries(t) - n) + 5 else 0
    case Running(n, _) => if n <= Tries(t) then 2 * (Tries(t) - n) + 4 else 0
    case Storing(_, writes) => |writes| + 1
    case Done(_) => 0
  }

  function TotalWork(tests: seq<Test>, threads: seq<Thread>): nat
    requires |tests| == |threads|
  {
    if tests == [] then 0 else Work(tests[0], threads[0]) + TotalWork(tests[1..], threads[1..])
  }

  lemma {:induction false} ThreadStepWorks(w: World, t: Test, i: nat, s: Store, th: Thread, s': Store, th': Thread)
    requires Shaped(w, t, th) && ThreadStep(w, t, i, s, th, s', th')
    ensures Shaped(w, t, th') && Work(t, th') < Work(t, th)
  {}

  lemma {:induction false} WorkUpdate(tests: seq<Test>, threads: seq<Thread>, i: nat, th: Thread)
    requires |tests| == |threads| && i < |tests|
    ensures TotalWork(tests, threads[i := th])
         == TotalWork(tests, threads) - Work(tests[i], threads[i]) + Work(tests[i], th)
    decreases |tests|
  {
    if i == 0 {
      assert threads[i := th][1..] == threads[1..];
    } else {
      assert threads[i := th][1..] == threads[1..][i - 1 := th];
      WorkUpdate(tests[1..], threads[1..], i - 1, th);
    }
  }

  ghost predicate AllShaped(w: World, tests: seq<Test>, s: State) {
    |s.threads| == |tests| && forall i :: 0 <= i < |tests| ==> Shaped(w, tests[i], s.threads[i])
  }

  lemma {:induction false} StepWorks(w: World, tests: seq<Test>, a: State, b: State)
    requires AllShaped(w, tests, a) && Step(w, tests, a, b)
    ensures AllShaped(w, tests, b) && TotalWork(tests, b.threads) < TotalWork(tests, a.threads)
  {
    var i :| 0 <= i < |tests| && ThreadStep(w, tests[i], i, a.store, a.threads[i], b.store, b.threads[i])
             && b.threads == a.threads[i := b.threads[i]];
    ThreadStepWorks(w, tests[i], i, a.store, a.threads[i], b.store, b.threads[i]);
    WorkUpdate(tests, a.threads, i, b.threads[i]);
  }

  /** No run is longer than a bound that depends only on the tests and the number of hook variables:
      whatever the scheduler does, the goroutines come to an end. */
  lemma {:induction false} RunsEnd(w: World, tests: seq<Test>, ss: seq<State>)
    requires Run(w, tests, ss)
    ensures AllShaped(w, tests, ss[|ss| - 1])
    ensures |ss| - 1 + TotalWork(tests, ss[|ss| - 1].threads) <= MaxSteps(w, tests)
    decreases |ss|
  {
    if |ss| == 1 {
      InitialWork(w, tests, Initial(w, tests).threads);
    } else {
      RunPrefix(w, tests, ss);
      var last := ss[..|ss| - 1][|ss| - 2];
      RunsEnd(w, tests, ss[..|ss| - 1]);
      StepWorks(w, tests, last, ss[|ss| - 1]);
    }
  }

  /** Per test: each hook variable, two steps an attempt, and at most four more. */
  function MaxSteps(w: World, tests: seq<Test>): nat {
    if tests == [] then 0 else |w.env.Keys| + 2 * Tries(tests[0]) + 4 + MaxSteps(w, tests[1..])
  }

  lemma {:induction false} InitialWork(w: World, tests: seq<Test>, threads: seq<Thread>)
    requires |threads| == |tests| && forall i :: 0 <= i < |threads| ==> threads[i] == InitialThread(w)
    ensures TotalWork(tests, threads) == MaxSteps(w, tests)
    decreases |tests|
  {
    if tests != [] {
      InitialWork(w, tests[1..], threads[1..]);
    }
  }

  /** As long as a goroutine is not done, some step is possible. */
  lemma {:induction false} UnfinishedCanStep(w: World, tests: seq<Test>, s: State)
    requires Reachable(w, tests, s) && !Finished(s)
    ensures exists b :: Step(w, tests, s, b)
  {
    var ss :| Run(w, tests, ss) && ss[|ss| - 1] == s;
    RunsEnd(w, tests, ss);
    var i :| 0 <= i < |s.threads| && !s.threads[i].Done?;
    var store, th := NextStep(w, tests[i], i, s.store, s.threads[i]);
    var b := State(store, s.threads[i := th]);
    assert s.threads[i := b.threads[i]] == b.threads;
    assert Step(w, tests, s, b);
  }

  lemma {:induction false} NextStep(w: World, t: Test, i: nat, s: Store, th: Thread) returns (s': Store, th': Thread)
    requires Shaped(w, t, th) && !th.Done?
    ensures ThreadStep(w, t, i, s, th, s', th')
  {
    match th
    case Propagating(todo) =>
      if todo == {} {
        s', th' := s, Starting(1);
      } else {
        var k :| k in todo;
        s', th' := s[k := w.env[k]], Propagating(todo - {k});
      }
    case Starting(n) => s', th' := s, Running(n, Command(s, t.run));
    case Running(n, cmd) =>
      var a := Attempted(w, i, n, cmd);
      s', th' := s, if Finishes(t, n, a) then Storing(Report(t, a, n), Writes(t, a)) else Starting(n + 1);
    case Storing(r, writes) =>
      if writes == [] {
        s', th' := s, Done(r);
      } else {
        s', th' := s[writes[0].0 := writes[0].1], Storing(r, writes[1..]);
      }
  }

  // ----- Running one goroutine after the other

  lemma {:induction false} ReachStep(w: World, tests: seq<Test>, a: State, i: nat, s: Store, th: Thread)
    requires Reachable(w, tests, a) && i < |tests| == |a.threads|
    requires ThreadStep(w, tests[i], i, a.store, a.threads[i], s, th)
    ensures Reachable(w, tests, State(s, a.threads[i := th]))
  {
    var b := State(s, a.threads[i := th]);
    assert a.threads[i := b.threads[i]] == b.threads;
    assert Step(w, tests, a, b);
    var ss :| Run(w, tests, ss) && ss[|ss| - 1] == a;
    assert Run(w, tests, ss + [b]);
    assert (ss + [b])[|ss|] == b;
  }

  lemma {:induction false} ReachPropagated(w: World, tests: seq<Test>, a: State, i: nat)
    requires Reachable(w, tests, a) && i < |tests| == |a.threads|
    requires a.threads[i].Propagating? && a.threads[i].todo <= w.env.Keys
    requires forall k :: k in w.env && k !in a.threads[i].todo ==> k in a.store && a.store[k] == w.env[k]
    ensures Reachable(w, tests, State(a.store + w.env, a.threads[i := Starting(1)]))
    decreases a.threads[i].todo
  {
    var todo := a.threads[i].todo;
    if todo == {} {
      assert a.store + w.env == a.store;
      ReachStep(w, tests, a, i, a.store, Starting(1));
    } else {
      var k :| k in todo;
      var s, th := a.store[k := w.env[k]], Propagating(todo - {k});
      ReachStep(w, tests, a, i, s, th);
      var b := State(s, a.threads[i := th]);
      ReachPropagated(w, tests, b, i);
      assert s + w.env == a.store + w.env;
      assert b.threads[i := Starting(1)] == a.threads[i := Starting(1)];
    }
  }

  lemma {:induction false} ReachAttempted(w: World, tests: seq<Test>, a: State, i: nat, n: nat)
    requires Reachable(w, tests, a) && i < |tests| == |a.threads| && a.threads[i] == Starting(n)
    ensures var f := Outcomes(w, i, Command(a.store, tests[i].run));
            var last := LastAttempt(tests[i], f, n);
            var th := Storing(Report(tests[i], f(last), last), Writes(tests[i], f(last)));
            Reachable(w, tests, State(a.store, a.threads[i := th]))
    decreases tests[i].attempts - n
  {
    var t, cmd := tests[i], Command(a.store, tests[i].run);
    var attempt := Attempted(w, i, n, cmd);
    ReachStep(w, tests, a, i, a.store, Running(n, cmd));
    var b := State(a.store, a.threads[i := Running(n, cmd)]);
    var th := if Finishes(t, n, attempt) then Storing(Report(t, attempt, n), Writes(t, attempt)) else Starting(n + 1);
    ReachStep(w, tests, b, i, a.store, th);
    var c := State(a.store, b.threads[i := th]);
    assert b.threads[i := th] == a.threads[i := th];
    if !Finishes(t, n, attempt) {
      ReachAttempted(w, tests, c, i, n + 1);
      var f := Outcomes(w, i, cmd);
      var last := LastAttempt(t, f, n + 1);
      var end := Storing(Report(t, f(last), last), Writes(t, f(last)));
      assert c.threads[i := end] == a.threads[i := end];
    }
  }

  lemma {:induction false} ReachStored(w: World, tests: seq<Test>, a: State, i: nat)
    requires Reachable(w, tests, a) && i < |tests| == |a.threads| && a.threads[i].Storing?
    ensures Reachable(w, tests, State(Apply(a.store, a.threads[i].writes), a.threads[i := Done(a.threads[i].result)]))
    decreases |a.threads[i].writes|
  {
    var Storing(r, writes) := a.threads[i];
    if writes == [] {
      ReachStep(w, tests, a, i, a.store, Done(r));
    } else {
      var s, th := a.store[writes[0].0 := writes[0].1], Storing(r, writes[1..]);
      ReachStep(w, tests, a, i, s, th);
      var b := State(s, a.threads[i := th]);
      ReachStored(w, tests, b, i);
      assert b.threads[i := Done(r)] == a.threads[i := Done(r)];
    }
  }

  /** A goroutine that runs without interruption does what the test does in sequence. */
  lemma {:induction false} ReachSolo(w: World, tests: seq<Test>, a: State, i: nat)
    requires Reachable(w, tests, a) && i < |tests| == |a.threads| && a.threads[i] == InitialThread(w)
    ensures var (r, s) := Solo(w, tests[i], i, a.store);
            Reachable(w, tests, State(s, a.threads[i := Done(r)]))
  {
    var t := tests[i];
    ReachPropagated(w, tests, a, i);
    var b := State(a.store + w.env, a.threads[i := Starting(1)]);
    ReachAttempted(w, tests, b, i, 1);
    var f := Outcomes(w, i, Command(b.store, t.run));
    var last := LastAttempt(t, f, 1);
    var th := Storing(Report(t, f(last), last), Writes(t, f(last)));
    var c := State(b.store, b.threads[i := th]);
    ReachStored(w, tests, c, i);
    assert c.threads[i := Done(th.result)] == a.threads[i := Done(th.result)];
  }

  lemma {:induction false} ReachInitial(w: World, tests: seq<Test>)
    ensures Reachable(w, tests, Initial(w, tests))
  {
    assert Run(w, tests, [Initial(w, tests)]);
  }

  function Threads(w: World, rs: seq<TestResult>, m: nat): seq<Thread> {
    seq(m, i requires 0 <= i < m => if i < |rs| then Done(rs[i]) else InitialThread(w))
  }

  /** The first `n` tests have run in order, the others not at all. */
  function Sequential(w: World, tests: seq<Test>, n: nat): State
    requires n <= |tests|
  {
    State(RunFirst(w, tests, n).1, Threads(w, RunFirst(w, tests, n).0, |tests|))
  }

  lemma {:induction false} ThreadsMore(w: World, rs: seq<TestResult>, r: TestResult, m: nat)
    requires |rs| < m
    ensures Threads(w, rs + [r], m) == Threads(w, rs, m)[|rs| := Done(r)]
  {}

  lemma {:induction false} SequentialStep(w: World, tests: seq<Test>, n: nat)
    requires n < |tests|
    ensures var a := Sequential(w, tests, n);
            var (r, s) := Solo(w, tests[n], n, a.store);
            Sequential(w, tests, n + 1) == State(s, a.threads[n := Done(r)])
  {
    var (rs, store) := RunFirst(w, tests, n);
    ThreadsMore(w, rs, Solo(w, tests[n], n, store).0, |tests|);
  }

  lemma {:induction false} ReachSequential(w: World, tests: seq<Test>, n: nat)
    requires n <= |tests|
    ensures Reachable(w, tests, Sequential(w, tests, n))
    decreases n
  {
    if n == 0 {
      ReachInitial(w, tests);
      assert Sequential(w, tests, 0) == Initial(w, tests);
    } else {
      ReachSequential(w, tests, n - 1);
      SequentialStep(w, tests, n - 1);
      ReachSolo(w, tests, Sequential(w, tests, n - 1), n - 1);
    }
  }

  /** Running in order is one of the interleavings. */
  lemma {:induction false} OrderIsASchedule(w: World, tests: seq<Test>)
    ensures var s := Sequential(w, tests, |tests|);
            Reachable(w, tests, s) && Finished(s) && (Results(s), s.store) == RunAll(w, tests)
  {
    ReachSequential(w, tests, |tests|);
    assert Results(Sequential(w, tests, |tests|)) == RunAll(w, tests).0;
  }

  /** Independent tests: every interleaving is the run in order. */
  lemma {:induction false} IndependentIsEnough(tests: seq<Test>, env: Store)
    requires Independent(tests, env)
    ensures ScheduleIndependent(tests, env)
  {
    forall exec: (nat, nat, string) -> Attempt, s | Reachable(World(env, exec), tests, s) && Finished(s)
      ensures (Results(s), s.store) == RunAll(World(env, exec), tests)
    {
      var w := World(env, exec);
      OrderIsASchedule(w, tests);
      FinishedAgree(w, tests, s, Sequential(w, tests, |tests|));
    }
  }

  // ----- Only then

  predicate InRange(order: seq<nat>, n: nat) {
    forall m :: 0 <= m < |order| ==> order[m] < n
  }

  /** The tests of `order`, one after the other. */
  function After(w: World, tests: seq<Test>, order: seq<nat>): (s: State)
    requires InRange(order, |tests|)
    ensures |s.threads| == |tests|
  {
    if order == [] then Initial(w, tests)
    else
      var k := order[|order| - 1];
      var a := After(w, tests, order[..|order| - 1]);
      var (r, s) := Solo(w, tests[k], k, a.store);
      State(s, a.threads[k := Done(r)])
  }

  /** Exactly the tests of `order` are done. */
  ghost predicate DoneAre(w: World, threads: seq<Thread>, order: seq<nat>) {
    forall k :: 0 <= k < |threads| ==> if k in order then threads[k].Done? else threads[k] == InitialThread(w)
  }

  lemma {:induction false} ReachAfter(w: World, tests: seq<Test>, order: seq<nat>)
    requires Distinct(order) && InRange(order, |tests|)
    ensures Reachable(w, tests, After(w, tests, order)) && DoneAre(w, After(w, tests, order).threads, order)
    decreases |order|
  {
    if order == [] {
      ReachInitial(w, tests);
    } else {
      var n := |order| - 1;
      var a, k := After(w, tests, order[..n]), order[n];
      ReachAfter(w, tests, order[..n]);
      ReachSolo(w, tests, a, k);
      DoneMore(w, a.threads, order, Solo(w, tests[k], k, a.store).0);
    }
  }

  lemma {:induction false} DoneMore(w: World, threads: seq<Thread>, order: seq<nat>, r: TestResult)
    requires order != [] && order[|order| - 1] < |threads| && DoneAre(w, threads, order[..|order| - 1])
    ensures DoneAre(w, threads[order[|order| - 1] := Done(r)], order)
  {
    assert order == order[..|order| - 1] + [order[|order| - 1]];
  }

  function Others(n: nat, i: nat, j: nat): (s: seq<nat>)
    ensures forall k: nat :: k in s <==> k < n && k != i && k != j
    ensures Distinct(s) && InRange(s, n)
  {
    if n == 0 then [] else Others(n - 1, i, j) + (if n - 1 == i || n - 1 == j then [] else [n - 1])
  }

  /** Test `i` first, test `j` last. */
  function Ends(n: nat, i: nat, j: nat): (s: seq<nat>)
    requires i < n && j < n && i != j
    ensures forall k: nat :: k in s <==> k < n
    ensures Distinct(s) && InRange(s, n)
  {
    var others := Others(n, i, j);
    assert i !in others && j !in others;
    [i] + others + [j]
  }

  lemma {:induction false} EndsLayout(n: nat, i: nat, j: nat)
    requires i < n && j < n && i != j
    ensures var order := Ends(n, i, j);
            order[..|order| - 1] == [i] + Others(n, i, j) && order[|order| - 1] == j && order[0] == i
    ensures InRange([i] + Others(n, i, j), n)
    ensures forall k: nat :: k in [i] + Others(n, i, j) <==> k < n && k != j
  {}

  /** A command that always passes, shows the command it was given, and has `val(i)` to extract. */
  function Telling(val: nat -> string): (nat, nat, string) -> Attempt {
    (i: nat, n: nat, cmd: string) => Ran([Assertion("command", cmd, "", true)], val(i), val(i))
  }

  lemma {:induction false} RawOfVariable(text: Text, u: string)
    requires u in Names(text)
    ensures Raw(text) != ""
    decreases |text|
  {
    if text != [] {
      NamesTail(text);
      if u in Names(text[1..]) { RawOfVariable(text[1..], u); }
    }
  }

  lemma {:induction false} ResolveNeedsAll(store: Store, text: Text, u: string)
    requires Resolve(store, text).Some? && u in Names(text)
    ensures IsField(u) && u in store
  {
    if !(IsField(u) && u in store) { ResolveMissing(store, text, u); }
  }

  /** The variables that come from tests have values. */
  ghost predicate Filled(env: Store, store: Store) {
    forall u :: u in store && u !in env ==> store[u] != ""
  }

  /** Whether a command is empty does not change when tests store variables. */
  lemma {:induction false} CommandStays(t: Test, env: Store, store: Store)
    requires Filled(env, store)
    ensures Command(store + env, t.run) != "" <==> HasCommand(t, env)
  {
    var text, begun := t.run, store + env;
    if Resolve(env, text).Some? {
      forall u | u in Names(text) ensures u in env { ResolveNeedsAll(env, text, u); }
      ResolveAgree(env, begun, text);
    } else {
      var u := MissingVariable(env, text);
      RawOfVariable(text, u);
      if Resolve(begun, text).Some? {
        forall v | v in Names(text) ensures IsField(v) && v in begun { ResolveNeedsAll(begun, text, v); }
        ResolveLength(begun, text, u);
      }
    }
  }

  lemma {:induction false} MissingVariable(store: Store, text: Text) returns (u: string)
    requires Resolve(store, text).None?
    ensures Lacks(store, text, u)
    decreases |text|
  {
    NamesTail(text);
    if Resolve(store, text[1..]).None? {
      u := MissingVariable(store, text[1..]);
    } else {
      u := text[0].name;
    }
  }

  lemma {:induction false} TellsSolo(env: Store, val: nat -> string, t: Test, i: nat, store: Store, v: string)
    requires val(i) != "" && Filled(env, store)
    ensures var (r, s) := Solo(World(env, Telling(val)), t, i, store);
      && r.assertions == [Assertion("command", Command(store + env, t.run), "", true)]
      && (CanExtract(t, env, v) ==> v in s && s[v] == val(i))
      && (!CanExtract(t, env, v) ==> (v in s <==> v in store || v in env)
                                     && (v in s ==> s[v] == if v in env then env[v] else store[v]))
  {
    var w := World(env, Telling(val));
    var begun := store + env;
    var cmd := Command(begun, t.run);
    var x := if cmd == "" then "" else val(i);
    var a := Ran([Assertion("command", cmd, "", true)], x, x);
    var f := Outcomes(w, i, cmd);
    assert f(1) == a;
    assert LastAttempt(t, f, 1) == 1;
    CommandStays(t, env, store);
    if cmd == "" {
      assert Writes(t, a) == [];
    } else {
      TellsWrites(t, env, a, val(i), v);
    }
    ApplyLooksUp(begun, Writes(t, a), v);
  }

  lemma {:induction false} TellsWrites(t: Test, env: Store, a: Attempt, x: string, v: string)
    requires Passes(a) && a.json == x == a.matched && x != "" && HasCommand(t, env)
    ensures Lookup(Writes(t, a), v) == if CanExtract(t, env, v) then Some(x) else None
  {
    var first := if t.json != "" then [(t.json, x)] else [];
    var second := if Raw(t.stdoutMatches) != "" && t.extract != "" then [(t.extract, x)] else [];
    assert Writes(t, a) == first + second;
    if second != [] {
      LookupMore(first, t.extract, x, v);
    } else {
      assert first + second == first;
    }
    if first != [] {
      assert first == [] + [(t.json, x)];
      LookupMore([], t.json, x, v);
    }
  }

  lemma {:induction false} SoloFills(w: World, t: Test, i: nat, store: Store)
    requires Filled(w.env, store)
    ensures Filled(w.env, Solo(w, t, i, store).1)
  {
    var begun := store + w.env;
    var f := Outcomes(w, i, Command(begun, t.run));
    var a := f(LastAttempt(t, f, 1));
    forall u | u in Apply(begun, Writes(t, a)) && u !in w.env ensures Apply(begun, Writes(t, a))[u] != "" {
      ApplyLooksUp(begun, Writes(t, a), u);
      if Lookup(Writes(t, a), u).Some? { WritesExtract(t, a, u); }
    }
  }

  lemma {:induction false} AfterFills(w: World, tests: seq<Test>, order: seq<nat>)
    requires InRange(order, |tests|)
    ensures Filled(w.env, After(w, tests, order).store)
    decreases |order|
  {
    if order != [] {
      var n := |order| - 1;
      AfterFills(w, tests, order[..n]);
      SoloFills(w, tests[order[n]], order[n], After(w, tests, order[..n]).store);
    }
  }

  lemma {:induction false} FinishedAfter(w: World, tests: seq<Test>, i: nat, j: nat)
    requires i < |tests| && j < |tests| && i != j
    ensures var s := After(w, tests, Ends(|tests|, i, j)); Reachable(w, tests, s) && Finished(s)
  {
    ReachAfter(w, tests, Ends(|tests|, i, j));
  }

  /** Two finished runs that differ. */
  lemma {:induction false} TwoOutcomes(tests: seq<Test>, env: Store, exec: (nat, nat, string) -> Attempt,
                                       i: nat, j: nat)
    requires i < |tests| && j < |tests| && i != j
    requires var w := World(env, exec);
             var a, b := After(w, tests, Ends(|tests|, i, j)), After(w, tests, Ends(|tests|, j, i));
             a.store != b.store || a.threads[i] != b.threads[i]
    ensures !ScheduleIndependent(tests, env)
  {
    var w := World(env, exec);
    var a, b := After(w, tests, Ends(|tests|, i, j)), After(w, tests, Ends(|tests|, j, i));
    FinishedAfter(w, tests, i, j);
    FinishedAfter(w, tests, j, i);
    assert Results(a) == Results(b) ==> Results(a)[i] == Results(b)[i];
  }

  /** The value of a variable after test `j` has run last. */
  lemma {:induction false} LastTells(tests: seq<Test>, env: Store, val: nat -> string, i: nat, j: nat, v: string)
    requires i < |tests| && j < |tests| && i != j && val(j) != ""
    ensures var s := After(World(env, Telling(val)), tests, Ends(|tests|, i, j)).store;
      && (CanExtract(tests[j], env, v) ==> v in s && s[v] == val(j))
      && (!CanExtract(tests[j], env, v) && v in env ==> v in s && s[v] == env[v])
  {
    var w := World(env, Telling(val));
    EndsLayout(|tests|, i, j);
    AfterFills(w, tests, [i] + Others(|tests|, i, j));
    TellsSolo(env, val, tests[j], j, After(w, tests, [i] + Others(|tests|, i, j)).store, v);
  }

  /** Two tests that store the same variable. */
  lemma {:induction false} SharedVariableRaces(tests: seq<Test>, env: Store, i: nat, j: nat, v: string)
    requires i < |tests| && j < |tests| && i != j && CanExtract(tests[i], env, v) && CanExtract(tests[j], env, v)
    ensures !ScheduleIndependent(tests, env)
  {
    var val := (k: nat) => if k == i then "a" else "b";
    LastTells(tests, env, val, i, j, v);
    LastTells(tests, env, val, j, i, v);
    TwoOutcomes(tests, env, Telling(val), i, j);
  }

  /** A test that stores a hook's variable, and another that does not. */
  lemma {:induction false} HookVariableRaces(tests: seq<Test>, env: Store, i: nat, j: nat, v: string)
    requires i < |tests| && j < |tests| && i != j
    requires !CanExtract(tests[i], env, v) && CanExtract(tests[j], env, v) && v in env
    ensures !ScheduleIndependent(tests, env)
  {
    var val := (k: nat) => env[v] + "x";
    LastTells(tests, env, val, i, j, v);
    LastTells(tests, env, val, j, i, v);
    assert |val(j)| != |env[v]|;
    TwoOutcomes(tests, env, Telling(val), i, j);
  }

  /** One of the tests of `order` can store `v`. */
  predicate SomeExtracts(tests: seq<Test>, env: Store, order: seq<nat>, v: string)
    requires InRange(order, |tests|)
  {
    exists m :: 0 <= m < |order| && CanExtract(tests[order[m]], env, v)
  }

  lemma {:induction false} SomeExtractsMore(tests: seq<Test>, env: Store, order: seq<nat>, v: string)
    requires InRange(order, |tests|) && order != []
    ensures SomeExtracts(tests, env, order, v) <==>
            SomeExtracts(tests, env, order[..|order| - 1], v) || CanExtract(tests[order[|order| - 1]], env, v)
  {
    var less := order[..|order| - 1];
    if m :| 0 <= m < |less| && CanExtract(tests[less[m]], env, v) {
      assert CanExtract(tests[order[m]], env, v);
    }
    if m :| 0 <= m < |order| - 1 && CanExtract(tests[order[m]], env, v) {
      assert CanExtract(tests[less[m]], env, v);
    }
  }

  /** What the tests of `order` have stored, when all have the same value to extract. */
  lemma {:induction false} AfterTells(tests: seq<Test>, env: Store, x: string, order: seq<nat>, v: string)
    requires InRange(order, |tests|) && x != "" && v !in env
    ensures var s := After(World(env, Telling((k: nat) => x)), tests, order).store;
      (v in s <==> SomeExtracts(tests, env, order, v)) && (v in s ==> s[v] == x)
    decreases |order|
  {
    var val := (k: nat) => x;
    if order != [] {
      var n := |order| - 1;
      AfterTells(tests, env, x, order[..n], v);
      AfterFills(World(env, Telling(val)), tests, order[..n]);
      TellsSolo(env, val, tests[order[n]], order[n], After(World(env, Telling(val)), tests, order[..n]).store, v);
      SomeExtractsMore(tests, env, order, v);
    }
  }

  /** The variables there are once all tests but `i` have run. */
  lemma {:induction false} OthersTell(tests: seq<Test>, env: Store, x: string, i: nat, j: nat, u: string)
    requires i < |tests| && j < |tests| && i != j && u !in env && x != ""
    requires exists k :: 0 <= k < |tests| && k != i && CanExtract(tests[k], env, u)
    ensures InRange([j] + Others(|tests|, j, i), |tests|)
    ensures var s := After(World(env, Telling((k: nat) => x)), tests, [j] + Others(|tests|, j, i)).store;
      u in s && s[u] == x
  {
    var before := [j] + Others(|tests|, j, i);
    EndsLayout(|tests|, j, i);
    var k :| 0 <= k < |tests| && k != i && CanExtract(tests[k], env, u);
    assert k in before;
    var m :| 0 <= m < |before| && before[m] == k;
    assert SomeExtracts(tests, env, before, u);
    AfterTells(tests, env, x, before, u);
  }

  lemma {:induction false} ResolvesWithAll(tests: seq<Test>, env: Store, x: string, i: nat, store: Store, v: string)
    requires i < |tests| && Resolvable(tests, env, i) && v in Names(tests[i].run) && v !in env
    requires forall u :: u !in env && (exists k :: 0 <= k < |tests| && k != i && CanExtract(tests[k], env, u)) ==>
               u in store && store[u] == x
    ensures |Command(store + env, tests[i].run)| >= |x|
  {
    ResolveLength(store + env, tests[i].run, v);
  }

  /** What the last test of an order reports. */
  lemma {:induction false} LastReports(tests: seq<Test>, env: Store, val: nat -> string, order: seq<nat>)
    requires order != [] && InRange(order, |tests|) && val(order[|order| - 1]) != ""
    ensures var w, before, i := World(env, Telling(val)), order[..|order| - 1], order[|order| - 1];
      var s := After(w, tests, order);
      s.threads[i].Done? && s.threads[i].result.assertions ==
        [Assertion("command", Command(After(w, tests, before).store + env, tests[i].run), "", true)]
  {
    var w, before, i := World(env, Telling(val)), order[..|order| - 1], order[|order| - 1];
    AfterFills(w, tests, before);
    TellsSolo(env, val, tests[i], i, After(w, tests, before).store, "");
  }

  /** Once all others have run, the command resolves, to a text at least as long as the extracted value. */
  lemma {:induction false} ResolvesLast(tests: seq<Test>, env: Store, x: string, i: nat, j: nat, v: string)
    requires i < |tests| && j < |tests| && i != j && CanExtract(tests[j], env, v) && v !in env && x != ""
    requires v in Names(tests[i].run) && Resolvable(tests, env, i)
    ensures var s := After(World(env, Telling((k: nat) => x)), tests, Ends(|tests|, j, i));
      exists cmd :: |cmd| >= |x| && s.threads[i].Done?
        && s.threads[i].result.assertions == [Assertion("command", cmd, "", true)]
  {
    var val := (k: nat) => x;
    EndsLayout(|tests|, j, i);
    LastReports(tests, env, val, Ends(|tests|, j, i));
    var store := After(World(env, Telling(val)), tests, [j] + Others(|tests|, j, i)).store;
    forall u | u !in env && exists k :: 0 <= k < |tests| && k != i && CanExtract(tests[k], env, u)
      ensures u in store && store[u] == x
    {
      OthersTell(tests, env, x, i, j, u);
    }
    ResolvesWithAll(tests, env, x, i, store, v);
  }

  /** When it runs first, the variable is missing and the text is run as written. */
  lemma {:induction false} RawFirst(tests: seq<Test>, env: Store, val: nat -> string, i: nat, j: nat, v: string)
    requires i < |tests| && j < |tests| && i != j && v !in env && v in Names(tests[i].run) && val(i) != ""
    ensures var s := After(World(env, Telling(val)), tests, Ends(|tests|, i, j));
      s.threads[i].Done? && s.threads[i].result.assertions == [Assertion("command", Raw(tests[i].run), "", true)]
  {
    var w := World(env, Telling(val));
    var order := Ends(|tests|, i, j);
    EndsLayout(|tests|, i, j);
    KeepsResult(w, tests, order, 1, i);
    assert order[..1][..0] == [];
    assert After(w, tests, []).store == map[];
    TellsSolo(env, val, tests[i], i, map[], v);
    ResolveMissing(map[] + env, tests[i].run, v);
  }

  lemma {:induction false} LastStepKeeps(w: World, tests: seq<Test>, order: seq<nat>, i: nat)
    requires InRange(order, |tests|) && order != [] && order[|order| - 1] != i && i < |tests|
    ensures After(w, tests, order).threads[i] == After(w, tests, order[..|order| - 1]).threads[i]
  {}

  /** A result is not changed by the tests that run later. */
  lemma {:induction false} KeepsResult(w: World, tests: seq<Test>, order: seq<nat>, n: nat, i: nat)
    requires Distinct(order) && InRange(order, |tests|) && 0 < n <= |order| && order[n - 1] == i
    ensures InRange(order[..n], |tests|) && After(w, tests, order).threads[i] == After(w, tests, order[..n]).threads[i]
    decreases |order|
  {
    if n < |order| {
      var less := order[..|order| - 1];
      assert less[..n] == order[..n];
      KeepsResult(w, tests, less, n, i);
      LastStepKeeps(w, tests, order, i);
    } else {
      assert order[..n] == order;
    }
  }

  /** A test whose command another test's variable completes. */
  lemma {:induction false} ReadVariableRaces(tests: seq<Test>, env: Store, i: nat, j: nat, v: string)
    requires i < |tests| && j < |tests| && i != j && CanExtract(tests[j], env, v) && v !in env
    requires v in Names(tests[i].run) && Resolvable(tests, env, i)
    ensures !ScheduleIndependent(tests, env)
  {
    var x := Raw(tests[i].run) + "x";
    var val := (k: nat) => x;
    RawFirst(tests, env, val, i, j, v);
    ResolvesLast(tests, env, x, i, j, v);
    TwoOutcomes(tests, env, Telling(val), i, j);
  }

  /** The exact condition: every interleaving equals the run in order if and only if the tests are
      independent. */
  lemma {:induction false} IndependentIff(tests: seq<Test>, env: Store)
    ensures ScheduleIndependent(tests, env) <==> Independent(tests, env)
  {
    if Independent(tests, env) {
      IndependentIsEnough(tests, env);
    } else {
      var i: nat, j: nat, v :| i < |tests| && j < |tests| && i != j && !Apart(tests, env, i, j, v);
      if CanExtract(tests[i], env, v) {
        SharedVariableRaces(tests, env, i, j, v);
      } else if v in env {
        HookVariableRaces(tests, env, i, j, v);
      } else {
        ReadVariableRaces(tests, env, i, j, v);
      }
    }
  }

  // ----- The choice the runner makes

  /** The choice: parallel only when asked for, without fail-fast, and when no test waits for another. */
  method RunsInParallel(tests: seq<Test>, parallel: bool, failFast: bool) returns (inParallel: bool)
    ensures inParallel <==> parallel && !failFast && forall i: nat, j: nat :: !WaitsFor(tests, i, j)
  {
    var chainGroups := DetectChains(tests);
    inParallel := parallel && !failFast && |chainGroups| == 0;
    NoGroupsIff(tests, chainGroups);
  }

  ghost predicate NoWaits(tests: seq<Test>) {
    forall i: nat, j: nat :: i < |tests| ==> !WaitsVia(tests, i, References(tests[i]), j)
  }

  /** Each variable is named for extraction by at most one test. */
  ghost predicate UniqueExtractors(tests: seq<Test>) {
    forall i: nat, j: nat, v :: i < |tests| && j < |tests| && Extracts(tests[i], v) && Extracts(tests[j], v) ==> i == j
  }

  /** No test can store a variable that the hooks store, unless it is the only test. */
  ghost predicate HooksApart(tests: seq<Test>, env: Store) {
    |tests| > 1 ==> forall j: nat, v :: j < |tests| && CanExtract(tests[j], env, v) ==> v !in env
  }

  /** Without chains and with unique extractors, every interleaving equals the run in order exactly when
      the hooks store none of the extracted variables. */
  lemma {:induction false} NoChainsIff(tests: seq<Test>, env: Store)
    requires NoWaits(tests) && UniqueExtractors(tests)
    ensures ScheduleIndependent(tests, env) <==> HooksApart(tests, env)
  {
    IndependentIff(tests, env);
    if HooksApart(tests, env) {
      forall i: nat, j: nat, v | i < |tests| && j < |tests| && i != j ensures Apart(tests, env, i, j, v) {
        if CanExtract(tests[j], env, v) {
          assert Extracts(tests[j], v);
          if v in Names(tests[i].run) {
            RunIsScanned(tests[i]);
            assert LastExtractor(tests, v) == j;
            assert WaitsVia(tests, i, References(tests[i]), j);
          }
        }
      }
    } else {
      var j: nat, v :| j < |tests| && CanExtract(tests[j], env, v) && v in env;
      assert !Apart(tests, env, if j == 0 then 1 else 0, j, v);
    }
  }

  /** What the runner relies on: whenever it chooses parallel execution for such a suite, every finished
      interleaving has the results and the variables of the run in order. */
  lemma {:induction false} ParallelRunIsSequential(tests: seq<Test>, w: World, s: State)
    requires forall i: nat, j: nat :: !WaitsFor(tests, i, j)
    requires UniqueExtractors(tests) && HooksApart(tests, w.env)
    requires Reachable(w, tests, s) && Finished(s)
    ensures (Results(s), s.store) == RunAll(w, tests)
  {
    forall i: nat, j: nat | i < |tests| ensures !WaitsVia(tests, i, References(tests[i]), j) {
      WaitsForIs(tests, i, j);
    }
    NoChainsIff(tests, w.env);
    assert w == World(w.env, w.exec);
  }

  /** Two tests; the second reads `X` and is the last to name it, the first is the one that stores it. */
  function Masked(): seq<Test> {
    [Test("a", [Lit("a")], [], [], [], [], [], [], "X", "", 1, 0, false, false),
     Test("b", [Var("X")], [], [], [], [], [], [], "", "X", 1, 0, false, false)]
  }

  lemma {:induction false} MaskedReferences()
    ensures References(Masked()[0]) == {} && References(Masked()[1]) == {"X"}
  {
    NoNames(Masked()[0]);
    OneName(Masked()[1], "X");
  }

  lemma {:induction false} MaskedHasNoChain()
    ensures NoWaits(Masked())
  {
    MaskedReferences();
    assert LastExtractor(Masked(), "X") == 1;
  }

  lemma {:induction false} MaskedNotApart()
    ensures !Apart(Masked(), map[], 1, 0, "X")
  {
    var tests := Masked();
    assert tests[1].run[0] == Var("X");
    assert "X" in Names(tests[1].run);
    assert CanExtract(tests[0], map[], "X");
  }

  /** A suite with no chain whose outcome depends on the schedule: the detection keeps only the last test
      that names a variable, and ignores a test that reads its own. */
  lemma {:induction false} MaskedExtractorRaces()
    ensures NoWaits(Masked()) && !ScheduleIndependent(Masked(), map[])
  {
    MaskedHasNoChain();
    MaskedNotApart();
    IndependentIff(Masked(), map[]);
  }

  lemma {:induction false} NoNames(t: Test)
    requires forall i :: 0 <= i < |Scanned(t)| ==> Names(Scanned(t)[i]) == {}
    ensures References(t) == {}
  {
    NamesInAll(Scanned(t));
  }

  lemma {:induction false} OneName(t: Test, v: string)
    requires Names(t.run) == {v}
    requires forall i :: 0 < i < |Scanned(t)| ==> Names(Scanned(t)[i]) == {}
    ensures References(t) == {v}
  {
    NamesInAll(Scanned(t)[1..]);
  }

  lemma {:induction false} NamesInAll(texts: seq<Text>)
    requires forall i :: 0 <= i < |texts| ==> Names(texts[i]) == {}
    ensures NamesIn(texts) == {}
    decreases |texts|
  {
    if texts != [] { NamesInAll(texts[1..]); }
  }

  // ----- Collecting the results of a parallel run

  /** The results are counted in the order of the tests, whatever order they finished in. */
  method CollectResults(results: seq<TestResult>) returns (suite: SuiteResult)
    ensures Accounted(suite) && suite.tests == results
    ensures Counted(suite)
  {
    suite := SuiteResult(|results|, 0, 0, 0, 0, []);
    for i := 0 to |results|
      invariant suite.total == |results| && Tallied(suite) && suite.tests == results[..i]
    {
      RecordTallies(suite, results[i]);
      suite := Record(suite, results[i]);
    }
    AccountedIsCounted(suite);
  }
}
