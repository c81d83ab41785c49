/** Loading a configuration with its includes and its remote base. */
module Includes {
  import opened Sequences

  /** What reading, template processing and parsing make of one file.  `remote` is the outcome of
      resolving and parsing the `extends` URL. */
  datatype File =
    | Unreadable
    | BadTemplate
    | Unparsable
    | Config(includes: seq<string>, prereqs: seq<string>, tests: seq<string>, remote: Remote)

  datatype Remote = NoExtends | BrokenExtends | Base(prereqs: seq<string>, tests: seq<string>)

  /** The file system; `resolve` turns an include written in a file into a path. */
  datatype World = World(files: map<string, File>, resolve: (string, string) -> string)

  datatype Error = TooDeep | ReadError | TemplateError | ParseError | ExtendsError

  datatype Loaded = Failure(error: Error) | Success(prereqs: seq<string>, tests: seq<string>)

  const MAX_DEPTH := 10

  function FileAt(w: World, path: string): File {
    if path in w.files then w.files[path] else Unreadable
  }

  // ----- The loader

  function Load(w: World, path: string, depth: nat): Loaded
    decreases MAX_DEPTH + 1 - depth, 1, 0
  {
    if depth > MAX_DEPTH then Failure(TooDeep)
    else match FileAt(w, path)
      case Unreadable => Failure(ReadError)
      case BadTemplate => Failure(TemplateError)
      case Unparsable => Failure(ParseError)
      case Config(includes, prereqs, tests, remote) =>
        match LoadIncludes(w, path, depth, includes, prereqs, tests)
        case Failure(e) => Failure(e)
        case Success(ps, ts) => Extend(remote, ps, ts)
  }

  /** Each include goes in front of what has been collected so far. */
  function LoadIncludes(w: World, path: string, depth: nat, includes: seq<string>,
                        prereqs: seq<string>, tests: seq<string>): Loaded
    requires depth <= MAX_DEPTH
    decreases MAX_DEPTH + 1 - depth, 0, |includes|
  {
    if includes == [] then Success(prereqs, tests)
    else match Load(w, w.resolve(path, includes[0]), depth + 1)
      case Failure(e) => Failure(e)
      case Success(ps, ts) => LoadIncludes(w, path, depth, includes[1..], ps + prereqs, ts + tests)
  }

  /** The local configuration is laid over the remote one. */
  function Extend(remote: Remote, prereqs: seq<string>, tests: seq<string>): Loaded {
    match remote
    case NoExtends => Success(prereqs, tests)
    case BrokenExtends => Failure(ExtendsError)
    case Base(ps, ts) => Success(ps + prereqs, ts + tests)
  }

  method LoadWithDepth(w: World, path: string, depth: nat) returns (r: Loaded)
    ensures r == Load(w, path, depth)
    ensures depth > 10 ==> r == Failure(TooDeep)
    ensures depth <= 10 && (path !in w.files || w.files[path].Unreadable?) ==> r == Failure(ReadError)
    ensures depth <= 10 && path in w.files && w.files[path].BadTemplate? ==> r == Failure(TemplateError)
    ensures depth <= 10 && path in w.files && w.files[path].Unparsable? ==> r == Failure(ParseError)
    decreases MAX_DEPTH + 1 - depth
  {
    if depth > MAX_DEPTH {
      return Failure(TooDeep);
    }
    var file := FileAt(w, path);
    match file {
      case Unreadable => return Failure(ReadError);
      case BadTemplate => return Failure(TemplateError);
      case Unparsable => return Failure(ParseError);
      case Config(includes, ownPrereqs, ownTests, remote) =>
        var prereqs, tests := ownPrereqs, ownTests;
        for i := 0 to |includes|
          invariant LoadIncludes(w, path, depth, includes[i..], prereqs, tests)
                 == LoadIncludes(w, path, depth, includes, ownPrereqs, ownTests)
        {
          var inc := LoadWithDepth(w, w.resolve(path, includes[i]), depth + 1);
          assert includes[i..][0] == includes[i] && includes[i..][1..] == includes[i + 1..];
          if inc.Failure? {
            return inc;
          }
          prereqs := inc.prereqs + prereqs;
          tests := inc.tests + tests;
        }
        r := Extend(remote, prereqs, tests);
    }
  }

  // ----- When loading succeeds

  predicate Loadable(w: World, path: string) {
    FileAt(w, path).Config? && !FileAt(w, path).remote.BrokenExtends?
  }

  predicate Includes(w: World, path: string, target: string) {
    FileAt(w, path).Config? &&
    exists i :: 0 <= i < |FileAt(w, path).includes| && target == w.resolve(path, FileAt(w, path).includes[i])
  }

  /** A path through the include graph. */
  ghost predicate Chain(w: World, ps: seq<string>) {
    ps != [] && forall k :: 0 < k < |ps| ==> Includes(w, ps[k - 1], ps[k])
  }

  /** Every chain from `path` ends in a loadable file and has at most `edges` edges. */
  ghost predicate ChainsOk(w: World, path: string, edges: int) {
    forall ps: seq<string> :: Chain(w, ps) && ps[0] == path ==>
      |ps| - 1 <= edges && Loadable(w, ps[|ps| - 1])
  }

  lemma {:induction false} IncludesSucceed(w: World, path: string, depth: nat, includes: seq<string>,
                                           prereqs: seq<string>, tests: seq<string>)
    requires depth <= MAX_DEPTH
    ensures LoadIncludes(w, path, depth, includes, prereqs, tests).Success? <==>
            forall i :: 0 <= i < |includes| ==> Load(w, w.resolve(path, includes[i]), depth + 1).Success?
    decreases |includes|
  {
    if includes != [] {
      var first := Load(w, w.resolve(path, includes[0]), depth + 1);
      if first.Success? {
        IncludesSucceed(w, path, depth, includes[1..], first.prereqs + prereqs, first.tests + tests);
        assert forall i :: 0 < i < |includes| ==> includes[i] == includes[1..][i - 1];
        assert forall i :: 0 <= i < |includes| - 1 ==> includes[1..][i] == includes[i + 1];
      }
    }
  }

  /** One file: it loads when it is loadable itself and all its includes load one level deeper. */
  lemma {:induction false} LoadOne(w: World, path: string, depth: nat)
    ensures Load(w, path, depth).Success? <==>
            && depth <= MAX_DEPTH && Loadable(w, path)
            && forall target :: Includes(w, path, target) ==> Load(w, target, depth + 1).Success?
  {
    if depth <= MAX_DEPTH && FileAt(w, path).Config? {
      var file := FileAt(w, path);
      IncludesSucceed(w, path, depth, file.includes, file.prereqs, file.tests);
      if LoadIncludes(w, path, depth, file.includes, file.prereqs, file.tests).Failure? {
        var i :| 0 <= i < |file.includes| && !Load(w, w.resolve(path, file.includes[i]), depth + 1).Success?;
        assert Includes(w, path, w.resolve(path, file.includes[i]));
      }
    }
  }

  /** What loads, loads along every chain. */
  lemma {:induction false} LoadsAlong(w: World, ps: seq<string>, depth: nat)
    requires Chain(w, ps) && Load(w, ps[0], depth).Success?
    ensures depth + |ps| - 1 <= MAX_DEPTH
    ensures Load(w, ps[|ps| - 1], depth + |ps| - 1).Success?
    decreases |ps|
  {
    LoadOne(w, ps[0], depth);
    if |ps| > 1 {
      assert Includes(w, ps[0], ps[1]);
      assert Chain(w, ps[1..]) by {
        forall k | 0 < k < |ps[1..]| ensures Includes(w, ps[1..][k - 1], ps[1..][k]) {
          assert Includes(w, ps[k], ps[k + 1]);
        }
      }
      LoadsAlong(w, ps[1..], depth + 1);
    }
  }

  lemma {:induction false} ChainsLoad(w: World, path: string, depth: nat)
    requires ChainsOk(w, path, MAX_DEPTH - depth)
    ensures Load(w, path, depth).Success?
    decreases MAX_DEPTH + 1 - depth
  {
    assert Chain(w, [path]);
    forall target | Includes(w, path, target) ensures Load(w, target, depth + 1).Success? {
      forall ps: seq<string> | Chain(w, ps) && ps[0] == target
        ensures |ps| - 1 <= MAX_DEPTH - depth - 1 && Loadable(w, ps[|ps| - 1])
      {
        var longer := [path] + ps;
        assert Chain(w, longer) by {
          forall k | 0 < k < |longer| ensures Includes(w, longer[k - 1], longer[k]) {
            if k > 1 { assert Includes(w, ps[k - 2], ps[k - 1]); }
          }
        }
        assert longer[|longer| - 1] == ps[|ps| - 1];
      }
      ChainsLoad(w, target, depth + 1);
    }
    LoadOne(w, path, depth);
  }

  /** Loading succeeds exactly when every chain of includes from the root ends in a loadable file and
      none has more than ten edges. */
  lemma {:induction false} LoadSucceedsIff(w: World, path: string)
    ensures Load(w, path, 0).Success? <==> ChainsOk(w, path, 10)
  {
    if Load(w, path, 0).Success? {
      forall ps: seq<string> | Chain(w, ps) && ps[0] == path
        ensures |ps| - 1 <= MAX_DEPTH && Loadable(w, ps[|ps| - 1])
      {
        LoadsAlong(w, ps, 0);
        LoadOne(w, ps[|ps| - 1], |ps| - 1);
      }
    }
    if ChainsOk(w, path, MAX_DEPTH) { ChainsLoad(w, path, 0); }
  }

  /** A file on an include cycle never loads. */
  lemma {:induction false} CycleNeverLoads(w: World, cycle: seq<string>, depth: nat)
    requires Chain(w, cycle) && |cycle| > 1 && cycle[|cycle| - 1] == cycle[0]
    ensures Load(w, cycle[0], depth).Failure?
    decreases MAX_DEPTH + 1 - depth
  {
    if Load(w, cycle[0], depth).Success? {
      LoadsAlong(w, cycle, depth);
      CycleNeverLoads(w, cycle, depth + |cycle| - 1);
    }
  }

  /** Nor does anything that reaches one. */
  lemma {:induction false} ReachingACycleFails(w: World, ps: seq<string>, cycle: seq<string>, depth: nat)
    requires Chain(w, ps) && Chain(w, cycle) && |cycle| > 1
    requires ps[|ps| - 1] == cycle[0] == cycle[|cycle| - 1]
    ensures Load(w, ps[0], depth).Failure?
  {
    if Load(w, ps[0], depth).Success? {
      LoadsAlong(w, ps, depth);
      CycleNeverLoads(w, cycle, depth + |ps| - 1);
    }
  }

  // ----- What is loaded

  /** The includes below a file, written out as a tree. */
  datatype Tree = Node(path: string, children: seq<Tree>)

  ghost predicate TreeOf(w: World, t: Tree) {
    && Loadable(w, t.path)
    && var includes := FileAt(w, t.path).includes;
       |t.children| == |includes| &&
       forall i :: 0 <= i < |includes| ==>
         t.children[i].path == w.resolve(t.path, includes[i]) && TreeOf(w, t.children[i])
  }

  function BaseTests(remote: Remote): seq<string> {
    match remote
    case Base(_, ts) => ts
    case _ => []
  }

  function BasePrereqs(remote: Remote): seq<string> {
    match remote
    case Base(ps, _) => ps
    case _ => []
  }

  /** Remote base first, then the includes from last to first, then the file's own. */
  function FlatTests(w: World, t: Tree): seq<string> {
    match FileAt(w, t.path)
    case Config(_, _, tests, remote) => BaseTests(remote) + (FlatChildTests(w, t.children) + tests)
    case _ => []
  }

  function FlatChildTests(w: World, ts: seq<Tree>): seq<string> {
    if ts == [] then [] else FlatChildTests(w, ts[1..]) + FlatTests(w, ts[0])
  }

  function FlatPrereqs(w: World, t: Tree): seq<string> {
    match FileAt(w, t.path)
    case Config(_, prereqs, _, remote) => BasePrereqs(remote) + (FlatChildPrereqs(w, t.children) + prereqs)
    case _ => []
  }

  function FlatChildPrereqs(w: World, ts: seq<Tree>): seq<string> {
    if ts == [] then [] else FlatChildPrereqs(w, ts[1..]) + FlatPrereqs(w, ts[0])
  }

  function Height(t: Tree): nat {
    ChildHeight(t.children)
  }

  function ChildHeight(ts: seq<Tree>): nat {
    if ts == [] then 0
    else if 1 + Height(ts[0]) > ChildHeight(ts[1..]) then 1 + Height(ts[0]) else ChildHeight(ts[1..])
  }

  /** The include tree decides the outcome: too high fails, otherwise its flattening is what is loaded. */
  lemma {:induction false} LoadFlattens(w: World, t: Tree, depth: nat)
    requires TreeOf(w, t)
    ensures Load(w, t.path, depth) ==
            if depth + Height(t) > MAX_DEPTH then Failure(TooDeep) else Success(FlatPrereqs(w, t), FlatTests(w, t))
    decreases t, 1
  {
    if depth <= MAX_DEPTH {
      var file := FileAt(w, t.path);
      LoadChildren(w, t, depth, 0, file.prereqs, file.tests);
      assert file.includes[0..] == file.includes && t.children[0..] == t.children;
    }
  }

  lemma {:induction false} LoadChildren(w: World, t: Tree, depth: nat, i: nat, prereqs: seq<string>, tests: seq<string>)
    requires TreeOf(w, t) && depth <= MAX_DEPTH && i <= |t.children|
    ensures LoadIncludes(w, t.path, depth, FileAt(w, t.path).includes[i..], prereqs, tests) ==
            if depth + ChildHeight(t.children[i..]) > MAX_DEPTH then Failure(TooDeep)
            else Success(FlatChildPrereqs(w, t.children[i..]) + prereqs, FlatChildTests(w, t.children[i..]) + tests)
    decreases t, 0, |t.children| - i
  {
    var includes := FileAt(w, t.path).includes;
    if i < |t.children| {
      var child := t.children[i];
      assert includes[i..][0] == includes[i] && includes[i..][1..] == includes[i + 1..];
      assert t.children[i..][0] == child && t.children[i..][1..] == t.children[i + 1..];
      LoadFlattens(w, child, depth + 1);
      LoadChildren(w, t, depth, i + 1, FlatPrereqs(w, child) + prereqs, FlatTests(w, child) + tests);
      Regroup(FlatChildPrereqs(w, t.children[i + 1..]), FlatPrereqs(w, child), prereqs);
      Regroup(FlatChildTests(w, t.children[i + 1..]), FlatTests(w, child), tests);
    } else {
      assert [] + prereqs == prereqs && [] + tests == tests;
    }
  }

  /** Whatever loads has an include tree, so the flattening describes every successful load. */
  lemma {:induction false} LoadedHasTree(w: World, path: string, depth: nat) returns (t: Tree)
    requires Load(w, path, depth).Success?
    ensures TreeOf(w, t) && t.path == path
    ensures Load(w, path, depth) == Success(FlatPrereqs(w, t), FlatTests(w, t))
    decreases MAX_DEPTH + 1 - depth
  {
    LoadOne(w, path, depth);
    var includes := FileAt(w, path).includes;
    var children: seq<Tree> := [];
    while |children| < |includes|
      invariant |children| <= |includes|
      invariant forall i :: 0 <= i < |children| ==>
                  children[i].path == w.resolve(path, includes[i]) && TreeOf(w, children[i])
    {
      var target := w.resolve(path, includes[|children|]);
      assert Includes(w, path, target);
      var child := LoadedHasTree(w, target, depth + 1);
      children := children + [child];
    }
    t := Node(path, children);
    LoadFlattens(w, t, depth);
  }

  // ----- Which error, and in which order

  /** The first include that fails to load decides the error. */
  lemma {:induction false} FirstFailingInclude(w: World, path: string, depth: nat, i: nat)
    requires depth <= 10 && path in w.files && w.files[path].Config? && i < |w.files[path].includes|
    requires forall j :: 0 <= j < i ==> Load(w, w.resolve(path, w.files[path].includes[j]), depth + 1).Success?
    requires Load(w, w.resolve(path, w.files[path].includes[i]), depth + 1).Failure?
    ensures Load(w, path, depth) == Load(w, w.resolve(path, w.files[path].includes[i]), depth + 1)
  {
    var file := w.files[path];
    FailingAt(w, path, depth, file.includes, i, file.prereqs, file.tests);
  }

  lemma {:induction false} FailingAt(w: World, path: string, depth: nat, includes: seq<string>, i: nat,
                                     prereqs: seq<string>, tests: seq<string>)
    requires depth <= MAX_DEPTH && i < |includes|
    requires forall j :: 0 <= j < i ==> Load(w, w.resolve(path, includes[j]), depth + 1).Success?
    requires Load(w, w.resolve(path, includes[i]), depth + 1).Failure?
    ensures LoadIncludes(w, path, depth, includes, prereqs, tests) == Load(w, w.resolve(path, includes[i]), depth + 1)
    decreases |includes|
  {
    if i > 0 {
      var first := Load(w, w.resolve(path, includes[0]), depth + 1);
      FailingAt(w, path, depth, includes[1..], i - 1, first.prereqs + prereqs, first.tests + tests);
    }
  }

  /** A broken remote base is reported once all includes have loaded. */
  lemma {:induction false} BrokenBaseFails(w: World, path: string, depth: nat)
    requires depth <= 10 && path in w.files && w.files[path].Config? && w.files[path].remote.BrokenExtends?
    requires forall j :: 0 <= j < |w.files[path].includes| ==>
      Load(w, w.resolve(path, w.files[path].includes[j]), depth + 1).Success?
    ensures Load(w, path, depth) == Failure(ExtendsError)
  {
    var file := w.files[path];
    IncludesSucceed(w, path, depth, file.includes, file.prereqs, file.tests);
  }

  predicate StandsAlone(w: World, path: string) {
    path in w.files && w.files[path].Config? && w.files[path].includes == [] && w.files[path].remote == NoExtends
  }

  /** Two includes and a remote base: base, second include, first include, own entries. */
  lemma {:induction false} TwoIncludesInOrder(w: World, path: string, a: string, b: string)
    requires path in w.files && w.files[path].Config? && w.files[path].remote.Base?
    requires w.files[path].includes == [a, b]
    requires StandsAlone(w, w.resolve(path, a)) && StandsAlone(w, w.resolve(path, b))
    ensures var f, first, second := w.files[path], w.files[w.resolve(path, a)], w.files[w.resolve(path, b)];
      Load(w, path, 0) == Success(f.remote.prereqs + (second.prereqs + (first.prereqs + f.prereqs)),
                                  f.remote.tests + (second.tests + (first.tests + f.tests)))
  {
    var f, first, second := w.files[path], w.files[w.resolve(path, a)], w.files[w.resolve(path, b)];
    var ps, ts := first.prereqs + f.prereqs, first.tests + f.tests;
    assert [a, b][1..] == [b] && [b][1..] == [];
    assert Load(w, w.resolve(path, a), 1) == Success(first.prereqs, first.tests);
    assert Load(w, w.resolve(path, b), 1) == Success(second.prereqs, second.tests);
    assert LoadIncludes(w, path, 0, [b], ps, ts) == Success(second.prereqs + ps, second.tests + ts);
    assert LoadIncludes(w, path, 0, [a, b], f.prereqs, f.tests) == LoadIncludes(w, path, 0, [b], ps, ts);
  }
}
