/** Fetching one remote configuration through the on-disk cache, over whole runs of server updates,
    fetches and failures.  The server answers conditional requests as sections 13.1.2, 13.1.3 and 15.4.5
    of RFC 9110 say. */
module RemoteCache {
  import opened Bits
  import opened Options

  type Bytes = seq<Byte>

  const LIMIT := 10 * 1024 * 1024

  /** An entity tag, and a modification date in seconds. */
  datatype Tag = Tag(weak: bool, value: string)

  /** A body with the validators that come with it. */
  datatype Version = Version(body: Bytes, tag: Option<Tag>, date: Option<int>)

  /** The cache file after decoding; `Corrupt` is one that cannot be decoded. */
  datatype CacheFile = Missing | Corrupt | Entry(version: Version)

  datatype Request = Request(ifNoneMatch: Option<Tag>, ifModifiedSince: Option<int>)

  datatype Response =
    | NetworkError
    | NotModified
    | OtherStatus
    | BrokenBody
    | Ok(version: Version)

  /** A failed write may leave anything behind: the file is truncated before it is written. */
  datatype Write = Written | Failed(left: CacheFile)

  datatype Source = From200 | From304 | Fallback

  datatype Fetched = Error | Fetched(body: Bytes, source: Source)

  function ReadBody(body: Bytes): Bytes {
    if |body| <= LIMIT then body else body[..LIMIT]
  }

  // ----- One fetch

  function RequestFor(cache: CacheFile): Request {
    match cache
    case Entry(v) => Request(v.tag, v.date)
    case _ => Request(None, None)
  }

  function FallBack(cache: CacheFile): Fetched {
    match cache
    case Entry(v) => Fetched(v.body, Fallback)
    case _ => Error
  }

  /** `accessible`: the cache directory can be made and the file, if any, can be read. */
  function Fetch(cache: CacheFile, accessible: bool, response: Response, valid: Bytes -> bool, write: Write):
    (Fetched, CacheFile)
  {
    if !accessible || cache.Corrupt? then (Error, cache)
    else match response
      case NetworkError => (FallBack(cache), cache)
      case NotModified => (Fetched(if cache.Entry? then cache.version.body else [], From304), cache)
      case OtherStatus => (FallBack(cache), cache)
      case BrokenBody => (FallBack(cache), cache)
      case Ok(sent) =>
        var v := sent.(body := ReadBody(sent.body));
        if !valid(v.body) then (Error, cache)
        else (Fetched(v.body, From200), if write.Written? then Entry(v) else write.left)
  }

  /** The request carries the validators of the entry, if there is one. */
  function AskedBy(cache: CacheFile): Request {
    Request(if cache.Entry? then cache.version.tag else None, if cache.Entry? then cache.version.date else None)
  }

  /** A body cut to the first ten mebibytes. */
  predicate IsCut(body: Bytes, whole: Bytes) {
    body <= whole && |body| == if |whole| < 10_485_760 then |whole| else 10_485_760
  }

  predicate NoContent(response: Response) {
    response.NetworkError? || response.OtherStatus? || response.BrokenBody?
  }

  /** Result and cache file afterwards, case by case: an inaccessible or corrupt cache is an error whatever the
      server says; without content the entry is handed out, and without an entry that is an error; content is
      cut, and handed out and stored only when it is valid. */
  ghost predicate Answers(before: CacheFile, accessible: bool, response: Response, valid: Bytes -> bool, write: Write,
                          r: Fetched, after: CacheFile) {
    && (!accessible || before.Corrupt? ==> r == Error && after == before)
    && (accessible && before.Entry? && NoContent(response) ==> r == Fetched(before.version.body, Fallback))
    && (accessible && before.Missing? && NoContent(response) ==> r == Error)
    && (accessible && before.Entry? && response.NotModified? ==> r == Fetched(before.version.body, From304))
    && (accessible && before.Missing? && response.NotModified? ==> r == Fetched([], From304))
    && (!response.Ok? ==> after == before)
    && (accessible && !before.Corrupt? && response.Ok? ==>
         exists body :: IsCut(body, response.version.body)
           && (!valid(body) ==> r == Error && after == before)
           && (valid(body) ==> r == Fetched(body, From200))
           && (valid(body) && write.Written? ==>
                 after == Entry(Version(body, response.version.tag, response.version.date)))
           && (valid(body) && write.Failed? ==> after == write.left))
  }

  lemma {:induction false} FetchAnswers(cache: CacheFile, accessible: bool, response: Response, valid: Bytes -> bool,
                                        write: Write)
    ensures var (r, after) := Fetch(cache, accessible, response, valid, write);
            Answers(cache, accessible, response, valid, write, r, after)
  {
    if response.Ok? { assert IsCut(ReadBody(response.version.body), response.version.body); }
  }

  class RemoteResolver {
    var cache: CacheFile

    constructor ()
      ensures cache == Missing
    {
      cache := Missing;
    }

    /** `server` answers the request; `write` is what happens if the cache file is written. */
    method FetchHttp(accessible: bool, server: Request -> Response, valid: Bytes -> bool, write: Write)
      returns (r: Fetched)
      modifies this
      ensures (r, cache) == Fetch(old(cache), accessible, server(RequestFor(old(cache))), valid, write)
      ensures Answers(old(cache), accessible, server(AskedBy(old(cache))), valid, write, r, cache)
    {
      FetchAnswers(cache, accessible, server(RequestFor(cache)), valid, write);
      if !accessible { return Error; }
      if cache.Corrupt? { return Error; }
      var cachedBody, cachedTag, cachedDate := None, None, None;
      if cache.Entry? {
        cachedBody, cachedTag, cachedDate := Some(cache.version.body), cache.version.tag, cache.version.date;
      }
      var response := server(Request(cachedTag, cachedDate));
      if response.NetworkError? {
        if cachedBody.Some? { return Fetched(cachedBody.value, Fallback); }
        return Error;
      }
      if response.NotModified? {
        return Fetched(if cachedBody.Some? then cachedBody.value else [], From304);
      }
      if response.OtherStatus? {
        if cachedBody.Some? { return Fetched(cachedBody.value, Fallback); }
        return Error;
      }
      if response.BrokenBody? {
        if cachedBody.Some? { return Fetched(cachedBody.value, Fallback); }
        return Error;
      }
      var body := ReadBody(response.version.body);
      if !valid(body) { return Error; }
      match write {
        case Written => cache := Entry(Version(body, response.version.tag, response.version.date));
        case Failed(left) => cache := left;
      }
      return Fetched(body, From200);
    }
  }

  // ----- Runs: a server that goes through versions, and fetches in between

  datatype Behaviour = Down | ErrorStatus | CutOff | Full | Conditional

  datatype Event = Publish(v: Version) | FetchEvent(accessible: bool, behaviour: Behaviour, write: Write)

  /** `history` holds every version the server has had, the current one last; `stored` is the last body
      written to the cache. */
  datatype State = State(history: seq<Version>, cache: CacheFile, stored: Option<Bytes>)

  function Current(s: State): Version
    requires s.history != []
  {
    s.history[|s.history| - 1]
  }

  /** Weak comparison (section 8.8.3.2). */
  predicate SameTag(a: Tag, b: Tag) {
    a.value == b.value
  }

  /** The condition of a request finds version `v` unmodified: If-None-Match decides when it is present,
      otherwise a version dated at or before If-Modified-Since counts as unmodified. */
  predicate Unmodified(r: Request, v: Version) {
    match r.ifNoneMatch
    case Some(tag) => v.tag.Some? && SameTag(tag, v.tag.value)
    case None => r.ifModifiedSince.Some? && v.date.Some? && v.date.value <= r.ifModifiedSince.value
  }

  function Respond(b: Behaviour, v: Version, r: Request): Response {
    match b
    case Down => NetworkError
    case ErrorStatus => OtherStatus
    case CutOff => BrokenBody
    case Full => Ok(v)
    case Conditional => if Unmodified(r, v) then NotModified else Ok(v)
  }

  /** The setting of a run: which bodies are valid YAML, and what a failing write of `new` over `old` may
      leave behind; each failing write may leave something else. */
  datatype Setting = Setting(valid: Bytes -> bool, mayLeave: (CacheFile, CacheFile, CacheFile) -> bool)

  /** What a full answer puts into the cache. */
  function Stored(v: Version): CacheFile {
    Entry(v.(body := ReadBody(v.body)))
  }

  function Step(g: Setting, s: State, e: Event): (State, Option<Fetched>)
    requires s.history != []
  {
    match e
    case Publish(v) => (s.(history := s.history + [v]), None)
    case FetchEvent(accessible, b, write) =>
      var (r, cache) := Fetch(s.cache, accessible, Respond(b, Current(s), RequestFor(s.cache)), g.valid, write);
      var stores := r.Fetched? && r.source.From200? && cache == Stored(Current(s));
      (s.(cache := cache, stored := if stores then Some(cache.version.body) else s.stored), Some(r))
  }

  /** A failing write leaves what the setting allows. */
  predicate Allowed(g: Setting, s: State, e: Event)
    requires s.history != []
  {
    e.FetchEvent? && e.write.Failed? ==> g.mayLeave(s.cache, Stored(Current(s)), e.write.left)
  }

  /** The cache file holds a valid body with the validators the server had with it. */
  predicate Served(g: Setting, s: State) {
    match s.cache
    case Missing => true
    case Corrupt => false
    case Entry(v) => v in s.history && g.valid(v.body)
  }

  /** The server delivers nothing. */
  predicate Fails(b: Behaviour) {
    b == Down || b == ErrorStatus || b == CutOff
  }

  /** The server answers with the whole current version: always, or because the condition holds. */
  predicate Delivers(s: State, e: Event)
    requires s.history != []
  {
    e.FetchEvent? && (e.behaviour == Full
      || (e.behaviour == Conditional
          && !(s.cache.Entry? && Unmodified(Request(s.cache.version.tag, s.cache.version.date), Current(s)))))
  }

  /** What comes of a fetch: nothing delivered gives the entry's body, if there is an entry; nothing new gives it
      as current; a valid delivery is handed out and stored.  It is an error only without access, on an invalid
      delivery, or when nothing is delivered and there is no entry. */
  predicate Obliges(g: Setting, s: State, e: Event, s': State, r: Option<Fetched>)
    requires s.history != [] && e.FetchEvent?
  {
    && r.Some?
    && (e.accessible && s.cache.Entry? && Fails(e.behaviour) ==>
         r == Some(Fetched(s.cache.version.body, Fallback)) && s'.cache == s.cache)
    && (e.accessible && s.cache.Entry? && e.behaviour == Conditional && !Delivers(s, e) ==>
         r == Some(Fetched(s.cache.version.body, From304)) && s'.cache == s.cache)
    && (e.accessible && Delivers(s, e) && |Current(s).body| <= LIMIT && g.valid(Current(s).body) ==>
         r == Some(Fetched(Current(s).body, From200)) && (e.write.Written? ==> s'.cache == Entry(Current(s))))
    && (r == Some(Error) ==>
         || !e.accessible
         || (Delivers(s, e) && !g.valid(ReadBody(Current(s).body)))
         || (s.cache.Missing? && Fails(e.behaviour)))
  }

  /** What a caller relies on after one event that led from `s` to `s'` and returned `r`. */
  predicate Good(g: Setting, s: State, e: Event, s': State, r: Option<Fetched>)
    requires s.history != []
  {
    && Served(g, s')
    && (e.FetchEvent? ==> Obliges(g, s, e, s', r))
    && (r.Some? && r.value.Fetched? ==>
         match r.value.source
         case From200 => r.value.body == Current(s).body
         case From304 => r.value.body == Current(s).body
         case Fallback => s.stored == Some(r.value.body))
  }

  predicate RunGood(g: Setting, s: State, events: seq<Event>)
    requires s.history != []
    decreases |events|
  {
    events == [] ||
    (Allowed(g, s, events[0]) ==>
       var (s', r) := Step(g, s, events[0]);
       Good(g, s, events[0], s', r) && RunGood(g, s', events[1..]))
  }

  function Start(v: Version): State {
    State([v], Missing, None)
  }

  function Publications(events: seq<Event>): seq<Version> {
    if events == [] then []
    else (if events[0].Publish? then [events[0].v] else []) + Publications(events[1..])
  }

  // ----- What is asked of the versions and of failing writes

  /** A client that holds `u` is told that it is up to date when the server has `v`, and is wrong. */
  predicate Confuses(u: Version, v: Version) {
    Unmodified(Request(u.tag, u.date), v) && u.body != v.body
  }

  /** The body is within the limit, or its first part is not valid. */
  predicate Whole(g: Setting, v: Version) {
    |v.body| <= LIMIT || !g.valid(ReadBody(v.body))
  }

  /** No version is too long, and none is followed by one that the conditional request takes for it: with
      an ETag, a different body under the same tag; without, a different body dated no later. */
  predicate Sound(g: Setting, vs: seq<Version>) {
    && (forall i :: 0 <= i < |vs| ==> Whole(g, vs[i]))
    && (forall i, j :: 0 <= i < j < |vs| && Storable(g, Entry(vs[i])) ==> !Confuses(vs[i], vs[j]))
  }

  /** Files that a run can have written. */
  predicate Storable(g: Setting, c: CacheFile) {
    c.Entry? && |c.version.body| <= LIMIT && g.valid(c.version.body)
  }

  predicate Follows(g: Setting, before: CacheFile, after: CacheFile) {
    && Storable(g, after)
    && (before.Missing? || (Storable(g, before) && !Confuses(before.version, after.version)))
  }

  /** A failing write leaves the file as it was, complete, or not at all. */
  ghost predicate Harmless(g: Setting) {
    forall c, d, left :: Follows(g, c, d) && g.mayLeave(c, d, left) ==> left == c || left == d || left == Missing
  }

  // ----- The invariant of every run

  predicate Inv(g: Setting, s: State) {
    && s.history != [] && Sound(g, s.history)
    && Served(g, s)
    && (s.cache.Entry? ==> |s.cache.version.body| <= LIMIT && s.stored == Some(s.cache.version.body))
  }

  lemma {:induction false} SoundPrefix(g: Setting, vs: seq<Version>, ws: seq<Version>)
    requires Sound(g, ws) && vs <= ws
    ensures Sound(g, vs)
  {
    assert forall i :: 0 <= i < |vs| ==> vs[i] == ws[i];
  }

  /** A client that holds a version of the history is not misled about the current one. */
  lemma {:induction false} HeldIsCurrent(g: Setting, s: State)
    requires Inv(g, s) && s.cache.Entry? && Unmodified(RequestFor(s.cache), Current(s))
    ensures s.cache.version.body == Current(s).body
  {
    var i :| 0 <= i < |s.history| && s.history[i] == s.cache.version;
    if i < |s.history| - 1 {
      assert !Confuses(s.history[i], s.history[|s.history| - 1]);
    }
  }

  /** What a full answer puts into the cache can follow what is there. */
  lemma {:induction false} AnswerFollows(g: Setting, s: State)
    requires Inv(g, s) && g.valid(ReadBody(Current(s).body))
    ensures Stored(Current(s)) == Entry(Current(s)) && Storable(g, Stored(Current(s)))
    ensures s.cache.Entry? ==> Storable(g, s.cache) && (Follows(g, s.cache, Stored(Current(s))))
  {
    var n := |s.history| - 1;
    assert Whole(g, s.history[n]);
    if s.cache.Entry? {
      if Confuses(s.cache.version, Current(s)) { HeldIsCurrent(g, s); }
    }
  }

  lemma {:induction false} FetchKeepsInv(g: Setting, s: State, e: Event)
    requires Inv(g, s) && Harmless(g) && Allowed(g, s, e) && e.FetchEvent?
    ensures var (s', r) := Step(g, s, e); Inv(g, s') && Good(g, s, e, s', r)
  {
    var response := Respond(e.behaviour, Current(s), RequestFor(s.cache));
    if response.NotModified? {
      if s.cache.Entry? { HeldIsCurrent(g, s); }
    }
    if response.Ok? && g.valid(ReadBody(Current(s).body)) {
      AnswerFollows(g, s);
      assert Follows(g, s.cache, Stored(Current(s)));
      assert Current(s) in s.history;
    }
  }

  lemma {:induction false} StepKeepsInv(g: Setting, s: State, e: Event)
    requires Inv(g, s) && Harmless(g) && Allowed(g, s, e)
    requires e.Publish? ==> Sound(g, s.history + [e.v])
    ensures var (s', r) := Step(g, s, e); Inv(g, s') && Good(g, s, e, s', r)
  {
    if e.FetchEvent? { FetchKeepsInv(g, s, e); }
  }

  lemma {:induction false} RunKeepsInv(g: Setting, s: State, events: seq<Event>)
    requires Inv(g, s) && Harmless(g) && Sound(g, s.history + Publications(events))
    ensures RunGood(g, s, events)
    decreases |events|
  {
    if events != [] && Allowed(g, s, events[0]) {
      var e := events[0];
      var s' := Step(g, s, e).0;
      assert s.history + Publications(events) == s'.history + Publications(events[1..]);
      if e.Publish? { SoundPrefix(g, s'.history, s'.history + Publications(events[1..])); }
      StepKeepsInv(g, s, e);
      RunKeepsInv(g, s', events[1..]);
    }
  }

  /** With sound versions and harmless write failures, every run is good. */
  lemma {:induction false} EveryRunIsGood(g: Setting, vs: seq<Version>, events: seq<Event>)
    requires vs != [] && Sound(g, vs) && Harmless(g) && Publications(events) <= vs[1..]
    ensures RunGood(g, Start(vs[0]), events)
  {
    assert [vs[0]] + Publications(events) <= vs;
    SoundPrefix(g, [vs[0]] + Publications(events), vs);
    SoundPrefix(g, [vs[0]], vs);
    RunKeepsInv(g, Start(vs[0]), events);
  }

  // ----- Only then

  /** A run from `s` during which the server goes through `vs`, and which is not good. */
  predicate Breaks(g: Setting, s: State, events: seq<Event>, vs: seq<Version>)
    requires s.history != []
  {
    Publications(events) == vs && !RunGood(g, s, events)
  }

  lemma {:induction false} BreaksOnce(g: Setting, s: State, e: Event)
    requires s.history != [] && e.FetchEvent? && Allowed(g, s, e)
    requires var (s', r) := Step(g, s, e); !Good(g, s, e, s', r)
    ensures Breaks(g, s, [e], [])
  {}

  lemma {:induction false} BreaksLater(g: Setting, s: State, e: Event, events: seq<Event>, vs: seq<Version>)
    requires s.history != [] && Allowed(g, s, e) && Breaks(g, Step(g, s, e).0, events, vs)
    ensures Breaks(g, s, [e] + events, if e.Publish? then [e.v] + vs else vs)
  {
    assert ([e] + events)[1..] == events;
  }

  /** The server goes through `more` first. */
  lemma {:induction false} BreaksAfter(g: Setting, s: State, more: seq<Version>, events: seq<Event>, vs: seq<Version>)
    returns (longer: seq<Event>)
    requires s.history != [] && Breaks(g, s.(history := s.history + more), events, vs)
    ensures Breaks(g, s, longer, more + vs)
    decreases |more|
  {
    if more == [] {
      assert s.history + more == s.history && more + vs == vs;
      longer := events;
    } else {
      var e := Publish(more[0]);
      var s' := Step(g, s, e).0;
      assert s'.history + more[1..] == s.history + more;
      var rest := BreaksAfter(g, s', more[1..], events, vs);
      BreaksLater(g, s, e, rest, more[1..] + vs);
      assert [more[0]] + (more[1..] + vs) == more + vs;
      longer := [e] + rest;
    }
  }

  /** The server has come as far as version number `i`, and nothing has been fetched. */
  lemma {:induction false} BreaksFrom(g: Setting, vs: seq<Version>, i: nat, events: seq<Event>, ws: seq<Version>)
    returns (longer: seq<Event>)
    requires i < |vs| && Breaks(g, State(vs[..i + 1], Missing, None), events, ws) && ws <= vs[i + 1..]
    ensures Publications(longer) <= vs[1..] && !RunGood(g, Start(vs[0]), longer)
  {
    assert [vs[0]] + vs[1..i + 1] == vs[..i + 1];
    longer := BreaksAfter(g, Start(vs[0]), vs[1..i + 1], events, ws);
    assert vs[1..i + 1] + vs[i + 1..] == vs[1..];
  }

  function FullFetch(write: Write): Event {
    FetchEvent(true, Full, write)
  }

  /** A valid cut body is handed out as if it were the whole. */
  lemma {:induction false} LongBodyBreaksARun(g: Setting, vs: seq<Version>, i: nat) returns (events: seq<Event>)
    requires i < |vs| && !Whole(g, vs[i])
    ensures Publications(events) <= vs[1..] && !RunGood(g, Start(vs[0]), events)
  {
    var s := State(vs[..i + 1], Missing, None);
    assert Current(s) == vs[i];
    BreaksOnce(g, s, FullFetch(Written));
    events := BreaksFrom(g, vs, i, [FullFetch(Written)], []);
  }

  function Holding(history: seq<Version>, u: Version): State {
    State(history, Entry(u), Some(u.body))
  }

  function Ask(): Event {
    FetchEvent(true, Conditional, Written)
  }

  /** A client that holds `u` asks whether it changed: the answer 304 hands out `u` although the server
      has something else. */
  lemma {:induction false} ConfusedClient(g: Setting, u: Version, history: seq<Version>)
    requires history != [] && Confuses(u, history[|history| - 1])
    ensures var s := Holding(history, u);
            Step(g, s, Ask()).1 == Some(Fetched(u.body, From304)) && u.body != Current(s).body
    ensures Breaks(g, Holding(history, u), [Ask()], [])
  {
    BreaksOnce(g, Holding(history, u), Ask());
  }

  /** A full fetch of a storable version fills the cache. */
  lemma {:induction false} FullFetchHolds(g: Setting, history: seq<Version>)
    requires history != [] && Storable(g, Entry(history[|history| - 1]))
    ensures Step(g, State(history, Missing, None), FullFetch(Written)).0 == Holding(history, history[|history| - 1])
  {
    assert Stored(history[|history| - 1]) == Entry(history[|history| - 1]);
  }

  /** Fetch the earlier version, let the server go on to the later one, and ask whether it changed. */
  lemma {:induction false} ConfusionBreaksARun(g: Setting, vs: seq<Version>, i: nat, j: nat)
    returns (events: seq<Event>)
    requires i < j < |vs| && Storable(g, Entry(vs[i])) && Confuses(vs[i], vs[j])
    ensures Publications(events) <= vs[1..] && !RunGood(g, Start(vs[0]), events)
  {
    var more := vs[i + 1..j + 1];
    ConfusedClient(g, vs[i], vs[..j + 1]);
    assert vs[..i + 1] + more == vs[..j + 1];
    var asked := BreaksAfter(g, Holding(vs[..i + 1], vs[i]), more, [Ask()], []);
    FullFetchHolds(g, vs[..i + 1]);
    BreaksLater(g, State(vs[..i + 1], Missing, None), FullFetch(Written), asked, more + []);
    events := BreaksFrom(g, vs, i, [FullFetch(Written)] + asked, more + []);
  }

  /** Over a server that goes through the versions `vs`, with harmless write failures: every run is good
      if and only if no version is too long and none can be taken for a later one. */
  lemma {:induction false} GoodIffSound(g: Setting, vs: seq<Version>)
    requires vs != [] && Harmless(g)
    ensures Sound(g, vs) <==>
            forall events :: Publications(events) <= vs[1..] ==> RunGood(g, Start(vs[0]), events)
  {
    if Sound(g, vs) {
      forall events | Publications(events) <= vs[1..] ensures RunGood(g, Start(vs[0]), events) {
        EveryRunIsGood(g, vs, events);
      }
    } else if i :| 0 <= i < |vs| && !Whole(g, vs[i]) {
      var events := LongBodyBreaksARun(g, vs, i);
    } else {
      var i, j :| 0 <= i < j < |vs| && Storable(g, Entry(vs[i])) && Confuses(vs[i], vs[j]);
      var events := ConfusionBreaksARun(g, vs, i, j);
    }
  }

  /** A failing write that leaves anything else is found out at once: the file is none the server had. */
  lemma {:induction false} LeftBehindBreaksARun(g: Setting, c: CacheFile, d: CacheFile, left: CacheFile)
    returns (vs: seq<Version>, events: seq<Event>)
    requires Follows(g, c, d) && g.mayLeave(c, d, left) && left != c && left != d && left != Missing
    ensures vs != [] && Sound(g, vs) && Publications(events) <= vs[1..] && !RunGood(g, Start(vs[0]), events)
  {
    var v := d.version;
    var failing := FullFetch(Failed(left));
    assert Stored(v) == d;
    if c.Missing? {
      vs, events := [v], [failing];
      BreaksOnce(g, Start(v), failing);
    } else {
      var u := c.version;
      vs := [u, v];
      BreaksOnce(g, Holding(vs, u), failing);
      assert [u] + [v] == vs;
      var published := BreaksAfter(g, Holding([u], u), [v], [failing], []);
      FullFetchHolds(g, [u]);
      BreaksLater(g, Start(u), FullFetch(Written), published, [v] + []);
      events := [FullFetch(Written)] + published;
      assert vs[1..] == [v];
    }
  }

  /** Every run over sound versions is good if and only if each failing write leaves the file as it was,
      complete, or not at all. */
  lemma {:induction false} GoodIffHarmless(g: Setting)
    ensures Harmless(g) <==>
            forall vs, events :: vs != [] && Sound(g, vs) && Publications(events) <= vs[1..]
              ==> RunGood(g, Start(vs[0]), events)
  {
    if Harmless(g) {
      forall vs, events | vs != [] && Sound(g, vs) && Publications(events) <= vs[1..]
        ensures RunGood(g, Start(vs[0]), events)
      {
        EveryRunIsGood(g, vs, events);
      }
    } else {
      var c, d, left :| Follows(g, c, d) && g.mayLeave(c, d, left) && left != c && left != d && left != Missing;
      var vs, events := LeftBehindBreaksARun(g, c, d, left);
    }
  }

  // ----- Instances

  /** A rollback without ETags: the server returns to a version dated earlier than the one in the cache,
      and the conditional request calls the cached one current. */
  lemma {:induction false} RollbackIsMissed(g: Setting, u: Version, v: Version)
    requires u.tag == None && u.date.Some? && v.date.Some? && v.date.value <= u.date.value && u.body != v.body
    requires Storable(g, Entry(u))
    ensures var s := Step(g, Step(g, Start(u), FullFetch(Written)).0, Publish(v)).0;
            Step(g, s, Ask()).1 == Some(Fetched(u.body, From304)) && Current(s) == v
    ensures !Sound(g, [u, v])
  {
    FullFetchHolds(g, [u]);
    assert Confuses([u, v][0], [u, v][1]);
  }

  /** The file system call in the source truncates first: a failure right after that leaves an empty
      file, which decodes to an empty entry, and the next network failure hands out an empty body. */
  lemma {:induction false} TruncatedWriteIsHarmful(g: Setting, v: Version)
    requires v.body != [] && Storable(g, Entry(v))
    requires g.mayLeave(Missing, Entry(v), Entry(Version([], None, None)))
    ensures var fetch := FullFetch(Failed(Entry(Version([], None, None))));
            Breaks(g, Start(v), [fetch], [])
            && Step(g, Step(g, Start(v), fetch).0, FetchEvent(true, Down, Written)).1 == Some(Fetched([], Fallback))
  {
    assert Stored(v) == Entry(v);
    BreaksOnce(g, Start(v), FullFetch(Failed(Entry(Version([], None, None)))));
  }

  /** The tag is written before the body: a write cut inside the body leaves the new tag with part of the
      body, and the server then confirms that part as current. */
  lemma {:induction false} CutWriteIsConfirmed(g: Setting, v: Version, n: nat)
    requires v.tag.Some? && n < |v.body| && Storable(g, Entry(v))
    requires g.mayLeave(Missing, Entry(v), Entry(v.(body := v.body[..n])))
    ensures var fetch := FullFetch(Failed(Entry(v.(body := v.body[..n]))));
            Breaks(g, Start(v), [fetch], [])
            && Step(g, Step(g, Start(v), fetch).0, Ask()).1 == Some(Fetched(v.body[..n], From304))
  {
    assert Stored(v) == Entry(v);
    BreaksOnce(g, Start(v), FullFetch(Failed(Entry(v.(body := v.body[..n])))));
  }
}
