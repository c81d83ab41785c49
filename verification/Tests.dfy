/** The parts of a test definition that matter for variables, chains and running order. */
module Tests {
  import opened Options
  import opened Sequences

  /** Text with variable references; a regular expression in the source finds them. */
  datatype Part = Lit(text: string) | Var(name: string)

  type Text = seq<Part>

  /** `json` and `extract` name the variables a test extracts ("" for none); an absent HTTP check has
      no URL and no headers.  `attempts` is the retry count (at most 1 without retry) and
      `backoff` the first pause in nanoseconds. */
  datatype Test = Test(
    name: string,
    run: Text,
    stdoutContains: Text, stdoutMatches: Text, stderrContains: Text, stderrMatches: Text,
    httpUrl: Text, httpHeaders: seq<Text>,
    json: string, extract: string,
    attempts: int, backoff: int, traceOnly: bool, allowFailure: bool)

  function Names(t: Text): set<string> {
    set p <- t | p.Var? :: p.name
  }

  function NamesIn(texts: seq<Text>): set<string> {
    if texts == [] then {} else Names(texts[0]) + NamesIn(texts[1..])
  }

  /** Every text of a test that the source scans for references. */
  function Scanned(t: Test): seq<Text> {
    [t.run, t.stdoutContains, t.stdoutMatches, t.stderrContains, t.stderrMatches, t.httpUrl] + t.httpHeaders
  }

  function References(t: Test): set<string> {
    NamesIn(Scanned(t))
  }

  /** The text refers to the variable. */
  predicate Refers(text: Text, v: string) {
    exists k :: 0 <= k < |text| && text[k] == Var(v)
  }

  /** Where a test may refer to a variable: the command, the four expected outputs, the URL, a header. */
  predicate Mentions(t: Test, v: string) {
    || Refers(t.run, v)
    || Refers(t.stdoutContains, v) || Refers(t.stdoutMatches, v)
    || Refers(t.stderrContains, v) || Refers(t.stderrMatches, v)
    || Refers(t.httpUrl, v) || exists k :: 0 <= k < |t.httpHeaders| && Refers(t.httpHeaders[k], v)
  }

  lemma {:induction false} NamesAre(text: Text, v: string)
    ensures v in Names(text) <==> Refers(text, v)
  {
    if v in Names(text) {
      var p :| p in text && p.Var? && p.name == v;
    }
  }

  lemma {:induction false} NamesInAre(texts: seq<Text>, v: string)
    ensures v in NamesIn(texts) <==> exists k :: 0 <= k < |texts| && Refers(texts[k], v)
    decreases |texts|
  {
    if texts != [] {
      NamesAre(texts[0], v);
      NamesInAre(texts[1..], v);
      if k :| 0 <= k < |texts| - 1 && Refers(texts[1..][k], v) { assert Refers(texts[k + 1], v); }
      if k :| 0 < k < |texts| && Refers(texts[k], v) { assert Refers(texts[1..][k - 1], v); }
    }
  }

  lemma {:induction false} ReferencesAre(t: Test, v: string)
    ensures v in References(t) <==> Mentions(t, v)
  {
    var texts := Scanned(t);
    NamesInAre(texts, v);
    assert forall k :: 0 <= k < |t.httpHeaders| ==> texts[k + 6] == t.httpHeaders[k];
    assert Refers(texts[0], v) <==> Refers(t.run, v);
    assert forall k :: 6 <= k < |texts| ==> texts[k] == t.httpHeaders[k - 6];
    assert texts[1] == t.stdoutContains && texts[2] == t.stdoutMatches && texts[3] == t.stderrContains;
    assert texts[4] == t.stderrMatches && texts[5] == t.httpUrl;
  }

  lemma {:induction false} AllReferencesAre(t: Test)
    ensures forall v :: v in References(t) <==> Mentions(t, v)
  {
    forall v ensures v in References(t) <==> Mentions(t, v) { ReferencesAre(t, v); }
  }

  method FindVarReferences(t: Test) returns (refs: set<string>)
    ensures refs == References(t)
    ensures forall v :: v in refs <==> Mentions(t, v)
  {
    AllReferencesAre(t);
    refs := CollectRefs(t.run, {});
    refs := CollectExpected(t.stdoutContains, refs);
    refs := CollectExpected(t.stdoutMatches, refs);
    refs := CollectExpected(t.stderrContains, refs);
    refs := CollectExpected(t.stderrMatches, refs);
    refs := CollectRefs(t.httpUrl, refs);
    refs := CollectHeaderRefs(t.httpHeaders, refs);
    ScannedNames(t);
  }

  /** An expected output that is not given is not looked at. */
  method CollectExpected(text: Text, known: set<string>) returns (refs: set<string>)
    ensures refs == known + Names(text)
  {
    refs := known;
    if text != [] {
      refs := CollectRefs(text, refs);
    }
  }

  method CollectHeaderRefs(headers: seq<Text>, known: set<string>) returns (refs: set<string>)
    ensures refs == known + NamesIn(headers)
  {
    refs := known;
    for i := 0 to |headers|
      invariant refs == known + NamesIn(headers[..i])
    {
      NamesInMore(headers[..i], headers[i]);
      assert headers[..i] + [headers[i]] == headers[..i + 1];
      refs := CollectRefs(headers[i], refs);
    }
    assert headers[..|headers|] == headers;
  }

  lemma {:induction false} NamesInMore(texts: seq<Text>, text: Text)
    ensures NamesIn(texts + [text]) == NamesIn(texts) + Names(text)
    decreases |texts|
  {
    if texts == [] {
      assert texts + [text] == [text] && [text][1..] == [];
    } else {
      assert (texts + [text])[1..] == texts[1..] + [text];
      NamesInMore(texts[1..], text);
    }
  }

  lemma {:induction false} NamesInFirst(text: Text, texts: seq<Text>)
    ensures NamesIn([text] + texts) == Names(text) + NamesIn(texts)
  {
    assert ([text] + texts)[1..] == texts;
  }

  lemma {:induction false} ScannedNames(t: Test)
    ensures References(t) == Names(t.run) + Names(t.stdoutContains) + Names(t.stdoutMatches)
      + Names(t.stderrContains) + Names(t.stderrMatches) + Names(t.httpUrl) + NamesIn(t.httpHeaders)
  {
    var h := t.httpHeaders;
    NamesInFirst(t.httpUrl, h);
    NamesInFirst(t.stderrMatches, [t.httpUrl] + h);
    NamesInFirst(t.stderrContains, [t.stderrMatches] + ([t.httpUrl] + h));
    NamesInFirst(t.stdoutMatches, [t.stderrContains] + ([t.stderrMatches] + ([t.httpUrl] + h)));
    NamesInFirst(t.stdoutContains, [t.stdoutMatches] + ([t.stderrContains] + ([t.stderrMatches] + ([t.httpUrl] + h))));
    NamesInFirst(t.run, [t.stdoutContains] + ([t.stdoutMatches] + ([t.stderrContains] + ([t.stderrMatches]
      + ([t.httpUrl] + h)))));
    assert Scanned(t) == [t.run] + ([t.stdoutContains] + ([t.stdoutMatches] + ([t.stderrContains]
      + ([t.stderrMatches] + ([t.httpUrl] + h)))));
  }

  method CollectRefs(s: Text, known: set<string>) returns (refs: set<string>)
    ensures refs == known + Names(s)
  {
    refs := known;
    for i := 0 to |s|
      invariant refs == known + Names(s[..i])
    {
      assert s[..i + 1] == s[..i] + [s[i]];
      if s[i].Var? {
        refs := refs + {s[i].name};
      }
    }
    assert s[..|s|] == s;
  }

  /** The command is among the scanned texts. */
  lemma {:induction false} RunIsScanned(t: Test)
    ensures Names(t.run) <= References(t)
  {}

  predicate Extracts(t: Test, v: string) {
    v != "" && (t.json == v || t.extract == v)
  }

  // ----- One attempt at a test, and what a run reports

  datatype Assertion = Assertion(kind: string, expected: string, actual: string, passed: bool)

  /** `json` and `matched` are the values the two extraction expressions find in the output. */
  datatype Attempt =
    | Skipped
    | Errored(error: string)
    | Ran(assertions: seq<Assertion>, json: string, matched: string)

  datatype TestResult = TestResult(name: string, passed: bool, skipped: bool, allowedFailure: bool,
                                   assertions: seq<Assertion>, error: string, attempts: nat)

  predicate AllPassed(assertions: seq<Assertion>) {
    forall i :: 0 <= i < |assertions| ==> assertions[i].passed
  }

  predicate Passes(a: Attempt) {
    a.Ran? && AllPassed(a.assertions)
  }

  function Report(t: Test, a: Attempt, attempts: nat): TestResult {
    match a
    case Skipped => TestResult(t.name, false, true, false, [], "", attempts)
    case Errored(e) => TestResult(t.name, false, false, t.allowFailure, [], e, attempts)
    case Ran(assertions, _, _) =>
      TestResult(t.name, Passes(a), false, !Passes(a) && t.allowFailure, assertions, "", attempts)
  }

  /** The trace was seen at the collector. */
  predicate TraceConfirmed(a: Attempt) {
    a.Ran? && exists i :: 0 <= i < |a.assertions| && a.assertions[i].kind == "otel_trace" && a.assertions[i].passed
  }

  /** The values a passing attempt stores, in order. */
  function Writes(t: Test, a: Attempt): seq<(string, string)> {
    if !Passes(a) then []
    else
      var fromJson := if t.json != "" && a.json != "" then [(t.json, a.json)] else [];
      var fromMatch :=
        if Raw(t.stdoutMatches) != "" && t.extract != "" && a.matched != "" then [(t.extract, a.matched)] else [];
      fromJson + fromMatch
  }

  // ----- Resolving a command

  type Store = map<string, string>

  /** A template can name a field only by an identifier, while the references that are found may begin with
      a digit. */
  predicate IsField(name: string) {
    name != "" && !('0' <= name[0] <= '9')
  }

  /** The template cannot be parsed when a name is no identifier, and fails when a variable is missing. */
  function Resolve(store: Store, text: Text): (r: Option<string>) {
    if text == [] then Some("")
    else match Resolve(store, text[1..])
      case None => None
      case Some(rest) =>
        match text[0]
        case Lit(s) => Some(s + rest)
        case Var(name) => if IsField(name) && name in store then Some(store[name] + rest) else None
  }

  /** The text as written. */
  function Raw(text: Text): string {
    if text == [] then ""
    else (match text[0] case Lit(s) => s case Var(name) => "{{ .Vars." + name + " }}") + Raw(text[1..])
  }

  /** The command to run: the resolved text, or the text as written when it cannot be resolved. */
  function Command(store: Store, text: Text): string {
    match Resolve(store, text)
    case Some(s) => s
    case None => Raw(text)
  }

  /** Resolving goes part by part: a literal stands for itself, a variable for its value, and one part that
      cannot be resolved spoils the whole. */
  lemma {:induction false} ResolveParts(store: Store, a: Text, b: Text)
    ensures Resolve(store, a + b) == (if Resolve(store, a).Some? && Resolve(store, b).Some?
      then Some(Resolve(store, a).value + Resolve(store, b).value) else None)
    ensures Raw(a + b) == Raw(a) + Raw(b)
    decreases |a|
  {
    if a == [] {
      assert a + b == b;
      assert "" + Raw(b) == Raw(b);
      if Resolve(store, b).Some? { assert "" + Resolve(store, b).value == Resolve(store, b).value; }
    } else {
      assert (a + b)[1..] == a[1..] + b;
      ResolveParts(store, a[1..], b);
      var here := match a[0] case Lit(s) => s case Var(name) => if name in store then store[name] else "";
      if Resolve(store, a[1..]).Some? && Resolve(store, b).Some? {
        Regroup(here, Resolve(store, a[1..]).value, Resolve(store, b).value);
      }
      Regroup(match a[0] case Lit(s) => s case Var(name) => "{{ .Vars." + name + " }}", Raw(a[1..]), Raw(b));
    }
  }

  lemma {:induction false} ResolvePart(store: Store, p: Part)
    ensures p.Lit? ==> Resolve(store, [p]) == Some(p.text) && Raw([p]) == p.text
    ensures p.Var? ==> Raw([p]) == "{{ .Vars." + p.name + " }}"
    ensures p.Var? ==> (Resolve(store, [p]).Some? <==>
      p.name in store && p.name != "" && p.name[0] !in "0123456789")
    ensures p.Var? && Resolve(store, [p]).Some? ==> Resolve(store, [p]) == Some(store[p.name])
  {
    assert [p][1..] == [];
    if p.Lit? { assert p.text + "" == p.text; }
    if p.Var? && p.name in store { assert store[p.name] + "" == store[p.name]; }
    if p.Var? && p.name != "" && '0' <= p.name[0] <= '9' {
      var k := p.name[0] as int - '0' as int;
      assert "0123456789"[k] == p.name[0];
    }
  }

  /** A text is empty when all its parts are. */
  lemma {:induction false} RawIsEmpty(text: Text)
    ensures Raw(text) != "" <==> exists k :: 0 <= k < |text| && (text[k].Var? || text[k].text != "")
    decreases |text|
  {
    if text != [] {
      RawIsEmpty(text[1..]);
      if k :| 0 <= k < |text| - 1 && (text[1..][k].Var? || text[1..][k].text != "") {
        assert text[k + 1].Var? || text[k + 1].text != "";
      }
      if k :| 0 < k < |text| && (text[k].Var? || text[k].text != "") {
        assert text[1..][k - 1].Var? || text[1..][k - 1].text != "";
      }
    }
  }
}
