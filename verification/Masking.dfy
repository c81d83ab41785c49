/** Credential masking.  A character stands for one byte of the Go string. */
module Masking {
  import opened Sequences


  const PREFIXES: seq<string> := ["AKIA", "ASIA", "ya29.", "eyJ"]
  const REDACTED := "***redacted***"

  predicate IsBoundary(c: char) {
    c == ' ' || c == '"' || c == '\'' || c == '\n' || c == '\r' || c == '\t' || c == ',' || c == '}' || c == ']'
  }

  ghost predicate Free(s: string, p: string) {
    forall i :: !OccursAt(s, p, i)
  }

  /** Smallest index at or after `from` where `p` occurs, or -1. */
  function IndexFrom(s: string, p: string, from: nat): (i: int)
    ensures i == -1 ==> forall j :: j >= from ==> !OccursAt(s, p, j)
    ensures i != -1 ==> i >= from && OccursAt(s, p, i) && forall j :: from <= j < i ==> !OccursAt(s, p, j)
    decreases |s| - from
  {
    if from > |s| then -1 else if OccursAt(s, p, from) then from else IndexFrom(s, p, from + 1)
  }

  function Index(s: string, p: string): (i: int)
    ensures i == -1 <==> Free(s, p)
    ensures i != -1 ==> OccursAt(s, p, i) && forall j :: 0 <= j < i ==> !OccursAt(s, p, j)
  {
    IndexFrom(s, p, 0)
  }

  /** End of the credential: the next boundary at or after `i`. */
  function EndFrom(s: string, i: nat): (e: nat)
    requires i <= |s|
    ensures i <= e <= |s| && (e < |s| ==> IsBoundary(s[e])) && forall j :: i <= j < e ==> !IsBoundary(s[j])
    decreases |s| - i
  {
    if i == |s| || IsBoundary(s[i]) then i else EndFrom(s, i + 1)
  }

  predicate IsToken(t: string) {
    forall k :: 0 <= k < |t| ==> !IsBoundary(t[k])
  }

  predicate Stop(c: char) {
    c == '*' || IsBoundary(c)
  }

  /** What the proofs use of the table: a prefix has no boundary and no star in it, and the replacement
      text `r` holds no prefix and no boundary and has a star at either end. */
  ghost predicate Maskable(p: string, r: string) {
    && p != "" && (forall k :: 0 <= k < |p| ==> !Stop(p[k]))
    && r != "" && r[0] == '*' && r[|r| - 1] == '*' && IsToken(r) && Free(r, p)
  }

  ghost predicate AllMaskable(ps: seq<string>, r: string) {
    forall k :: 0 <= k < |ps| ==> Maskable(ps[k], r)
  }

  // ----- The source's loops

  /** One rewrite: the text up to the end of the replacement, and the text behind the credential. */
  function CutAt(s: string, i: nat, e: nat, r: string): (string, string)
    requires i <= e <= |s|
  {
    (s[..i] + r, s[e..])
  }

  function Cut(s: string, p: string, r: string): (c: (string, string))
    requires Index(s, p) != -1
    ensures p != "" ==> |c.1| < |s|
  {
    var i := Index(s, p);
    CutAt(s, i, EndFrom(s, i + |p|), r)
  }

  /** One pass, as a function of the text: rewrite the first occurrence, continue behind it. */
  function MaskPrefix(s: string, p: string, r: string): string
    requires p != ""
    decreases |s|
  {
    if Index(s, p) == -1 then s else Cut(s, p, r).0 + MaskPrefix(Cut(s, p, r).1, p, r)
  }

  ghost function MaskAll(s: string, ps: seq<string>, r: string): string
    requires AllMaskable(ps, r)
    decreases |ps|
  {
    if ps == [] then s else MaskAll(MaskPrefix(s, ps[0], r), ps[1..], r)
  }

  /** All passes, in the order of the table. */
  ghost function Mask(s: string): string {
    KnownPrefixesMaskable();
    MaskAll(s, PREFIXES, REDACTED)
  }

  method MaskCredentials(input: string) returns (s: string)
    ensures s == Mask(input)
  {
    KnownPrefixesMaskable();
    s := input;
    for k := 0 to |PREFIXES|
      invariant MaskAll(s, PREFIXES[k..], REDACTED) == Mask(input)
    {
      var prefix := PREFIXES[k];
      assert PREFIXES[k..][0] == prefix && PREFIXES[k..][1..] == PREFIXES[k + 1..];
      s := Pass(s, prefix, REDACTED);
    }
  }

  /** The inner loop: it searches from the start again after every rewrite, and each rewrite may make
      the text longer; what shrinks is the part behind the last replacement. */
  method Pass(input: string, prefix: string, r: string) returns (s: string)
    requires Maskable(prefix, r)
    ensures s == MaskPrefix(input, prefix, r)
  {
    s := input;
    ghost var done, rest := "", s;
    RewriteStart(s, prefix, r);
    while Index(s, prefix) != -1
      invariant Progress(input, s, done, rest, prefix, r)
      decreases |rest|
    {
      RewriteStep(input, s, done, rest, prefix, r);
      s := Rewrite(s, prefix, Index(s, prefix), r);
      done, rest := done + Cut(rest, prefix, r).0, Cut(rest, prefix, r).1;
    }
    RewriteEnd(input, s, done, rest, prefix, r);
  }

  /** `done` is masked and clean and ends at a seam; `rest` is still as it was in the input. */
  ghost predicate Progress(input: string, s: string, done: string, rest: string, p: string, r: string) {
    && s == done + rest
    && Maskable(p, r) && Free(done, p) && (done == "" || Stop(done[|done| - 1]))
    && MaskPrefix(input, p, r) == done + MaskPrefix(rest, p, r)
  }

  lemma {:induction false} RewriteStart(s: string, p: string, r: string)
    requires Maskable(p, r)
    ensures Progress(s, s, "", s, p, r)
  {
    assert "" + s == s && "" + MaskPrefix(s, p, r) == MaskPrefix(s, p, r);
  }

  lemma {:induction false} RewriteStep(input: string, s: string, done: string, rest: string, p: string, r: string)
    requires Progress(input, s, done, rest, p, r) && Index(s, p) != -1
    ensures Index(rest, p) != -1
    ensures var (head, tail) := Cut(rest, p, r);
            Progress(input, Cut(s, p, r).0 + Cut(s, p, r).1, done + head, tail, p, r) && |tail| < |rest|
  {
    IndexBehind(done, rest, p, r);
    CutBehind(done, rest, p, r);
    CutHead(done, rest, p, r);
    PassStep(done, rest, p, r);
  }

  lemma {:induction false} RewriteEnd(input: string, s: string, done: string, rest: string, p: string, r: string)
    requires Progress(input, s, done, rest, p, r) && Index(s, p) == -1
    ensures s == MaskPrefix(input, p, r)
  {
    IndexBehind(done, rest, p, r);
  }

  method Rewrite(s: string, prefix: string, idx: nat, r: string) returns (rewritten: string)
    requires idx == Index(s, prefix)
    ensures rewritten == Cut(s, prefix, r).0 + Cut(s, prefix, r).1
  {
    var end := idx + |prefix|;
    while end < |s| && !IsBoundary(s[end])
      invariant idx + |prefix| <= end <= |s|
      invariant EndFrom(s, idx + |prefix|) == EndFrom(s, end)
    {
      end := end + 1;
    }
    rewritten := s[..idx] + r + s[end..];
  }

  lemma {:induction false} PassStep(done: string, rest: string, p: string, r: string)
    requires p != "" && Index(rest, p) != -1
    ensures done + MaskPrefix(rest, p, r) == done + Cut(rest, p, r).0 + MaskPrefix(Cut(rest, p, r).1, p, r)
  {
    Regroup(done, Cut(rest, p, r).0, MaskPrefix(Cut(rest, p, r).1, p, r));
  }

  // ----- Where a prefix can occur

  /** One character that differs rules out an occurrence. */
  lemma {:induction false} Differs(s: string, p: string, i: int, k: int)
    requires 0 <= k < |p| && 0 <= i + k < |s| && s[i + k] != p[k]
    ensures !OccursAt(s, p, i)
  {}

  lemma {:induction false} KnownPrefixesMaskable()
    ensures AllMaskable(PREFIXES, REDACTED)
  {
    forall n | 0 <= n < |PREFIXES| ensures Maskable(PREFIXES[n], REDACTED) {
      var p := PREFIXES[n];
      forall i ensures !OccursAt(REDACTED, p, i) {
        if 0 <= i <= |REDACTED| - |p| {
          if REDACTED[i] != p[0] { Differs(REDACTED, p, i, 0); } else { Differs(REDACTED, p, i, 1); }
        }
      }
    }
  }

  /** No occurrence crosses a seam next to a boundary or a star. */
  lemma {:induction false} Seam(a: string, b: string, p: string, i: int, r: string)
    requires Maskable(p, r)
    requires a == "" || b == "" || Stop(a[|a| - 1]) || Stop(b[0])
    ensures OccursAt(a + b, p, i) <==> OccursAt(a, p, i) || OccursAt(b, p, i - |a|)
  {
    var s := a + b;
    assert forall m :: |a| <= m < |s| ==> s[m] == b[m - |a|];
    if 0 <= i < |a| < i + |p| <= |s| {
      if Stop(a[|a| - 1]) { Differs(s, p, i, |a| - 1 - i); } else { Differs(s, p, i, |a| - i); }
    }
  }

  lemma {:induction false} SeamFree(a: string, b: string, p: string, r: string)
    requires Maskable(p, r)
    requires a == "" || b == "" || Stop(a[|a| - 1]) || Stop(b[0])
    ensures Free(a + b, p) <==> Free(a, p) && Free(b, p)
  {
    forall i ensures OccursAt(a + b, p, i) <==> OccursAt(a, p, i) || OccursAt(b, p, i - |a|) {
      Seam(a, b, p, i, r);
    }
    if Free(a + b, p) {
      forall i ensures !OccursAt(b, p, i) { Seam(a, b, p, i + |a|, r); }
    }
  }

  lemma {:induction false} PieceFree(s: string, p: string, i: nat, j: nat)
    requires i <= j <= |s| && Free(s, p)
    ensures Free(s[i..j], p)
  {
    forall k ensures OccursAt(s[i..j], p, k) ==> OccursAt(s, p, i + k) {
      assert forall m :: 0 <= m < j - i ==> s[i..j][m] == s[i + m];
      if OccursAt(s[i..j], p, k) {
        forall m | 0 <= m < |p| ensures s[i + k + m] == p[m] {
          assert s[i..j][k + m] == p[m];
        }
      }
    }
  }

  /** Everything before the first occurrence is free of the prefix. */
  lemma {:induction false} HeadFree(s: string, p: string)
    requires p != "" && Index(s, p) != -1
    ensures Free(s[..Index(s, p)], p)
  {
    forall k ensures OccursAt(s[..Index(s, p)], p, k) ==> OccursAt(s, p, k) {}
  }

  /** Searching again from the start finds the next occurrence in the part not yet masked. */
  lemma {:induction false} IndexBehind(done: string, rest: string, p: string, r: string)
    requires Maskable(p, r) && Free(done, p) && (done == "" || Stop(done[|done| - 1]))
    ensures Index(done + rest, p) == if Index(rest, p) == -1 then -1 else |done| + Index(rest, p)
  {
    var s, i, j := done + rest, Index(done + rest, p), Index(rest, p);
    if i != -1 { Seam(done, rest, p, i, r); }
    if j != -1 {
      Seam(done, rest, p, |done| + j, r);
      forall k | 0 <= k < |done| + j ensures !OccursAt(s, p, k) { Seam(done, rest, p, k, r); }
    }
  }

  lemma {:induction false} EndBehind(done: string, rest: string, i: nat)
    requires i <= |rest|
    ensures EndFrom(done + rest, |done| + i) == |done| + EndFrom(rest, i)
    decreases |rest| - i
  {
    if i < |rest| && !IsBoundary(rest[i]) { EndBehind(done, rest, i + 1); }
  }

  /** A rewrite touches only the part not yet masked. */
  lemma {:induction false} CutBehind(done: string, rest: string, p: string, r: string)
    requires Maskable(p, r) && Free(done, p) && (done == "" || Stop(done[|done| - 1]))
    requires Index(rest, p) != -1
    ensures Index(done + rest, p) != -1
    ensures Cut(done + rest, p, r) == (done + Cut(rest, p, r).0, Cut(rest, p, r).1)
  {
    IndexBehind(done, rest, p, r);
    CutShifted(done, rest, p, Index(rest, p), r);
  }

  /** `c` is the cut of `s` at the first `p`, which is at `i`. */
  predicate IsCut(s: string, p: string, r: string, i: nat, c: (string, string)) {
    i + |p| <= |s| && c == CutAt(s, i, EndFrom(s, i + |p|), r)
  }

  lemma {:induction false} CutIs(s: string, p: string, r: string, i: nat)
    requires i == Index(s, p)
    ensures IsCut(s, p, r, i, Cut(s, p, r))
  {}

  lemma {:induction false} CutsShifted(done: string, rest: string, p: string, r: string, h: nat, i: nat,
                                       whole: (string, string), part: (string, string))
    requires IsCut(rest, p, r, h, part) && IsCut(done + rest, p, r, i, whole) && i == |done| + h
    ensures whole == (done + part.0, part.1)
  {
    EndBehind(done, rest, h + |p|);
    EndSame(done + rest, i + |p|, |done| + (h + |p|));
    CutAtShifted(done, rest, h, EndFrom(rest, h + |p|), r);
  }

  lemma {:induction false} CutShifted(done: string, rest: string, p: string, h: nat, r: string)
    requires h == Index(rest, p) && |done| + h == Index(done + rest, p)
    ensures Cut(done + rest, p, r) == (done + Cut(rest, p, r).0, Cut(rest, p, r).1)
  {
    CutIs(rest, p, r, h);
    CutIs(done + rest, p, r, |done| + h);
    CutsShifted(done, rest, p, r, h, |done| + h, Cut(done + rest, p, r), Cut(rest, p, r));
  }

  lemma {:induction false} CutAtShifted(done: string, rest: string, h: nat, e: nat, r: string)
    requires h <= e <= |rest|
    ensures CutAt(done + rest, |done| + h, |done| + e, r) == (done + CutAt(rest, h, e, r).0, CutAt(rest, h, e, r).1)
  {
    var s := done + rest;
    assert s[..|done| + h] == done + rest[..h];
    assert s[|done| + e..] == rest[e..];
    Regroup(done, rest[..h], r);
  }

  lemma {:induction false} EndSame(s: string, i: nat, j: nat)
    requires i == j <= |s|
    ensures EndFrom(s, i) == EndFrom(s, j)
  {}

  /** What a rewrite leaves in front is clean and ends in a star. */
  lemma {:induction false} CutHead(done: string, rest: string, p: string, r: string)
    requires Maskable(p, r) && Free(done, p) && (done == "" || Stop(done[|done| - 1]))
    requires Index(rest, p) != -1
    ensures var head := done + Cut(rest, p, r).0; Free(head, p) && Stop(head[|head| - 1])
  {
    var h := Index(rest, p);
    HeadFree(rest, p);
    SeamFree(done, rest[..h], p, r);
    SeamFree(done + rest[..h], r, p, r);
    Regroup(done, rest[..h], r);
    LastOf(done + rest[..h], r);
    assert Cut(rest, p, r).0 == rest[..h] + r;
  }

  lemma {:induction false} LastOf(a: string, b: string)
    requires b != ""
    ensures (a + b)[|a + b| - 1] == b[|b| - 1]
  {}

  // ----- No known prefix survives

  lemma {:induction false} CutFree(s: string, p: string, q: string, r: string)
    requires Maskable(p, r) && Maskable(q, r) && Index(s, p) != -1 && (p == q || Free(s, q))
    ensures var (head, tail) := Cut(s, p, r);
            Free(head, q) && Stop(head[|head| - 1]) && (p == q || Free(tail, q))
  {
    var i := Index(s, p);
    var e := EndFrom(s, i + |p|);
    if p == q {
      HeadFree(s, p);
    } else {
      PieceFree(s, q, 0, i);
      PieceFree(s, q, e, |s|);
      assert s[0..i] == s[..i] && s[e..|s|] == s[e..];
    }
    SeamFree(s[..i], r, q, r);
    LastOf(s[..i], r);
    assert Cut(s, p, r).0 == s[..i] + r;
  }

  /** A pass removes its own prefix and brings back no other. */
  lemma {:induction false} PassFree(s: string, p: string, q: string, r: string)
    requires Maskable(p, r) && Maskable(q, r) && (p == q || Free(s, q))
    ensures Free(MaskPrefix(s, p, r), q)
    decreases |s|
  {
    if Index(s, p) != -1 {
      var (head, tail) := Cut(s, p, r);
      CutFree(s, p, q, r);
      PassFree(tail, p, q, r);
      SeamFree(head, MaskPrefix(tail, p, r), q, r);
    }
  }

  lemma {:induction false} AllPassesFree(s: string, ps: seq<string>, q: string, r: string)
    requires AllMaskable(ps, r) && Maskable(q, r) && (q in ps || Free(s, q))
    ensures Free(MaskAll(s, ps, r), q)
    decreases |ps|
  {
    if ps != [] {
      if ps[0] == q || Free(s, q) { PassFree(s, ps[0], q, r); }
      AllPassesFree(MaskPrefix(s, ps[0], r), ps[1..], q, r);
    }
  }

  lemma {:induction false} CleanUnchanged(s: string, ps: seq<string>, r: string)
    requires AllMaskable(ps, r) && forall k :: 0 <= k < |ps| ==> Free(s, ps[k])
    ensures MaskAll(s, ps, r) == s
    decreases |ps|
  {
    if ps != [] { CleanUnchanged(s, ps[1..], r); }
  }

  /** The output holds no known prefix, masking it again changes nothing, and a text is left alone
      exactly when it holds no known prefix. */
  lemma {:induction false} NoPrefixSurvives(s: string)
    ensures forall k :: 0 <= k < |PREFIXES| ==> Free(Mask(s), PREFIXES[k])
    ensures Mask(Mask(s)) == Mask(s)
    ensures Mask(s) == s <==> forall k :: 0 <= k < |PREFIXES| ==> Free(s, PREFIXES[k])
  {
    KnownPrefixesMaskable();
    forall k | 0 <= k < |PREFIXES| ensures Free(Mask(s), PREFIXES[k]) {
      AllPassesFree(s, PREFIXES, PREFIXES[k], REDACTED);
    }
    CleanUnchanged(Mask(s), PREFIXES, REDACTED);
    if forall k :: 0 <= k < |PREFIXES| ==> Free(s, PREFIXES[k]) { CleanUnchanged(s, PREFIXES, REDACTED); }
  }

  // ----- Token by token

  /** One token, one prefix: everything from the first occurrence on is replaced. */
  function Redact(token: string, p: string, r: string): string {
    if Index(token, p) == -1 then token else token[..Index(token, p)] + r
  }

  function RedactAll(token: string, ps: seq<string>, r: string): string
    decreases |ps|
  {
    if ps == [] then token else RedactAll(Redact(token, ps[0], r), ps[1..], r)
  }

  /** Redacts each maximal run of non-boundary bytes and keeps every boundary byte in place. */
  function MapTokens(s: string, ps: seq<string>, r: string): string
    decreases |s|
  {
    var e := EndFrom(s, 0);
    RedactAll(s[..e], ps, r) + (if e == |s| then "" else [s[e]] + MapTokens(s[e + 1..], ps, r))
  }

  lemma {:induction false} TokenEnd(t: string, b: char, rest: string)
    requires IsToken(t) && IsBoundary(b)
    ensures EndFrom(t + [b] + rest, 0) == |t|
  {
    var s := t + [b] + rest;
    assert s[|t|] == b && forall k :: 0 <= k < |t| ==> s[k] == t[k];
  }

  lemma {:induction false} MapTokensSplit(t: string, b: char, rest: string, ps: seq<string>, r: string)
    requires IsToken(t) && IsBoundary(b)
    ensures MapTokens(t + [b] + rest, ps, r) == RedactAll(t, ps, r) + [b] + MapTokens(rest, ps, r)
  {
    var s := t + [b] + rest;
    TokenEnd(t, b, rest);
    assert s[..|t|] == t && s[|t|] == b && s[|t| + 1..] == rest;
  }

  lemma {:induction false} MapTokensWhole(t: string, ps: seq<string>, r: string)
    requires IsToken(t)
    ensures MapTokens(t, ps, r) == RedactAll(t, ps, r)
  {
    assert t[..|t|] == t;
  }

  /** A clean start that ends at a seam is passed over. */
  lemma {:induction false} SkipClean(a: string, rest: string, p: string, r: string)
    requires Maskable(p, r) && Free(a, p) && a != "" && Stop(a[|a| - 1])
    ensures MaskPrefix(a + rest, p, r) == a + MaskPrefix(rest, p, r)
  {
    IndexBehind(a, rest, p, r);
    if Index(rest, p) != -1 {
      CutBehind(a, rest, p, r);
      PassStep(a, rest, p, r);
    }
  }

  lemma {:induction false} BoundaryFree(b: char, p: string, r: string)
    requires Maskable(p, r) && Stop(b)
    ensures Free([b], p)
  {
    forall i ensures !OccursAt([b], p, i) {
      if i == 0 && |p| == 1 { Differs([b], p, 0, 0); }
    }
  }

  /** One pass masks the first token and goes on with the rest. */
  lemma {:induction false} PassFirstToken(t: string, b: char, rest: string, p: string, r: string)
    requires Maskable(p, r) && IsToken(t) && IsBoundary(b)
    ensures MaskPrefix(t + [b] + rest, p, r) == Redact(t, p, r) + [b] + MaskPrefix(rest, p, r)
  {
    BoundaryFree(b, p, r);
    if Index(t, p) == -1 {
      SeamFree(t, [b], p, r);
      SkipClean(t + [b], rest, p, r);
    } else {
      PassCutToken(t, b, rest, p, r);
    }
  }

  lemma {:induction false} PassCutToken(t: string, b: char, rest: string, p: string, r: string)
    requires Maskable(p, r) && IsToken(t) && IsBoundary(b) && Free([b], p) && Index(t, p) != -1
    ensures MaskPrefix(t + [b] + rest, p, r) == Redact(t, p, r) + [b] + MaskPrefix(rest, p, r)
  {
    var more := [b] + rest;
    CutToken(t, more, p, r);
    SkipClean([b], rest, p, r);
    calc {
      MaskPrefix(t + [b] + rest, p, r);
      { Regroup(t, [b], rest); }
      MaskPrefix(t + more, p, r);
      Redact(t, p, r) + MaskPrefix(more, p, r);
      Redact(t, p, r) + ([b] + MaskPrefix(rest, p, r));
      { Regroup(Redact(t, p, r), [b], MaskPrefix(rest, p, r)); }
      Redact(t, p, r) + [b] + MaskPrefix(rest, p, r);
    }
  }

  lemma {:induction false} CutToken(t: string, more: string, p: string, r: string)
    requires Maskable(p, r) && IsToken(t) && Index(t, p) != -1
    requires more != "" ==> IsBoundary(more[0])
    ensures Index(t + more, p) != -1 && Cut(t + more, p, r) == (Redact(t, p, r), more)
  {
    var s, h := t + more, Index(t, p);
    Seam(t, more, p, h, r);
    forall k | 0 <= k < h ensures !OccursAt(s, p, k) { Seam(t, more, p, k, r); }
    assert Index(s, p) == h;
    assert forall k :: 0 <= k < |t| ==> s[k] == t[k];
    assert more != "" ==> s[|t|] == more[0];
    assert s[..h] == t[..h] && s[|t|..] == more;
  }

  lemma {:induction false} PassLastToken(t: string, p: string, r: string)
    requires Maskable(p, r) && IsToken(t)
    ensures MaskPrefix(t, p, r) == Redact(t, p, r)
  {
    if Index(t, p) != -1 {
      CutToken(t, "", p, r);
      assert t + "" == t;
    }
  }

  lemma {:induction false} RedactToken(t: string, p: string, r: string)
    requires IsToken(t) && IsToken(r)
    ensures IsToken(Redact(t, p, r))
  {
  }

  /** A pass followed by token-wise redaction is token-wise redaction with one prefix more. */
  lemma {:induction false} PassThenTokens(s: string, p: string, ps: seq<string>, r: string)
    requires Maskable(p, r)
    ensures MapTokens(MaskPrefix(s, p, r), ps, r) == MapTokens(s, [p] + ps, r)
    decreases |s|
  {
    var e := EndFrom(s, 0);
    if e == |s| {
      RedactToken(s, p, r);
      RedactMore(s, p, ps, r);
      PassLastToken(s, p, r);
      MapTokensWhole(Redact(s, p, r), ps, r);
      MapTokensWhole(s, [p] + ps, r);
    } else {
      PassThenTokens(s[e + 1..], p, ps, r);
      FirstToken(s);
      PassThenTokensSplit(s[..e], s[e], s[e + 1..], p, ps, r);
    }
  }

  lemma {:induction false} FirstToken(s: string)
    requires EndFrom(s, 0) < |s|
    ensures var e := EndFrom(s, 0); IsToken(s[..e]) && s == s[..e] + [s[e]] + s[e + 1..]
  {
    SplitAt(s, EndFrom(s, 0));
  }

  lemma {:induction false} SplitAt(s: string, e: nat)
    requires e < |s|
    ensures s == s[..e] + [s[e]] + s[e + 1..]
  {}

  lemma {:induction false} PassThenTokensSplit(t: string, b: char, rest: string, p: string, ps: seq<string>, r: string)
    requires Maskable(p, r) && IsToken(t) && IsBoundary(b)
    requires MapTokens(MaskPrefix(rest, p, r), ps, r) == MapTokens(rest, [p] + ps, r)
    ensures MapTokens(MaskPrefix(t + [b] + rest, p, r), ps, r) == MapTokens(t + [b] + rest, [p] + ps, r)
  {
    RedactToken(t, p, r);
    RedactMore(t, p, ps, r);
    PassFirstToken(t, b, rest, p, r);
    MapTokensSplit(Redact(t, p, r), b, MaskPrefix(rest, p, r), ps, r);
    MapTokensSplit(t, b, rest, [p] + ps, r);
  }

  lemma {:induction false} RedactMore(t: string, p: string, ps: seq<string>, r: string)
    ensures RedactAll(t, [p] + ps, r) == RedactAll(Redact(t, p, r), ps, r)
  {
    assert ([p] + ps)[1..] == ps;
  }

  lemma {:induction false} NoPrefixes(s: string, r: string)
    ensures MapTokens(s, [], r) == s
    decreases |s|
  {
    var e := EndFrom(s, 0);
    if e < |s| {
      NoPrefixes(s[e + 1..], r);
      FirstToken(s);
      Regroup(s[..e], [s[e]], s[e + 1..]);
    } else {
      assert s[..e] + "" == s;
    }
  }

  lemma {:induction false} PassesAreTokenwise(s: string, ps: seq<string>, r: string)
    requires AllMaskable(ps, r)
    ensures MaskAll(s, ps, r) == MapTokens(s, ps, r)
    decreases |ps|
  {
    if ps == [] {
      NoPrefixes(s, r);
    } else {
      PassesAreTokenwise(MaskPrefix(s, ps[0], r), ps[1..], r);
      PassThenTokens(s, ps[0], ps[1..], r);
      assert [ps[0]] + ps[1..] == ps;
    }
  }

  /** Masking a text is redacting each of its tokens on its own. */
  lemma {:induction false} MaskingIsTokenwise(s: string)
    ensures Mask(s) == MapTokens(s, PREFIXES, REDACTED)
  {
    KnownPrefixesMaskable();
    PassesAreTokenwise(s, PREFIXES, REDACTED);
  }

  // ----- The masked text, told with the characters and prefixes themselves

  /** A space, a quote, an apostrophe, a line end, a tab, a comma, a closing brace or bracket. */
  predicate Separates(c: char) {
    c in {' ', '"', '\'', '\n', '\r', '\t', ',', '}', ']'}
  }

  /** One of the four known prefixes. */
  predicate Known(p: string) {
    p in ["AKIA", "ASIA", "ya29.", "eyJ"]
  }

  lemma {:induction false} SeparatesIs(c: char)
    ensures Separates(c) <==> IsBoundary(c)
  {}

  /** What stands on either side of a separator is masked by itself. */
  lemma {:induction false} MaskSplits(a: string, b: char, rest: string)
    requires Separates(b)
    ensures Mask(a + [b] + rest) == Mask(a) + [b] + Mask(rest)
  {
    SeparatesIs(b);
    MaskingIsTokenwise(a + [b] + rest);
    MaskingIsTokenwise(a);
    MaskingIsTokenwise(rest);
    MapTokensAppend(a, b, rest, PREFIXES, REDACTED);
  }

  lemma {:induction false} MapTokensAppend(a: string, b: char, rest: string, ps: seq<string>, r: string)
    requires IsBoundary(b)
    ensures MapTokens(a + [b] + rest, ps, r) == MapTokens(a, ps, r) + [b] + MapTokens(rest, ps, r)
    decreases |a|
  {
    var e := EndFrom(a, 0);
    if e == |a| {
      MapTokensSplit(a, b, rest, ps, r);
      MapTokensWhole(a, ps, r);
    } else {
      var t, c, more := a[..e], a[e], a[e + 1..];
      FirstToken(a);
      assert a + [b] + rest == t + [c] + (more + [b] + rest);
      MapTokensSplit(t, c, more + [b] + rest, ps, r);
      MapTokensSplit(t, c, more, ps, r);
      MapTokensAppend(more, b, rest, ps, r);
      Joined(RedactAll(t, ps, r), [c], MapTokens(more, ps, r), [b], MapTokens(rest, ps, r));
    }
  }

  lemma {:induction false} Joined(a: string, b: string, c: string, d: string, e: string)
    ensures a + b + (c + d + e) == a + b + c + d + e
  {}

  /** A run without separators in which no known prefix occurs stays as it is. */
  lemma {:induction false} CleanTokenStays(t: string)
    requires forall p: string, i: int :: Known(p) ==> !OccursAt(t, p, i)
    ensures Mask(t) == t
  {
    NoPrefixSurvives(t);
    forall k | 0 <= k < |PREFIXES| ensures Free(t, PREFIXES[k]) {
      KnownIs(k);
    }
  }

  lemma {:induction false} KnownIs(k: nat)
    requires k < |PREFIXES|
    ensures Known(PREFIXES[k])
  {
    var ps := ["AKIA", "ASIA", "ya29.", "eyJ"];
    assert ps[k] in ps;
  }

  lemma {:induction false} KnownAt(p: string) returns (k: nat)
    requires Known(p)
    ensures k < |PREFIXES| && PREFIXES[k] == p
  {
    k := if p == "AKIA" then 0 else if p == "ASIA" then 1 else if p == "ya29." then 2 else 3;
  }

  /** No known prefix starts in the first part of the text. */
  ghost predicate Clear(before: string, u: string) {
    before <= u && forall k, i :: 0 <= k < |PREFIXES| && 0 <= i < |before| ==> !OccursAt(u, PREFIXES[k], i)
  }

  lemma {:induction false} CutStaysClear(before: string, u: string, i: nat)
    requires Clear(before, u) && |before| <= i <= |u|
    ensures Clear(before, u[..i] + REDACTED)
  {
    KnownPrefixesMaskable();
    forall k, j | 0 <= k < |PREFIXES| && 0 <= j < |before| ensures !OccursAt(u[..i] + REDACTED, PREFIXES[k], j) {
      Seam(u[..i], REDACTED, PREFIXES[k], j, REDACTED);
      InFirstPart(u, i, PREFIXES[k], j);
    }
  }

  lemma {:induction false} InFirstPart(u: string, i: nat, q: string, j: nat)
    requires i <= |u|
    ensures OccursAt(u[..i], q, j) ==> OccursAt(u, q, j)
  {
    if OccursAt(u[..i], q, j) { assert u[..i][j..j + |q|] == u[j..j + |q|]; }
  }

  /** Behind a cleared start, the replacement is not masked again. */
  lemma {:induction false} MaskedStays(before: string, tail: string, k: nat)
    requires k < |PREFIXES| && Clear(before, before + tail) && Free(tail, PREFIXES[k])
    ensures Redact(before + tail, PREFIXES[k], REDACTED) == before + tail
  {
    var u, q := before + tail, PREFIXES[k];
    forall i ensures !OccursAt(u, q, i) {
      if OccursAt(u, q, i) {
        if i >= |before| {
          assert u[i..i + |q|] == tail[i - |before|..i - |before| + |q|];
          assert OccursAt(tail, q, i - |before|);
        }
      }
    }
  }

  lemma {:induction false} MaskedStaysAll(before: string, tail: string, n: nat)
    requires n <= |PREFIXES| && Clear(before, before + tail)
    requires forall k :: 0 <= k < |PREFIXES| ==> Free(tail, PREFIXES[k])
    ensures RedactAll(before + tail, PREFIXES[n..], REDACTED) == before + tail
    decreases |PREFIXES| - n
  {
    if n < |PREFIXES| {
      MaskedStays(before, tail, n);
      MaskedStaysAll(before, tail, n + 1);
      assert PREFIXES[n..][0] == PREFIXES[n] && PREFIXES[n..][1..] == PREFIXES[n + 1..];
    }
  }

  /** The first occurrence of a prefix behind a cleared start that it follows. */
  lemma {:induction false} HitAt(before: string, u: string, k: nat)
    requires k < |PREFIXES| && Clear(before, u) && before + PREFIXES[k] <= u
    ensures Redact(u, PREFIXES[k], REDACTED) == before + REDACTED
  {
    var p := PREFIXES[k];
    assert u[|before|..|before| + |p|] == p;
    assert OccursAt(u, p, |before|);
    assert u[..|before|] == before;
  }

  /** A prefix other than "AKIA" is overlapped by another one only where "ASIA" is followed by "KIA". */
  lemma {:induction false} Overlap(p: string, q: string, d: nat)
    requires Known(p) && Known(q) && p != q && p != "AKIA" && d < |p|
    requires q[0] == p[d] && (d + 1 < |p| ==> q[1] == p[d + 1])
    ensures p == "ASIA" && q == "AKIA" && d == 3
  {}

  /** The first occurrence of another prefix behind a cleared start lies behind `p`, except in that case. */
  lemma {:induction false} OtherHit(before: string, u: string, p: string, n: nat)
    requires n < |PREFIXES| && Known(p) && p != "AKIA" && p != PREFIXES[n] && Clear(before, u) && before + p <= u
    ensures var i := Index(u, PREFIXES[n]); i == -1 || i >= |before| + |p| || before + "ASIAKIA" <= u
  {
    var q, i := PREFIXES[n], Index(u, PREFIXES[n]);
    KnownIs(n);
    if |before| <= i < |before| + |p| {
      HitsOverlap(before, u, p, q, i);
    }
  }

  lemma {:induction false} HitsOverlap(before: string, u: string, p: string, q: string, i: nat)
    requires Known(p) && Known(q) && p != q && p != "AKIA" && before + p <= u && OccursAt(u, q, i)
    requires |before| <= i < |before| + |p|
    ensures before + "ASIAKIA" <= u
  {
    var n, d := |before|, i - |before|;
    assert u[..n + |p|] == before + p;
    assert u[i] == p[d] && u[i..i + |q|][0] == u[i] && u[i..i + |q|][1] == u[i + 1];
    assert d + 1 < |p| ==> u[i + 1] == (before + p)[i + 1] == p[d + 1];
    Overlap(p, q, d);
    TwoParts(u, n + 3, n + 7);
    assert u[..n + 3] == (before + "ASIA")[..n + 3] == before + "ASI";
    assert u[..n + 7] == before + "ASI" + "AKIA" == before + "ASIAKIA";
  }

  lemma {:induction false} TwoParts(u: string, i: nat, j: nat)
    requires i <= j <= |u|
    ensures u[..j] == u[..i] + u[i..j]
  {}

  lemma {:induction false} TokenFrom(before: string, u: string, n: nat, k: nat)
    requires n <= k < |PREFIXES| && Clear(before, u) && before + PREFIXES[k] <= u && !(before + "ASIAKIA" <= u)
    ensures RedactAll(u, PREFIXES[n..], REDACTED) == before + REDACTED
    decreases k - n
  {
    assert PREFIXES[n..][0] == PREFIXES[n] && PREFIXES[n..][1..] == PREFIXES[n + 1..];
    if n == k {
      HitAt(before, u, k);
      CutStaysClear(before, u, |before|);
      assert u[..|before|] == before;
      KnownPrefixesMaskable();
      MaskedStaysAll(before, REDACTED, n + 1);
    } else {
      KnownIs(k);
      assert PREFIXES[k] != "AKIA" && PREFIXES[k] != PREFIXES[n];
      OtherHit(before, u, PREFIXES[k], n);
      var i := Index(u, PREFIXES[n]);
      if i != -1 {
        CutStaysClear(before, u, i);
        var v := u[..i] + REDACTED;
        assert before + PREFIXES[k] <= v;
        AsiakiaInCut(before, u, i);
        TokenFrom(before, v, n + 1, k);
      } else {
        TokenFrom(before, u, n + 1, k);
      }
    }
  }

  lemma {:induction false} AsiakiaInCut(before: string, u: string, i: nat)
    requires |before| <= i <= |u|
    ensures before + "ASIAKIA" <= u[..i] + REDACTED ==> before + "ASIAKIA" <= u
  {
    var v, w := u[..i] + REDACTED, before + "ASIAKIA";
    assert v[i] == '*' && forall m :: |before| <= m < |w| ==> w[m] == "ASIAKIA"[m - |before|] != '*';
    if w <= v {
      assert i >= |w|;
      assert u[..|w|] == v[..|w|];
    }
  }

  /** A run without separators whose first known prefix is `p`: everything from there on is replaced, except that
      three letters of "ASIA" stay when "KIA" follows, because "AKIA" is looked for first. */
  lemma {:induction false} TokenMasked(before: string, p: string, secret: string)
    requires Known(p) && forall k :: 0 <= k < |before + p + secret| ==> !Separates((before + p + secret)[k])
    requires forall q: string, i: int :: Known(q) && i < |before| ==> !OccursAt(before + p + secret, q, i)
    ensures Mask(before + p + secret) ==
      before + if p == "ASIA" && "KIA" <= secret then "ASI" + "***redacted***" else "***redacted***"
  {
    MaskWhole(before + p + secret);
    ClearIs(before, before + p + secret);
    RedactFirst(before, p, secret);
  }

  lemma {:induction false} ClearIs(before: string, u: string)
    requires before <= u && forall q: string, i: int :: Known(q) && i < |before| ==> !OccursAt(u, q, i)
    ensures Clear(before, u)
  {
    forall k, i | 0 <= k < |PREFIXES| && 0 <= i < |before| ensures !OccursAt(u, PREFIXES[k], i) { KnownIs(k); }
  }

  lemma {:induction false} MaskWhole(u: string)
    requires forall k :: 0 <= k < |u| ==> !Separates(u[k])
    ensures Mask(u) == RedactAll(u, PREFIXES, REDACTED)
  {
    forall k | 0 <= k < |u| ensures !IsBoundary(u[k]) { SeparatesIs(u[k]); }
    MaskingIsTokenwise(u);
    MapTokensWhole(u, PREFIXES, REDACTED);
  }

  lemma {:induction false} RedactFirst(before: string, p: string, secret: string)
    requires Known(p) && Clear(before, before + p + secret)
    ensures RedactAll(before + p + secret, PREFIXES, REDACTED) ==
      before + if p == "ASIA" && "KIA" <= secret then "ASI" + REDACTED else REDACTED
  {
    var u := before + p + secret;
    AsiakiaIff(before, p, secret);
    if p == "ASIA" && "KIA" <= secret {
      Asiakia(before, u);
    } else {
      var k := KnownAt(p);
      assert u[..|before| + |p|] == before + p;
      assert PREFIXES[0..] == PREFIXES;
      TokenFrom(before, u, 0, k);
    }
  }

  lemma {:induction false} AsiakiaIff(before: string, p: string, secret: string)
    requires Known(p)
    ensures before + "ASIAKIA" <= before + p + secret <==> p == "ASIA" && "KIA" <= secret
  {
    var u, n := before + p + secret, |before|;
    if before + "ASIAKIA" <= u {
      assert u[n] == "ASIAKIA"[0] == p[0] && u[n + 1] == "ASIAKIA"[1] == p[1];
      assert p == "ASIA";
      assert secret[..3] == u[n + 4..n + 7] == "ASIAKIA"[4..7] == "KIA";
    }
    if p == "ASIA" && "KIA" <= secret {
      assert u[..n + 7] == before + ("ASIA" + secret[..3]) == before + "ASIAKIA";
    }
  }

  lemma {:induction false} AkiaFound(before: string, u: string)
    requires Clear(before, u) && before + "ASIAKIA" <= u
    ensures Index(u, PREFIXES[0]) == |before| + 3
  {
    var n, w := |before|, before + "ASIAKIA";
    assert u[..n + 7] == w;
    assert u[n + 3..n + 7] == w[n + 3..n + 7] == "AKIA";
    assert OccursAt(u, "AKIA", n + 3);
    assert u[n + 1] == w[n + 1] == 'S' && u[n + 2] == w[n + 2] == 'I';
    Differs(u, "AKIA", n, 1);
    Differs(u, "AKIA", n + 1, 0);
    Differs(u, "AKIA", n + 2, 0);
  }

  lemma {:induction false} AkiaCut(before: string, u: string)
    requires Clear(before, u) && before + "ASIAKIA" <= u
    ensures Redact(u, PREFIXES[0], REDACTED) == before + ("ASI" + REDACTED)
    ensures Clear(before, before + ("ASI" + REDACTED))
  {
    var n, w := |before|, before + "ASIAKIA";
    AkiaFound(before, u);
    CutStaysClear(before, u, n + 3);
    assert u[..n + 3] == w[..n + 3] == before + "ASI";
    Regroup(before, "ASI", REDACTED);
  }

  lemma {:induction false} RedactNext(u: string, n: nat)
    requires n < |PREFIXES|
    ensures RedactAll(u, PREFIXES[n..], REDACTED) ==
      RedactAll(Redact(u, PREFIXES[n], REDACTED), PREFIXES[n + 1..], REDACTED)
  {
    assert PREFIXES[n..][0] == PREFIXES[n] && PREFIXES[n..][1..] == PREFIXES[n + 1..];
  }

  lemma {:induction false} Asiakia(before: string, u: string)
    requires Clear(before, u) && before + "ASIAKIA" <= u
    ensures RedactAll(u, PREFIXES, REDACTED) == before + ("ASI" + REDACTED)
  {
    AkiaCut(before, u);
    RedactNext(u, 0);
    assert PREFIXES[0..] == PREFIXES;
    forall k | 0 <= k < |PREFIXES| ensures Free("ASI" + REDACTED, PREFIXES[k]) {
      AsiFree(k);
    }
    MaskedStaysAll(before, "ASI" + REDACTED, 1);
  }

  lemma {:induction false} AsiFree(k: nat)
    requires k < |PREFIXES|
    ensures Free("ASI" + REDACTED, PREFIXES[k])
  {
    var q := PREFIXES[k];
    KnownPrefixesMaskable();
    assert Maskable(q, REDACTED);
    forall i ensures !OccursAt("ASI", q, i) {
      if i == 0 && |q| == 3 { Differs("ASI", q, 0, 0); }
    }
    SeamFree("ASI", REDACTED, q, REDACTED);
  }
}
