/** The part of the Wasm binary format that the plugin fixtures use: a decoder following chapter 5 of
    the WebAssembly Core Specification, and the byte layouts the fixture generator writes. */
module WasmBinary {
  import opened Bits
  import opened Options
  import opened Leb128
  import opened Sequences

  const I32_TYPE: Byte := 0x7F
  const I64_TYPE: Byte := 0x7E

  datatype Instr =
    | Unreachable
    | LocalGet(index: nat)
    | GlobalGet(index: nat)
    | GlobalSet(index: nat)
    | I32Add
    | I32Const(n: int)
    | I64Const(n: int)

  datatype FuncType = FuncType(params: seq<Byte>, results: seq<Byte>)
  datatype Global = Global(valtype: Byte, mutability: Byte, init: seq<Instr>)
  datatype Export = Export(name: seq<Byte>, kind: Byte, index: nat)
  datatype Segment = Segment(offset: seq<Instr>, bytes: seq<Byte>)
  datatype Section = Section(id: Byte, content: seq<Byte>)

  datatype Module = Module(
    types: seq<FuncType>, funcs: seq<nat>, memories: seq<nat>, globals: seq<Global>,
    exports: seq<Export>, bodies: seq<seq<Instr>>, data: seq<Segment>)

  /** A decoder either rejects its input or takes a value from its front. */
  datatype Parsed<+T> = Bad | Got(value: T, rest: seq<Byte>)

  // ----- Decoders

  function TakeU32(bs: seq<Byte>): (p: Parsed<nat>)
    ensures p.Got? ==> |p.rest| < |bs| && p.value < 0x1_0000_0000
  {
    match UDecode(32, bs)
    case Malformed => Bad
    case Value(v, used) => UnsignedShortest(32, bs); Pow2Sizes(); Got(v, bs[used..])
  }

  function TakeSigned(n: nat, bs: seq<Byte>): (p: Parsed<int>)
    requires n > 0
    ensures p.Got? ==> |p.rest| < |bs|
  {
    match SDecode(n, bs)
    case Malformed => Bad
    case Value(v, used) => SignedShortest(n, bs); Got(v, bs[used..])
  }

  /** A length and that many bytes (names, vectors of value types, segment contents, code bodies). */
  function TakeBlob(bs: seq<Byte>): Parsed<seq<Byte>> {
    match TakeU32(bs)
    case Bad => Bad
    case Got(n, more) => if n <= |more| then Got(more[..n], more[n..]) else Bad
  }

  function TakeMany<T>(n: nat, take: seq<Byte> -> Parsed<T>, bs: seq<Byte>): Parsed<seq<T>> {
    if n == 0 then Got([], bs)
    else match take(bs)
      case Bad => Bad
      case Got(x, more) =>
        match TakeMany(n - 1, take, more)
        case Bad => Bad
        case Got(xs, rest) => Got([x] + xs, rest)
  }

  /** A section's content is one vector with nothing after it. */
  function TakeAll<T>(take: seq<Byte> -> Parsed<T>, bs: seq<Byte>): Option<seq<T>> {
    match TakeU32(bs)
    case Bad => None
    case Got(n, more) =>
      match TakeMany(n, take, more)
      case Bad => None
      case Got(xs, rest) => if rest == [] then Some(xs) else None
  }

  function TakeInstr(bs: seq<Byte>): (p: Parsed<Instr>)
    requires bs != []
    ensures p.Got? ==> |p.rest| < |bs|
  {
    if bs[0] == 0x00 then Got(Unreachable, bs[1..])
    else if bs[0] == 0x6A then Got(I32Add, bs[1..])
    else if bs[0] == 0x41 then
      match TakeSigned(32, bs[1..]) { case Bad => Bad case Got(n, rest) => Got(I32Const(n), rest) }
    else if bs[0] == 0x42 then
      match TakeSigned(64, bs[1..]) { case Bad => Bad case Got(n, rest) => Got(I64Const(n), rest) }
    else
      match TakeU32(bs[1..])
      case Bad => Bad
      case Got(k, rest) =>
        if bs[0] == 0x20 then Got(LocalGet(k), rest)
        else if bs[0] == 0x23 then Got(GlobalGet(k), rest)
        else if bs[0] == 0x24 then Got(GlobalSet(k), rest)
        else Bad
  }

  /** Instructions up to the `end` opcode. */
  function TakeExpr(bs: seq<Byte>): Parsed<seq<Instr>>
    decreases |bs|
  {
    if bs == [] then Bad
    else if bs[0] == 0x0B then Got([], bs[1..])
    else match TakeInstr(bs)
      case Bad => Bad
      case Got(i, more) =>
        match TakeExpr(more)
        case Bad => Bad
        case Got(code, rest) => Got([i] + code, rest)
  }

  function TakeFuncType(bs: seq<Byte>): Parsed<FuncType> {
    if bs == [] || bs[0] != 0x60 then Bad
    else match TakeBlob(bs[1..])
      case Bad => Bad
      case Got(params, more) =>
        match TakeBlob(more)
        case Bad => Bad
        case Got(results, rest) => Got(FuncType(params, results), rest)
  }

  /** A memory without a maximum. */
  function TakeMemory(bs: seq<Byte>): Parsed<nat> {
    if bs == [] || bs[0] != 0 then Bad else TakeU32(bs[1..])
  }

  function TakeGlobal(bs: seq<Byte>): Parsed<Global> {
    if |bs| < 2 then Bad
    else match TakeExpr(bs[2..])
      case Bad => Bad
      case Got(init, rest) => Got(Global(bs[0], bs[1], init), rest)
  }

  function TakeExport(bs: seq<Byte>): Parsed<Export> {
    match TakeBlob(bs)
    case Bad => Bad
    case Got(name, more) =>
      if more == [] then Bad
      else match TakeU32(more[1..])
        case Bad => Bad
        case Got(index, rest) => Got(Export(name, more[0], index), rest)
  }

  /** A function body without locals; its size prefix must cover exactly the body. */
  function TakeBody(bs: seq<Byte>): Parsed<seq<Instr>> {
    match TakeBlob(bs)
    case Bad => Bad
    case Got(body, rest) =>
      if body == [] || body[0] != 0 then Bad
      else match TakeExpr(body[1..])
        case Bad => Bad
        case Got(code, left) => if left == [] then Got(code, rest) else Bad
  }

  /** An active segment of memory 0. */
  function TakeSegment(bs: seq<Byte>): Parsed<Segment> {
    if bs == [] || bs[0] != 0 then Bad
    else match TakeExpr(bs[1..])
      case Bad => Bad
      case Got(offset, more) =>
        match TakeBlob(more)
        case Bad => Bad
        case Got(bytes, rest) => Got(Segment(offset, bytes), rest)
  }

  function SplitSections(bs: seq<Byte>): Option<seq<Section>>
    decreases |bs|
  {
    if bs == [] then Some([])
    else match TakeBlob(bs[1..])
      case Bad => None
      case Got(content, rest) =>
        assert |rest| < |bs| by { BlobConsumes(bs[1..]); }
        match SplitSections(rest)
        case None => None
        case Some(more) => Some([Section(bs[0], content)] + more)
  }

  lemma {:induction false} BlobConsumes(bs: seq<Byte>)
    ensures TakeBlob(bs).Got? ==> |TakeBlob(bs).rest| < |bs|
  {}

  predicate InOrder(sections: seq<Section>) {
    forall i, j | 0 <= i < j < |sections| :: sections[i].id < sections[j].id
  }

  /** The content of the first section with this id; a missing section counts as an empty vector. */
  function ContentOf(sections: seq<Section>, id: Byte): seq<Byte> {
    if sections == [] then [0]
    else if sections[0].id == id then sections[0].content
    else ContentOf(sections[1..], id)
  }

  function Header(): seq<Byte> {
    [0x00, 0x61, 0x73, 0x6D, 0x01, 0x00, 0x00, 0x00]
  }

  function FromSections(sections: seq<Section>): Option<Module> {
    var types := TakeAll(TakeFuncType, ContentOf(sections, 1));
    var funcs := TakeAll(TakeU32, ContentOf(sections, 3));
    var memories := TakeAll(TakeMemory, ContentOf(sections, 5));
    var globals := TakeAll(TakeGlobal, ContentOf(sections, 6));
    var exports := TakeAll(TakeExport, ContentOf(sections, 7));
    var bodies := TakeAll(TakeBody, ContentOf(sections, 10));
    var data := TakeAll(TakeSegment, ContentOf(sections, 11));
    if types.None? || funcs.None? || memories.None? || globals.None? || exports.None? || bodies.None? || data.None?
    then None
    else Some(Module(types.value, funcs.value, memories.value, globals.value, exports.value, bodies.value, data.value))
  }

  function Decode(bs: seq<Byte>): Option<Module> {
    if |bs| < 8 || bs[..8] != Header() then None
    else match SplitSections(bs[8..])
      case None => None
      case Some(sections) => if InOrder(sections) then FromSections(sections) else None
  }

  // ----- Layouts the generator writes

  /** A length, cut to 32 bits as the generator's conversion does, and the bytes. */
  function Blob(bs: seq<Byte>): seq<Byte> {
    ULeb(|bs| % 0x1_0000_0000) + bs
  }

  function Many<T>(layout: T -> seq<Byte>, items: seq<T>): seq<Byte> {
    if items == [] then [] else layout(items[0]) + Many(layout, items[1..])
  }

  function Vec<T>(layout: T -> seq<Byte>, items: seq<T>): seq<Byte> {
    ULeb(|items|) + Many(layout, items)
  }

  /** The generator writes `i32.const` operands with the unsigned encoder. */
  function InstrBytes(i: Instr): (bs: seq<Byte>)
    ensures bs != []
  {
    match i
    case Unreachable => [0x00]
    case LocalGet(k) => [0x20] + ULeb(k)
    case GlobalGet(k) => [0x23] + ULeb(k)
    case GlobalSet(k) => [0x24] + ULeb(k)
    case I32Add => [0x6A]
    case I32Const(n) => [0x41] + if n >= 0 then ULeb(n) else SLeb(n)
    case I64Const(n) => [0x42] + SLeb(n)
  }

  function ExprBytes(code: seq<Instr>): seq<Byte> {
    if code == [] then [0x0B] else InstrBytes(code[0]) + ExprBytes(code[1..])
  }

  function FuncTypeBytes(t: FuncType): seq<Byte> {
    [0x60] + Blob(t.params) + Blob(t.results)
  }

  function IndexBytes(i: nat): seq<Byte> {
    ULeb(i)
  }

  function MemoryBytes(pages: nat): seq<Byte> {
    [0x00] + ULeb(pages)
  }

  function GlobalBytes(g: Global): seq<Byte> {
    [g.valtype, g.mutability] + ExprBytes(g.init)
  }

  function ExportBytes(e: Export): seq<Byte> {
    Blob(e.name) + [e.kind] + ULeb(e.index)
  }

  function BodyBytes(code: seq<Instr>): seq<Byte> {
    Blob([0x00] + ExprBytes(code))
  }

  function SegmentBytes(s: Segment): seq<Byte> {
    [0x00] + ExprBytes(s.offset) + Blob(s.bytes)
  }

  function SectionBytes(s: Section): seq<Byte> {
    [s.id] + Blob(s.content)
  }

  // ----- The decoder undoes the layouts

  lemma {:induction false} Cut(a: seq<Byte>, b: seq<Byte>)
    ensures (a + b)[..|a|] == a && (a + b)[|a|..] == b
  {}

  lemma {:induction false} U32RoundTrip(v: nat, rest: seq<Byte>)
    requires v < 0x1_0000_0000
    ensures TakeU32(ULeb(v) + rest) == Got(v, rest)
  {
    Pow2Sizes();
    UnsignedRoundTrip(32, v, rest);
    Cut(ULeb(v), rest);
  }

  lemma {:induction false} BlobRoundTrip(bs: seq<Byte>, rest: seq<Byte>)
    requires |bs| < 0x1_0000_0000
    ensures TakeBlob(Blob(bs) + rest) == Got(bs, rest)
  {
    assert Blob(bs) + rest == ULeb(|bs|) + (bs + rest);
    U32RoundTrip(|bs|, bs + rest);
    Cut(bs, rest);
  }

  /** `take` undoes `layout` on every item of the list, whatever follows it. */
  ghost predicate Undoes<T(!new)>(take: seq<Byte> -> Parsed<T>, layout: T -> seq<Byte>, items: seq<T>) {
    forall x: T, rest: seq<Byte> | x in items :: take(layout(x) + rest) == Got(x, rest)
  }

  lemma {:induction false} ManyRoundTrip<T(!new)>(take: seq<Byte> -> Parsed<T>, layout: T -> seq<Byte>,
                                                   items: seq<T>, rest: seq<Byte>)
    requires Undoes(take, layout, items)
    ensures TakeMany(|items|, take, Many(layout, items) + rest) == Got(items, rest)
    decreases |items|
  {
    if items == [] {
      assert Many(layout, items) + rest == rest;
    } else {
      var more := Many(layout, items[1..]) + rest;
      assert Many(layout, items) + rest == layout(items[0]) + more;
      assert take(layout(items[0]) + more) == Got(items[0], more);
      ManyRoundTrip(take, layout, items[1..], rest);
      assert [items[0]] + items[1..] == items;
    }
  }

  lemma {:induction false} VecRoundTrip<T(!new)>(take: seq<Byte> -> Parsed<T>, layout: T -> seq<Byte>, items: seq<T>)
    requires Undoes(take, layout, items) && |items| < 0x1_0000_0000
    ensures TakeAll(take, Vec(layout, items)) == Some(items)
  {
    var bs := Many(layout, items);
    U32RoundTrip(|items|, bs);
    ManyRoundTrip(take, layout, items, []);
    assert bs + [] == bs;
  }

  /** The operands the generator may write: an `i32.const` operand must read the same when taken as signed. */
  predicate Readable(i: Instr) {
    match i
    case Unreachable => true
    case LocalGet(k) => k < 0x1_0000_0000
    case GlobalGet(k) => k < 0x1_0000_0000
    case GlobalSet(k) => k < 0x1_0000_0000
    case I32Add => true
    case I32Const(n) => -0x8000_0000 <= n < 0x8000_0000 && (n >= 0 ==> ULeb(n)[|ULeb(n)| - 1] < 64)
    case I64Const(n) => -0x8000_0000_0000_0000 <= n < 0x8000_0000_0000_0000
  }

  lemma {:induction false} SignedTaken(n: nat, bs: seq<Byte>, v: int, rest: seq<Byte>)
    requires n > 0 && SDecode(n, bs + rest) == Value(v, |bs|)
    ensures TakeSigned(n, bs + rest) == Got(v, rest)
  {
    Cut(bs, rest);
  }

  lemma {:induction false} OpcodeFirst(op: Byte, operand: seq<Byte>, rest: seq<Byte>)
    ensures ([op] + operand + rest)[0] == op && ([op] + operand + rest)[1..] == operand + rest
  {}

  lemma {:induction false} Behind(op: Byte, a: seq<Byte>, b: seq<Byte>, rest: seq<Byte>)
    ensures ([op] + a + b + rest)[0] == op && ([op] + a + b + rest)[1..] == a + (b + rest)
  {}

  lemma {:induction false} ConstTaken(i: Instr, op: Byte, width: nat, operand: seq<Byte>, rest: seq<Byte>)
    requires (i.I32Const? && op == 0x41 && width == 32) || (i.I64Const? && op == 0x42 && width == 64)
    requires SDecode(width, operand + rest) == Value(i.n, |operand|)
    ensures TakeInstr([op] + operand + rest) == Got(i, rest)
  {
    SignedTaken(width, operand, i.n, rest);
    OpcodeFirst(op, operand, rest);
  }

  lemma {:induction false} ConstRoundTrip(i: Instr, rest: seq<Byte>)
    requires Readable(i) && (i.I32Const? || i.I64Const?)
    ensures TakeInstr(InstrBytes(i) + rest) == Got(i, rest)
  {
    Pow2Sizes();
    var n := i.n;
    if i.I64Const? {
      SignedRoundTrip(64, n, rest);
      ConstTaken(i, 0x42, 64, SLeb(n), rest);
    } else if n >= 0 {
      UnsignedReadAsSigned(32, n, rest);
      ConstTaken(i, 0x41, 32, ULeb(n), rest);
    } else {
      SignedRoundTrip(32, n, rest);
      ConstTaken(i, 0x41, 32, SLeb(n), rest);
    }
  }

  lemma {:induction false} InstrRoundTrip(i: Instr, rest: seq<Byte>)
    requires Readable(i)
    ensures TakeInstr(InstrBytes(i) + rest) == Got(i, rest)
  {
    match i
    case Unreachable =>
    case I32Add =>
    case I32Const(n) => ConstRoundTrip(i, rest);
    case I64Const(n) => ConstRoundTrip(i, rest);
    case LocalGet(k) => U32RoundTrip(k, rest); OpcodeFirst(0x20, ULeb(k), rest);
    case GlobalGet(k) => U32RoundTrip(k, rest); OpcodeFirst(0x23, ULeb(k), rest);
    case GlobalSet(k) => U32RoundTrip(k, rest); OpcodeFirst(0x24, ULeb(k), rest);
  }

  lemma {:induction false} NotEnd(i: Instr, rest: seq<Byte>)
    ensures (InstrBytes(i) + rest)[0] != 0x0B
  {}

  lemma {:induction false} ExprRoundTrip(code: seq<Instr>, rest: seq<Byte>)
    requires forall k | 0 <= k < |code| :: Readable(code[k])
    ensures TakeExpr(ExprBytes(code) + rest) == Got(code, rest)
    decreases |code|
  {
    if code == [] {
      assert ([0x0B] + rest)[1..] == rest;
    } else {
      var more := ExprBytes(code[1..]) + rest;
      assert ExprBytes(code) + rest == InstrBytes(code[0]) + more;
      InstrRoundTrip(code[0], more);
      NotEnd(code[0], more);
      ExprRoundTrip(code[1..], rest);
      assert [code[0]] + code[1..] == code;
    }
  }

  predicate AllReadable(code: seq<Instr>) {
    forall k | 0 <= k < |code| :: Readable(code[k])
  }

  lemma {:induction false} FuncTypeRoundTrip(t: FuncType, rest: seq<Byte>)
    requires |t.params| < 0x1_0000_0000 && |t.results| < 0x1_0000_0000
    ensures TakeFuncType(FuncTypeBytes(t) + rest) == Got(t, rest)
  {
    Behind(0x60, Blob(t.params), Blob(t.results), rest);
    BlobRoundTrip(t.params, Blob(t.results) + rest);
    BlobRoundTrip(t.results, rest);
  }

  lemma {:induction false} MemoryRoundTrip(pages: nat, rest: seq<Byte>)
    requires pages < 0x1_0000_0000
    ensures TakeMemory(MemoryBytes(pages) + rest) == Got(pages, rest)
  {
    OpcodeFirst(0x00, ULeb(pages), rest);
    U32RoundTrip(pages, rest);
  }

  lemma {:induction false} GlobalRoundTrip(g: Global, rest: seq<Byte>)
    requires AllReadable(g.init)
    ensures TakeGlobal(GlobalBytes(g) + rest) == Got(g, rest)
  {
    assert (GlobalBytes(g) + rest)[2..] == ExprBytes(g.init) + rest;
    ExprRoundTrip(g.init, rest);
  }

  lemma {:induction false} ExportRoundTrip(e: Export, rest: seq<Byte>)
    requires |e.name| < 0x1_0000_0000 && e.index < 0x1_0000_0000
    ensures TakeExport(ExportBytes(e) + rest) == Got(e, rest)
  {
    var more := [e.kind] + ULeb(e.index) + rest;
    assert ExportBytes(e) + rest == Blob(e.name) + more;
    BlobRoundTrip(e.name, more);
    OpcodeFirst(e.kind, ULeb(e.index), rest);
    U32RoundTrip(e.index, rest);
  }

  lemma {:induction false} BodyRoundTrip(code: seq<Instr>, rest: seq<Byte>)
    requires AllReadable(code) && |ExprBytes(code)| < 0xFFFF_FFFF
    ensures TakeBody(BodyBytes(code) + rest) == Got(code, rest)
  {
    var body := [0x00] + ExprBytes(code);
    BlobRoundTrip(body, rest);
    ExprRoundTrip(code, []);
    assert body[1..] == ExprBytes(code) + [];
  }

  lemma {:induction false} SegmentRoundTrip(s: Segment, rest: seq<Byte>)
    requires AllReadable(s.offset) && |s.bytes| < 0x1_0000_0000
    ensures TakeSegment(SegmentBytes(s) + rest) == Got(s, rest)
  {
    Behind(0x00, ExprBytes(s.offset), Blob(s.bytes), rest);
    ExprRoundTrip(s.offset, Blob(s.bytes) + rest);
    BlobRoundTrip(s.bytes, rest);
  }

  // ----- Framing

  predicate AllFit(sections: seq<Section>) {
    forall k | 0 <= k < |sections| :: |sections[k].content| < 0x1_0000_0000
  }

  function Framed(sections: seq<Section>): seq<Byte> {
    Many(SectionBytes, sections)
  }

  function Prepended(s: Section, r: Option<seq<Section>>): Option<seq<Section>> {
    match r { case None => None case Some(more) => Some([s] + more) }
  }

  lemma {:induction false} SplitStep(s: Section, after: seq<Byte>)
    requires |s.content| < 0x1_0000_0000
    ensures SplitSections(SectionBytes(s) + after) == Prepended(s, SplitSections(after))
  {
    var bs := SectionBytes(s) + after;
    assert bs[0] == s.id && bs[1..] == Blob(s.content) + after;
    BlobRoundTrip(s.content, after);
  }

  /** Splitting peels off the framed sections one by one and goes on with whatever follows them. */
  lemma {:induction false} SplitAfter(sections: seq<Section>, tail: seq<Byte>)
    requires AllFit(sections)
    ensures SplitSections(Framed(sections) + tail) ==
      match SplitSections(tail) { case None => None case Some(more) => Some(sections + more) }
    decreases |sections|
  {
    var end := SplitSections(tail);
    if sections == [] {
      assert Framed(sections) + tail == tail;
      assert end.Some? ==> sections + end.value == end.value;
    } else {
      var s := sections[0];
      var after := Framed(sections[1..]) + tail;
      Regroup(SectionBytes(s), Framed(sections[1..]), tail);
      AllFitStep(sections);
      SplitStep(s, after);
      SplitAfter(sections[1..], tail);
      if end.Some? {
        FirstAndRest(sections, end.value);
      }
    }
  }

  lemma {:induction false} FirstAndRest(sections: seq<Section>, more: seq<Section>)
    requires sections != []
    ensures [sections[0]] + (sections[1..] + more) == sections + more
  {}

  /** A section whose content is 4 GiB or longer is announced with a wrapped size and cannot come back. */
  lemma {:induction false} OversizeLost(s: Section, tail: seq<Byte>)
    requires |s.content| >= 0x1_0000_0000
    ensures var r := SplitSections(SectionBytes(s) + tail); r.Some? && r.value != [] ==> r.value[0] != s
  {
    var bs := SectionBytes(s) + tail;
    var size := |s.content| % 0x1_0000_0000;
    assert bs[1..] == ULeb(size) + (s.content + tail);
    U32RoundTrip(size, s.content + tail);
  }

  /** The sections come back, in order and with nothing left over, exactly when every content is below 4 GiB. */
  lemma {:induction false} SplitIff(sections: seq<Section>)
    ensures SplitSections(Framed(sections)) == Some(sections) <==> AllFit(sections)
    decreases |sections|
  {
    if sections != [] {
      var s := sections[0];
      var after := Framed(sections[1..]);
      SplitIff(sections[1..]);
      if |s.content| >= 0x1_0000_0000 {
        OversizeLost(s, after);
      } else {
        SplitStep(s, after);
        AllFitStep(sections);
        assert [s] + sections[1..] == sections;
        PrependedEqual(s, SplitSections(after), sections[1..]);
      }
    }
  }

  lemma {:induction false} AllFitStep(sections: seq<Section>)
    requires sections != [] && |sections[0].content| < 0x1_0000_0000
    ensures AllFit(sections) <==> AllFit(sections[1..])
  {
    assert forall k | 0 < k < |sections| :: sections[k] == sections[1..][k - 1];
  }

  lemma {:induction false} PrependedEqual(s: Section, r: Option<seq<Section>>, more: seq<Section>)
    ensures Prepended(s, r) == Some([s] + more) <==> r == Some(more)
  {
    if r.Some? {
      assert ([s] + r.value)[1..] == r.value && ([s] + more)[1..] == more;
    }
  }

  /** Looking a section up by its id finds the one at position `k`, whatever follows it. */
  lemma {:induction false} ContentAt(sections: seq<Section>, k: nat, more: seq<Section>)
    requires k < |sections| && InOrder(sections)
    ensures ContentOf(sections + more, sections[k].id) == sections[k].content
    decreases k
  {
    if k > 0 {
      assert (sections + more)[1..] == sections[1..] + more;
      assert sections[1..][k - 1] == sections[k];
      ContentAt(sections[1..], k - 1, more);
    }
  }

  // ----- Whole modules

  function SectionsOf(m: Module): seq<Section> {
    [Section(1, Vec(FuncTypeBytes, m.types)),
     Section(3, Vec(IndexBytes, m.funcs)),
     Section(5, Vec(MemoryBytes, m.memories)),
     Section(6, Vec(GlobalBytes, m.globals)),
     Section(7, Vec(ExportBytes, m.exports)),
     Section(10, Vec(BodyBytes, m.bodies)),
     Section(11, Vec(SegmentBytes, m.data))]
  }

  function Encode(m: Module): seq<Byte> {
    Header() + Framed(SectionsOf(m))
  }

  predicate FitsU32(n: nat) {
    n < 0x1_0000_0000
  }

  // The counts, lengths and operands lie within the widths the format gives them.

  ghost predicate TypesFit(types: seq<FuncType>) {
    FitsU32(|types|) && forall t | t in types :: FitsU32(|t.params|) && FitsU32(|t.results|)
  }

  ghost predicate NumbersFit(numbers: seq<nat>) {
    FitsU32(|numbers|) && forall k | k in numbers :: FitsU32(k)
  }

  ghost predicate GlobalsFit(globals: seq<Global>) {
    FitsU32(|globals|) && forall g | g in globals :: AllReadable(g.init)
  }

  ghost predicate ExportsFit(exports: seq<Export>) {
    FitsU32(|exports|) && forall e | e in exports :: FitsU32(|e.name|) && FitsU32(e.index)
  }

  predicate CodeFits(code: seq<Instr>) {
    AllReadable(code) && FitsU32(|ExprBytes(code)| + 1)
  }

  ghost predicate BodiesFit(bodies: seq<seq<Instr>>) {
    FitsU32(|bodies|) && forall code | code in bodies :: CodeFits(code)
  }

  ghost predicate DataFit(data: seq<Segment>) {
    FitsU32(|data|) && forall s | s in data :: AllReadable(s.offset) && FitsU32(|s.bytes|)
  }

  ghost predicate Encodable(m: Module) {
    && TypesFit(m.types) && NumbersFit(m.funcs) && NumbersFit(m.memories) && GlobalsFit(m.globals)
    && ExportsFit(m.exports) && BodiesFit(m.bodies) && DataFit(m.data)
  }

  /** Every section's content reads back. */
  ghost predicate ReadsBack(m: Module) {
    && TakeAll(TakeFuncType, Vec(FuncTypeBytes, m.types)) == Some(m.types)
    && TakeAll(TakeU32, Vec(IndexBytes, m.funcs)) == Some(m.funcs)
    && TakeAll(TakeMemory, Vec(MemoryBytes, m.memories)) == Some(m.memories)
    && TakeAll(TakeGlobal, Vec(GlobalBytes, m.globals)) == Some(m.globals)
    && TakeAll(TakeExport, Vec(ExportBytes, m.exports)) == Some(m.exports)
    && TakeAll(TakeBody, Vec(BodyBytes, m.bodies)) == Some(m.bodies)
    && TakeAll(TakeSegment, Vec(SegmentBytes, m.data)) == Some(m.data)
  }

  lemma {:induction false} TypesDecode(types: seq<FuncType>)
    requires TypesFit(types)
    ensures TakeAll(TakeFuncType, Vec(FuncTypeBytes, types)) == Some(types)
  {
    forall t: FuncType, rest: seq<Byte> | t in types
      ensures TakeFuncType(FuncTypeBytes(t) + rest) == Got(t, rest)
    {
      FuncTypeRoundTrip(t, rest);
    }
    VecRoundTrip(TakeFuncType, FuncTypeBytes, types);
  }

  lemma {:induction false} FuncsDecode(funcs: seq<nat>)
    requires NumbersFit(funcs)
    ensures TakeAll(TakeU32, Vec(IndexBytes, funcs)) == Some(funcs)
  {
    forall k: nat, rest: seq<Byte> | k in funcs
      ensures TakeU32(IndexBytes(k) + rest) == Got(k, rest)
    {
      U32RoundTrip(k, rest);
    }
    VecRoundTrip(TakeU32, IndexBytes, funcs);
  }

  lemma {:induction false} MemoriesDecode(memories: seq<nat>)
    requires NumbersFit(memories)
    ensures TakeAll(TakeMemory, Vec(MemoryBytes, memories)) == Some(memories)
  {
    forall pages: nat, rest: seq<Byte> | pages in memories
      ensures TakeMemory(MemoryBytes(pages) + rest) == Got(pages, rest)
    {
      MemoryRoundTrip(pages, rest);
    }
    VecRoundTrip(TakeMemory, MemoryBytes, memories);
  }

  lemma {:induction false} GlobalsDecode(globals: seq<Global>)
    requires GlobalsFit(globals)
    ensures TakeAll(TakeGlobal, Vec(GlobalBytes, globals)) == Some(globals)
  {
    forall g: Global, rest: seq<Byte> | g in globals
      ensures TakeGlobal(GlobalBytes(g) + rest) == Got(g, rest)
    {
      GlobalRoundTrip(g, rest);
    }
    VecRoundTrip(TakeGlobal, GlobalBytes, globals);
  }

  lemma {:induction false} ExportsDecode(exports: seq<Export>)
    requires ExportsFit(exports)
    ensures TakeAll(TakeExport, Vec(ExportBytes, exports)) == Some(exports)
  {
    forall e: Export, rest: seq<Byte> | e in exports
      ensures TakeExport(ExportBytes(e) + rest) == Got(e, rest)
    {
      ExportRoundTrip(e, rest);
    }
    VecRoundTrip(TakeExport, ExportBytes, exports);
  }

  lemma {:induction false} BodiesDecode(bodies: seq<seq<Instr>>)
    requires BodiesFit(bodies)
    ensures TakeAll(TakeBody, Vec(BodyBytes, bodies)) == Some(bodies)
  {
    forall code: seq<Instr>, rest: seq<Byte> | code in bodies
      ensures TakeBody(BodyBytes(code) + rest) == Got(code, rest)
    {
      BodyRoundTrip(code, rest);
    }
    VecRoundTrip(TakeBody, BodyBytes, bodies);
  }

  lemma {:induction false} DataDecodes(data: seq<Segment>)
    requires DataFit(data)
    ensures TakeAll(TakeSegment, Vec(SegmentBytes, data)) == Some(data)
  {
    forall s: Segment, rest: seq<Byte> | s in data
      ensures TakeSegment(SegmentBytes(s) + rest) == Got(s, rest)
    {
      SegmentRoundTrip(s, rest);
    }
    VecRoundTrip(TakeSegment, SegmentBytes, data);
  }

  lemma {:induction false} ReadsAs(s: seq<Section>, m: Module)
    requires |s| == 7 && InOrder(s)
    requires s[0].id == 1 && TakeAll(TakeFuncType, s[0].content) == Some(m.types)
    requires s[1].id == 3 && TakeAll(TakeU32, s[1].content) == Some(m.funcs)
    requires s[2].id == 5 && TakeAll(TakeMemory, s[2].content) == Some(m.memories)
    requires s[3].id == 6 && TakeAll(TakeGlobal, s[3].content) == Some(m.globals)
    requires s[4].id == 7 && TakeAll(TakeExport, s[4].content) == Some(m.exports)
    requires s[5].id == 10 && TakeAll(TakeBody, s[5].content) == Some(m.bodies)
    requires s[6].id == 11 && TakeAll(TakeSegment, s[6].content) == Some(m.data)
    ensures FromSections(s) == Some(m)
  {
    forall k | 0 <= k < 7 ensures ContentOf(s, s[k].id) == s[k].content {
      ContentAt(s, k, []);
      assert s + [] == s;
    }
  }

  lemma {:induction false} ContentsDecode(m: Module)
    requires Encodable(m)
    ensures ReadsBack(m)
  {
    TypesDecode(m.types);
    FuncsDecode(m.funcs);
    MemoriesDecode(m.memories);
    GlobalsDecode(m.globals);
    ExportsDecode(m.exports);
    BodiesDecode(m.bodies);
    DataDecodes(m.data);
  }

  lemma {:induction false} SectionShape(m: Module)
    ensures var s := SectionsOf(m);
      && InOrder(s)
      && s[0] == Section(1, Vec(FuncTypeBytes, m.types))
      && s[1] == Section(3, Vec(IndexBytes, m.funcs))
      && s[2] == Section(5, Vec(MemoryBytes, m.memories))
      && s[3] == Section(6, Vec(GlobalBytes, m.globals))
      && s[4] == Section(7, Vec(ExportBytes, m.exports))
      && s[5] == Section(10, Vec(BodyBytes, m.bodies))
      && s[6] == Section(11, Vec(SegmentBytes, m.data))
  {}

  lemma {:induction false} SectionsReadBack(m: Module)
    requires ReadsBack(m)
    ensures FromSections(SectionsOf(m)) == Some(m)
  {
    SectionShape(m);
    ReadsAs(SectionsOf(m), m);
  }

  lemma {:induction false} DecodeBySections(sections: seq<Section>)
    requires AllFit(sections) && InOrder(sections)
    ensures Decode(Header() + Framed(sections)) == FromSections(sections)
  {
    Cut(Header(), Framed(sections));
    SplitIff(sections);
  }

  /** A decoder that follows the standard reads the written bytes as the module they were written from. */
  lemma {:induction false} DecodeEncode(m: Module)
    requires Encodable(m) && AllFit(SectionsOf(m))
    ensures Decode(Encode(m)) == Some(m)
  {
    DecodeBySections(SectionsOf(m));
    ContentsDecode(m);
    SectionsReadBack(m);
  }

  lemma {:induction false} MemorySection(head: seq<Section>, more: seq<Section>, memories: seq<nat>)
    requires |head| == 6 && InOrder(head) && head[2] == Section(5, Vec(MemoryBytes, memories)) && NumbersFit(memories)
    ensures FromSections(head + more).Some? ==> FromSections(head + more).value.memories == memories
  {
    ContentAt(head, 2, more);
    MemoriesDecode(memories);
  }

  /** A decoder that accepts a module whose first six sections are right sees the right memory, whatever
      became of the last section. */
  lemma {:induction false} MemoryAfterHead(head: seq<Section>, tail: seq<Byte>, memories: seq<nat>)
    requires |head| == 6 && InOrder(head) && AllFit(head) && NumbersFit(memories)
    requires head[2] == Section(5, Vec(MemoryBytes, memories))
    ensures var r := Decode(Header() + (Framed(head) + tail)); r.Some? ==> r.value.memories == memories
  {
    Cut(Header(), Framed(head) + tail);
    SplitAfter(head, tail);
    var rest := SplitSections(tail);
    if rest.Some? {
      MemorySection(head, rest.value, memories);
    }
  }
}
