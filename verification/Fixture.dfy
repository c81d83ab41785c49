/** The generator of the memory-ABI plugin fixtures: it writes a Wasm module whose `evaluate` returns
    a fixed JSON text. */
module Fixture {
  import opened Bits
  import opened Options
  import opened Leb128
  import opened WasmBinary

  const DATA_OFFSET := 1024
  const BUMP_START := 4096

  function Ascii(s: string): (bs: seq<Byte>)
    ensures |bs| == |s|
  {
    seq(|s|, i requires 0 <= i < |s| => s[i] as int % 256)
  }

  // ----- What the written module means

  function FixtureTypes(): seq<FuncType> {
    [FuncType([I32_TYPE], [I32_TYPE]),
     FuncType([I32_TYPE, I32_TYPE], []),
     FuncType([I32_TYPE, I32_TYPE], [I64_TYPE])]
  }

  function FixtureExports(): seq<Export> {
    [Export(Ascii("memory"), 2, 0),
     Export(Ascii("smokesig_alloc"), 0, 0),
     Export(Ascii("smokesig_dealloc"), 0, 1),
     Export(Ascii("evaluate"), 0, 2)]
  }

  function AllocCode(): seq<Instr> {
    [GlobalGet(0), GlobalGet(0), LocalGet(0), I32Add, GlobalSet(0)]
  }

  function PackedResult(jsonLen: nat): I64 {
    ToI64(Or(Shl(DATA_OFFSET, 32), jsonLen))
  }

  function EvaluateCode(jsonLen: nat): seq<Instr> {
    [I64Const(PackedResult(jsonLen))]
  }

  function FixtureModule(json: seq<Byte>): Module {
    Module(
      FixtureTypes(), [0, 1, 2], [1], [Global(I32_TYPE, 1, [I32Const(BUMP_START)])], FixtureExports(),
      [AllocCode(), [], EvaluateCode(|json|)], [Segment([I32Const(DATA_OFFSET)], json)])
  }

  function FixtureBytes(json: seq<Byte>): seq<Byte> {
    Encode(FixtureModule(json))
  }

  // ----- The generator

  method VecLen(n: nat) returns (bs: seq<Byte>)
    ensures bs == ULeb(n % 0x1_0000_0000)
  {
    bs := Uleb128(n % 0x1_0000_0000);
  }

  method Name(s: seq<Byte>) returns (b: seq<Byte>)
    ensures b == Blob(s)
  {
    b := Uleb128(|s| % 0x1_0000_0000);
    b := b + s;
  }

  method MakeSection(id: Byte, content: seq<Byte>) returns (out: seq<Byte>)
    ensures out == SectionBytes(Section(id, content))
  {
    out := [id];
    var size := Uleb128(|content| % 0x1_0000_0000);
    out := out + size;
    out := out + content;
    assert [id] + size + content == [id] + (size + content);
  }

  lemma {:induction false} ManyExtend<T>(layout: T -> seq<Byte>, items: seq<T>, x: T)
    ensures Many(layout, items + [x]) == Many(layout, items) + layout(x)
    decreases |items|
  {
    if items == [] {
      assert [x][1..] == [];
      assert items + [x] == [x];
    } else {
      assert (items + [x])[1..] == items[1..] + [x];
      ManyExtend(layout, items[1..], x);
      assert layout(items[0]) + (Many(layout, items[1..]) + layout(x))
          == layout(items[0]) + Many(layout, items[1..]) + layout(x);
    }
  }

  /** Appending one more item to a vector that is being written. */
  lemma {:induction false} Appended<T>(count: seq<Byte>, layout: T -> seq<Byte>, items: seq<T>, x: T, piece: seq<Byte>)
    requires piece == layout(x)
    ensures count + Many(layout, items) + piece == count + Many(layout, items + [x])
  {
    ManyExtend(layout, items, x);
  }

  /** The source repeats these appends for each signature. */
  method AppendFuncType(content: seq<Byte>, params: seq<Byte>, results: seq<Byte>) returns (longer: seq<Byte>)
    ensures longer == content + FuncTypeBytes(FuncType(params, results))
  {
    longer := content + [0x60];
    var n := VecLen(|params|);
    longer := longer + n;
    longer := longer + params;
    var m := VecLen(|results|);
    longer := longer + m;
    longer := longer + results;
    assert content + [0x60] + n + params + m + results == content + ([0x60] + (n + params) + (m + results));
  }

  method TypeContent() returns (content: seq<Byte>)
    ensures content == Vec(FuncTypeBytes, FixtureTypes())
  {
    content := VecLen(3);
    ghost var count := content;
    content := AppendFuncType(content, [0x7F], [0x7F]);
    content := AppendFuncType(content, [0x7F, 0x7F], []);
    content := AppendFuncType(content, [0x7F, 0x7F], [0x7E]);
    Written3(count, FuncTypeBytes, FixtureTypes());
  }

  lemma {:induction false} Written3<T>(count: seq<Byte>, layout: T -> seq<Byte>, items: seq<T>)
    requires |items| == 3
    ensures count + layout(items[0]) + layout(items[1]) + layout(items[2]) == count + Many(layout, items)
  {
    assert Many(layout, []) == [];
    Appended(count, layout, [], items[0], layout(items[0]));
    Appended(count, layout, [items[0]], items[1], layout(items[1]));
    Appended(count, layout, [items[0], items[1]], items[2], layout(items[2]));
    assert [] + [items[0]] == [items[0]];
    assert [items[0]] + [items[1]] == [items[0], items[1]];
    assert [items[0], items[1]] + [items[2]] == items;
  }

  lemma {:induction false} Written1<T>(count: seq<Byte>, layout: T -> seq<Byte>, item: T)
    ensures count + layout(item) == count + Many(layout, [item])
  {
    assert [item][1..] == [];
  }

  method FuncContent() returns (content: seq<Byte>)
    ensures content == Vec(IndexBytes, [0, 1, 2])
  {
    content := VecLen(3);
    ghost var count := content;
    content := content + [0x00];
    content := content + [0x01];
    content := content + [0x02];
    Written3(count, IndexBytes, [0, 1, 2]);
  }

  method MemoryContent() returns (content: seq<Byte>)
    ensures content == Vec(MemoryBytes, [1])
  {
    content := VecLen(1);
    ghost var count := content;
    content := content + [0x00];
    var pages := Uleb128(1);
    content := content + pages;
    assert content == count + MemoryBytes(1);
    Written1(count, MemoryBytes, 1);
  }

  method GlobalContent() returns (content: seq<Byte>)
    ensures content == Vec(GlobalBytes, [Global(I32_TYPE, 1, [I32Const(BUMP_START)])])
  {
    content := VecLen(1);
    ghost var count := content;
    content := content + [0x7F];
    content := content + [0x01];
    content := content + [0x41];
    var start := Uleb128(BUMP_START);
    content := content + start;
    content := content + [0x0B];
    ghost var g := Global(I32_TYPE, 1, [I32Const(BUMP_START)]);
    ConstExpr(BUMP_START);
    assert content == count + GlobalBytes(g);
    Written1(count, GlobalBytes, g);
  }

  lemma {:induction false} ConstExpr(n: nat)
    ensures ExprBytes([I32Const(n)]) == [0x41] + ULeb(n) + [0x0B]
  {
    assert [I32Const(n)][1..] == [];
  }

  /** The source repeats these appends for each export. */
  method AppendExport(content: seq<Byte>, e: Export) returns (longer: seq<Byte>)
    requires e.index < 128
    ensures longer == content + ExportBytes(e)
  {
    var b := Name(e.name);
    longer := content + b;
    longer := longer + [e.kind];
    longer := longer + [e.index];
    assert ULeb(e.index) == [e.index];
    assert content + b + [e.kind] + [e.index] == content + (b + [e.kind] + [e.index]);
  }

  method WriteExports(memory: Export, alloc: Export, dealloc: Export, evaluate: Export) returns (content: seq<Byte>)
    requires memory.index < 128 && alloc.index < 128 && dealloc.index < 128 && evaluate.index < 128
    ensures content == Vec(ExportBytes, [memory, alloc, dealloc, evaluate])
  {
    content := VecLen(4);
    ghost var count := content;
    content := AppendExport(content, memory);
    content := AppendExport(content, alloc);
    content := AppendExport(content, dealloc);
    content := AppendExport(content, evaluate);
    Written4(count, ExportBytes, [memory, alloc, dealloc, evaluate]);
  }

  method ExportContent() returns (content: seq<Byte>)
    ensures content == Vec(ExportBytes, FixtureExports())
  {
    content := WriteExports(
      Export(Ascii("memory"), 2, 0), Export(Ascii("smokesig_alloc"), 0, 0),
      Export(Ascii("smokesig_dealloc"), 0, 1), Export(Ascii("evaluate"), 0, 2));
  }

  lemma {:induction false} Written4<T>(count: seq<Byte>, layout: T -> seq<Byte>, items: seq<T>)
    requires |items| == 4
    ensures count + layout(items[0]) + layout(items[1]) + layout(items[2]) + layout(items[3])
         == count + Many(layout, items)
  {
    Written3(count, layout, items[..3]);
    Appended(count, layout, items[..3], items[3], layout(items[3]));
    assert items[..3] + [items[3]] == items;
  }

  /** The source repeats these two appends for each body. */
  method AppendBody(bodies: seq<Byte>, body: seq<Byte>, ghost code: seq<Instr>) returns (longer: seq<Byte>)
    requires body == [0x00] + ExprBytes(code)
    ensures longer == bodies + BodyBytes(code)
  {
    var size := Uleb128(|body| % 0x1_0000_0000);
    longer := bodies + size;
    longer := longer + body;
    assert bodies + size + body == bodies + (size + body);
  }

  method AllocBody() returns (body: seq<Byte>)
    ensures body == [0x00] + ExprBytes(AllocCode())
  {
    body := VecLen(0);
    body := body + [0x23, 0x00];
    body := body + [0x23, 0x00];
    body := body + [0x20, 0x00];
    body := body + [0x6A];
    body := body + [0x24, 0x00];
    body := body + [0x0B];
    AllocBytes();
  }

  method EvaluateBody(jsonLen: nat) returns (body: seq<Byte>)
    ensures body == [0x00] + ExprBytes(EvaluateCode(jsonLen))
  {
    var resultPacked := Or(Shl(DATA_OFFSET, 32), jsonLen);
    body := VecLen(0);
    body := body + [0x42];
    var operand := Sleb128Wide(ToI64(resultPacked));
    body := body + operand;
    body := body + [0x0B];
    EvaluateBytes(jsonLen);
    assert [0x00] + [0x42] + operand + [0x0B] == [0x00] + ([0x42] + operand + [0x0B]);
  }

  method DeallocBody() returns (body: seq<Byte>)
    ensures body == [0x00] + ExprBytes([])
  {
    body := VecLen(0);
    body := body + [0x0B];
  }

  method WriteBodies(bodies: seq<seq<Byte>>, ghost codes: seq<seq<Instr>>) returns (content: seq<Byte>)
    requires |bodies| == |codes| == 3
    requires forall k | 0 <= k < 3 :: bodies[k] == [0x00] + ExprBytes(codes[k])
    ensures content == Vec(BodyBytes, codes)
  {
    var written := AppendBody([], bodies[0], codes[0]);
    written := AppendBody(written, bodies[1], codes[1]);
    written := AppendBody(written, bodies[2], codes[2]);
    content := VecLen(3);
    content := content + written;
    Written3([], BodyBytes, codes);
    assert [] + Many(BodyBytes, codes) == Many(BodyBytes, codes);
  }

  method CodeContent(jsonLen: nat) returns (content: seq<Byte>)
    ensures content == Vec(BodyBytes, [AllocCode(), [], EvaluateCode(jsonLen)])
  {
    var alloc := AllocBody();
    var dealloc := DeallocBody();
    var evaluate := EvaluateBody(jsonLen);
    content := WriteBodies([alloc, dealloc, evaluate], [AllocCode(), [], EvaluateCode(jsonLen)]);
  }

  lemma {:induction false} ExprStep(i: Instr, code: seq<Instr>)
    ensures ExprBytes([i] + code) == InstrBytes(i) + ExprBytes(code)
  {
    assert ([i] + code)[1..] == code;
  }

  lemma {:induction false} AllocBytes()
    ensures ExprBytes(AllocCode()) == [0x23, 0, 0x23, 0, 0x20, 0, 0x6A, 0x24, 0, 0x0B]
  {}

  lemma {:induction false} EvaluateBytes(jsonLen: nat)
    ensures ExprBytes(EvaluateCode(jsonLen)) == [0x42] + SLeb(PackedResult(jsonLen)) + [0x0B]
  {
    var i := I64Const(PackedResult(jsonLen));
    ExprStep(i, []);
    assert [i] + [] == [i];
  }

  method DataContent(json: seq<Byte>) returns (content: seq<Byte>)
    ensures content == Vec(SegmentBytes, [Segment([I32Const(DATA_OFFSET)], json)])
  {
    content := VecLen(1);
    ghost var count := content;
    content := content + [0x00];
    content := content + [0x41];
    var offset := Uleb128(DATA_OFFSET);
    content := content + offset;
    content := content + [0x0B];
    var size := Uleb128(|json| % 0x1_0000_0000);
    content := content + size;
    content := content + json;
    ghost var s := Segment([I32Const(DATA_OFFSET)], json);
    ConstExpr(DATA_OFFSET);
    SegmentRegroup(count, ULeb(DATA_OFFSET), size, json);
    Written1(count, SegmentBytes, s);
  }

  lemma {:induction false} SegmentRegroup(count: seq<Byte>, offset: seq<Byte>, size: seq<Byte>, json: seq<Byte>)
    ensures count + [0x00] + [0x41] + offset + [0x0B] + size + json
         == count + ([0x00] + ([0x41] + offset + [0x0B]) + (size + json))
  {}

  lemma {:induction false} FramedExtend(sections: seq<Section>, s: Section)
    ensures Framed(sections + [s]) == Framed(sections) + SectionBytes(s)
  {
    ManyExtend(SectionBytes, sections, s);
  }

  /** One more section on a module that is being written. */
  method AppendSection(mod: seq<Byte>, ghost done: seq<Section>, id: Byte, content: seq<Byte>)
    returns (longer: seq<Byte>, ghost sections: seq<Section>)
    requires mod == Header() + Framed(done)
    ensures sections == done + [Section(id, content)]
    ensures longer == Header() + Framed(sections)
  {
    var bytes := MakeSection(id, content);
    longer := mod + bytes;
    sections := done + [Section(id, content)];
    FramedExtend(done, Section(id, content));
    assert Header() + Framed(done) + bytes == Header() + (Framed(done) + bytes);
  }

  lemma {:induction false} Snoc7<T>(a: T, b: T, c: T, d: T, e: T, f: T, g: T)
    ensures [] + [a] + [b] + [c] + [d] + [e] + [f] + [g] == [a, b, c, d, e, f, g]
  {}

  method BuildMemoryABIModule(json: seq<Byte>) returns (mod: seq<Byte>)
    ensures mod == FixtureBytes(json)
  {
    mod := Header();
    ghost var done: seq<Section> := [];
    assert Header() + Framed(done) == Header();
    var types := TypeContent();
    mod, done := AppendSection(mod, done, 1, types);
    var funcs := FuncContent();
    mod, done := AppendSection(mod, done, 3, funcs);
    var memories := MemoryContent();
    mod, done := AppendSection(mod, done, 5, memories);
    var globals := GlobalContent();
    mod, done := AppendSection(mod, done, 6, globals);
    var exports := ExportContent();
    mod, done := AppendSection(mod, done, 7, exports);
    var code := CodeContent(|json|);
    mod, done := AppendSection(mod, done, 10, code);
    var data := DataContent(json);
    mod, done := AppendSection(mod, done, 11, data);
    Snoc7(Section(1, types), Section(3, funcs), Section(5, memories), Section(6, globals), Section(7, exports),
          Section(10, code), Section(11, data));
  }

  // ----- The written module decodes to what it means

  const MAX_JSON := 0xFFFF_FFF4

  function DataBytes(json: seq<Byte>): seq<Byte> {
    Vec(SegmentBytes, [Segment([I32Const(DATA_OFFSET)], json)])
  }

  lemma {:induction false} OffsetLength()
    ensures |ExprBytes([I32Const(DATA_OFFSET)])| == 4
  {
    ConstExpr(DATA_OFFSET);
    var v := 1024;
    assert ULeb(v) == [128] + ULeb(8);
  }

  lemma {:induction false} SizeLength(size: U32)
    ensures |ULeb(size)| <= 5 && (size >= 0x1000_0000 ==> |ULeb(size)| == 5)
  {
    EncodedSizes(size, 0, 0);
    UnsignedLength(size, 3);
    assert Pow2(28) == 0x1000_0000 by {
      Pow2Sum(14, 14);
      assert Pow2(14) == 128 * 128 by { Pow2Step(14); Pow2Step(7); }
    }
  }

  /** Six bytes, a size of at most five, and the text. */
  lemma {:induction false} DataLength(json: seq<Byte>)
    ensures |DataBytes(json)| < 0x1_0000_0000 <==> |json| <= MAX_JSON
  {
    var s := Segment([I32Const(DATA_OFFSET)], json);
    Written1(ULeb(1), SegmentBytes, s);
    OffsetLength();
    SizeLength(|json| % 0x1_0000_0000);
    assert |DataBytes(json)| == 6 + |ULeb(|json| % 0x1_0000_0000)| + |json|;
  }

  lemma {:induction false} ShortBlob(bs: seq<Byte>)
    ensures |Blob(bs)| <= 5 + |bs|
  {
    EncodedSizes(|bs| % 0x1_0000_0000, 0, 0);
  }

  lemma {:induction false} ShortBodies(jsonLen: nat)
    ensures |Vec(BodyBytes, [AllocCode(), [], EvaluateCode(jsonLen)])| < 100
  {
    var codes := [AllocCode(), [], EvaluateCode(jsonLen)];
    AllocBytes();
    EvaluateBytes(jsonLen);
    EncodedSizes(3, 0, PackedResult(jsonLen));
    ShortBlob([0x00] + ExprBytes(codes[0]));
    ShortBlob([0x00] + ExprBytes(codes[1]));
    ShortBlob([0x00] + ExprBytes(codes[2]));
    Written3([], BodyBytes, codes);
  }

  lemma {:induction false} ShortExports()
    ensures |Vec(ExportBytes, FixtureExports())| < 100
  {}

  lemma {:induction false} ShortTypes()
    ensures |Vec(FuncTypeBytes, FixtureTypes())| < 100
  {}

  lemma {:induction false} ShortRest()
    ensures |Vec(IndexBytes, [0, 1, 2])| < 100
    ensures |Vec(MemoryBytes, [1])| < 100
    ensures |Vec(GlobalBytes, [Global(I32_TYPE, 1, [I32Const(BUMP_START)])])| < 100
  {
    var g := Global(I32_TYPE, 1, [I32Const(BUMP_START)]);
    Written3([], IndexBytes, [0, 1, 2]);
    Written1([], MemoryBytes, 1);
    Written1([], GlobalBytes, g);
    ConstExpr(BUMP_START);
    EncodedSizes(BUMP_START, 0, 0);
    EncodedSizes(0, 0, 0);
    EncodedSizes(1, 0, 0);
    EncodedSizes(2, 0, 0);
    EncodedSizes(3, 0, 0);
  }

  lemma {:induction false} LastDecides(s: seq<Section>)
    requires |s| == 7 && forall k | 0 <= k < 6 :: |s[k].content| < 100
    ensures AllFit(s[..6]) && (AllFit(s) <==> |s[6].content| < 0x1_0000_0000)
  {}

  lemma {:induction false} OnlyDataGrows(json: seq<Byte>)
    ensures var s := SectionsOf(FixtureModule(json)); AllFit(s[..6]) && (AllFit(s) <==> |json| <= MAX_JSON)
  {
    ShortTypes();
    ShortRest();
    ShortExports();
    ShortBodies(|json|);
    DataLength(json);
    LastDecides(SectionsOf(FixtureModule(json)));
  }

  /** Split as section 5.5.2 of the core specification says, the module gives back its seven sections, in
      increasing order and with no byte left over, exactly when the JSON text leaves room for the
      eleven other bytes of its section in a 32-bit size. */
  lemma {:induction false} SectionsComeBack(json: seq<Byte>)
    ensures FixtureBytes(json)[..8] == Header()
    ensures SplitSections(FixtureBytes(json)[8..]) == Some(SectionsOf(FixtureModule(json))) <==> |json| <= MAX_JSON
  {
    var s := SectionsOf(FixtureModule(json));
    Cut(Header(), Framed(s));
    SplitIff(s);
    OnlyDataGrows(json);
  }

  /** 4096 and 1024, written unsigned, also read as themselves when read as signed numbers. */
  lemma {:induction false} OffsetsReadable()
    ensures Readable(I32Const(BUMP_START)) && Readable(I32Const(DATA_OFFSET))
  {
    var v := 4096;
    assert ULeb(v) == [128] + ULeb(32);
    var w := 1024;
    assert ULeb(w) == [128] + ULeb(8);
  }

  lemma {:induction false} CodesFit(jsonLen: nat)
    ensures CodeFits(AllocCode()) && CodeFits([]) && CodeFits(EvaluateCode(jsonLen))
  {
    AllocBytes();
    EvaluateBytes(jsonLen);
    EncodedSizes(0, 0, PackedResult(jsonLen));
  }

  lemma {:induction false} TablesFit()
    ensures TypesFit(FixtureTypes()) && ExportsFit(FixtureExports()) && NumbersFit([0, 1, 2]) && NumbersFit([1])
  {}

  lemma {:induction false} FixtureEncodable(json: seq<Byte>)
    requires |json| < 0x1_0000_0000
    ensures Encodable(FixtureModule(json))
  {
    var m := FixtureModule(json);
    TablesFit();
    OffsetsReadable();
    assert GlobalsFit(m.globals) && DataFit(m.data);
    CodesFit(|json|);
    assert BodiesFit(m.bodies);
  }

  /** A decoder that follows the standard reads the generated bytes as the intended module. */
  lemma {:induction false} FixtureDecodes(json: seq<Byte>)
    requires |json| <= MAX_JSON
    ensures Decode(FixtureBytes(json)) == Some(FixtureModule(json))
  {
    FixtureEncodable(json);
    OnlyDataGrows(json);
    DecodeEncode(FixtureModule(json));
  }

  lemma {:induction false} FirstSix(m: Module)
    ensures var s := SectionsOf(m);
            InOrder(s[..6]) && s[2] == Section(5, Vec(MemoryBytes, m.memories)) && s[..6] + [s[6]] == s
  {}

  /** Whatever the length of the text, a decoder that accepts the bytes sees one page of memory. */
  lemma {:induction false} AlwaysOnePage(json: seq<Byte>)
    ensures var m := Decode(FixtureBytes(json)); m.Some? ==> m.value.memories == [1]
  {
    var s := SectionsOf(FixtureModule(json));
    OnlyDataGrows(json);
    FirstSix(FixtureModule(json));
    FramedExtend(s[..6], s[6]);
    MemoryAfterHead(s[..6], SectionBytes(s[6]), [1]);
  }

  // ----- The bytes themselves

  lemma {:induction false} OneTypeBytes(t: FuncType)
    requires |t.params| < 128 && |t.results| < 128
    ensures FuncTypeBytes(t) == [0x60, |t.params|] + t.params + [|t.results|] + t.results
  {
    assert ULeb(|t.params|) == [|t.params|] && ULeb(|t.results|) == [|t.results|];
  }

  const TYPE_TABLE: seq<Byte> :=
    [3] + [0x60, 1, 0x7F, 1, 0x7F] + [0x60, 2, 0x7F, 0x7F, 0] + [0x60, 2, 0x7F, 0x7F, 1, 0x7E]

  lemma {:induction false} TypeBytes()
    ensures Vec(FuncTypeBytes, FixtureTypes()) == TYPE_TABLE
  {
    var ts := FixtureTypes();
    OneTypeBytes(ts[0]);
    OneTypeBytes(ts[1]);
    OneTypeBytes(ts[2]);
    Written3(ULeb(3), FuncTypeBytes, ts);
  }

  lemma {:induction false} TableBytes()
    ensures Vec(IndexBytes, [0, 1, 2]) == [3, 0, 1, 2]
    ensures Vec(MemoryBytes, [1]) == [1, 0, 1]
    ensures Vec(GlobalBytes, [Global(I32_TYPE, 1, [I32Const(BUMP_START)])]) == [1, 0x7F, 1, 0x41, 0x80, 0x20, 0x0B]
  {
    Written3(ULeb(3), IndexBytes, [0, 1, 2]);
    Written1(ULeb(1), MemoryBytes, 1);
    Written1(ULeb(1), GlobalBytes, Global(I32_TYPE, 1, [I32Const(BUMP_START)]));
    ConstExpr(BUMP_START);
    var v := 4096;
    assert ULeb(v) == [0x80] + ULeb(32);
  }

  const MEMORY_NAME: seq<Byte> := [0x6D, 0x65, 0x6D, 0x6F, 0x72, 0x79]
  const ALLOC_NAME: seq<Byte> :=
    [0x73, 0x6D, 0x6F, 0x6B, 0x65, 0x73, 0x69, 0x67, 0x5F, 0x61, 0x6C, 0x6C, 0x6F, 0x63]
  const DEALLOC_NAME: seq<Byte> :=
    [0x73, 0x6D, 0x6F, 0x6B, 0x65, 0x73, 0x69, 0x67, 0x5F, 0x64, 0x65, 0x61, 0x6C, 0x6C, 0x6F, 0x63]
  const EVALUATE_NAME: seq<Byte> := [0x65, 0x76, 0x61, 0x6C, 0x75, 0x61, 0x74, 0x65]

  lemma {:induction false} NameBytes()
    ensures Ascii("memory") == MEMORY_NAME && Ascii("smokesig_alloc") == ALLOC_NAME
    ensures Ascii("smokesig_dealloc") == DEALLOC_NAME && Ascii("evaluate") == EVALUATE_NAME
  {}

  lemma {:induction false} OneExportBytes(e: Export)
    requires |e.name| < 128 && e.index < 128
    ensures ExportBytes(e) == [|e.name|] + e.name + [e.kind, e.index]
  {
    assert ULeb(|e.name|) == [|e.name|] && ULeb(e.index) == [e.index];
  }

  const EXPORT_TABLE: seq<Byte> :=
    [4] + ([6] + MEMORY_NAME + [2, 0]) + ([14] + ALLOC_NAME + [0, 0]) + ([16] + DEALLOC_NAME + [0, 1])
    + ([8] + EVALUATE_NAME + [0, 2])

  lemma {:induction false} ExportTableBytes()
    ensures Vec(ExportBytes, FixtureExports()) == EXPORT_TABLE
  {
    var e := FixtureExports();
    NameBytes();
    OneExportBytes(e[0]);
    OneExportBytes(e[1]);
    OneExportBytes(e[2]);
    OneExportBytes(e[3]);
    Written4(ULeb(4), ExportBytes, e);
  }

  lemma {:induction false} AllocBodyBytes()
    ensures BodyBytes(AllocCode()) == [11, 0, 0x23, 0, 0x23, 0, 0x20, 0, 0x6A, 0x24, 0, 0x0B]
  {
    AllocBytes();
    var body: seq<Byte> := [0, 0x23, 0, 0x23, 0, 0x20, 0, 0x6A, 0x24, 0, 0x0B];
    assert [0x00] + ExprBytes(AllocCode()) == body;
    var n := |body|;
    assert ULeb(n) == [11];
  }

  lemma {:induction false} ShortConstBody(operand: seq<Byte>)
    requires |operand| <= 10
    ensures Blob([0x00] + ([0x42] + operand + [0x0B])) == [3 + |operand|, 0, 0x42] + operand + [0x0B]
  {
    assert [0x00] + ([0x42] + operand + [0x0B]) == [0x00, 0x42] + operand + [0x0B];
    assert ULeb(3 + |operand|) == [3 + |operand|];
  }

  lemma {:induction false} EvaluateBodyBytes(jsonLen: nat)
    ensures var operand := SLeb(PackedResult(jsonLen));
      BodyBytes(EvaluateCode(jsonLen)) == [3 + |operand|, 0, 0x42] + operand + [0x0B]
  {
    EvaluateBytes(jsonLen);
    EncodedSizes(0, 0, PackedResult(jsonLen));
    ShortConstBody(SLeb(PackedResult(jsonLen)));
  }

  /** `evaluate` is `i64.const` with the packed offset 1024 and length. */
  function CodeTable(jsonLen: nat): seq<Byte> {
    var operand := SLeb(PackedResult(jsonLen));
    EncodedSizes(0, 0, PackedResult(jsonLen));
    [3] + [11, 0, 0x23, 0, 0x23, 0, 0x20, 0, 0x6A, 0x24, 0, 0x0B] + [2, 0, 0x0B]
    + ([3 + |operand|, 0, 0x42] + operand + [0x0B])
  }

  lemma {:induction false} CodeBytes(jsonLen: nat)
    ensures Vec(BodyBytes, [AllocCode(), [], EvaluateCode(jsonLen)]) == CodeTable(jsonLen)
  {
    AllocBodyBytes();
    EvaluateBodyBytes(jsonLen);
    Written3(ULeb(3), BodyBytes, [AllocCode(), [], EvaluateCode(jsonLen)]);
    assert BodyBytes([]) == [2, 0, 0x0B];
  }

  function DataTable(json: seq<Byte>): seq<Byte> {
    [1, 0, 0x41, 0x80, 0x08, 0x0B] + ULeb(|json| % 0x1_0000_0000) + json
  }

  lemma {:induction false} DataContentBytes(json: seq<Byte>)
    ensures DataBytes(json) == DataTable(json)
  {
    Written1(ULeb(1), SegmentBytes, Segment([I32Const(DATA_OFFSET)], json));
    ConstExpr(DATA_OFFSET);
    var v := 1024;
    assert ULeb(v) == [0x80] + ULeb(8);
  }

  /** The sections and their numbers, with the bytes of each. */
  lemma {:induction false} ModuleBytes(json: seq<Byte>)
    ensures FixtureBytes(json) == [0x00, 0x61, 0x73, 0x6D, 0x01, 0x00, 0x00, 0x00] + Framed(
      [Section(1, TYPE_TABLE), Section(3, [3, 0, 1, 2]), Section(5, [1, 0, 1]),
       Section(6, [1, 0x7F, 1, 0x41, 0x80, 0x20, 0x0B]), Section(7, EXPORT_TABLE),
       Section(10, CodeTable(|json|)), Section(11, DataTable(json))])
  {
    TypeBytes();
    TableBytes();
    ExportTableBytes();
    CodeBytes(|json|);
    DataContentBytes(json);
  }
}
