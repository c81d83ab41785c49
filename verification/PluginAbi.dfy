/** The shared-memory protocol between the host and a plugin, with a small interpreter for the guest. */
module PluginAbi {
  import opened Bits
  import opened Options
  import opened Leb128
  import opened WasmBinary
  import opened Fixture

  const PAGE := 65536

  // ----- The guest: sections 4.4 and 4.5 of the core specification, for the instructions of the fixtures

  datatype Val = V32(w: U32) | V64(d: U64)

  datatype Ran = Trapped(globals: seq<Val>) | Done(stack: seq<Val>, globals: seq<Val>)

  function Step(i: Instr, locals: seq<Val>, stack: seq<Val>, globals: seq<Val>): Ran {
    var n := |stack|;
    match i
    case Unreachable => Trapped(globals)
    case LocalGet(k) => if k < |locals| then Done(stack + [locals[k]], globals) else Trapped(globals)
    case GlobalGet(k) => if k < |globals| then Done(stack + [globals[k]], globals) else Trapped(globals)
    case GlobalSet(k) =>
      if n > 0 && k < |globals| then Done(stack[..n - 1], globals[k := stack[n - 1]]) else Trapped(globals)
    case I32Add =>
      if n >= 2 && stack[n - 2].V32? && stack[n - 1].V32?
      then Done(stack[..n - 2] + [V32((stack[n - 2].w + stack[n - 1].w) % 0x1_0000_0000)], globals)
      else Trapped(globals)
    case I32Const(c) => Done(stack + [V32(c % 0x1_0000_0000)], globals)
    case I64Const(c) => Done(stack + [V64(c % 0x1_0000_0000_0000_0000)], globals)
  }

  function Run(code: seq<Instr>, locals: seq<Val>, stack: seq<Val>, globals: seq<Val>): Ran
    decreases |code|
  {
    if code == [] then Done(stack, globals)
    else match Step(code[0], locals, stack, globals)
      case Trapped(g) => Trapped(g)
      case Done(s, g) => Run(code[1..], locals, s, g)
  }

  function Argument(valtype: Byte, arg: U64): Val {
    if valtype == I32_TYPE then V32(arg % 0x1_0000_0000) else V64(arg)
  }

  function ResultOf(v: Val): U64 {
    match v { case V32(w) => w case V64(d) => d }
  }

  function ValType(v: Val): Byte {
    match v { case V32(_) => I32_TYPE case V64(_) => I64_TYPE }
  }

  function ValTypes(stack: seq<Val>): seq<Byte> {
    seq(|stack|, i requires 0 <= i < |stack| => ValType(stack[i]))
  }

  function ResultsOf(stack: seq<Val>): seq<U64> {
    seq(|stack|, i requires 0 <= i < |stack| => ResultOf(stack[i]))
  }

  function Locals(params: seq<Byte>, args: seq<U64>): seq<Val>
    requires |params| == |args|
  {
    seq(|args|, i requires 0 <= i < |args| => Argument(params[i], args[i]))
  }

  datatype Called = Called(results: Option<seq<U64>>, globals: seq<Val>)

  /** Calling a function of the guest; a trap keeps the globals as they are at that point. */
  function CallFunction(m: Module, globals: seq<Val>, f: nat, args: seq<U64>): Called {
    if !(f < |m.funcs| && f < |m.bodies| && m.funcs[f] < |m.types|) then Called(None, globals)
    else
      var t := m.types[m.funcs[f]];
      if |args| != |t.params| then Called(None, globals)
      else
        match Run(m.bodies[f], Locals(t.params, args), [], globals)
        case Trapped(g) => Called(None, g)
        case Done(stack, g) => Called(if ValTypes(stack) == t.results then Some(ResultsOf(stack)) else None, g)
  }

  function ExportedFunction(exports: seq<Export>, name: seq<Byte>): Option<nat> {
    if exports == [] then None
    else if exports[0].name == name && exports[0].kind == 0 then Some(exports[0].index)
    else ExportedFunction(exports[1..], name)
  }

  datatype Instance = Instance(memory: seq<Byte>, globals: seq<Val>)

  function Overwritten(memory: seq<Byte>, at: nat, data: seq<Byte>): (after: seq<Byte>)
    requires at + |data| <= |memory|
    ensures |after| == |memory|
    ensures after[at..at + |data|] == data
    ensures forall k | 0 <= k < |memory| && !(at <= k < at + |data|) :: after[k] == memory[k]
  {
    memory[..at] + data + memory[at + |data|..]
  }

  function ConstValue(code: seq<Instr>): Option<Val> {
    match Run(code, [], [], [])
    case Trapped(_) => None
    case Done(stack, _) => if |stack| == 1 then Some(stack[0]) else None
  }

  function InitGlobals(globals: seq<Global>): Option<seq<Val>> {
    if globals == [] then Some([])
    else
      var v := ConstValue(globals[0].init);
      var more := InitGlobals(globals[1..]);
      if v.Some? && more.Some? && ValType(v.value) == globals[0].valtype then Some([v.value] + more.value) else None
  }

  function InitMemory(memory: seq<Byte>, data: seq<Segment>): (r: Option<seq<Byte>>)
    ensures r.Some? ==> |r.value| == |memory|
    decreases |data|
  {
    if data == [] then Some(memory)
    else
      var at := ConstValue(data[0].offset);
      if at.Some? && at.value.V32? && at.value.w + |data[0].bytes| <= |memory|
      then InitMemory(Overwritten(memory, at.value.w, data[0].bytes), data[1..])
      else None
  }

  function Zeros(n: nat): seq<Byte> {
    seq(n, _ => 0)
  }

  function Instantiate(m: Module): Option<Instance> {
    var pages := if m.memories == [] then 0 else m.memories[0];
    if |m.memories| > 1 || pages > PAGE then None
    else
      var globals := InitGlobals(m.globals);
      var memory := InitMemory(Zeros(PAGE * pages), m.data);
      if globals.Some? && memory.Some? then Some(Instance(memory.value, globals.value)) else None
  }

  // ----- The protocol, on values

  datatype Outcome =
    | Output(json: seq<Byte>)
    | MissingExports
    | AllocFailed
    | WriteFailed
    | EvaluateFailed
    | ReadFailed
    | Panicked

  datatype Placing = At(ptr: U32) | NotPlaced(why: Outcome)

  /** Asks the guest for room and writes the data there. */
  function Place(m: Module, s: Instance, alloc: nat, data: seq<Byte>): (Instance, Placing) {
    var call := CallFunction(m, s.globals, alloc, [|data| % 0x1_0000_0000_0000_0000]);
    var s1 := s.(globals := call.globals);
    match call.results
    case None => (s1, NotPlaced(AllocFailed))
    case Some(results) =>
      if results == [] then (s1, NotPlaced(Panicked))
      else
        var ptr := results[0] % 0x1_0000_0000;
        if ptr + |data| <= |s.memory|
        then (s1.(memory := Overwritten(s.memory, ptr, data)), At(ptr))
        else (s1, NotPlaced(WriteFailed))
  }

  function PlaceExported(m: Module, s: Instance, data: seq<Byte>): (Instance, Placing) {
    match ExportedFunction(m.exports, Ascii("smokesig_alloc"))
    case None => (s, NotPlaced(MissingExports))
    case Some(alloc) => Place(m, s, alloc, data)
  }

  function Freed(m: Module, s: Instance, dealloc: nat, ptr: U32, len: nat): Instance {
    s.(globals := CallFunction(m, s.globals, dealloc, [ptr, len % 0x1_0000_0000_0000_0000]).globals)
  }

  function ReadMemory(memory: seq<Byte>, ptr: nat, len: nat): Option<seq<Byte>> {
    if ptr + len <= |memory| then Some(memory[ptr..ptr + len]) else None
  }

  /** From a written input to the outcome. */
  function EvaluateAndRead(m: Module, s: Instance, evaluate: nat, dealloc: nat, ptr: U32, len: nat):
    (Instance, Outcome)
  {
    var call := CallFunction(m, s.globals, evaluate, [ptr, len % 0x1_0000_0000_0000_0000]);
    var s1 := s.(globals := call.globals);
    match call.results
    case None => (Freed(m, s1, dealloc, ptr, len), EvaluateFailed)
    case Some(results) =>
      if results == [] then (s1, Panicked)
      else
        var resultPtr := results[0] / 0x1_0000_0000;
        var resultLen := results[0] % 0x1_0000_0000;
        match ReadMemory(s1.memory, resultPtr, resultLen)
        case None => (Freed(m, s1, dealloc, ptr, len), ReadFailed)
        case Some(result) =>
          (Freed(m, Freed(m, s1, dealloc, ptr, len), dealloc, resultPtr, resultLen), Output(result))
  }

  function Invoke(m: Module, s: Instance, input: seq<Byte>): (Instance, Outcome) {
    var alloc := ExportedFunction(m.exports, Ascii("smokesig_alloc"));
    var dealloc := ExportedFunction(m.exports, Ascii("smokesig_dealloc"));
    var evaluate := ExportedFunction(m.exports, Ascii("evaluate"));
    if alloc.None? || dealloc.None? || evaluate.None? then (s, MissingExports)
    else
      var (s1, placing) := Place(m, s, alloc.value, input);
      match placing
      case NotPlaced(why) => (s1, why)
      case At(ptr) => EvaluateAndRead(m, s1, evaluate.value, dealloc.value, ptr, |input|)
  }

  lemma {:induction false} OrAtLeast(a: nat, b: nat)
    ensures Or(a, b) >= b
    decreases a + b
  {
    if a + b > 0 { OrAtLeast(a / 2, b / 2); }
  }

  function UnpackAndRead(memory: seq<Byte>, packed: nat): Option<seq<Byte>> {
    UnpackSum(packed);
    ReadMemory(memory, PackedPtr(packed), PackedLen(packed))
  }

  /** `(uint64(ptr) << 32) | uint64(len)` */
  method PackResult(ptr: U32, len: nat) returns (packed: nat)
    ensures PackedPtr(packed) >= 0 && 0 <= PackedLen(packed) < 0x1_0000_0000
    ensures len < 0x1_0000_0000 ==> PackedPtr(packed) == ptr && PackedLen(packed) == len
    ensures len > 0 ==> packed != 0
  {
    Pow2Sizes();
    packed := Or(Shl(ptr, 32), len);
    UnpackSum(packed);
    OrAtLeast(Shl(ptr, 32), len);
    if len < 0x1_0000_0000 {
      PackedPointerRoundTrip(ptr, len, []);
    }
  }

  /** Reading at a pointer and a 32-bit length that are right for short data gives back exactly short data. */
  lemma {:induction false} ReadsShortData(memory: seq<Byte>, at: nat, data: seq<Byte>, ptr: nat, len: U32)
    requires at + |data| <= |memory| && memory[at..at + |data|] == data
    requires |data| < 0x1_0000_0000 ==> ptr == at && len == |data|
    ensures ReadMemory(memory, ptr, len) == Some(data) <==> |data| < 0x1_0000_0000
  {}

  // ----- The protocol, told from calls of the guest's functions

  /** `f` is the first function exported under `name`. */
  predicate ExportsAs(exports: seq<Export>, name: seq<Byte>, f: nat) {
    exists k :: 0 <= k < |exports| && exports[k] == Export(name, 0, f)
      && forall i :: 0 <= i < k ==> exports[i].name != name || exports[i].kind != 0
  }

  predicate ExportedAt(exports: seq<Export>, name: seq<Byte>, k: nat) {
    k < |exports| && exports[k].name == name && exports[k].kind == 0
  }

  lemma {:induction false} ExportedIs(exports: seq<Export>, name: seq<Byte>)
    ensures match ExportedFunction(exports, name)
            case Some(f) => ExportsAs(exports, name, f)
            case None => forall k: nat :: !ExportedAt(exports, name, k)
    decreases |exports|
  {
    if exports != [] && !ExportedAt(exports, name, 0) {
      ExportedIs(exports[1..], name);
      match ExportedFunction(exports[1..], name)
      case Some(f) =>
        var k :| 0 <= k < |exports| - 1 && exports[1..][k] == Export(name, 0, f)
          && forall i :: 0 <= i < k ==> exports[1..][i].name != name || exports[1..][i].kind != 0;
        assert exports[k + 1] == Export(name, 0, f);
        assert forall i :: 0 < i < k + 1 ==> exports[i] == exports[1..][i - 1];
      case None =>
        forall k: nat ensures !ExportedAt(exports, name, k) {
          if k > 0 { assert !ExportedAt(exports[1..], name, k - 1); }
        }
    } else if exports != [] {
      assert exports[0] == Export(name, 0, exports[0].index);
    }
  }

  lemma {:induction false} ExportsOnce(exports: seq<Export>, name: seq<Byte>, f: nat)
    requires ExportsAs(exports, name, f)
    ensures ExportedFunction(exports, name) == Some(f)
  {
    ExportedIs(exports, name);
    var k :| 0 <= k < |exports| && exports[k] == Export(name, 0, f)
      && forall i :: 0 <= i < k ==> exports[i].name != name || exports[i].kind != 0;
    assert ExportedAt(exports, name, k);
    var g := ExportedFunction(exports, name).value;
    var l :| 0 <= l < |exports| && exports[l] == Export(name, 0, g)
      && forall i :: 0 <= i < l ==> exports[i].name != name || exports[i].kind != 0;
  }

  /** The three functions of a memory-ABI guest. */
  predicate Abi(m: Module, alloc: nat, dealloc: nat, evaluate: nat) {
    && ExportsAs(m.exports, Ascii("smokesig_alloc"), alloc)
    && ExportsAs(m.exports, Ascii("smokesig_dealloc"), dealloc)
    && ExportsAs(m.exports, Ascii("evaluate"), evaluate)
  }

  lemma {:induction false} InvokedWith(m: Module, s: Instance, input: seq<Byte>,
                                       alloc: nat, dealloc: nat, evaluate: nat)
    requires Abi(m, alloc, dealloc, evaluate)
    ensures var (after, placing) := Place(m, s, alloc, input);
      Invoke(m, s, input) ==
        match placing
        case NotPlaced(why) => (after, why)
        case At(ptr) => EvaluateAndRead(m, after, evaluate, dealloc, ptr, |input|)
  {
    ExportsOnce(m.exports, Ascii("smokesig_alloc"), alloc);
    ExportsOnce(m.exports, Ascii("smokesig_dealloc"), dealloc);
    ExportsOnce(m.exports, Ascii("evaluate"), evaluate);
  }

  /** `after` is `before` with `data` at `at`. */
  ghost predicate Written(before: seq<Byte>, at: nat, data: seq<Byte>, after: seq<Byte>) {
    && |after| == |before| && at + |data| <= |before|
    && after[at..at + |data|] == data
    && forall k :: 0 <= k < |before| && !(at <= k < at + |data|) ==> after[k] == before[k]
  }

  /** Without room, or without a pointer, nothing is written and nothing freed. */
  lemma {:induction false} NotPlacedProtocol(m: Module, s: Instance, input: seq<Byte>, alloc: nat, dealloc: nat,
                                             evaluate: nat)
    requires Abi(m, alloc, dealloc, evaluate)
    ensures var a := CallFunction(m, s.globals, alloc, [|input| % 0x1_0000_0000_0000_0000]);
      var s' := Instance(s.memory, a.globals);
      && (a.results == None ==> Invoke(m, s, input) == (s', AllocFailed))
      && (a.results == Some([]) ==> Invoke(m, s, input) == (s', Panicked))
      && (a.results.Some? && a.results.value != [] ==>
           (a.results.value[0] % 0x1_0000_0000 + |input| > |s.memory| ==> Invoke(m, s, input) == (s', WriteFailed)))
  {
    InvokedWith(m, s, input, alloc, dealloc, evaluate);
  }

  /** `e` is the outcome of calling `evaluate` with the memory `memory`: its result, split in halves, is a range
      of that memory; both buffers are freed, only the input's when there is no such range or the call failed. */
  predicate ReadsAndFrees(m: Module, memory: seq<Byte>, e: Called, dealloc: nat, ptr: U32, len: U64,
                          s: Instance, r: Outcome) {
    var freed := CallFunction(m, e.globals, dealloc, [ptr, len]).globals;
    && s.memory == memory
    && (e.results == None ==> r == EvaluateFailed && s.globals == freed)
    && (e.results == Some([]) ==> r == Panicked && s.globals == e.globals)
    && (e.results.Some? && e.results.value != [] ==>
         var from: U32, n: U32 := e.results.value[0] / 0x1_0000_0000, e.results.value[0] % 0x1_0000_0000;
         if from + n <= |memory| then
           r == Output(memory[from..from + n]) && s.globals == CallFunction(m, freed, dealloc, [from, n]).globals
         else r == ReadFailed && s.globals == freed)
  }

  lemma {:induction false} EvaluatedProtocol(m: Module, s: Instance, evaluate: nat, dealloc: nat, ptr: U32, len: nat)
    ensures var n: U64 := len % 0x1_0000_0000_0000_0000;
      var (s', r) := EvaluateAndRead(m, s, evaluate, dealloc, ptr, len);
      ReadsAndFrees(m, s.memory, CallFunction(m, s.globals, evaluate, [ptr, n]), dealloc, ptr, n, s', r)
  {}

  /** The input is written at the pointer that the allocator gives for its length, and `evaluate` is called on
      pointer and length. */
  lemma {:induction false} PlacedProtocol(m: Module, s: Instance, input: seq<Byte>, alloc: nat, dealloc: nat,
                                          evaluate: nat, ptr: U32)
    requires Abi(m, alloc, dealloc, evaluate)
    requires var a := CallFunction(m, s.globals, alloc, [|input| % 0x1_0000_0000_0000_0000]);
      a.results.Some? && a.results.value != [] && a.results.value[0] % 0x1_0000_0000 == ptr
    requires ptr + |input| <= |s.memory|
    ensures var len: U64 := |input| % 0x1_0000_0000_0000_0000;
      var g := CallFunction(m, s.globals, alloc, [len]).globals;
      var (s', r) := Invoke(m, s, input);
      && Written(s.memory, ptr, input, s'.memory)
      && ReadsAndFrees(m, s'.memory, CallFunction(m, g, evaluate, [ptr, len]), dealloc, ptr, len, s', r)
  {
    var (after, placing) := Place(m, s, alloc, input);
    assert placing == At(ptr) && Written(s.memory, ptr, input, after.memory);
    InvokedWith(m, s, input, alloc, dealloc, evaluate);
    EvaluatedProtocol(m, after, evaluate, dealloc, ptr, |input|);
  }

  /** One of the three functions is not exported: nothing is called. */
  lemma {:induction false} MissingProtocol(m: Module, s: Instance, input: seq<Byte>, name: string)
    requires name in {"smokesig_alloc", "smokesig_dealloc", "evaluate"}
    requires forall k: nat :: !ExportedAt(m.exports, Ascii(name), k)
    ensures Invoke(m, s, input) == (s, MissingExports)
  {
    NotExported(m.exports, Ascii(name));
  }

  lemma {:induction false} NotExported(exports: seq<Export>, name: seq<Byte>)
    requires forall k: nat :: !ExportedAt(exports, name, k)
    ensures ExportedFunction(exports, name) == None
    decreases |exports|
  {
    if exports != [] {
      assert !ExportedAt(exports, name, 0);
      forall k: nat ensures !ExportedAt(exports[1..], name, k) { assert !ExportedAt(exports, name, k + 1); }
      NotExported(exports[1..], name);
    }
  }

  // ----- The host's side

  class Guest {
    const code: Module
    var memory: seq<Byte>
    var globals: seq<Val>

    ghost function State(): Instance
      reads this
    {
      Instance(memory, globals)
    }

    constructor (code: Module, start: Instance)
      ensures this.code == code && State() == start
    {
      this.code := code;
      memory := start.memory;
      globals := start.globals;
    }

    method Call(f: nat, args: seq<U64>) returns (results: Option<seq<U64>>)
      modifies this`globals
      ensures Called(results, globals) == CallFunction(code, old(globals), f, args)
    {
      var call := CallFunction(code, globals, f, args);
      globals := call.globals;
      results := call.results;
    }

    method Write(ptr: U32, data: seq<Byte>) returns (ok: bool)
      modifies this`memory
      ensures ok <==> ptr + |data| <= |old(memory)|
      ensures ok ==> memory == Overwritten(old(memory), ptr, data)
      ensures !ok ==> memory == old(memory)
    {
      ok := ptr + |data| <= |memory|;
      if ok {
        memory := Overwritten(memory, ptr, data);
      }
    }

    method PlaceData(alloc: nat, data: seq<Byte>) returns (placing: Placing)
      modifies this
      ensures (State(), placing) == Place(code, old(State()), alloc, data)
    {
      var results := Call(alloc, [|data| % 0x1_0000_0000_0000_0000]);
      if results.None? {
        return NotPlaced(AllocFailed);
      }
      if results.value == [] {
        return NotPlaced(Panicked);
      }
      var ptr := results.value[0] % 0x1_0000_0000;
      var ok := Write(ptr, data);
      placing := if ok then At(ptr) else NotPlaced(WriteFailed);
    }

    method Free(dealloc: nat, ptr: U32, len: nat)
      modifies this`globals
      ensures State() == Freed(code, old(State()), dealloc, ptr, len)
    {
      var _ := Call(dealloc, [ptr, len % 0x1_0000_0000_0000_0000]);
    }

    method Unpack(packed: U64) returns (ptr: U32, len: U32)
      ensures ptr == packed / 0x1_0000_0000 && len == packed % 0x1_0000_0000
    {
      UnpackSum(packed);
      ptr := PackedPtr(packed);
      len := PackedLen(packed);
    }

    /** The second half of the source's function, from the call of `evaluate` on. */
    method Finish(evaluate: nat, dealloc: nat, inputPtr: U32, len: nat) returns (r: Outcome)
      modifies this`globals
      ensures (State(), r) == EvaluateAndRead(code, old(State()), evaluate, dealloc, inputPtr, len)
    {
      var results := Call(evaluate, [inputPtr, len % 0x1_0000_0000_0000_0000]);
      if results.None? {
        Free(dealloc, inputPtr, len);
        return EvaluateFailed;
      }
      if results.value == [] {
        return Panicked;
      }
      var resultPtr, resultLen := Unpack(results.value[0]);
      var result := ReadMemory(memory, resultPtr, resultLen);
      Free(dealloc, inputPtr, len);
      if result.None? {
        return ReadFailed;
      }
      Free(dealloc, resultPtr, resultLen);
      r := Output(result.value);
    }

    method InvokeMemoryABI(input: seq<Byte>) returns (r: Outcome)
      modifies this
      ensures (State(), r) == Invoke(code, old(State()), input)
    {
      var alloc := ExportedFunction(code.exports, Ascii("smokesig_alloc"));
      var dealloc := ExportedFunction(code.exports, Ascii("smokesig_dealloc"));
      var evaluate := ExportedFunction(code.exports, Ascii("evaluate"));
      if alloc.None? || dealloc.None? || evaluate.None? {
        return MissingExports;
      }
      var placing := PlaceData(alloc.value, input);
      if placing.NotPlaced? {
        return placing.why;
      }
      r := Finish(evaluate.value, dealloc.value, placing.ptr, |input|);
    }

    /** A packed result other than 0 leads the guest back to exactly the data, unless the data is so
        long that its length spills into the pointer's half. */
    method WriteHostResponse(data: seq<Byte>) returns (packed: nat, panicked: bool)
      modifies this
      ensures State() == PlaceExported(code, old(State()), data).0
      ensures PlaceExported(code, old(State()), data).1.NotPlaced? ==> packed == 0
      ensures PlaceExported(code, old(State()), data).1.At? && data != [] ==> packed != 0
      ensures packed != 0 ==> (UnpackAndRead(memory, packed) == Some(data) <==> |data| < 0x1_0000_0000)
      ensures packed != 0 && |data| < 0x1_0000_0000 ==>
        forall k | 0 <= k < |memory| && !(PackedPtr(packed) <= k < PackedPtr(packed) + |data|) ::
          memory[k] == old(memory[k])
      ensures panicked ==> packed == 0
    {
      var alloc := ExportedFunction(code.exports, Ascii("smokesig_alloc"));
      if alloc.None? {
        return 0, false;
      }
      var placing := PlaceData(alloc.value, data);
      if placing.NotPlaced? {
        return 0, placing.why == Panicked;
      }
      panicked := false;
      packed := PackResult(placing.ptr, |data|);
      ReadsShortData(memory, placing.ptr, data, PackedPtr(packed), PackedLen(packed));
    }
  }

  // ----- The generated fixture under the protocol

  /** The allocator hands out the bump pointer and moves it up by the size, modulo 2^32. */
  lemma {:induction false} AllocRuns(b: U32, size: U32)
    ensures Run(AllocCode(), [V32(size)], [], [V32(b)]) == Done([V32(b)], [V32((b + size) % 0x1_0000_0000)])
  {}

  lemma {:induction false} AllocCalled(json: seq<Byte>, b: U32, size: U64)
    ensures CallFunction(FixtureModule(json), [V32(b)], 0, [size])
         == Called(Some([b]), [V32((b + size % 0x1_0000_0000) % 0x1_0000_0000)])
  {
    AllocRuns(b, size % 0x1_0000_0000);
    assert Locals([I32_TYPE], [size]) == [V32(size % 0x1_0000_0000)];
    OneResult(V32(b));
  }

  lemma {:induction false} OneResult(v: Val)
    ensures ValTypes([v]) == [ValType(v)] && ResultsOf([v]) == [ResultOf(v)]
  {}

  lemma {:induction false} DeallocCalled(json: seq<Byte>, globals: seq<Val>, ptr: U64, len: U64)
    ensures CallFunction(FixtureModule(json), globals, 1, [ptr, len]) == Called(Some([]), globals)
  {
    assert ValTypes([]) == [] && ResultsOf([]) == [];
  }

  lemma {:induction false} PackedIs(jsonLen: U32)
    ensures PackedResult(jsonLen) % 0x1_0000_0000_0000_0000 == DATA_OFFSET * 0x1_0000_0000 + jsonLen
  {
    PackedPointerRoundTrip(DATA_OFFSET, jsonLen, []);
    PackIsSum(DATA_OFFSET, jsonLen);
  }

  lemma {:induction false} RunOne(i: Instr, locals: seq<Val>, globals: seq<Val>, v: Val)
    requires Step(i, locals, [], globals) == Done([v], globals)
    ensures Run([i], locals, [], globals) == Done([v], globals)
  {
    assert [i][1..] == [];
  }

  lemma {:induction false} EvaluateRuns(jsonLen: U32, locals: seq<Val>, globals: seq<Val>)
    ensures Run(EvaluateCode(jsonLen), locals, [], globals)
         == Done([V64(DATA_OFFSET * 0x1_0000_0000 + jsonLen)], globals)
  {
    var v := V64(DATA_OFFSET * 0x1_0000_0000 + jsonLen);
    PackedIs(jsonLen);
    assert [] + [v] == [v];
    RunOne(I64Const(PackedResult(jsonLen)), locals, globals, v);
  }

  lemma {:induction false} EvaluateCalled(json: seq<Byte>, globals: seq<Val>, ptr: U64, len: U64)
    requires |json| < 0x1_0000_0000
    ensures CallFunction(FixtureModule(json), globals, 2, [ptr, len])
         == Called(Some([DATA_OFFSET * 0x1_0000_0000 + |json|]), globals)
  {
    EvaluateRuns(|json|, Locals([I32_TYPE, I32_TYPE], [ptr, len]), globals);
    OneResult(V64(DATA_OFFSET * 0x1_0000_0000 + |json|));
  }

  lemma {:induction false} FixtureExported()
    ensures ExportedFunction(FixtureExports(), Ascii("smokesig_alloc")) == Some(0)
    ensures ExportedFunction(FixtureExports(), Ascii("smokesig_dealloc")) == Some(1)
    ensures ExportedFunction(FixtureExports(), Ascii("evaluate")) == Some(2)
  {}

  // ----- From the generated bytes to the outcome

  /** What the manager does with a plugin file: compile, instantiate, invoke. */
  function RunPlugin(bytes: seq<Byte>, input: seq<Byte>): Option<Outcome> {
    match Decode(bytes)
    case None => None
    case Some(m) =>
      match Instantiate(m)
      case None => None
      case Some(s) => Some(Invoke(m, s, input).1)
  }

  lemma {:induction false} PlacedBy(m: Module, s: Instance, alloc: nat, ptr: U32, data: seq<Byte>)
    requires CallFunction(m, s.globals, alloc, [|data| % 0x1_0000_0000_0000_0000]).results == Some([ptr])
    ensures var (after, placing) := Place(m, s, alloc, data);
      if ptr + |data| <= |s.memory|
      then placing == At(ptr) && after.memory == Overwritten(s.memory, ptr, data)
      else placing == NotPlaced(WriteFailed)
  {}

  lemma {:induction false} FixturePlaced(json: seq<Byte>, s: Instance, b: U32, input: seq<Byte>)
    requires s.globals == [V32(b)]
    ensures var (after, placing) := Place(FixtureModule(json), s, 0, input);
      if b + |input| <= |s.memory|
      then placing == At(b) && after.memory == Overwritten(s.memory, b, input)
      else placing == NotPlaced(WriteFailed)
  {
    AllocCalled(json, b, |input| % 0x1_0000_0000_0000_0000);
    PlacedBy(FixtureModule(json), s, 0, b, input);
  }

  lemma {:induction false} InvokedBy(m: Module, s: Instance, input: seq<Byte>)
    requires m.exports == FixtureExports()
    ensures var (after, placing) := Place(m, s, 0, input);
      Invoke(m, s, input) ==
        match placing
        case NotPlaced(why) => (after, why)
        case At(ptr) => EvaluateAndRead(m, after, 2, 1, ptr, |input|)
  {
    FixtureExported();
  }

  /** The outcome of the fixture in any state it can be in: the memory where the text was stored, as
      it is after the input has been written at the bump pointer. */
  lemma {:induction false} FixtureInvoked(json: seq<Byte>, s: Instance, b: U32, input: seq<Byte>)
    requires s.globals == [V32(b)] && |json| < 0x1_0000_0000 && DATA_OFFSET + |json| <= |s.memory|
    ensures Invoke(FixtureModule(json), s, input).1 ==
      if b + |input| <= |s.memory|
      then Output(Overwritten(s.memory, b, input)[DATA_OFFSET..DATA_OFFSET + |json|])
      else WriteFailed
  {
    InvokedBy(FixtureModule(json), s, input);
    FixturePlaced(json, s, b, input);
    if b + |input| <= |s.memory| {
      FixtureEvaluated(json, Place(FixtureModule(json), s, 0, input).0, b, |input|);
    }
  }

  lemma {:induction false} UnpackResult(jsonLen: U32)
    ensures var packed := DATA_OFFSET * 0x1_0000_0000 + jsonLen;
            packed / 0x1_0000_0000 == DATA_OFFSET && packed % 0x1_0000_0000 == jsonLen
  {
    DivModUnique(DATA_OFFSET * 0x1_0000_0000 + jsonLen, 0x1_0000_0000, DATA_OFFSET, jsonLen);
  }

  lemma {:induction false} FixtureEvaluated(json: seq<Byte>, s: Instance, ptr: U32, len: nat)
    requires |json| < 0x1_0000_0000 && DATA_OFFSET + |json| <= |s.memory|
    ensures EvaluateAndRead(FixtureModule(json), s, 2, 1, ptr, len)
         == (s, Output(s.memory[DATA_OFFSET..DATA_OFFSET + |json|]))
  {
    var n := len % 0x1_0000_0000_0000_0000;
    EvaluateCalled(json, s.globals, ptr, n);
    UnpackResult(|json|);
    DeallocCalled(json, s.globals, ptr, n);
    DeallocCalled(json, s.globals, DATA_OFFSET, |json|);
  }

  lemma {:induction false} ConstRuns(n: nat)
    requires n < 0x1_0000_0000
    ensures ConstValue([I32Const(n)]) == Some(V32(n))
  {
    assert [] + [V32(n)] == [V32(n)];
    RunOne(I32Const(n), [], [], V32(n));
  }

  lemma {:induction false} OneGlobal(g: Global, v: Val)
    requires ConstValue(g.init) == Some(v) && ValType(v) == g.valtype
    ensures InitGlobals([g]) == Some([v])
  {
    assert [g][1..] == [];
    assert [v] + [] == [v];
  }

  lemma {:induction false} OneSegment(memory: seq<Byte>, d: Segment, at: U32)
    requires ConstValue(d.offset) == Some(V32(at))
    ensures InitMemory(memory, [d]) ==
      if at + |d.bytes| <= |memory| then Some(Overwritten(memory, at, d.bytes)) else None
  {
    assert [d][1..] == [];
  }

  lemma {:induction false} FixtureInstantiated(json: seq<Byte>)
    ensures Instantiate(FixtureModule(json)) ==
      if DATA_OFFSET + |json| <= PAGE
      then Some(Instance(Overwritten(Zeros(PAGE), DATA_OFFSET, json), [V32(BUMP_START)]))
      else None
  {
    var m := FixtureModule(json);
    ConstRuns(BUMP_START);
    ConstRuns(DATA_OFFSET);
    OneGlobal(m.globals[0], V32(BUMP_START));
    OneSegment(Zeros(PAGE), m.data[0], DATA_OFFSET);
    assert m.globals == [m.globals[0]] && m.data == [m.data[0]];
    assert PAGE * 1 == PAGE;
  }

  /** One page: the text at 1024, and zeros before and behind it. */
  lemma {:induction false} StartsWithText(json: seq<Byte>)
    ensures Instantiate(FixtureModule(json)).Some? <==> 1024 + |json| <= 65536
    ensures 1024 + |json| <= 65536 ==>
      var s := Instantiate(FixtureModule(json)).value;
      && s.globals == [V32(4096)]
      && |s.memory| == 65536 && s.memory[1024..1024 + |json|] == json
      && forall k :: 0 <= k < 65536 && !(1024 <= k < 1024 + |json|) ==> s.memory[k] == 0
  {
    FixtureInstantiated(json);
  }

  /** The input is written over the tail of the text when the text reaches past the bump pointer; it does
      no harm only where it happens to hold the same bytes. */
  predicate OverlapAgrees(json: seq<Byte>, input: seq<Byte>) {
    forall k | 0 <= k < |input| && BUMP_START - DATA_OFFSET + k < |json| ::
      json[BUMP_START - DATA_OFFSET + k] == input[k]
  }

  lemma {:induction false} TextSurvivesIff(json: seq<Byte>, input: seq<Byte>)
    requires DATA_OFFSET + |json| <= PAGE && BUMP_START + |input| <= PAGE
    ensures var memory := Overwritten(Overwritten(Zeros(PAGE), DATA_OFFSET, json), BUMP_START, input);
            memory[DATA_OFFSET..DATA_OFFSET + |json|] == json <==> OverlapAgrees(json, input)
  {}

  /** What comes back from a guest is never longer than its memory. */
  lemma {:induction false} OutputFitsMemory(m: Module, s: Instance, input: seq<Byte>)
    ensures Invoke(m, s, input).1.Output? ==> |Invoke(m, s, input).1.json| <= |s.memory|
  {}

  lemma {:induction false} LongTextLost(json: seq<Byte>, input: seq<Byte>)
    requires |json| > PAGE
    ensures RunPlugin(FixtureBytes(json), input) != Some(Output(json))
  {
    AlwaysOnePage(json);
    var m := Decode(FixtureBytes(json));
    if m.Some? && Instantiate(m.value).Some? {
      assert |Instantiate(m.value).value.memory| == PAGE;
      OutputFitsMemory(m.value, Instantiate(m.value).value, input);
    }
  }

  predicate ReturnsText(json: seq<Byte>, input: seq<Byte>) {
    RunPlugin(FixtureBytes(json), input) == Some(Output(json))
  }

  predicate Survives(json: seq<Byte>, input: seq<Byte>) {
    DATA_OFFSET + |json| <= PAGE && BUMP_START + |input| <= PAGE && OverlapAgrees(json, input)
  }

  function Stored(json: seq<Byte>): Instance
    requires DATA_OFFSET + |json| <= PAGE
  {
    Instance(Overwritten(Zeros(PAGE), DATA_OFFSET, json), [V32(BUMP_START)])
  }

  lemma {:induction false} FixtureRun(json: seq<Byte>, input: seq<Byte>)
    requires |json| <= MAX_JSON
    ensures RunPlugin(FixtureBytes(json), input) ==
      if DATA_OFFSET + |json| <= PAGE then Some(Invoke(FixtureModule(json), Stored(json), input).1) else None
  {
    FixtureDecodes(json);
    FixtureInstantiated(json);
  }

  /** Generated, decoded, instantiated and invoked, the fixture gives back exactly its JSON text
      if and only if text and input fit in the page and do not disagree where they overlap. */
  lemma {:induction false} ReturnsTextIff(json: seq<Byte>, input: seq<Byte>)
    ensures ReturnsText(json, input) <==> Survives(json, input)
  {
    if |json| > PAGE {
      LongTextLost(json, input);
    } else {
      FixtureRun(json, input);
      if DATA_OFFSET + |json| <= PAGE {
        FixtureInvoked(json, Stored(json), BUMP_START, input);
        if BUMP_START + |input| <= PAGE {
          TextSurvivesIff(json, input);
        }
      }
    }
  }

  predicate LengthsFit(jsonLen: nat, inputLen: nat) {
    jsonLen <= 64512 && inputLen <= 61440 && (jsonLen <= 3072 || inputLen == 0)
  }

  lemma {:induction false} Clash(jsonLen: nat, inputLen: nat)
    requires !LengthsFit(jsonLen, inputLen)
    ensures exists json: seq<Byte>, input: seq<Byte> ::
      |json| == jsonLen && |input| == inputLen && !Survives(json, input)
  {
    var json: seq<Byte> := seq(jsonLen, _ => 0);
    var input: seq<Byte> := seq(inputLen, _ => 1);
    if jsonLen > 3072 && inputLen > 0 {
      var first := 0;
      assert json[BUMP_START - DATA_OFFSET + first] != input[first];
    }
    assert !Survives(json, input);
  }

  /** Lengths alone guarantee the text, whatever the contents, exactly when text and input cannot overlap. */
  lemma {:induction false} LengthsSufficeIff(jsonLen: nat, inputLen: nat)
    ensures LengthsFit(jsonLen, inputLen) <==>
      forall json: seq<Byte>, input: seq<Byte> | |json| == jsonLen && |input| == inputLen :: ReturnsText(json, input)
  {
    if LengthsFit(jsonLen, inputLen) {
      forall json: seq<Byte>, input: seq<Byte> | |json| == jsonLen && |input| == inputLen
        ensures ReturnsText(json, input)
      {
        ReturnsTextIff(json, input);
      }
    } else {
      Clash(jsonLen, inputLen);
      var json: seq<Byte>, input: seq<Byte> :| |json| == jsonLen && |input| == inputLen && !Survives(json, input);
      ReturnsTextIff(json, input);
    }
  }

  // ----- The fixture whose `evaluate` traps

  function CrashModule(): Module {
    FixtureModule([]).(bodies := [AllocCode(), [], [Unreachable]], data := [])
  }

  /** Its evaluation fails, whatever the input, as long as there is room for it. */
  lemma {:induction false} CrashFails(s: Instance, b: U32, input: seq<Byte>)
    requires s.globals == [V32(b)]
    ensures Invoke(CrashModule(), s, input).1 ==
      if b + |input| <= |s.memory| then EvaluateFailed else WriteFailed
  {
    var m := CrashModule();
    var len := |input| % 0x1_0000_0000_0000_0000;
    AllocRuns(b, len % 0x1_0000_0000);
    assert Locals([I32_TYPE], [len]) == [V32(len % 0x1_0000_0000)];
    OneResult(V32(b));
    PlacedBy(m, s, 0, b, input);
    InvokedBy(m, s, input);
  }
}
