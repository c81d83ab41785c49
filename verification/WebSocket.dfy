/** The WebSocket client of the runner: frame reader, frame writer and receive loop, against the
    wire format of section 5.2 of RFC 6455. */
module WebSocket {
  import opened Bits
  import opened Options
  import opened Sequences

  // ----- The connection: a byte stream that ends

  class Conn {
    var pending: seq<Byte>

    constructor (bytes: seq<Byte>)
      ensures pending == bytes
    {
      pending := bytes;
    }

    /** Reads exactly `n` bytes, or fails at the end of the stream. */
    method ReadFull(n: nat) returns (ok: bool, data: seq<Byte>)
      modifies this
      ensures ok <==> n <= |old(pending)|
      ensures ok ==> data == old(pending)[..n] && pending == old(pending)[n..]
      ensures !ok ==> pending == []
    {
      ok := n <= |pending|;
      if ok {
        data, pending := pending[..n], pending[n..];
      } else {
        data, pending := pending, [];
      }
    }
  }

  // ----- What one call of the reader returns, as a function of the stream

  /** Making a slice longer than the runtime's limit panics. */
  datatype Read = Failed | Panicked | Got(msg: seq<Byte>, closed: bool)

  function Take(stream: seq<Byte>, n: int): Option<(seq<Byte>, seq<Byte>)> {
    if n <= 0 then Some(([], stream))
    else if n <= |stream| then Some((stream[..n], stream[n..]))
    else None
  }

  /** Payload length as a signed 64-bit number, and what follows the length field. */
  function ReadLength(stream: seq<Byte>): Option<(int, seq<Byte>)>
    requires |stream| >= 2
  {
    var short := stream[1] % 128;
    if short == 126 then
      (if |stream| < 4 then None else Some((FromBigEndian(stream[2..4]), stream[4..])))
    else if short == 127 then
      (if |stream| < 10 then None else Some((ToI64(FromBigEndian(stream[2..10])), stream[10..])))
    else Some((short, stream[2..]))
  }

  /** `limit` is the longest slice that can be made. */
  function ReadFrame(stream: seq<Byte>, limit: nat): (r: (Read, seq<Byte>))
    ensures r.0.Got? ==> |r.1| + 2 <= |stream|
  {
    if |stream| < 2 then (Failed, [])
    else match ReadLength(stream)
      case None => (Failed, [])
      case Some((length, rest)) =>
        match Take(rest, if stream[1] >= 128 then 4 else 0)
        case None => (Failed, [])
        case Some((key, body)) =>
          if length > limit then (Panicked, body)
          else match Take(body, length)
          case None => (Failed, [])
          case Some((payload, after)) =>
            var opcode := stream[0] % 16;
            (Got(if opcode == 9 then [] else payload, opcode == 8), after)
  }

  method WsReadFrame(conn: Conn, limit: nat) returns (r: Read)
    modifies conn
    ensures (r, conn.pending) == ReadFrame(old(conn.pending), limit)
  {
    ghost var stream := conn.pending;
    var ok, header := conn.ReadFull(2);
    if !ok { return Failed; }
    var opcode, masked, short := SplitHeader(header);
    assert [stream[0], stream[1]] + conn.pending == stream;
    var okLength, payloadLen := ReadPayloadLength(conn, header[0], header[1], short);
    if !okLength { return Failed; }
    if masked {
      var okMask, mask := conn.ReadFull(4);
      if !okMask { return Failed; }
    }
    if payloadLen > limit { return Panicked; }
    var okBody, payload := ReadPayload(conn, payloadLen);
    if !okBody { return Failed; }
    if opcode == 0x08 { return Got(payload, true); }
    if opcode == 0x09 { return Got([], false); }
    return Got(payload, false);
  }

  method SplitHeader(header: seq<Byte>) returns (opcode: int, masked: bool, short: int)
    requires |header| == 2
    ensures opcode == header[0] % 16 && (masked <==> header[1] >= 128) && short == header[1] % 128
  {
    Low4(header[0]);
    TopBit(header[1]);
    Low7(header[1]);
    opcode := And(header[0], 0x0F);
    masked := And(header[1], 0x80) != 0;
    short := And(header[1], 0x7F);
  }

  method ReadPayloadLength(conn: Conn, ghost h0: Byte, ghost h1: Byte, short: int) returns (ok: bool, payloadLen: int)
    requires short == h1 % 128
    modifies conn
    ensures ReadLength([h0, h1] + old(conn.pending)) == if ok then Some((payloadLen, conn.pending)) else None
    ensures !ok ==> conn.pending == []
  {
    ghost var stream := [h0, h1] + conn.pending;
    ok, payloadLen := true, short;
    if short == 126 {
      var okExt, ext := conn.ReadFull(2);
      if !okExt { return false, 0; }
      assert ext == stream[2..4] && conn.pending == stream[4..];
      payloadLen := FromBigEndian(ext);
    } else if short == 127 {
      var okExt, ext := conn.ReadFull(8);
      if !okExt { return false, 0; }
      assert ext == stream[2..10] && conn.pending == stream[10..];
      payloadLen := ToI64(FromBigEndian(ext));
    } else {
      assert conn.pending == stream[2..];
    }
  }

  method ReadPayload(conn: Conn, payloadLen: int) returns (ok: bool, payload: seq<Byte>)
    modifies conn
    ensures Take(old(conn.pending), payloadLen) == if ok then Some((payload, conn.pending)) else None
    ensures !ok ==> conn.pending == []
  {
    ok, payload := true, [];
    if payloadLen > 0 {
      ok, payload := conn.ReadFull(payloadLen);
    }
  }

  // ----- Frames on the wire (section 5.2)

  datatype Form = Short | Medium | Long

  datatype Wire = Wire(fin: bool, rsv: nat, opcode: nat, form: Form, key: Option<seq<Byte>>, payload: seq<Byte>)

  predicate Fits(form: Form, n: nat) {
    match form
    case Short => n <= 125
    case Medium => n <= 65535
    case Long => n < 0x8000_0000_0000_0000
  }

  predicate WellFormed(w: Wire) {
    && w.rsv < 8 && w.opcode < 16
    && Fits(w.form, |w.payload|)
    && (w.key.Some? ==> |w.key.value| == 4)
  }

  /** Bytes of extended length. */
  function Width(form: Form): nat {
    match form
    case Short => 0
    case Medium => 2
    case Long => 8
  }

  /** The seven length bits of the second byte. */
  function Code(form: Form, n: nat): nat
    requires Fits(form, n)
  {
    match form
    case Short => n
    case Medium => 126
    case Long => 127
  }

  function LengthField(form: Form, n: nat, maskBit: nat): (bs: seq<Byte>)
    requires Fits(form, n) && maskBit in {0, 128}
    ensures bs != []
  {
    [maskBit + Code(form, n)] + BigEndian(n, Width(form))
  }

  function KeyField(key: Option<seq<Byte>>): seq<Byte> {
    match key
    case None => []
    case Some(k) => k
  }

  function MaskBit(key: Option<seq<Byte>>): nat {
    if key.Some? then 128 else 0
  }

  function FirstByte(w: Wire): (b: Byte)
    requires WellFormed(w)
    ensures b % 16 == w.opcode
  {
    (if w.fin then 128 else 0) + 16 * w.rsv + w.opcode
  }

  function Encode(w: Wire): (bs: seq<Byte>)
    requires WellFormed(w)
    ensures |bs| >= 2
  {
    [FirstByte(w)] + LengthField(w.form, |w.payload|, MaskBit(w.key)) + (KeyField(w.key) + w.payload)
  }

  /** What the reader reports for a frame: the payload as sent, nothing for a ping. */
  function Report(w: Wire): Read {
    Got(if w.opcode == 9 then [] else w.payload, w.opcode == 8)
  }

  /** The reader's branch for a form, on any extension of that width. */
  lemma {:induction false} ReadExtension(first: Byte, second: Byte, ext: seq<Byte>, rest: seq<Byte>)
    requires |ext| == if second % 128 == 126 then 2 else if second % 128 == 127 then 8 else 0
    ensures ReadLength([first, second] + ext + rest) ==
            Some((if second % 128 == 126 then FromBigEndian(ext) as int
                  else if second % 128 == 127 then ToI64(FromBigEndian(ext)) as int
                  else second as int % 128, rest))
  {
    var stream := [first, second] + ext + rest;
    assert stream[2..2 + |ext|] == ext && stream[2 + |ext|..] == rest;
  }

  lemma {:induction false} WidthIsEnough(form: Form, n: nat)
    requires Fits(form, n) && !form.Short?
    ensures FromBigEndian(BigEndian(n, Width(form))) == n
  {
    var k := Width(form);
    BigEndianRoundTrip(n, k);
    Pow2Of64();
    assert 8 * k == if form.Medium? then 16 else 64;
    SmallRemainder(n, Pow2(8 * k));
  }

  lemma {:induction false} SmallRemainder(n: nat, m: int)
    requires n < m
    ensures n % m == n
  {}

  lemma {:induction false} Pow2Of64()
    ensures Pow2(16) == 65536
    ensures Pow2(64) == 0x1_0000_0000_0000_0000
  {
    assert Pow2(8) == 256;
    Pow2Step8(16); Pow2Step8(24); Pow2Step8(32); Pow2Step8(40); Pow2Step8(48); Pow2Step8(56); Pow2Step8(64);
  }

  lemma {:induction false} ReadLengthOf(first: Byte, form: Form, n: nat, maskBit: nat, rest: seq<Byte>)
    requires Fits(form, n) && maskBit in {0, 128}
    ensures ReadLength([first] + LengthField(form, n, maskBit) + rest) == Some((n as int, rest))
    ensures LengthField(form, n, maskBit)[0] >= 128 <==> maskBit == 128
  {
    var ext := BigEndian(n, Width(form));
    var second := maskBit + Code(form, n);
    assert second % 128 == Code(form, n);
    assert ToI64(n) == n;
    if !form.Short? { WidthIsEnough(form, n); }
    assert [first] + LengthField(form, n, maskBit) + rest == [first, second] + ext + rest;
    ReadExtension(first, second, ext, rest);
  }

  lemma {:induction false} TakeHead(head: seq<Byte>, rest: seq<Byte>)
    ensures Take(head + rest, |head|) == Some((head, rest))
  {
    if head == [] {
      assert head + rest == rest;
    } else {
      assert (head + rest)[..|head|] == head && (head + rest)[|head|..] == rest;
    }
  }

  lemma {:induction false} ReadParts(stream: seq<Byte>, key: seq<Byte>, payload: seq<Byte>, rest: seq<Byte>, limit: nat)
    requires |stream| >= 2 && |key| == (if stream[1] >= 128 then 4 else 0)
    requires ReadLength(stream) == Some((|payload| as int, key + payload + rest))
    ensures ReadFrame(stream, limit) ==
            if |payload| > limit then (Panicked, payload + rest)
            else (Got(if stream[0] % 16 == 9 then [] else payload, stream[0] % 16 == 8), rest)
  {
    assert key + payload + rest == key + (payload + rest);
    TakeHead(key, payload + rest);
    TakeHead(payload, rest);
  }

  lemma {:induction false} FrameLayout(first: Byte, field: seq<Byte>, body: seq<Byte>, rest: seq<Byte>)
    requires field != []
    ensures [first] + field + body + rest == [first] + field + (body + rest)
    ensures ([first] + field + (body + rest))[0] == first
    ensures ([first] + field + (body + rest))[1] == field[0]
  {}

  /** The reader consumes exactly one frame, whatever its length form, and reports its payload; it panics
      exactly on a payload that no slice can hold. */
  lemma {:induction false} ReadBack(w: Wire, rest: seq<Byte>, limit: nat)
    requires WellFormed(w)
    ensures |w.payload| <= limit ==> ReadFrame(Encode(w) + rest, limit) == (Report(w), rest)
    ensures |w.payload| > limit ==> ReadFrame(Encode(w) + rest, limit).0.Panicked?
  {
    var key, field := KeyField(w.key), LengthField(w.form, |w.payload|, MaskBit(w.key));
    FrameLayout(FirstByte(w), field, key + w.payload, rest);
    ReadLengthOf(FirstByte(w), w.form, |w.payload|, MaskBit(w.key), key + w.payload + rest);
    ReadParts([FirstByte(w)] + field + (key + w.payload + rest), key, w.payload, rest, limit);
  }

  function EncodeAll(ws: seq<Wire>): seq<Byte>
    requires forall w <- ws :: WellFormed(w)
  {
    if ws == [] then [] else Encode(ws[0]) + EncodeAll(ws[1..])
  }

  function ReadMany(stream: seq<Byte>, n: nat, limit: nat): (seq<Read>, seq<Byte>)
    decreases n
  {
    if n == 0 then ([], stream)
    else
      var (r, rest) := ReadFrame(stream, limit);
      var (rs, after) := ReadMany(rest, n - 1, limit);
      ([r] + rs, after)
  }

  lemma {:induction false} ManyFrames(w: Wire, ws: seq<Wire>, rest: seq<Byte>)
    requires WellFormed(w) && forall v <- ws :: WellFormed(v)
    ensures EncodeAll([w] + ws) + rest == Encode(w) + (EncodeAll(ws) + rest)
  {
    assert ([w] + ws)[1..] == ws;
  }

  /** Repeated reads return every frame in order and leave what follows untouched, if every payload fits a
      slice. */
  lemma {:induction false} ReadStream(ws: seq<Wire>, rest: seq<Byte>, limit: nat)
    requires forall w <- ws :: WellFormed(w) && |w.payload| <= limit
    ensures var (rs, after) := ReadMany(EncodeAll(ws) + rest, |ws|, limit);
            after == rest && |rs| == |ws| && forall i :: 0 <= i < |ws| ==> rs[i] == Report(ws[i])
  {
    if ws == [] {
      assert EncodeAll(ws) + rest == rest;
    } else {
      assert ws == [ws[0]] + ws[1..];
      ManyFrames(ws[0], ws[1..], rest);
      ReadBack(ws[0], EncodeAll(ws[1..]) + rest, limit);
      ReadStream(ws[1..], rest, limit);
    }
  }

  /** Otherwise the first frame that does not fit makes the read after those before it panic. */
  lemma {:induction false} ReadStreamPanics(ws: seq<Wire>, w: Wire, rest: seq<Byte>, limit: nat)
    requires forall v <- ws :: WellFormed(v) && |v.payload| <= limit
    requires WellFormed(w) && |w.payload| > limit
    ensures ReadFrame(ReadMany(EncodeAll(ws) + (Encode(w) + rest), |ws|, limit).1, limit).0.Panicked?
  {
    ReadStream(ws, Encode(w) + rest, limit);
    ReadBack(w, rest, limit);
  }

  // ----- The writer

  /** Section 5.3: octet `i` is combined with octet `i mod 4` of the key. */
  function Masked(data: seq<Byte>, key: seq<Byte>): (r: seq<Byte>)
    requires |key| == 4
    ensures |r| == |data|
  {
    seq(|data|, i requires 0 <= i < |data| => XorByte(data[i], key[i % 4]))
  }

  function XorByte(a: Byte, b: Byte): Byte {
    ByteXorBound(a, b);
    Xor(a, b)
  }

  lemma {:induction false} ByteXorBound(a: Byte, b: Byte)
    ensures Xor(a, b) < 256
  {
    assert Pow2(8) == 256;
    XorBound(a, b, 8);
  }

  lemma {:induction false} MaskedTwice(data: seq<Byte>, key: seq<Byte>)
    requires |key| == 4
    ensures Masked(Masked(data, key), key) == data
  {
    forall i | 0 <= i < |data| ensures Masked(Masked(data, key), key)[i] == data[i] {
      XorTwice(data[i], key[i % 4]);
    }
  }

  function MinimalForm(n: nat): Form {
    if n <= 125 then Short else if n <= 65535 then Medium else Long
  }

  /** The frame a client must send for a text message. */
  function ClientFrame(msg: seq<Byte>, key: seq<Byte>): (w: Wire)
    requires |key| == 4 && |msg| < 0x8000_0000_0000_0000
    ensures WellFormed(w)
  {
    Wire(true, 0, 1, MinimalForm(|msg|), Some(key), Masked(msg, key))
  }

  /** Bytes in front of the key. */
  function HeadSize(n: nat): nat {
    if n <= 125 then 2 else if n <= 65535 then 4 else 10
  }

  /** A final text frame, its length with the mask bit in one, three or nine bytes. */
  predicate HeadBytes(n: nat, frame: seq<Byte>)
    requires |frame| >= HeadSize(n)
  {
    && frame[0] == 0x81
    && (n <= 125 ==> frame[1] == 0x80 + n)
    && (125 < n <= 65535 ==> frame[1] == 0xFE && 256 * frame[2] as int + frame[3] as int == n)
    && (n > 65535 ==> frame[1] == 0xFF && FromBigEndian(frame[2..10]) == n)
  }

  /** The head, the key, and each byte of the message combined with the byte of the key whose turn it is. */
  ghost predicate ClientBytes(msg: seq<Byte>, key: seq<Byte>, frame: seq<Byte>)
    requires |key| == 4
  {
    var n, head := |msg|, HeadSize(|msg|);
    && |frame| == head + 4 + n && HeadBytes(n, frame)
    && frame[head..head + 4] == key
    && forall i :: 0 <= i < n ==> frame[head + 4 + i] == Xor(msg[i], key[i % 4])
  }

  lemma {:induction false} ClientFrameBytes(msg: seq<Byte>, key: seq<Byte>)
    requires |key| == 4 && |msg| < 0x8000_0000_0000_0000
    ensures ClientBytes(msg, key, Encode(ClientFrame(msg, key)))
  {
    var n, body := |msg|, Masked(msg, key);
    var ext := BigEndian(n, Width(MinimalForm(n)));
    var start: seq<Byte> := [0x81, 128 + Code(MinimalForm(n), n)];
    assert Encode(ClientFrame(msg, key)) == start + ext + (key + body);
    HeadIs(n, key + body);
    Slices(start, ext, key, body);
    forall i | 0 <= i < n ensures body[i] == Xor(msg[i], key[i % 4]) {}
  }

  lemma {:induction false} HeadIs(n: nat, tail: seq<Byte>)
    requires n < 0x8000_0000_0000_0000
    ensures var ext := BigEndian(n, Width(MinimalForm(n)));
      var start: seq<Byte> := [0x81, 128 + Code(MinimalForm(n), n)];
      2 + |ext| == HeadSize(n) && HeadBytes(n, start + ext + tail)
  {
    var ext := BigEndian(n, Width(MinimalForm(n)));
    var frame := [0x81, 128 + Code(MinimalForm(n), n)] + ext + tail;
    LengthBytes(n);
    assert frame[2..2 + |ext|] == ext;
    if |ext| == 2 { assert frame[2..4][0] == ext[0] && frame[2..4][1] == ext[1]; }
  }

  /** The bytes of the length behind the second byte. */
  lemma {:induction false} LengthBytes(n: nat)
    requires n < 0x8000_0000_0000_0000
    ensures var ext := BigEndian(n, Width(MinimalForm(n)));
      && (n <= 125 ==> ext == [])
      && (125 < n <= 65535 ==> |ext| == 2 && 256 * ext[0] as int + ext[1] as int == n)
      && (n > 65535 ==> |ext| == 8 && FromBigEndian(ext) == n)
  {
    if 125 < n <= 65535 {
      TwoBytes(n);
    } else if n > 65535 {
      WidthIsEnough(Long, n);
    }
  }

  lemma {:induction false} Slices(start: seq<Byte>, ext: seq<Byte>, key: seq<Byte>, body: seq<Byte>)
    ensures var all, head := start + ext + (key + body), |start| + |ext|;
      && all[|start|..head] == ext && all[head..head + |key|] == key
      && forall i :: 0 <= i < |body| ==> all[head + |key| + i] == body[i]
  {}

  method WsSendMessage(msg: seq<Byte>, mask: seq<Byte>) returns (frame: seq<Byte>)
    requires |mask| == 4 && |msg| < 0x8000_0000_0000_0000
    ensures frame == Encode(ClientFrame(msg, mask))
    ensures ClientBytes(msg, mask, frame)
  {
    frame := [0x81];
    var msgLen := |msg|;
    if msgLen <= 125 {
      var b := Flagged(msgLen);
      frame := frame + [b];
    } else if msgLen <= 65535 {
      var b := Flagged(126);
      var high := HighByte(msgLen);
      frame := frame + [b] + [high, msgLen % 256];
      TwoBytes(msgLen);
    } else {
      var b := Flagged(127);
      var length := LongLength(msgLen);
      frame := frame + [b] + length;
    }
    assert frame == [0x81] + LengthField(MinimalForm(msgLen), msgLen, 128);
    var body := MaskBody(msg, mask);
    frame := frame + mask;
    frame := frame + body;
    assert frame == Encode(ClientFrame(msg, mask));
    ClientFrameBytes(msg, mask);
  }

  method MaskBody(msg: seq<Byte>, mask: seq<Byte>) returns (body: seq<Byte>)
    requires |mask| == 4
    ensures body == Masked(msg, mask)
  {
    var masked := new Byte[|msg|](i => 0);
    for i := 0 to |msg|
      invariant masked[..i] == Masked(msg, mask)[..i]
    {
      masked[i] := XorByte(msg[i], mask[i % 4]);
    }
    body := masked[..];
  }

  /** `byte(msgLen >> 8)` */
  method HighByte(msgLen: nat) returns (b: Byte)
    ensures b == msgLen / 256 % 256
  {
    Shift8(msgLen);
    b := Shr(msgLen, 8) % 256;
  }

  lemma {:induction false} TwoBytes(n: nat)
    ensures BigEndian(n, 2) == [n / 256 % 256, n % 256]
  {
    assert BigEndian(n / 256, 1) == BigEndian(n / 256 / 256, 0) + [n / 256 % 256];
  }

  /** The writer's loop over the eight length bytes. */
  method LongLength(msgLen: nat) returns (bytes: seq<Byte>)
    ensures bytes == BigEndian(msgLen, 8)
  {
    bytes := [];
    NextByte(msgLen, 7);
    var i := 7;
    while i >= 0
      invariant -1 <= i <= 7
      invariant Shr(msgLen, 8 * (i + 1)) >= 0
      invariant bytes == BigEndian(Shr(msgLen, 8 * (i + 1)), 7 - i)
    {
      NextByte(msgLen, i);
      bytes := bytes + [Shr(msgLen, 8 * i) % 256];
      i := i - 1;
    }
  }

  lemma {:induction false} NextByte(v: nat, i: nat)
    ensures Shr(v, 8 * i) >= 0 && Shr(v, 8 * (i + 1)) == Shr(v, 8 * i) / 256
  {
    ShiftTwice(v, 8 * i, 8);
    Shift8(Shr(v, 8 * i));
    ShrDivides(v, 8 * i);
  }

  /** The frame sent for a message has the shortest length form; a reader stops at its end, and
      unmasking what it finds gives the message. */
  lemma {:induction false} ClientFrameRoundTrip(msg: seq<Byte>, key: seq<Byte>, rest: seq<Byte>, limit: nat)
    requires |key| == 4 && |msg| < 0x8000_0000_0000_0000 && |msg| <= limit
    ensures var frame := Encode(ClientFrame(msg, key));
            && (forall form :: Fits(form, |msg|) ==>
                 |frame| <= |Encode(ClientFrame(msg, key).(form := form))|)
            && ReadFrame(frame + rest, limit).1 == rest
            && ReadFrame(frame + rest, limit).0.Got?
            && Masked(ReadFrame(frame + rest, limit).0.msg, key) == msg
  {
    ReadBack(ClientFrame(msg, key), rest, limit);
    MaskedTwice(msg, key);
  }

  // ----- The receive loop

  /** What a check expects of the first message; `matches` stands for the regular expression engine. */
  datatype Expectation = Expectation(contains: seq<Byte>, pattern: seq<Byte>, matches: (seq<Byte>, seq<Byte>) -> bool)

  predicate Contains(text: seq<Byte>, sub: seq<Byte>) {
    exists i | 0 <= i <= |text| :: OccursAt(text, sub, i)
  }

  /** Whether a non-empty message ends the loop, and how. */
  function Judge(e: Expectation, msg: seq<Byte>): Option<bool> {
    if e.contains != [] then Some(Contains(msg, e.contains))
    else if e.pattern != [] then Some(e.matches(e.pattern, msg))
    else None
  }

  datatype Outcome = Passed | NotPassed | Crashed

  function Verdict(e: Expectation, stream: seq<Byte>, limit: nat): Outcome
    decreases |stream|
  {
    var (r, rest) := ReadFrame(stream, limit);
    if r.Panicked? then Crashed
    else if r.Failed? || r.closed then NotPassed
    else if r.msg == [] then Verdict(e, rest, limit)
    else match Judge(e, r.msg)
      case Some(passed) => if passed then Passed else NotPassed
      case None => Verdict(e, rest, limit)
  }

  method Receive(conn: Conn, e: Expectation, limit: nat) returns (o: Outcome)
    modifies conn
    ensures o == Verdict(e, old(conn.pending), limit)
  {
    while true
      invariant Verdict(e, conn.pending, limit) == Verdict(e, old(conn.pending), limit)
      decreases |conn.pending|
    {
      var r := WsReadFrame(conn, limit);
      if r.Panicked? { return Crashed; }
      if r.Failed? { return NotPassed; }
      if r.closed { return NotPassed; }
      if r.msg == [] { continue; }
      var verdict := Judge(e, r.msg);
      if verdict.Some? { return if verdict.value then Passed else NotPassed; }
    }
  }

  /** A frame that can end the loop when something is expected. */
  predicate Decisive(w: Wire, limit: nat) {
    w.opcode == 8 || |w.payload| > limit || (w.opcode != 9 && w.payload != [])
  }

  /** How a decisive frame ends it. */
  function Decision(e: Expectation, w: Wire, limit: nat): Outcome {
    if |w.payload| > limit then Crashed
    else if w.opcode != 8 && Judge(e, w.payload) == Some(true) then Passed
    else NotPassed
  }

  predicate FirstDecisive(ws: seq<Wire>, k: nat, limit: nat) {
    k < |ws| && Decisive(ws[k], limit) && forall i :: 0 <= i < k ==> !Decisive(ws[i], limit)
  }

  predicate Expecting(e: Expectation) {
    e.contains != [] || e.pattern != []
  }

  lemma {:induction false} VerdictStep(e: Expectation, w: Wire, rest: seq<Byte>, limit: nat)
    requires Expecting(e) && WellFormed(w)
    ensures Verdict(e, Encode(w) + rest, limit) ==
            if Decisive(w, limit) then Decision(e, w, limit) else Verdict(e, rest, limit)
  {
    ReadBack(w, rest, limit);
  }

  /** The outcome is that of the first frame that can decide, and without one the check does not pass. */
  lemma {:induction false} DecidedByFirst(e: Expectation, ws: seq<Wire>, limit: nat)
    requires Expecting(e) && forall w <- ws :: WellFormed(w)
    ensures forall k: nat :: FirstDecisive(ws, k, limit) ==>
      Verdict(e, EncodeAll(ws), limit) == Decision(e, ws[k], limit)
    ensures (forall k: nat :: !FirstDecisive(ws, k, limit)) ==> Verdict(e, EncodeAll(ws), limit) == NotPassed
  {
    if ws == [] {
      assert Verdict(e, [], limit) == NotPassed;
    } else {
      VerdictStep(e, ws[0], EncodeAll(ws[1..]), limit);
      if Decisive(ws[0], limit) {
        assert FirstDecisive(ws, 0, limit);
      } else {
        DecidedByFirst(e, ws[1..], limit);
        forall k: nat | FirstDecisive(ws, k, limit) ensures k > 0 && FirstDecisive(ws[1..], k - 1, limit) {
        }
        forall k: nat | FirstDecisive(ws[1..], k, limit) ensures FirstDecisive(ws, k + 1, limit) {
        }
      }
    }
  }

  /** The check passes exactly when the first frame that can decide is a message that satisfies it. */
  lemma {:induction false} PassesOnFirstDecisive(e: Expectation, ws: seq<Wire>, limit: nat)
    requires Expecting(e) && forall w <- ws :: WellFormed(w)
    ensures Verdict(e, EncodeAll(ws), limit) == Passed <==>
            exists k: nat :: FirstDecisive(ws, k, limit) && Decision(e, ws[k], limit) == Passed
  {
    DecidedByFirst(e, ws, limit);
  }

  function DecisiveOnly(ws: seq<Wire>, limit: nat): (r: seq<Wire>)
    ensures forall w <- r :: w in ws
  {
    if ws == [] then [] else (if Decisive(ws[0], limit) then [ws[0]] else []) + DecisiveOnly(ws[1..], limit)
  }

  /** Pings and empty frames never change the outcome. */
  lemma {:induction false} NoiseIsIgnored(e: Expectation, ws: seq<Wire>, limit: nat)
    requires Expecting(e) && forall w <- ws :: WellFormed(w)
    ensures Verdict(e, EncodeAll(DecisiveOnly(ws, limit)), limit) == Verdict(e, EncodeAll(ws), limit)
  {
    if ws != [] {
      NoiseIsIgnored(e, ws[1..], limit);
      VerdictStep(e, ws[0], EncodeAll(ws[1..]), limit);
      var kept := DecisiveOnly(ws[1..], limit);
      if Decisive(ws[0], limit) {
        assert DecisiveOnly(ws, limit)[1..] == kept;
        VerdictStep(e, ws[0], EncodeAll(kept), limit);
      } else {
        assert DecisiveOnly(ws, limit) == kept;
      }
    }
  }

  /** With nothing expected (a check that only sends), no stream passes. */
  lemma {:induction false} NothingExpected(e: Expectation, stream: seq<Byte>, limit: nat)
    requires !Expecting(e)
    ensures Verdict(e, stream, limit) != Passed
    decreases |stream|
  {
    if ReadFrame(stream, limit).0.Got? {
      NothingExpected(e, ReadFrame(stream, limit).1, limit);
    }
  }

  // ----- Messages of several frames (section 5.4)

  /** What there is to compare with the expectation. */
  datatype Heard = Silence | Heard(text: seq<Byte>)

  /** The check looks at the first frame that says something. */
  function FirstHeard(ws: seq<Wire>, limit: nat): Heard {
    if ws == [] then Silence
    else if Decisive(ws[0], limit) then
      (if ws[0].opcode == 8 || |ws[0].payload| > limit then Silence else Heard(ws[0].payload))
    else FirstHeard(ws[1..], limit)
  }

  /** The message a reader has begun: whether it is text, and the fragments so far. */
  datatype Open = Idle | Begun(text: bool, soFar: seq<Byte>)

  /** Frames on which a client fails the connection: masked ones (section 5.1), reserved bits and opcodes
      (section 5.2), fragmented or long control frames (section 5.5), and data frames out of sequence
      (section 5.4).  A length in a longer form than needed binds only the sender. */
  predicate Refused(w: Wire, o: Open) {
    || w.key.Some? || w.rsv != 0
    || 3 <= w.opcode <= 7 || w.opcode >= 11
    || (w.opcode >= 8 && (!w.fin || |w.payload| > 125))
    || (w.opcode == 0 && o.Idle?)
    || (1 <= w.opcode <= 2 && o.Begun?)
  }

  /** The message with this data frame. */
  function Extended(o: Open, w: Wire): (m: Open)
    ensures m.Begun?
  {
    match o
    case Begun(text, soFar) => Begun(text, soFar + w.payload)
    case Idle => Begun(w.opcode == 1, w.payload)
  }

  /** What is begun after a frame that is not refused. */
  function Afterwards(o: Open, w: Wire): Open {
    if w.opcode >= 8 then o else if w.fin then Idle else Extended(o, w)
  }

  /** A client of the standard looks at the first non-empty message: it puts the fragments together, passes
      over control frames, which may come in between, and hears nothing more once the connection is closed
      or fails.  Text that is not valid UTF-8 makes it fail, too (section 8.1). */
  function FirstMessage(ws: seq<Wire>, o: Open, utf8: seq<Byte> -> bool): Heard {
    if ws == [] || ws[0].opcode == 8 || Refused(ws[0], o) then Silence
    else
      var w, m := ws[0], Extended(o, ws[0]);
      if w.opcode > 8 || !w.fin || m.soFar == [] then FirstMessage(ws[1..], Afterwards(o, w), utf8)
      else if m.text && !utf8(m.soFar) then Silence
      else Heard(m.soFar)
  }

  predicate Accepts(e: Expectation, h: Heard) {
    h.Heard? && Judge(e, h.text) == Some(true)
  }

  lemma {:induction false} PassesOnHeard(e: Expectation, ws: seq<Wire>, limit: nat)
    requires Expecting(e) && forall w <- ws :: WellFormed(w)
    ensures Verdict(e, EncodeAll(ws), limit) == Passed <==> Accepts(e, FirstHeard(ws, limit))
  {
    if ws == [] {
      assert Verdict(e, [], limit) == NotPassed;
    } else {
      VerdictStep(e, ws[0], EncodeAll(ws[1..]), limit);
      PassesOnHeard(e, ws[1..], limit);
    }
  }

  /** The check agrees with a client of the standard on every text it may be asked to find if and only if the
      first frame that says something is the whole of the first message. */
  lemma {:induction false} AgreesIff(ws: seq<Wire>, limit: nat, utf8: seq<Byte> -> bool)
    requires forall w <- ws :: WellFormed(w)
    ensures FirstHeard(ws, limit) == FirstMessage(ws, Idle, utf8) <==>
      forall e: Expectation :: e.contains != [] ==>
        (Verdict(e, EncodeAll(ws), limit) == Passed <==> Accepts(e, FirstMessage(ws, Idle, utf8)))
  {
    var frame, message := FirstHeard(ws, limit), FirstMessage(ws, Idle, utf8);
    forall e: Expectation | e.contains != []
      ensures Verdict(e, EncodeAll(ws), limit) == Passed <==> Accepts(e, frame)
    {
      PassesOnHeard(e, ws, limit);
    }
    if frame != message {
      HeardSomething(ws, limit);
      MessageSaysSomething(ws, Idle, utf8);
      var e := TellApart(frame, message);
      assert Accepts(e, frame) != Accepts(e, message);
    }
  }

  lemma {:induction false} HeardSomething(ws: seq<Wire>, limit: nat)
    ensures FirstHeard(ws, limit).Heard? ==> FirstHeard(ws, limit).text != []
  {
    if ws != [] { HeardSomething(ws[1..], limit); }
  }

  lemma {:induction false} MessageSaysSomething(ws: seq<Wire>, o: Open, utf8: seq<Byte> -> bool)
    ensures FirstMessage(ws, o, utf8).Heard? ==> FirstMessage(ws, o, utf8).text != []
    decreases |ws|
  {
    if ws != [] { MessageSaysSomething(ws[1..], Afterwards(o, ws[0]), utf8); }
  }

  /** Two different texts: one of them does not contain the other. */
  lemma {:induction false} TellApart(a: Heard, b: Heard) returns (e: Expectation)
    requires a != b && (a.Heard? ==> a.text != []) && (b.Heard? ==> b.text != [])
    ensures e.contains != [] && Accepts(e, a) != Accepts(e, b)
  {
    var long := if a.Silence? || (b.Heard? && |b.text| > |a.text|) then b.text else a.text;
    e := Expectation(long, [], (x: seq<Byte>, y: seq<Byte>) => false);
    assert OccursAt(long, long, 0);
    assert Contains(long, long);
  }

  /** None of the frames is refused. */
  predicate AllAccepted(ws: seq<Wire>, o: Open) {
    ws == [] || (!Refused(ws[0], o) && AllAccepted(ws[1..], Afterwards(o, ws[0])))
  }

  /** What is begun after all of the frames. */
  function AfterAll(ws: seq<Wire>, o: Open): Open {
    if ws == [] then o else AfterAll(ws[1..], Afterwards(o, ws[0]))
  }

  /** Frame `k` is final text or binary data, a client accepts it and all frames before it, and text is
      valid. */
  predicate WholeMessage(ws: seq<Wire>, k: nat, o: Open, limit: nat, utf8: seq<Byte> -> bool) {
    && k < |ws| && ws[k].opcode < 8 && ws[k].fin && |ws[k].payload| <= limit
    && AllAccepted(ws[..k + 1], o)
    && (Extended(AfterAll(ws[..k], o), ws[k]).text ==> utf8(ws[k].payload))
  }

  /** In particular when that frame is a close, or is final in an accepted stream: what came before it was
      empty. */
  lemma {:induction false} FinalFrameIsMessage(ws: seq<Wire>, k: nat, limit: nat, utf8: seq<Byte> -> bool)
    requires FirstDecisive(ws, k, limit)
    requires ws[k].opcode == 8 || WholeMessage(ws, k, Idle, limit, utf8)
    ensures FirstHeard(ws, limit) == FirstMessage(ws, Idle, utf8)
  {
    FinalFrameFrom(ws, k, Idle, limit, utf8);
  }

  lemma {:induction false} HeardAtFirst(ws: seq<Wire>, k: nat, limit: nat)
    requires FirstDecisive(ws, k, limit)
    ensures FirstHeard(ws, limit) ==
      if ws[k].opcode == 8 || |ws[k].payload| > limit then Silence else Heard(ws[k].payload)
    decreases k
  {
    if k > 0 {
      assert FirstDecisive(ws[1..], k - 1, limit);
      HeardAtFirst(ws[1..], k - 1, limit);
    }
  }

  lemma {:induction false} FinalFrameFrom(ws: seq<Wire>, k: nat, o: Open, limit: nat, utf8: seq<Byte> -> bool)
    requires FirstDecisive(ws, k, limit) && (o.Begun? ==> o.soFar == [])
    requires ws[k].opcode == 8 || WholeMessage(ws, k, o, limit, utf8)
    ensures FirstHeard(ws, limit) == FirstMessage(ws, o, utf8)
    decreases k
  {
    HeardAtFirst(ws, k, limit);
    assert [] + ws[0].payload == ws[0].payload;
    if k > 0 {
      assert !Decisive(ws[0], limit);
      assert FirstDecisive(ws[1..], k - 1, limit);
      assert ws[..k + 1][1..] == ws[1..][..k] && ws[..k][1..] == ws[1..][..k - 1];
      FinalFrameFrom(ws[1..], k - 1, Afterwards(o, ws[0]), limit, utf8);
    } else {
      assert ws[..0] == [];
    }
  }

  /** A text sent in two frames: the check sees only the first part. */
  lemma {:induction false} SplitTextIsMissed(a: seq<Byte>, b: seq<Byte>, limit: nat, utf8: seq<Byte> -> bool)
    requires 0 < |a| <= 125 && 0 < |b| <= 125 && |a| + |b| <= limit && utf8(a + b)
    ensures var ws := [Wire(false, 0, 1, Short, None, a), Wire(true, 0, 0, Short, None, b)];
            FirstHeard(ws, limit) == Heard(a) && FirstMessage(ws, Idle, utf8) == Heard(a + b)
  {
    var ws := [Wire(false, 0, 1, Short, None, a), Wire(true, 0, 0, Short, None, b)];
    assert ws[1..][0].payload == b;
    assert FirstMessage(ws[1..], Begun(true, a), utf8) == Heard(a + b);
  }

  /** A masked text: a client of the standard fails the connection; the check compares the masked bytes. */
  lemma {:induction false} MaskedTextIsMisread(text: seq<Byte>, key: seq<Byte>, limit: nat, utf8: seq<Byte> -> bool)
    requires |key| == 4 && 0 < |text| <= 125 && |text| <= limit
    ensures var ws := [Wire(true, 0, 1, Short, Some(key), Masked(text, key))];
            FirstHeard(ws, limit) == Heard(Masked(text, key)) && FirstMessage(ws, Idle, utf8) == Silence
  {}

  // ----- The client of the standard, told from the frames

  /** A ping or a pong as a server may send it at any place. */
  predicate Interjection(w: Wire) {
    w.key.None? && w.rsv == 0 && w.opcode in {9, 10} && w.fin && |w.payload| <= 125
  }

  predicate DataFrame(w: Wire) {
    w.key.None? && w.rsv == 0 && w.opcode in {0, 1, 2}
  }

  /** What the data frames carry, one after the other. */
  function DataOf(ws: seq<Wire>): seq<Byte> {
    if ws == [] then [] else (if DataFrame(ws[0]) then ws[0].payload else []) + DataOf(ws[1..])
  }

  /** The fragments of one message, the last frame being the last of them, with pings and pongs in between. */
  predicate Fragments(ws: seq<Wire>) {
    && ws != [] && DataFrame(ws[|ws| - 1]) && ws[|ws| - 1].fin
    && forall i :: 0 <= i < |ws| - 1 ==> Interjection(ws[i]) || (DataFrame(ws[i]) && !ws[i].fin)
  }

  predicate Continuing(ws: seq<Wire>) {
    forall i :: 0 <= i < |ws| && DataFrame(ws[i]) ==> ws[i].opcode == 0
  }

  /** One frame of a begun message. */
  lemma {:induction false} NextIsHeard(w: Wire, rest: seq<Wire>, text: bool, soFar: seq<Byte>, utf8: seq<Byte> -> bool)
    requires Interjection(w) || (DataFrame(w) && w.opcode == 0)
    ensures var heard := FirstMessage([w] + rest, Begun(text, soFar), utf8);
            var m := soFar + w.payload;
            if Interjection(w) then heard == FirstMessage(rest, Begun(text, soFar), utf8)
            else if !w.fin then heard == FirstMessage(rest, Begun(text, m), utf8)
            else m != [] ==> heard == Expected(text, m, utf8)
  {
    assert ([w] + rest)[0] == w && ([w] + rest)[1..] == rest;
  }

  lemma {:induction false} LaterFragments(ws: seq<Wire>)
    requires Fragments(ws) && |ws| > 1
    ensures Fragments(ws[1..]) && (Continuing(ws) ==> Continuing(ws[1..]))
    ensures Interjection(ws[0]) || (DataFrame(ws[0]) && !ws[0].fin)
    ensures DataOf(ws) == if DataFrame(ws[0]) then ws[0].payload + DataOf(ws[1..]) else DataOf(ws[1..])
  {
    assert forall i :: 0 <= i < |ws| - 1 ==> ws[1..][i] == ws[i + 1];
  }

  lemma {:induction false} LastFragment(ws: seq<Wire>)
    requires Fragments(ws) && |ws| == 1
    ensures DataFrame(ws[0]) && ws[0].fin && DataOf(ws) == ws[0].payload && ws == [ws[0]]
  {
    assert DataOf(ws[1..]) == [] && ws[0].payload + [] == ws[0].payload;
  }

  lemma {:induction false} Front<T>(ws: seq<T>, more: seq<T>)
    requires ws != []
    ensures ws + more == [ws[0]] + (ws[1..] + more)
  {}

  function Expected(text: bool, m: seq<Byte>, utf8: seq<Byte> -> bool): Heard {
    if text && !utf8(m) then Silence else Heard(m)
  }

  lemma {:induction false} RestIsHeard(ws: seq<Wire>, more: seq<Wire>, text: bool, soFar: seq<Byte>,
                                       utf8: seq<Byte> -> bool)
    requires Fragments(ws) && Continuing(ws) && soFar + DataOf(ws) != []
    ensures FirstMessage(ws + more, Begun(text, soFar), utf8) == Expected(text, soFar + DataOf(ws), utf8)
    decreases |ws|
  {
    var w, rest := ws[0], ws[1..];
    Front(ws, more);
    if |ws| == 1 {
      LastFragment(ws);
      NextIsHeard(w, rest + more, text, soFar, utf8);
    } else {
      LaterFragments(ws);
      NextIsHeard(w, rest + more, text, soFar, utf8);
      var m := if DataFrame(w) then soFar + w.payload else soFar;
      Regroup(soFar, w.payload, DataOf(rest));
      assert m + DataOf(rest) == soFar + DataOf(ws);
      RestIsHeard(rest, more, text, m, utf8);
    }
  }

  /** A client puts a message in any number of fragments together, whatever follows it; text must be valid. */
  lemma {:induction false} FragmentsAreHeard(ws: seq<Wire>, more: seq<Wire>, utf8: seq<Byte> -> bool)
    requires Fragments(ws) && ws[0].opcode in {1, 2} && Continuing(ws[1..]) && DataOf(ws) != []
    ensures FirstMessage(ws + more, Idle, utf8) ==
      if ws[0].opcode == 1 && !utf8(DataOf(ws)) then Silence else Heard(DataOf(ws))
  {
    var w, rest := ws[0], ws[1..];
    assert (ws + more)[0] == w && (ws + more)[1..] == rest + more;
    if |ws| == 1 {
      LastFragment(ws);
    } else {
      LaterFragments(ws);
      RestIsHeard(rest, more, w.opcode == 1, w.payload, utf8);
    }
  }

  /** Frames after which a client hears nothing, whatever follows. */
  lemma {:induction false} ConnectionFails(w: Wire, more: seq<Wire>, o: Open, utf8: seq<Byte> -> bool)
    requires || w.key.Some? || w.rsv != 0 || w.opcode !in {0, 1, 2, 8, 9, 10}
             || (w.opcode in {9, 10} && (!w.fin || |w.payload| >= 126)) || w.opcode == 8
             || (w.opcode == 0 && o == Idle) || (w.opcode in {1, 2} && o != Idle)
    ensures FirstMessage([w] + more, o, utf8) == Silence
  {}

  // ----- The expectation, told from the payload

  lemma {:induction false} ContainsIff(text: seq<Byte>, sub: seq<Byte>)
    ensures Contains(text, sub) <==> exists a, b :: text == a + sub + b
  {
    if Contains(text, sub) {
      var i :| 0 <= i <= |text| && OccursAt(text, sub, i);
      assert text == text[..i] + sub + text[i + |sub|..];
    }
    if a, b :| text == a + sub + b {
      assert OccursAt(text, sub, |a|);
    }
  }

  /** The first frame that says something is a message: with a text to find, the check passes exactly when the
      message is that text with something before and behind it; otherwise when the pattern matches. */
  lemma {:induction false} PassesIffFound(e: Expectation, ws: seq<Wire>, k: nat, limit: nat)
    requires forall w <- ws :: WellFormed(w)
    requires k < |ws| && ws[k].opcode != 8 && ws[k].opcode != 9 && 0 < |ws[k].payload| <= limit
    requires forall i :: 0 <= i < k ==>
      ws[i].opcode != 8 && |ws[i].payload| <= limit && (ws[i].opcode == 9 || ws[i].payload == [])
    ensures e.contains != [] ==>
      (Verdict(e, EncodeAll(ws), limit) == Passed <==> exists a, b :: ws[k].payload == a + e.contains + b)
    ensures e.contains == [] && e.pattern != [] ==>
      (Verdict(e, EncodeAll(ws), limit) == Passed <==> e.matches(e.pattern, ws[k].payload))
    ensures Expecting(e) ==> Verdict(e, EncodeAll(ws), limit) != Crashed
  {
    assert FirstDecisive(ws, k, limit);
    if Expecting(e) { DecidedByFirst(e, ws, limit); }
    ContainsIff(ws[k].payload, e.contains);
  }

  /** A close before anything is said, or the end of the stream, and the check does not pass; a frame that no
      slice can hold, and it panics. */
  lemma {:induction false} NotPassedOnClose(e: Expectation, ws: seq<Wire>, k: nat, limit: nat)
    requires Expecting(e) && forall w <- ws :: WellFormed(w)
    requires k <= |ws| && forall i :: 0 <= i < k ==>
      ws[i].opcode != 8 && |ws[i].payload| <= limit && (ws[i].opcode == 9 || ws[i].payload == [])
    ensures k == |ws| ==> Verdict(e, EncodeAll(ws), limit) == NotPassed
    ensures k < |ws| && |ws[k].payload| <= limit && ws[k].opcode == 8 ==> Verdict(e, EncodeAll(ws), limit) == NotPassed
    ensures k < |ws| && |ws[k].payload| > limit ==> Verdict(e, EncodeAll(ws), limit) == Crashed
  {
    DecidedByFirst(e, ws, limit);
    if k < |ws| && (ws[k].opcode == 8 || |ws[k].payload| > limit) { assert FirstDecisive(ws, k, limit); }
  }

  // ----- Streams that end early, and lengths beyond 63 bits

  /** A frame that breaks off is an error, not a shorter message. */
  lemma {:induction false} BrokenOffFails(w: Wire, n: nat, limit: nat)
    requires WellFormed(w) && n < |Encode(w)| && |w.payload| <= limit
    ensures ReadFrame(Encode(w)[..n], limit).0.Failed?
  {
    var cut := Encode(w)[..n];
    var field, more := LengthField(w.form, |w.payload|, MaskBit(w.key)), KeyField(w.key) + w.payload;
    assert Encode(w) == [FirstByte(w)] + field + more;
    if n >= 1 + |field| {
      var tail := more[..n - 1 - |field|];
      assert cut == [FirstByte(w)] + field + tail;
      ReadLengthOf(FirstByte(w), w.form, |w.payload|, MaskBit(w.key), tail);
      assert cut[1] == field[0];
    } else if n >= 2 {
      assert cut == ([FirstByte(w)] + field)[..n];
      LengthBrokenOff(FirstByte(w), w.form, |w.payload|, MaskBit(w.key), n);
    }
  }

  lemma {:induction false} LengthBrokenOff(first: Byte, form: Form, n: nat, maskBit: nat, k: nat)
    requires Fits(form, n) && maskBit in {0, 128} && 2 <= k <= |LengthField(form, n, maskBit)|
    ensures ReadLength(([first] + LengthField(form, n, maskBit))[..k]) == None
  {
    var cut := ([first] + LengthField(form, n, maskBit))[..k];
    assert cut[1] == LengthField(form, n, maskBit)[0] == maskBit + Code(form, n);
    assert cut[1] % 128 == Code(form, n);
  }

  /** A length of 2^63 or more is negative in the source, which then takes the payload to be empty. */
  lemma {:induction false} NegativeLengthIsEmpty(first: Byte, ext: seq<Byte>, rest: seq<Byte>, limit: nat)
    requires |ext| == 8 && ext[0] >= 128
    ensures ReadFrame([first, 127] + ext + rest, limit) == (Got([], first % 16 == 8), rest)
  {
    var stream := [first, 127] + ext + rest;
    assert stream[2..10] == ext && stream[10..] == rest;
    TopByte(ext);
  }

  lemma {:induction false} TopByte(ext: seq<Byte>)
    requires |ext| == 8 && ext[0] >= 128
    ensures 0x8000_0000_0000_0000 <= FromBigEndian(ext) < 0x1_0000_0000_0000_0000
  {
    LeadingByte(ext);
    Pow2Of64();
    assert Pow2(64) == 256 * Pow2(56) by { Pow2Step8(64); }
  }

  lemma {:induction false} Weigh(lead: int, p: int, q: int, value: int, last: int)
    requires q == 256 * p && lead * p <= value < q && 0 <= last < 256
    ensures lead * q <= 256 * value + last < 256 * q
  {
    assert lead * q == 256 * (lead * p);
  }

  /** The first byte counts in units of the power of the others. */
  lemma {:induction false} LeadingByte(bs: seq<Byte>)
    requires bs != []
    ensures bs[0] as int * Pow2(8 * (|bs| - 1)) <= FromBigEndian(bs) < Pow2(8 * |bs|)
    decreases |bs|
  {
    var n := |bs| - 1;
    Pow2Step8(8 * |bs|);
    if n == 0 {
      assert FromBigEndian(bs[..0]) == 0;
      assert Pow2(0) == 1;
    } else {
      LeadingByte(bs[..n]);
      Pow2Step8(8 * n);
      Weigh(bs[0] as int, Pow2(8 * n - 8), Pow2(8 * n), FromBigEndian(bs[..n]), bs[n] as int);
    }
  }
}
