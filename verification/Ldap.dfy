/** The LDAP simple bind check: the BindRequest it sends and how it reads the answer. */
module Ldap {
  import opened Bits
  import opened Options

  // ----- BER elements (definite lengths only, section 5.1 of RFC 4511)

  /** An element in the short form of length. */
  function Tlv(tag: Byte, content: seq<Byte>): (bs: seq<Byte>)
    requires |content| < 128
    ensures |bs| == 2 + |content|
  {
    [tag, |content|] + content
  }

  datatype Element = Element(tag: Byte, content: seq<Byte>, rest: seq<Byte>)

  /** The element at the head of `bs`, with short or long form of length. */
  function ReadElement(bs: seq<Byte>): Option<Element> {
    if |bs| < 2 then None
    else if bs[1] < 128 then
      (if |bs| < 2 + bs[1] then None else Some(Element(bs[0], bs[2..2 + bs[1]], bs[2 + bs[1]..])))
    else
      var k := bs[1] as int - 128;
      if k == 0 || |bs| < 2 + k then None
      else
        var n := FromBigEndian(bs[2..2 + k]);
        if |bs| < 2 + k + n then None
        else Some(Element(bs[0], bs[2 + k..2 + k + n], bs[2 + k + n..]))
  }

  /** Reads the element at the head and insists on its tag. */
  function Expect(tag: Byte, bs: seq<Byte>): Option<Element> {
    match ReadElement(bs)
    case None => None
    case Some(e) => if e.tag == tag then Some(e) else None
  }

  lemma {:induction false} ReadTlv(tag: Byte, content: seq<Byte>, rest: seq<Byte>)
    requires |content| < 128
    ensures Expect(tag, Tlv(tag, content) + rest) == Some(Element(tag, content, rest))
  {
    var bs := Tlv(tag, content) + rest;
    assert bs[2..2 + |content|] == content && bs[2 + |content|..] == rest;
  }

  // ----- The request

  datatype Bind = Bind(messageId: nat, version: nat, dn: seq<Byte>, password: seq<Byte>)

  /** A non-negative INTEGER (universal tag 2). */
  function ReadNat(content: seq<Byte>): Option<nat> {
    if content == [] || content[0] >= 128 then None else Some(FromBigEndian(content))
  }

  /** A BindRequest with simple authentication (sections 4.1.1 and 4.2 of RFC 4511), nothing left over. */
  function DecodeBind(bs: seq<Byte>): Option<Bind> {
    match Expect(0x30, bs)
    case None => None
    case Some(message) =>
      match Expect(0x02, message.content)
      case None => None
      case Some(id) =>
        match Expect(0x60, id.rest)
        case None => None
        case Some(request) =>
          match (ReadNat(id.content), DecodeRequest(request.content))
          case (Some(n), Some((version, dn, password))) =>
            if message.rest == [] && request.rest == [] then Some(Bind(n, version, dn, password)) else None
          case _ => None
  }

  function DecodeRequest(bs: seq<Byte>): Option<(nat, seq<Byte>, seq<Byte>)> {
    match Expect(0x02, bs)
    case None => None
    case Some(version) =>
      match Expect(0x04, version.rest)
      case None => None
      case Some(name) =>
        match Expect(0x80, name.rest)
        case None => None
        case Some(simple) =>
          match ReadNat(version.content)
          case None => None
          case Some(v) => if simple.rest == [] then Some((v, name.content, simple.content)) else None
  }

  function RequestBody(dn: seq<Byte>, password: seq<Byte>): seq<Byte>
    requires |dn| < 128 && |password| < 128
  {
    Tlv(0x02, [3]) + (Tlv(0x04, dn) + Tlv(0x80, password))
  }

  /** What is sent: `None` when the message is refused as too long. */
  function BindMessage(dn: seq<Byte>, password: seq<Byte>): Option<seq<Byte>> {
    if |dn| + |password| > 115 then None
    else Some(Tlv(0x30, Tlv(0x02, [1]) + Tlv(0x60, RequestBody(dn, password))))
  }

  method AuthChoice(password: seq<Byte>) returns (choice: seq<Byte>)
    ensures |password| < 128 ==> choice == Tlv(0x80, password)
    ensures |choice| >= 2 + |password|
  {
    var n := |password|;
    var header: seq<Byte>;
    if n <= 127 {
      header := [0x80, n];
    } else if n <= 255 {
      header := [0x80, 0x81, n];
    } else {
      Shift8(n);
      header := [0x80, 0x82, Shr(n, 8) % 256, n % 256];
    }
    var bytes := new Byte[|header| + n](i => 0);
    forall i | 0 <= i < |header| { bytes[i] := header[i]; }
    forall i | 0 <= i < n { bytes[|header| + i] := password[i]; }
    choice := bytes[..];
    assert choice == header + password;
  }

  /** The request of the check: the lengths are written as single bytes whatever they are, and the
      guard at the end decides whether the result is sent. */
  method BindRequest(dn: seq<Byte>, password: seq<Byte>) returns (message: Option<seq<Byte>>)
    ensures message == BindMessage(dn, password)
    ensures message.Some? ==> var n := |dn| + |password|;
      message.value ==
        [0x30, 12 + n, 0x02, 1, 1, 0x60, 7 + n, 0x02, 1, 3, 0x04, |dn|] + dn + [0x80, |password|] + password
  {
    if |dn| + |password| <= 115 { BindBytes(dn, password); }
    var authChoice := AuthChoice(password);
    var nameTlv: seq<Byte> := [0x04, |dn| % 256] + dn;
    var versionTlv: seq<Byte> := [0x02, 0x01, 0x03];
    var bindBody := versionTlv + nameTlv + authChoice;
    var bindRequest: seq<Byte> := [0x60, |bindBody| % 256] + bindBody;
    var msgIdTlv: seq<Byte> := [0x02, 0x01, 0x01];
    var msgBody := msgIdTlv + bindRequest;
    if |msgBody| > 127 {
      return None;
    }
    assert bindBody == RequestBody(dn, password);
    assert bindRequest == Tlv(0x60, bindBody);
    assert msgBody == Tlv(0x02, [1]) + Tlv(0x60, bindBody);
    message := Some([0x30, |msgBody|] + msgBody);
  }

  lemma {:induction false} BindBytes(dn: seq<Byte>, password: seq<Byte>)
    requires |dn| + |password| <= 115
    ensures var n := |dn| + |password|;
      BindMessage(dn, password) ==
        Some([0x30, 12 + n, 0x02, 1, 1, 0x60, 7 + n, 0x02, 1, 3, 0x04, |dn|] + dn + [0x80, |password|] + password)
  {
    var n, tail := |dn| + |password|, [0x04, |dn|] + dn + [0x80, |password|] + password;
    var body := RequestBody(dn, password);
    assert body == [0x02, 1, 3] + tail;
    assert |body| == 7 + n;
    var op := Tlv(0x60, body);
    assert op == [0x60, 7 + n] + body;
    var inner := [0x02, 1, 1] + op;
    assert Tlv(0x02, [1]) + op == inner && |inner| == 12 + n;
    assert Tlv(0x30, inner) == [0x30, 12 + n] + inner;
    assert BindMessage(dn, password) == Some(Tlv(0x30, inner));
    assert Tlv(0x30, inner) ==
      [0x30, 12 + n, 0x02, 1, 1, 0x60, 7 + n, 0x02, 1, 3, 0x04, |dn|] + dn + [0x80, |password|] + password;
  }

  lemma {:induction false} RequestRoundTrip(dn: seq<Byte>, password: seq<Byte>)
    requires |dn| < 128 && |password| < 128
    ensures DecodeRequest(RequestBody(dn, password)) == Some((3, dn, password))
  {
    ReadTlv(0x02, [3], Tlv(0x04, dn) + Tlv(0x80, password));
    ReadTlv(0x04, dn, Tlv(0x80, password));
    ReadTlv(0x80, password, []);
    assert Tlv(0x80, password) + [] == Tlv(0x80, password);
    assert FromBigEndian([3]) == 3;
  }

  /** A request is sent exactly when name and password together have at most 115 bytes, and the
      server then reads message 1, version 3, that name and that password, with nothing left over. */
  lemma {:induction false} BindRoundTrip(dn: seq<Byte>, password: seq<Byte>)
    ensures BindMessage(dn, password).Some? <==> |dn| + |password| <= 115
    ensures BindMessage(dn, password).Some? ==>
            DecodeBind(BindMessage(dn, password).value) == Some(Bind(1, 3, dn, password))
  {
    if |dn| + |password| <= 115 {
      var request := Tlv(0x60, RequestBody(dn, password));
      var body := Tlv(0x02, [1]) + request;
      ReadTlv(0x30, body, []);
      assert Tlv(0x30, body) + [] == Tlv(0x30, body);
      ReadTlv(0x02, [1], request);
      ReadTlv(0x60, RequestBody(dn, password), []);
      assert request + [] == request;
      RequestRoundTrip(dn, password);
      assert FromBigEndian([1]) == 1;
    }
  }

  // ----- The response

  datatype Outcome = ReadError | WrongTag | Unexpected | ResultCode(code: int)

  const BUFFER := 1024

  /** First index in `from..|buf|-2` where an ENUMERATED of length 1 seems to start; its value, or -1. */
  function ScanFrom(buf: seq<Byte>, from: nat): int
    decreases |buf| - from
  {
    if from + 2 >= |buf| then -1
    else if buf[from] == 0x0A && buf[from + 1] == 0x01 then buf[from + 2]
    else ScanFrom(buf, from + 1)
  }

  function Judge(buf: seq<Byte>): Outcome {
    if |buf| < 8 then ReadError
    else if buf[0] != 0x30 then WrongTag
    else if buf[5] == 0x61 && |buf| > 8 then ResultCode(ScanFrom(buf, 6))
    else Unexpected
  }

  /** The first place behind the tag where an ENUMERATED of length 1 seems to start. */
  predicate FirstMark(received: seq<Byte>, k: nat) {
    && 6 <= k && k + 2 < |received| && received[k] == 0x0A && received[k + 1] == 0x01
    && forall i :: 6 <= i < k ==> received[i] != 0x0A || received[i + 1] != 0x01
  }

  lemma {:induction false} ScanIsMark(received: seq<Byte>)
    ensures forall k: nat :: FirstMark(received, k) ==> ScanFrom(received, 6) == received[k + 2] as int
    ensures (forall k: nat :: !FirstMark(received, k)) ==> ScanFrom(received, 6) == -1
  {
    forall k: nat | FirstMark(received, k) ensures ScanFrom(received, 6) == received[k + 2] as int {
      forall i | 6 <= i < k ensures !Start(received, i) {}
      ScanSkips(received, 6, k);
    }
    if ScanFrom(received, 6) != -1 {
      var k := ScanFinds(received, 6);
      forall i | 6 <= i < k ensures received[i] != 0x0A || received[i + 1] != 0x01 {
        assert !Start(received, i);
      }
      assert FirstMark(received, k);
    }
  }

  /** `received` is what one read of the connection returned; the check passes on result code 0. */
  method JudgeResponse(received: seq<Byte>) returns (o: Outcome, passed: bool)
    ensures o == Judge(received)
    ensures passed <==> o == ResultCode(0)
    ensures o == ReadError <==> |received| < 8
    ensures o == WrongTag <==> |received| >= 8 && received[0] != 0x30
    ensures o == Unexpected <==> |received| >= 8 && received[0] == 0x30 && (received[5] != 0x61 || |received| == 8)
    ensures forall k: nat :: FirstMark(received, k) && o.ResultCode? ==> o.code == received[k + 2] as int
    ensures (forall k: nat :: !FirstMark(received, k)) && o.ResultCode? ==> o.code == -1
  {
    ScanIsMark(received);
    o := Answer(received);
    passed := o == ResultCode(0);
  }

  method Answer(received: seq<Byte>) returns (o: Outcome)
    ensures o == Judge(received)
  {
    var n := |received|;
    if n < 8 { return ReadError; }
    if received[0] != 0x30 { return WrongTag; }
    if n > 5 && received[5] == 0x61 {
      if n > 8 {
        var resultCode := -1;
        var i := 6;
        while i < n - 2
          invariant 6 <= i <= n - 2
          invariant ScanFrom(received, 6) == ScanFrom(received, i)
          invariant resultCode == -1
        {
          if received[i] == 0x0A && received[i + 1] == 0x01 {
            resultCode := received[i + 2] as int;
            break;
          }
          i := i + 1;
        }
        return ResultCode(resultCode);
      }
    }
    return Unexpected;
  }

  /** A response in short forms throughout, to message `id`: the result code, the fields that follow it,
      and the controls. */
  function ShortBody(id: Byte, code: Byte, fields: seq<Byte>, controls: seq<Byte>): seq<Byte>
    requires |fields| < 125
  {
    Tlv(0x02, [id]) + (Tlv(0x61, Tlv(0x0A, [code]) + fields) + controls)
  }

  /** In short form the check finds the result code the server sent. */
  lemma {:induction false} ResponseCodeFound(id: Byte, code: Byte, fields: seq<Byte>, controls: seq<Byte>)
    requires |fields| < 125 && |ShortBody(id, code, fields, controls)| < 128
    ensures Judge(Tlv(0x30, ShortBody(id, code, fields, controls))) == ResultCode(code as int)
  {
    var body := ShortBody(id, code, fields, controls);
    var buf := Tlv(0x30, body);
    assert buf[2..] == body;
    assert body == [0x02, 0x01, id, 0x61, 3 + |fields|, 0x0A, 0x01, code] + fields + controls;
    assert buf[5] == 0x61 && buf[6] == 3 + |fields| && buf[7] == 0x0A && buf[8] == 0x01 && buf[9] == code;
    assert ScanFrom(buf, 7) == code as int;
    assert ScanFrom(buf, 6) == ScanFrom(buf, 7);
  }

  // ----- What a server may send

  /** The length octets `ls` say `n`: one byte below 128, or a count of bytes and a big-endian number, which
      section 5.1 of RFC 4511 does not require to be the shortest. */
  predicate IsLength(ls: seq<Byte>, n: nat) {
    || (|ls| == 1 && ls[0] < 128 && n == ls[0])
    || (2 <= |ls| <= 127 && ls[0] as int == 127 + |ls| && FromBigEndian(ls[1..]) == n)
  }

  /** A BindResponse to message 1 with any definite length octets: of the message, of its id, of the
      response and of the result code; then the fields that follow the code, and the controls. */
  datatype Response = Response(outer: seq<Byte>, idLength: seq<Byte>, inner: seq<Byte>, codeLength: seq<Byte>,
                               code: seq<Byte>, fields: seq<Byte>, controls: seq<Byte>)

  function ResultContent(r: Response): seq<Byte> {
    [0x0A] + r.codeLength + r.code + r.fields
  }

  function ResponseBody(r: Response): seq<Byte> {
    [0x02] + r.idLength + [1] + ([0x61] + r.inner + ResultContent(r) + r.controls)
  }

  function Message(r: Response): seq<Byte> {
    [0x30] + r.outer + ResponseBody(r)
  }

  predicate WellFormed(r: Response) {
    && IsLength(r.outer, |ResponseBody(r)|) && IsLength(r.idLength, 1)
    && IsLength(r.inner, |ResultContent(r)|) && IsLength(r.codeLength, |r.code|)
    && r.code != [] && r.code[0] < 128
  }

  function Code(r: Response): nat {
    FromBigEndian(r.code)
  }

  /** What one read returns. */
  function Received(message: seq<Byte>): seq<Byte> {
    if |message| <= BUFFER then message else message[..BUFFER]
  }

  lemma {:induction false} ReadAny(tag: Byte, ls: seq<Byte>, content: seq<Byte>, rest: seq<Byte>)
    requires IsLength(ls, |content|)
    ensures Expect(tag, [tag] + ls + content + rest) == Some(Element(tag, content, rest))
  {
    var bs := [tag] + ls + content + rest;
    var n := 1 + |ls|;
    assert bs[1] == ls[0];
    assert bs[n..n + |content|] == content && bs[n + |content|..] == rest;
    if |ls| > 1 {
      assert bs[2..n] == ls[1..];
    }
  }

  /** The result code as a reader of the standard finds it. */
  function DecodeResponse(bs: seq<Byte>): Option<nat> {
    match Expect(0x30, bs)
    case None => None
    case Some(message) =>
      match Expect(0x02, message.content)
      case None => None
      case Some(id) =>
        match Expect(0x61, id.rest)
        case None => None
        case Some(response) =>
          match Expect(0x0A, response.content)
          case None => None
          case Some(code) =>
            if ReadNat(id.content) == Some(1) && message.rest == [] then ReadNat(code.content) else None
  }

  lemma {:induction false} ResponseDecodes(r: Response)
    requires WellFormed(r)
    ensures DecodeResponse(Message(r)) == Some(Code(r))
  {
    var response := [0x61] + r.inner + ResultContent(r) + r.controls;
    ReadAny(0x30, r.outer, ResponseBody(r), []);
    assert [0x30] + r.outer + ResponseBody(r) + [] == Message(r);
    ReadAny(0x02, r.idLength, [1], response);
    ReadAny(0x61, r.inner, ResultContent(r), r.controls);
    ReadAny(0x0A, r.codeLength, r.code, r.fields);
    assert FromBigEndian([1]) == 1;
  }

  // ----- Which of them the check understands

  /** The bytes before the ENUMERATED. */
  function Header(r: Response): seq<Byte> {
    [0x30] + r.outer + [0x02] + r.idLength + [1, 0x61] + r.inner
  }

  /** What the scan reports: the byte behind a false start among the length octets, else the code if its
      length is the single byte 1, else whatever it finds later. */
  function Scanned(r: Response): int {
    var early := ScanFrom(Header(r) + [0x0A], 6);
    if early != -1 then early
    else if r.codeLength == [1] then Code(r)
    else ScanFrom(Received(Message(r)), |Header(r)| + 1)
  }

  /** The byte the check looks at is the response's tag: message and id lengths take one byte each, or
      the fourth byte of a long message length happens to be that number. */
  predicate TagInPlace(r: Response) {
    || (|r.outer| == 1 && |r.idLength| == 1)
    || (|r.outer| >= 5 && r.outer[4] == 0x61)
  }

  lemma {:induction false} BytesOfOne(bs: seq<Byte>, k: nat)
    requires FromBigEndian(bs) <= 1 && k < |bs|
    ensures bs[k] <= 1
    decreases |bs|
  {
    if k < |bs| - 1 { BytesOfOne(bs[..|bs| - 1], k); }
  }

  lemma {:induction false} BytesOfIdLength(r: Response, k: nat)
    requires WellFormed(r) && k < |r.idLength|
    ensures r.idLength[k] <= 1 || r.idLength[k] > 128
  {
    if k > 0 { BytesOfOne(r.idLength[1..], k - 1); }
  }

  lemma {:induction false} HeaderLayout(r: Response)
    ensures Message(r) == Header(r) + [0x0A] + r.codeLength + r.code + (r.fields + r.controls)
  {}

  lemma {:induction false} TagCheck(r: Response)
    requires WellFormed(r)
    ensures |Message(r)| > 8 && |Header(r)| <= 385 && Header(r)[0] == 0x30
    ensures |Header(r)| > 5
    ensures Header(r)[5] == 0x61 <==> TagInPlace(r)
  {
    var h, n, m := Header(r), |r.outer|, |r.idLength|;
    HeaderLayout(r);
    if n <= 3 && 3 - n < m {
      assert h[5] == r.idLength[3 - n];
      BytesOfIdLength(r, 3 - n);
    }
  }

  // ----- The scan

  predicate Start(buf: seq<Byte>, i: nat) {
    i + 2 < |buf| && buf[i] == 0x0A && buf[i + 1] == 0x01
  }

  lemma {:induction false} ScanSkips(buf: seq<Byte>, from: nat, end: nat)
    requires from <= end && forall i :: from <= i < end ==> !Start(buf, i)
    ensures ScanFrom(buf, from) == ScanFrom(buf, end)
    decreases end
  {
    if from < end {
      var last := end - 1;
      ScanSkips(buf, from, last);
      assert !Start(buf, last);
      assert ScanFrom(buf, last) == ScanFrom(buf, last + 1);
    }
  }

  lemma {:induction false} ScanFinds(buf: seq<Byte>, from: nat) returns (k: nat)
    requires ScanFrom(buf, from) != -1
    ensures from <= k && Start(buf, k) && ScanFrom(buf, from) == buf[k + 2]
    ensures forall i :: from <= i < k ==> !Start(buf, i)
    decreases |buf| - from
  {
    if Start(buf, from) { k := from; } else { k := ScanFinds(buf, from + 1); }
  }

  lemma {:induction false} ScanMisses(buf: seq<Byte>, from: nat, i: nat)
    requires ScanFrom(buf, from) == -1 && from <= i
    ensures !Start(buf, i)
    decreases |buf| - from
  {
    if from < i && from + 2 < |buf| { ScanMisses(buf, from + 1, i); }
  }

  /** The scan of a text that starts with `head`, whose last byte may begin a match. */
  lemma {:induction false} ScanHead(buf: seq<Byte>, head: seq<Byte>, from: nat)
    requires head <= buf && from + 1 <= |head|
    ensures ScanFrom(head, from) != -1 ==> ScanFrom(buf, from) == ScanFrom(head, from)
    ensures ScanFrom(head, from) == -1 && head[|head| - 1] != 0x01 ==> ScanFrom(buf, from) == ScanFrom(buf, |head| - 1)
  {
    if ScanFrom(head, from) != -1 {
      var k := ScanFinds(head, from);
      forall i | from <= i < k ensures !Start(buf, i) {
        assert !Start(head, i);
      }
      ScanSkips(buf, from, k);
    } else if head[|head| - 1] != 0x01 {
      forall i | from <= i < |head| - 1 ensures !Start(buf, i) {
        ScanMisses(head, from, i);
      }
      ScanSkips(buf, from, |head| - 1);
    }
  }

  lemma {:induction false} CodeLengthIsOne(r: Response)
    requires WellFormed(r) && r.codeLength == [1]
    ensures |r.code| == 1 && Code(r) == r.code[0] as int
  {
    assert FromBigEndian([]) == 0;
    assert r.code == [r.code[0]];
  }

  lemma {:induction false} ReceivedParts(r: Response)
    requires WellFormed(r)
    ensures var buf := Received(Message(r));
      && |buf| > 8 && Header(r) + [0x0A] <= buf && |Header(r)| + 1 + |r.codeLength| <= |buf|
      && (forall k :: 0 <= k < |r.codeLength| ==> buf[|Header(r)| + 1 + k] == r.codeLength[k])
      && (r.codeLength == [1] ==> |Header(r)| + 2 < |buf| && buf[|Header(r)| + 2] == r.code[0])
  {
    TagCheck(r);
    HeaderLayout(r);
    if r.codeLength == [1] { CodeLengthIsOne(r); }
  }

  /** The scan of what is received, from behind the tag. */
  lemma {:induction false} ScanReceived(r: Response)
    requires WellFormed(r)
    ensures ScanFrom(Received(Message(r)), 6) == Scanned(r)
  {
    var buf, n := Received(Message(r)), |Header(r)|;
    TagCheck(r);
    ReceivedParts(r);
    if r.codeLength == [1] { CodeLengthIsOne(r); }
    assert r.codeLength != [1] ==> r.codeLength[0] != 1;
    ScanBehind(buf, Header(r) + [0x0A], r.codeLength[0] == 1);
  }

  /** Behind `head`, which ends where the ENUMERATED begins, comes its length. */
  lemma {:induction false} ScanBehind(buf: seq<Byte>, head: seq<Byte>, short: bool)
    requires |head| > 6 && head < buf && head[|head| - 1] == 0x0A && (short <==> buf[|head|] == 1)
    requires short ==> |head| + 1 < |buf|
    ensures var early := ScanFrom(head, 6);
      ScanFrom(buf, 6) ==
        if early != -1 then early else if short then buf[|head| + 1] as int else ScanFrom(buf, |head|)
  {
    var n := |head| - 1;
    ScanHead(buf, head, 6);
    assert buf[n] == 0x0A;
    if !short {
      assert !Start(buf, n);
      ScanSkips(buf, n, n + 1);
    }
  }

  /** The check's answer to every definite-length encoding of a BindResponse. */
  lemma {:induction false} JudgedAs(r: Response)
    requires WellFormed(r)
    ensures Judge(Received(Message(r))) == if TagInPlace(r) then ResultCode(Scanned(r)) else Unexpected
  {
    TagCheck(r);
    ReceivedParts(r);
    ScanReceived(r);
    var buf, head := Received(Message(r)), Header(r) + [0x0A];
    assert buf[0] == head[0] && buf[5] == head[5];
  }

  // ----- The exact condition

  predicate Understood(r: Response) {
    Judge(Received(Message(r))) == ResultCode(Code(r))
  }

  lemma {:induction false} PatternIsBig(bs: seq<Byte>, j: nat)
    requires j + 1 < |bs| && bs[j] == 0x0A && bs[j + 1] == 0x01
    ensures FromBigEndian(bs) >= 0x0A01
    decreases |bs|
  {
    var shorter := bs[..|bs| - 1];
    if j + 2 < |bs| { PatternIsBig(shorter, j); } else { assert shorter[|shorter| - 1] == 0x0A; }
  }

  lemma {:induction false} NoPatternInLength(ls: seq<Byte>, n: nat, j: nat)
    requires IsLength(ls, n) && n <= 0x0A00 && j + 1 < |ls|
    ensures !(ls[j] == 0x0A && ls[j + 1] == 0x01)
  {
    if j > 0 && ls[j] == 0x0A && ls[j + 1] == 0x01 { PatternIsBig(ls[1..], j - 1); }
  }

  /** Up to 2560 bytes, nothing among the length octets looks like the start of a result code. */
  lemma {:induction false} NoFalseStart(r: Response)
    requires WellFormed(r) && |ResponseBody(r)| <= 0x0A00
    ensures ScanFrom(Header(r) + [0x0A], 6) == -1
  {
    var head := Header(r) + [0x0A];
    if ScanFrom(head, 6) != -1 {
      var k := ScanFinds(head, 6);
      StartPlace(r, k);
    }
  }

  lemma {:induction false} StartPlace(r: Response, k: nat)
    requires WellFormed(r) && |ResponseBody(r)| <= 0x0A00 && k >= 6
    ensures !Start(Header(r) + [0x0A], k)
  {
    var h, n, m := Header(r), |r.outer|, |r.idLength|;
    if Start(h + [0x0A], k) {
      assert h[k] == 0x0A && h[k + 1] == 0x01;
      if k < n {
        assert h[k] == r.outer[k - 1] && h[k + 1] == r.outer[k];
        NoPatternInLength(r.outer, |ResponseBody(r)|, k - 1);
      } else if n + 2 <= k < n + 2 + m {
        assert h[k] == r.idLength[k - n - 2];
        BytesOfIdLength(r, k - n - 2);
      } else if n + m + 4 <= k {
        var j := k - n - m - 4;
        assert h[k] == r.inner[j] && h[k + 1] == r.inner[j + 1];
        NoPatternInLength(r.inner, |ResultContent(r)|, j);
      }
    }
  }

  /** Over every definite-length encoding: the check reports the server's result code exactly when the
      response's tag is where it looks and the scan from there hits the code. */
  lemma {:induction false} UnderstoodIff(r: Response)
    requires WellFormed(r)
    ensures Understood(r) <==> TagInPlace(r) && Scanned(r) == Code(r)
  {
    JudgedAs(r);
  }

  /** The first place from position 6 on where the length octets look like the start of a result code. */
  predicate FalseStart(r: Response, k: nat) {
    k >= 6 && Start(Header(r) + [0x0A], k) && forall i :: 6 <= i < k ==> !Start(Header(r) + [0x0A], i)
  }

  /** With the code in its usual three bytes, in a message of any length: the tag is in place, and no length
      octets look like the start of a result code, unless the byte after them happens to be the code. */
  lemma {:induction false} UnderstoodIffNoFalseStart(r: Response)
    requires WellFormed(r) && r.codeLength == [1]
    ensures Understood(r) <==>
      TagInPlace(r) && forall k: nat | FalseStart(r, k) :: (Header(r) + [0x0A])[k + 2] as int == Code(r)
  {
    var head := Header(r) + [0x0A];
    UnderstoodIff(r);
    forall k: nat | FalseStart(r, k) ensures ScanFrom(head, 6) == head[k + 2] as int {
      ScanSkips(head, 6, k);
    }
    if ScanFrom(head, 6) != -1 {
      var k := ScanFinds(head, 6);
      assert FalseStart(r, k);
    }
  }

  /** With the code in its usual three bytes and at most 2560 bytes in the message, that is when the
      lengths of message and id take one byte each, or the fourth byte of a padded message length is the
      response's tag. */
  lemma {:induction false} UnderstoodIffInPlace(r: Response)
    requires WellFormed(r) && r.codeLength == [1] && |ResponseBody(r)| <= 0x0A00
    ensures Understood(r) <==> TagInPlace(r)
  {
    UnderstoodIff(r);
    NoFalseStart(r);
  }

  /** From a server that writes the shortest lengths, a response is understood exactly when the message
      length fits one byte: any longer one (a long diagnostic message, say) is reported as unexpected. */
  lemma {:induction false} UnderstoodIffShort(r: Response)
    requires WellFormed(r) && r.idLength == [1] && r.codeLength == [1]
    requires |r.outer| <= 4 && (|r.outer| == 1 <==> |ResponseBody(r)| < 128)
    ensures Understood(r) <==> |ResponseBody(r)| < 128
  {
    UnderstoodIff(r);
    if |r.outer| == 1 { NoFalseStart(r); }
  }

  /** A message of less than 128 bytes whose length is padded to four bytes is understood exactly when it
      has 97 of them, the number of the tag. */
  lemma {:induction false} UnderstoodIfPadded(r: Response)
    requires WellFormed(r) && r.codeLength == [1] && |ResponseBody(r)| < 128
    requires r.outer == [0x84, 0, 0, 0, |ResponseBody(r)|]
    ensures Understood(r) <==> |ResponseBody(r)| == 0x61
  {
    UnderstoodIffInPlace(r);
  }
}
