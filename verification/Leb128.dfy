/** Variable-length integers: the LEB128 encoders of the Wasm fixture generator, with the decoders
    of section 5.2.2 of the WebAssembly Core Specification. */
module Leb128 {
  import opened Bits

  datatype Decoded = Malformed | Value(value: int, used: nat)

  // ----- The encodings, as arithmetic

  /** Groups of seven bits, low group first, every group but the last flagged with 128. */
  function ULeb(v: nat): (bs: seq<Byte>)
    ensures bs != []
  {
    if v < 128 then [v] else [v % 128 + 128] + ULeb(v / 128)
  }

  function Magnitude(v: int): nat {
    if v < 0 then -v else v
  }

  function SLeb(v: int): (bs: seq<Byte>)
    ensures bs != []
    decreases Magnitude(v)
  {
    if -64 <= v < 64 then [v % 128] else [v % 128 + 128] + SLeb(v / 128)
  }

  // ----- The source's loops

  method Uleb128(value: U32) returns (buf: seq<Byte>)
    ensures buf == ULeb(value)
  {
    buf := [];
    var v: int := value;
    while true
      invariant 0 <= v
      invariant buf + ULeb(v) == ULeb(value)
      decreases v
    {
      ghost var before := v;
      var b, rest := TakeGroup(v);
      v := rest;
      if v != 0 {
        b := Flagged(b);
      }
      buf := buf + [b];
      if v == 0 {
        break;
      }
      assert ULeb(before) == [b] + ULeb(v);
    }
  }

  predicate LastGroup(b: nat, rest: int) {
    (rest == 0 && b < 64) || (rest == -1 && b >= 64)
  }

  lemma {:induction false} SLebStep(v: int, b: nat, rest: int)
    requires b == v % 128 && rest == v / 128
    ensures LastGroup(b, rest) ==> SLeb(v) == [b]
    ensures !LastGroup(b, rest) ==> SLeb(v) == [b + 128] + SLeb(rest) && Magnitude(rest) < Magnitude(v)
  {}

  /** The loop of the signed encoders, which the source has once for 32 and once for 64 bits. */
  method SignedLoop(value: int) returns (buf: seq<Byte>)
    ensures buf == SLeb(value)
  {
    buf := [];
    var v: int := value;
    while true
      invariant buf + SLeb(v) == SLeb(value)
      decreases Magnitude(v)
    {
      var b, rest := TakeGroup(v);
      var clear := SignClear(b);
      SLebStep(v, b, rest);
      v := rest;
      if v == 0 && clear {
        buf := buf + [b];
        break;
      }
      if v == -1 && !clear {
        buf := buf + [b];
        break;
      }
      b := Flagged(b);
      assert buf + ([b] + SLeb(v)) == buf + [b] + SLeb(v);
      buf := buf + [b];
    }
  }

  method Sleb128(value: I32) returns (buf: seq<Byte>)
    ensures buf == SLeb(value) && |buf| <= 5
    ensures SDecode(32, buf) == Value(value, |buf|)
  {
    buf := SignedLoop(value);
    EncodedSizes(0, value, 0);
    Pow2Sizes();
    SignedRoundTrip(32, value, []);
    assert buf + [] == buf;
  }

  method Sleb128Wide(value: I64) returns (buf: seq<Byte>)
    ensures buf == SLeb(value) && |buf| <= 10
    ensures SDecode(64, buf) == Value(value, |buf|)
  {
    buf := SignedLoop(value);
    EncodedSizes(0, 0, value);
    Pow2Sizes();
    SignedRoundTrip(64, value, []);
    assert buf + [] == buf;
  }

  // ----- The decoders of section 5.2.2, for an `n`-bit value at the head of `bs`

  function UDecode(n: nat, bs: seq<Byte>): Decoded {
    if bs == [] then Malformed
    else if bs[0] < 128 then (if bs[0] < Pow2(n) then Value(bs[0], 1) else Malformed)
    else if n <= 7 then Malformed
    else match UDecode(n - 7, bs[1..])
      case Malformed => Malformed
      case Value(m, used) => Value(128 * m + (bs[0] as int - 128), used + 1)
  }

  function SDecode(n: nat, bs: seq<Byte>): Decoded
    requires n > 0
  {
    if bs == [] then Malformed
    else if bs[0] < 64 then (if bs[0] < Pow2(n - 1) then Value(bs[0], 1) else Malformed)
    else if bs[0] < 128 then (if bs[0] >= 128 - Pow2(n - 1) then Value(bs[0] as int - 128, 1) else Malformed)
    else if n <= 7 then Malformed
    else match SDecode(n - 7, bs[1..])
      case Malformed => Malformed
      case Value(m, used) => Value(128 * m + (bs[0] as int - 128), used + 1)
  }

  // ----- Round trips, shortest form, lengths

  lemma {:induction false} Pow2Step(n: nat)
    requires n >= 7
    ensures Pow2(n) == 128 * Pow2(n - 7)
  {
    assert Pow2(n) == 2 * Pow2(n - 1) == 4 * Pow2(n - 2) == 8 * Pow2(n - 3);
    assert Pow2(n - 3) == 2 * Pow2(n - 4) == 4 * Pow2(n - 5) == 8 * Pow2(n - 6);
  }

  lemma {:induction false} Pow2Monotone(a: nat, b: nat)
    requires a <= b
    ensures Pow2(a) <= Pow2(b)
    decreases b
  {
    if a < b { Pow2Monotone(a, b - 1); }
  }

  lemma {:induction false} UnsignedRoundTrip(n: nat, v: nat, rest: seq<Byte>)
    requires v < Pow2(n)
    ensures UDecode(n, ULeb(v) + rest) == Value(v, |ULeb(v)|)
    decreases n
  {
    if v >= 128 {
      if n < 7 { Pow2Monotone(n, 7); }
      Pow2Step(n);
      UnsignedRoundTrip(n - 7, v / 128, rest);
      assert (ULeb(v) + rest)[1..] == ULeb(v / 128) + rest;
    }
  }

  lemma {:induction false} SignedRoundTrip(n: nat, v: int, rest: seq<Byte>)
    requires n > 0 && -Pow2(n - 1) <= v < Pow2(n - 1)
    ensures SDecode(n, SLeb(v) + rest) == Value(v, |SLeb(v)|)
    decreases n
  {
    var bs := SLeb(v) + rest;
    if -64 <= v < 64 {
      assert bs == [v % 128] + rest;
    } else {
      if n <= 7 { Pow2Monotone(n - 1, 6); }
      Pow2Step(n - 1);
      assert bs[0] == v % 128 + 128 && bs[1..] == SLeb(v / 128) + rest;
      var m := Pow2(n - 8);
      assert -m <= v / 128 < m;
      SignedRoundTrip(n - 7, v / 128, rest);
    }
  }

  /** Whatever the decoder accepts is at least as long as what the encoder writes. */
  lemma {:induction false} UnsignedShortest(n: nat, bs: seq<Byte>)
    requires UDecode(n, bs).Value?
    ensures 0 <= UDecode(n, bs).value < Pow2(n)
    ensures |ULeb(UDecode(n, bs).value)| <= UDecode(n, bs).used <= |bs|
    decreases n
  {
    if bs[0] >= 128 {
      UnsignedShortest(n - 7, bs[1..]);
      Pow2Step(n);
    }
  }

  lemma {:induction false} SignedShortest(n: nat, bs: seq<Byte>)
    requires n > 0 && SDecode(n, bs).Value?
    ensures -Pow2(n - 1) <= SDecode(n, bs).value < Pow2(n - 1)
    ensures |SLeb(SDecode(n, bs).value)| <= SDecode(n, bs).used <= |bs|
    decreases n
  {
    if bs[0] >= 128 {
      SignedShortest(n - 7, bs[1..]);
      Pow2Step(n - 1);
    }
  }

  /** `k` bytes are enough exactly for the values below `2^(7k)`. */
  lemma {:induction false} UnsignedLength(v: nat, k: nat)
    ensures |ULeb(v)| <= k + 1 <==> v < Pow2(7 * (k + 1))
    decreases k
  {
    Pow2Step(7 * (k + 1));
    if k > 0 {
      if v >= 128 { UnsignedLength(v / 128, k - 1); } else { Pow2Monotone(7, 7 * (k + 1)); }
      assert Pow2(7) == 128;
    }
  }

  lemma {:induction false} SignedLength(v: int, k: nat)
    ensures |SLeb(v)| <= k + 1 <==> -Pow2(7 * k + 6) <= v < Pow2(7 * k + 6)
    decreases k
  {
    assert Pow2(6) == 64;
    if k > 0 {
      Pow2Step(7 * k + 6);
      if !(-64 <= v < 64) { SignedLength(v / 128, k - 1); } else { Pow2Monotone(6, 7 * k + 6); }
    }
  }

  lemma {:induction false} Pow2Sum(a: nat, b: nat)
    ensures Pow2(a + b) == Pow2(a) * Pow2(b)
    decreases a
  {
    if a > 0 { Pow2Sum(a - 1, b); }
  }

  lemma {:induction false} Pow2Double(k: nat, value: int)
    requires Pow2(k) == value
    ensures Pow2(2 * k) == value * value
  {
    Pow2Sum(k, k);
  }

  lemma {:induction false} Pow2Sizes()
    ensures Pow2(31) == 0x8000_0000
    ensures Pow2(32) == 0x1_0000_0000
    ensures Pow2(63) == 0x8000_0000_0000_0000
    ensures Pow2(64) == 0x1_0000_0000_0000_0000
  {
    assert Pow2(8) == 256;
    Pow2Double(8, 256);
    Pow2Double(16, 0x1_0000);
    Pow2Double(32, 0x1_0000_0000);
    assert Pow2(32) == 2 * Pow2(31) && Pow2(64) == 2 * Pow2(63);
  }

  /** The byte limits of the three encoders. */
  lemma {:induction false} EncodedSizes(u: U32, s: I32, w: I64)
    ensures |ULeb(u)| <= 5 && |SLeb(s)| <= 5 && |SLeb(w)| <= 10
  {
    Pow2Sizes();
    Pow2Monotone(32, 35);
    Pow2Monotone(31, 34);
    Pow2Monotone(63, 69);
    UnsignedLength(u, 4);
    SignedLength(s, 4);
    SignedLength(w, 9);
  }

  /** The generator writes the operand of `i32.const`, which the standard reads as a signed number,
      with the unsigned encoder.  That is right exactly when the last byte leaves the sign bit clear. */
  lemma {:induction false} UnsignedReadAsSigned(n: nat, v: nat, rest: seq<Byte>)
    requires n > 0
    ensures SDecode(n, ULeb(v) + rest) == Value(v, |ULeb(v)|)
       <==> v < Pow2(n - 1) && ULeb(v)[|ULeb(v)| - 1] < 64
    decreases n
  {
    if v >= 128 {
      assert (ULeb(v) + rest)[1..] == ULeb(v / 128) + rest;
      if n <= 7 {
        Pow2Monotone(n - 1, 6);
      } else {
        Pow2Step(n - 1);
        UnsignedReadAsSigned(n - 7, v / 128, rest);
      }
    }
  }

  // ----- Packed pointers

  function Pack(ptr: U32, len: U32): nat {
    Or(Shl(ptr, 32), len)
  }

  function PackedPtr(packed: int): int {
    Shr(packed, 32)
  }

  function PackedLen(packed: int): int {
    And(packed, 0xFFFF_FFFF)
  }

  lemma {:induction false} PackIsSum(ptr: U32, len: U32)
    ensures Pack(ptr, len) == ptr * 0x1_0000_0000 + len
    ensures 0 <= Pack(ptr, len) < 0x1_0000_0000_0000_0000
  {
    Pow2Sizes();
    OrAdds(ptr, 32, len);
  }

  lemma {:induction false} UnpackSum(packed: int)
    ensures PackedPtr(packed) == packed / 0x1_0000_0000
    ensures PackedLen(packed) == packed % 0x1_0000_0000
  {
    Pow2Sizes();
    ShrDivides(packed, 32);
    LowMask(packed, 32);
  }

  /** A host result survives the trip through a signed 64-bit constant in the module: pack, encode,
      decode as the standard does, reinterpret as unsigned, unpack. */
  lemma {:induction false} PackedPointerRoundTrip(ptr: U32, len: U32, rest: seq<Byte>)
    ensures PackedPtr(Pack(ptr, len)) == ptr && PackedLen(Pack(ptr, len)) == len
    ensures var code := SLeb(ToI64(Pack(ptr, len)));
            SDecode(64, code + rest) == Value(ToI64(Pack(ptr, len)), |code|)
    ensures ToI64(Pack(ptr, len)) % 0x1_0000_0000_0000_0000 == Pack(ptr, len)
  {
    var packed := Pack(ptr, len);
    PackIsSum(ptr, len);
    UnpackSum(packed);
    DivModUnique(packed, 0x1_0000_0000, ptr, len);
    ToI64Wraps(packed);
    Pow2Sizes();
    SignedRoundTrip(64, ToI64(packed), rest);
  }

  lemma {:induction false} ToI64Wraps(x: int)
    requires 0 <= x < 0x1_0000_0000_0000_0000
    ensures ToI64(x) % 0x1_0000_0000_0000_0000 == x
  {}
}
