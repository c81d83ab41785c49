/** The bitwise operators of Go on two's-complement integers, defined bit by bit.  An arithmetic
    right shift of a signed value and a logical right shift of an unsigned one are the same
    mathematical operation, so one definition serves every width. */
module Bits {

  type Byte = x: int | 0 <= x < 256
  type U32 = x: int | 0 <= x < 0x1_0000_0000
  type U64 = x: int | 0 <= x < 0x1_0000_0000_0000_0000
  type I32 = x: int | -0x8000_0000 <= x < 0x8000_0000
  type I64 = x: int | -0x8000_0000_0000_0000 <= x < 0x8000_0000_0000_0000

  function Pow2(k: nat): (p: int)
    ensures p >= 1
  {
    if k == 0 then 1 else 2 * Pow2(k - 1)
  }

  /** `a & mask`, for an `a` of either sign. */
  function And(a: int, mask: nat): (r: int)
    ensures 0 <= r <= mask
    decreases mask
  {
    if mask == 0 then 0 else 2 * And(a / 2, mask / 2) + (if mask % 2 == 1 then a % 2 else 0)
  }

  function Or(a: nat, b: nat): nat
    decreases a + b
  {
    if a == 0 && b == 0 then 0 else 2 * Or(a / 2, b / 2) + (if a % 2 == b % 2 == 0 then 0 else 1)
  }

  function Xor(a: nat, b: nat): nat
    decreases a + b
  {
    if a == 0 && b == 0 then 0 else 2 * Xor(a / 2, b / 2) + (if a % 2 == b % 2 then 0 else 1)
  }

  function Shr(a: int, k: nat): int
    decreases k
  {
    if k == 0 then a else Shr(a / 2, k - 1)
  }

  function Shl(a: int, k: nat): int {
    a * Pow2(k)
  }

  /** A Go conversion to a signed 64-bit integer. */
  function ToI64(x: int): I64 {
    var low := x % 0x1_0000_0000_0000_0000;
    if low < 0x8000_0000_0000_0000 then low else low - 0x1_0000_0000_0000_0000
  }

  lemma {:induction false} DivModUnique(a: int, d: int, q: int, r: int)
    requires a == d * q + r && 0 <= r < d
    ensures a / d == q && a % d == r
  {
    var q' := a / d;
    assert d * (q - q') == a % d - r;
    assert q - q' >= 1 ==> d * (q - q') >= d;
    assert q - q' <= -1 ==> d * (q - q') <= -d;
  }

  /** Dividing by 2 and then by `m` is dividing by `2 * m`. */
  lemma {:induction false} HalveThenDivide(a: int, m: int)
    requires m > 0
    ensures a / (2 * m) == (a / 2) / m
    ensures a % (2 * m) == 2 * ((a / 2) % m) + a % 2
  {
    var h := a / 2;
    assert a == (2 * m) * (h / m) + (2 * (h % m) + a % 2);
    DivModUnique(a, 2 * m, h / m, 2 * (h % m) + a % 2);
  }

  lemma {:induction false} ShrDivides(a: int, k: nat)
    ensures Shr(a, k) == a / Pow2(k)
    decreases k
  {
    if k > 0 {
      ShrDivides(a / 2, k - 1);
      HalveThenDivide(a, Pow2(k - 1));
    }
  }

  /** The lowest `k` bits of `a`. */
  function LowBits(a: int, k: nat): int
    decreases k
  {
    if k == 0 then 0 else 2 * LowBits(a / 2, k - 1) + a % 2
  }

  lemma {:induction false} LowBitsReduce(a: int, k: nat)
    ensures LowBits(a, k) == a % Pow2(k)
    decreases k
  {
    if k > 0 {
      LowBitsReduce(a / 2, k - 1);
      HalveThenDivide(a, Pow2(k - 1));
    }
  }

  lemma {:induction false} MaskIsLowBits(a: int, k: nat)
    ensures And(a, Pow2(k) - 1) == LowBits(a, k)
    decreases k
  {
    if k > 0 {
      var m := Pow2(k - 1);
      assert (2 * m - 1) / 2 == m - 1 && (2 * m - 1) % 2 == 1;
      MaskIsLowBits(a / 2, k - 1);
    }
  }

  /** A mask of `k` ones keeps the remainder modulo `2^k`. */
  lemma {:induction false} LowMask(a: int, k: nat)
    ensures And(a, Pow2(k) - 1) == a % Pow2(k)
  {
    MaskIsLowBits(a, k);
    LowBitsReduce(a, k);
  }

  /** A mask of one bit tests that bit. */
  lemma {:induction false} BitMask(a: int, k: nat)
    ensures And(a, Pow2(k)) == 0 <==> (a / Pow2(k)) % 2 == 0
    decreases k
  {
    if k > 0 {
      var m := Pow2(k - 1);
      BitMask(a / 2, k - 1);
      HalveThenDivide(a, m);
      assert (2 * m) / 2 == m && (2 * m) % 2 == 0;
    } else {
      assert And(a, 1) == 2 * And(a / 2, 0) + a % 2;
    }
  }

  /** Or-ing values that share no bit position is adding them. */
  lemma {:induction false} OrAdds(high: nat, k: nat, low: nat)
    requires low < Pow2(k)
    ensures Or(high * Pow2(k), low) == high * Pow2(k) + low
    ensures Or(low, high * Pow2(k)) == high * Pow2(k) + low
  {
    if k == 0 {
      OrZero(high);
    } else {
      var rest := high * Pow2(k - 1);
      assert high * Pow2(k) == 2 * rest;
      OrStep(rest, low);
      OrAdds(high, k - 1, low / 2);
    }
  }

  lemma {:induction false} OrStep(rest: nat, low: nat)
    ensures Or(2 * rest, low) == 2 * Or(rest, low / 2) + low % 2
    ensures Or(low, 2 * rest) == 2 * Or(low / 2, rest) + low % 2
  {}

  lemma {:induction false} OrZero(a: nat)
    ensures Or(a, 0) == a && Or(0, a) == a
  {
    if a > 0 { OrZero(a / 2); }
  }

  lemma {:induction false} XorStep(a: nat, b: nat)
    ensures Xor(a, b) / 2 == Xor(a / 2, b / 2) && Xor(a, b) % 2 == if a % 2 == b % 2 then 0 else 1
  {}

  /** Masking twice with the same key restores the value. */
  lemma {:induction false} XorTwice(a: nat, key: nat)
    ensures Xor(Xor(a, key), key) == a
    decreases a + key
  {
    if a + key > 0 {
      XorStep(a, key);
      XorStep(Xor(a, key), key);
      XorTwice(a / 2, key / 2);
    }
  }

  lemma {:induction false} XorBound(a: nat, b: nat, k: nat)
    requires a < Pow2(k) && b < Pow2(k)
    ensures Xor(a, b) < Pow2(k)
  {
    if k > 0 {
      XorBound(a / 2, b / 2, k - 1);
    }
  }

  // The masks and shifts the codecs use.

  lemma {:induction false} Low7(a: int)
    ensures And(a, 0x7F) == a % 128
  {
    assert Pow2(7) == 128;
    LowMask(a, 7);
  }

  lemma {:induction false} Shift7(a: int)
    ensures Shr(a, 7) == a / 128
  {
    assert Pow2(7) == 128;
    ShrDivides(a, 7);
  }

  lemma {:induction false} Shift8(a: int)
    ensures Shr(a, 8) == a / 256
  {
    assert Pow2(8) == 256;
    ShrDivides(a, 8);
  }

  lemma {:induction false} ContinueBit(b: nat)
    requires b < 128
    ensures Or(b, 0x80) == b + 128 && Or(0x80, b) == b + 128
  {
    assert Pow2(7) == 128;
    OrAdds(1, 7, b);
  }

  lemma {:induction false} TopBit(b: Byte)
    ensures And(b, 0x80) == 0 <==> b < 128
  {
    var k := 7;
    assert Pow2(k) == 128;
    BitMask(b, k);
  }

  lemma {:induction false} SignBit(b: nat)
    requires b < 128
    ensures And(b, 0x40) == 0 <==> b < 64
  {
    var k := 6;
    assert Pow2(k) == 64;
    BitMask(b, k);
  }

  lemma {:induction false} Low4(a: int)
    ensures And(a, 0x0F) == a % 16
  {
    assert Pow2(4) == 16;
    LowMask(a, 4);
  }

  // ----- Big-endian numbers

  /** The `k` low-order bytes of `v`, most significant first. */
  function BigEndian(v: nat, k: nat): (bs: seq<Byte>)
    ensures |bs| == k
    decreases k
  {
    if k == 0 then [] else BigEndian(v / 256, k - 1) + [v % 256]
  }

  function FromBigEndian(bs: seq<Byte>): nat {
    if bs == [] then 0 else 256 * FromBigEndian(bs[..|bs| - 1]) + bs[|bs| - 1] as int
  }

  lemma {:induction false} BigEndianRoundTrip(v: nat, k: nat)
    ensures FromBigEndian(BigEndian(v, k)) == v % Pow2(8 * k)
    decreases k
  {
    if k > 0 {
      BigEndianRoundTrip(v / 256, k - 1);
      Pow2Step8(8 * k);
      DivideThenReduce(v, Pow2(8 * k - 8));
    }
  }

  lemma {:induction false} Pow2Step8(n: nat)
    requires n >= 8
    ensures Pow2(n) == 256 * Pow2(n - 8)
  {
    assert Pow2(n) == 2 * Pow2(n - 1) == 4 * Pow2(n - 2) == 8 * Pow2(n - 3) == 16 * Pow2(n - 4);
    assert Pow2(n - 4) == 2 * Pow2(n - 5) == 4 * Pow2(n - 6) == 8 * Pow2(n - 7) == 16 * Pow2(n - 8);
  }

  lemma {:induction false} DivideThenReduce(a: nat, m: int)
    requires m > 0
    ensures a % (256 * m) == 256 * ((a / 256) % m) + a % 256
  {
    var h := a / 256;
    assert a == (256 * m) * (h / m) + (256 * (h % m) + a % 256);
    DivModUnique(a, 256 * m, h / m, 256 * (h % m) + a % 256);
  }

  lemma {:induction false} ShiftTwice(v: int, a: nat, b: nat)
    ensures Shr(v, a + b) == Shr(Shr(v, a), b)
    decreases a
  {
    if a > 0 { ShiftTwice(v / 2, a - 1, b); }
  }

  // One step of a variable-length integer loop.

  /** `b := v & 0x7F; v >>= 7` */
  method TakeGroup(v: int) returns (b: int, rest: int)
    ensures b == v % 128 && rest == v / 128
  {
    Low7(v);
    Shift7(v);
    b := And(v, 0x7F);
    rest := Shr(v, 7);
  }

  /** `b |= 0x80` */
  method Flagged(b: nat) returns (flagged: Byte)
    requires b < 128
    ensures flagged == b + 128
  {
    ContinueBit(b);
    flagged := Or(b, 0x80);
  }

  /** `b & 0x40 == 0` */
  method SignClear(b: nat) returns (clear: bool)
    requires b < 128
    ensures clear <==> b < 64
  {
    SignBit(b);
    clear := And(b, 0x40) == 0;
  }
}
