/** Machine words, two's complement, and the bitwise operators of C on `uint32_t`. */
module Bits {
  type Word = w: int | 0 <= w < 0x1_0000_0000
  type Byte = b: int | 0 <= b < 0x100

  /** Conversion to `uint32_t`. */
  function ToWord(x: int): Word {
    x % 0x1_0000_0000
  }

  /** The value of a word read as `int32_t`. */
  function Signed(w: Word): int {
    if w < 0x8000_0000 then w else w - 0x1_0000_0000
  }

  /** Conversion to `int32_t`. */
  function ToInt32(x: int): int {
    Signed(ToWord(x))
  }

  predicate IsInt32(x: int) {
    -0x8000_0000 <= x < 0x8000_0000
  }

  function Pow2(n: nat): (p: nat)
    ensures p > 0
  {
    if n == 0 then 1 else 2 * Pow2(n - 1)
  }

  datatype BitOp = AndBit | OrBit | XorBit

  function OneBit(op: BitOp, x: nat, y: nat): (r: nat)
    requires x < 2 && y < 2
    ensures r < 2
  {
    match op
    case AndBit => if x == 1 && y == 1 then 1 else 0
    case OrBit => if x == 1 || y == 1 then 1 else 0
    case XorBit => if x != y then 1 else 0
  }

  /** The bitwise operator `op` applied to the low `n` bits of `a` and `b`. */
  function Bitwise(op: BitOp, n: nat, a: nat, b: nat): (r: nat)
    ensures r < Pow2(n)
  {
    if n == 0 then 0
    else OneBit(op, a % 2, b % 2) + 2 * Bitwise(op, n - 1, a / 2, b / 2)
  }

  /** A bitwise operator on `uint32_t`. */
  function Bitwise32(op: BitOp, a: Word, b: Word): Word {
    Pow2Of32();
    Bitwise(op, 32, a, b)
  }

  lemma Pow2Of32()
    ensures Pow2(32) == 0x1_0000_0000
  {
    assert Pow2(8) == 0x100;
    assert Pow2(16) == 0x1_0000;
    assert Pow2(24) == 0x100_0000;
  }

  lemma {:induction false} OrZero(n: nat, a: nat)
    requires a < Pow2(n)
    ensures Bitwise(OrBit, n, a, 0) == a
  {
    if n > 0 {
      OrZero(n - 1, a / 2);
    }
  }

  /** `|` puts a low field below a high field without touching it. */
  lemma {:induction false} OrField(n: nat, k: nat, hi: nat, lo: nat)
    requires k <= n && lo < Pow2(k)
    requires hi * Pow2(k) < Pow2(n)
    ensures Bitwise(OrBit, n, hi * Pow2(k), lo) == hi * Pow2(k) + lo
  {
    if k == 0 {
      OrZero(n, hi);
    } else {
      var half := hi * Pow2(k - 1);
      assert hi * Pow2(k) == 2 * half;
      OrField(n - 1, k - 1, hi, lo / 2);
    }
  }

  lemma {:induction false} XorOnes(n: nat, a: nat)
    requires a < Pow2(n)
    ensures Bitwise(XorBit, n, a, Pow2(n) - 1) == Pow2(n) - 1 - a
  {
    if n > 0 {
      XorOnes(n - 1, a / 2);
      assert (Pow2(n) - 1) / 2 == Pow2(n - 1) - 1;
    }
  }

  /** `|` of a word whose low `k` bits are clear with a field narrower than `k` bits. */
  lemma OrBelow(k: nat, p: nat, hi: nat, lo: nat)
    requires p == Pow2(k) && k <= 32
    requires hi * p < 0x1_0000_0000 && lo < p
    ensures hi * p + lo < 0x1_0000_0000
    ensures Bitwise32(OrBit, hi * p, lo) == hi * p + lo
  {
    hide Pow2, Bitwise;
    Pow2Of32();
    OrField(32, k, hi, lo);
    Bits32Bound(hi * p, lo);
  }

  lemma Bits32Bound(a: nat, b: nat)
    ensures Bitwise(OrBit, 32, a, b) < 0x1_0000_0000
  {
    Pow2Of32();
  }

  /** Bitwise complement of a word, written with `^` as the ISA manual defines NOT. */
  lemma XorAllOnes(a: Word)
    ensures Bitwise32(XorBit, a, 0xFFFF_FFFF) == 0xFFFF_FFFF - a
  {
    Pow2Of32();
    XorOnes(32, a);
  }

  /** Division recovers the two parts of a sum `q * p + r`. */
  lemma DivMod(p: nat, q: int, r: nat)
    requires r < p
    ensures (q * p + r) / p == q && (q * p + r) % p == r
  {
    var w := q * p + r;
    var d := q - w / p;
    assert d * p == w % p - r;
  }

  /** `w` in terms of its quotient and remainders by `p` and `q`. */
  lemma Regroup(c: int, d: int, b: int, p: int, q: int)
    ensures (c * q + d) * p + b == c * (p * q) + (d * p + b)
  {
    calc {
      (c * q + d) * p + b;
      c * q * p + d * p + b;
    == { assert c * q * p == c * (q * p) && q * p == p * q; }
      c * (p * q) + (d * p + b);
    }
  }

  lemma ProductGrows(x: int, y: int, p: nat)
    requires x <= y
    ensures x * p <= y * p
  {
  }

  lemma TwoDigits(d: nat, b: nat, p: nat, q: nat)
    requires d < q && b < p
    ensures 0 <= d * p + b < p * q
  {
    ProductGrows(0, d, p);
    ProductGrows(d + 1, q, p);
    assert (d + 1) * p == d * p + p;
    assert q * p == p * q;
  }

  lemma DivModDigits(c: int, d: nat, b: nat, p: nat, q: nat)
    requires d < q && b < p
    ensures var w := (c * q + d) * p + b;
      && p * q > 0 && w / (p * q) == c && w % (p * q) == d * p + b
      && w / p == c * q + d && w % p == b
  {
    TwoDigits(d, b, p, q);
    Regroup(c, d, b, p, q);
    DivMod(p * q, c, d * p + b);
    DivMod(p, c * q + d, b);
  }

  /** Dividing twice, and the remainder of a product in two parts. */
  lemma DivModTwice(w: int, p: nat, q: nat)
    requires p > 0 && q > 0
    ensures p * q > 0
    ensures w / (p * q) == w / p / q
    ensures w % (p * q) == w / p % q * p + w % p
  {
    var a := w / p;
    var c, d := a / q, a % q;
    assert a == c * q + d;
    assert w == a * p + w % p;
    DivModDigits(c, d, w % p, p, q);
  }

  lemma WordItself(w: Word)
    ensures ToWord(w) == w
  {
  }

  /** The low bits of `uint32_t` and of the number it came from agree. */
  lemma LowBits(x: int, p: nat, q: nat)
    requires p * q == 0x1_0000_0000 && p > 0
    ensures ToWord(x) % p == x % p
  {
    var k := x / 0x1_0000_0000;
    assert x == ToWord(x) + k * q * p;
    ModAdd(ToWord(x), k * q, p);
  }

  lemma ModAdd(x: int, k: int, p: nat)
    requires p > 0
    ensures (x + k * p) % p == x % p
  {
    var y := x + k * p;
    var d := y / p - x / p - k;
    assert d * p == x % p - y % p;
  }

  lemma SameWord(a: int, b: int, d: int)
    requires ToWord(a) == ToWord(b)
    ensures ToWord(a + d) == ToWord(b + d)
  {
    ToWordAdds(a, d);
    ToWordAdds(b, d);
  }

  lemma ToWordAdds(a: int, d: int)
    ensures ToWord(ToWord(a) + d) == ToWord(a + d)
  {
    var q := a / 0x1_0000_0000;
    assert a + d == ToWord(a) + d + q * 0x1_0000_0000;
    ModAdd(ToWord(a) + d, q, 0x1_0000_0000);
  }
}
