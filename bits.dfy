/** Machine integers and the operations the emulator applies to them.
    Rust's `u8`, `u16`, `u32` and `i32` are integer ranges here, and every
    operation says how it wraps. A fixed bit field `(w & M) >> k` whose mask
    `M` is one contiguous run of ones is a quotient and remainder by powers
    of two, and callers write it that way. AND, OR and XOR are defined bit by
    bit from the least significant bit up, and a shift by `k` is `k` shifts
    by one bit. */
module Bits {

  const TWO_32: int := 0x1_0000_0000

  type U8 = x: int | 0 <= x < 0x100
  type U16 = x: int | 0 <= x < 0x1_0000
  type U32 = x: int | 0 <= x < 0x1_0000_0000
  type I32 = x: int | -0x8000_0000 <= x < 0x8000_0000

  // ---------------------------------------------------------------- casts

  /** `w as i32`: the same 32 bits read in two's complement. */
  function AsI32(w: U32): (r: I32)
    ensures r == w || r == w - TWO_32
    ensures r < 0 <==> w >= 0x8000_0000
  {
    if w < 0x8000_0000 then w else w - TWO_32
  }

  /** `x as u32` for an `i32` x: the same 32 bits read as unsigned. */
  function AsU32(x: I32): (r: U32)
    ensures r == x || r == x + TWO_32
    ensures AsI32(r) == x
  {
    if x >= 0 then x else x + TWO_32
  }

  /** `b as i8`. */
  function AsI8(b: U8): (r: int)
    ensures -0x80 <= r < 0x80 && (r == b || r == b - 0x100)
    ensures r < 0 <==> b >= 0x80
  {
    if b < 0x80 then b else b - 0x100
  }

  /** `h as i16`. */
  function AsI16(h: U16): (r: int)
    ensures -0x8000 <= r < 0x8000 && (r == h || r == h - 0x1_0000)
    ensures r < 0 <==> h >= 0x8000
  {
    if h < 0x8000 then h else h - 0x1_0000
  }

  /** `((b as i8) as i32) as u32`: a byte widened with its sign. */
  function SignExtend8(b: U8): (r: U32)
    ensures r % 0x100 == b
    ensures AsI32(r) == AsI8(b)
    ensures r < 0x80 || r >= 0xFFFF_FF80
  {
    AsU32(AsI8(b))
  }

  /** `((h as i16) as i32) as u32`: a half-word widened with its sign. */
  function SignExtend16(h: U16): (r: U32)
    ensures r % 0x1_0000 == h
    ensures AsI32(r) == AsI16(h)
    ensures r < 0x8000 || r >= 0xFFFF_8000
  {
    AsU32(AsI16(h))
  }

  /** `w as u8`: the low byte. */
  function Low8(w: U32): (r: U8)
    ensures w == (w / 0x100) * 0x100 + r
  {
    w % 0x100
  }

  /** `w as u16`: the low half-word. */
  function Low16(w: U32): (r: U16)
    ensures w == (w / 0x1_0000) * 0x1_0000 + r
  {
    w % 0x1_0000
  }

  // ------------------------------------------------------------ arithmetic

  /** `a.wrapping_add(b)`: the sum, less 2^32 when it does not fit. */
  function WrappingAdd(a: U32, b: U32): (r: U32)
    ensures r == if a + b < TWO_32 then a + b else a + b - TWO_32
  {
    (a + b) % TWO_32
  }

  /** `a.wrapping_sub(b)`: the difference, plus 2^32 when it is negative. */
  function WrappingSub(a: U32, b: U32): (r: U32)
    ensures r == if a >= b then a - b else a - b + TWO_32
  {
    (a - b) % TWO_32
  }

  // ------------------------------------------------------------- bitwise

  function Pow2(k: nat): (r: nat)
    ensures r >= 1
  {
    if k == 0 then 1 else 2 * Pow2(k - 1)
  }

  lemma Pow2Of32()
    ensures Pow2(32) == TWO_32
  {
    assert Pow2(8) == 0x100;
    assert Pow2(16) == 0x1_0000;
    assert Pow2(24) == 0x100_0000;
  }

  datatype BitOp = AndOp | OrOp | XorOp

  /** The operation on one bit of each operand. */
  function BitOf(op: BitOp, x: int, y: int): (r: int)
    requires 0 <= x < 2 && 0 <= y < 2
    ensures 0 <= r < 2
    ensures r == 1 <==> match op
                        case AndOp => x == 1 && y == 1
                        case OrOp => x == 1 || y == 1
                        case XorOp => x != y
  {
    match op
    case AndOp => if x == 1 && y == 1 then 1 else 0
    case OrOp => if x == 1 || y == 1 then 1 else 0
    case XorOp => if x != y then 1 else 0
  }

  /** The operation applied to the low `n` bits of `a` and `b`: bit `i` of the
      result is `BitOf(op, bit i of a, bit i of b)`. */
  function Bitwise(op: BitOp, a: nat, b: nat, n: nat): (r: nat)
    ensures r < Pow2(n)
  {
    if n == 0 then 0 else BitOf(op, a % 2, b % 2) + 2 * Bitwise(op, a / 2, b / 2, n - 1)
  }

  /** `a & b`: never above either operand. */
  function BitAnd(a: U32, b: U32): (r: U32)
    ensures r <= a && r <= b
  {
    AndBounded(a, b, 32);
    Bitwise(AndOp, a, b, 32)
  }

  /** `a | b`: never below either operand. */
  function BitOr(a: U32, b: U32): (r: U32)
    ensures r >= a && r >= b
  {
    Pow2Of32();
    OrBounded(a, b, 32);
    Bitwise(OrOp, a, b, 32)
  }

  /** `a ^ b`: zero exactly when the operands are equal. */
  function BitXor(a: U32, b: U32): (r: U32)
    ensures r == 0 <==> a == b
  {
    Pow2Of32();
    XorZeroIffEqual(a, b, 32);
    Bitwise(XorOp, a, b, 32)
  }

  lemma {:induction false} AndBounded(a: nat, b: nat, n: nat)
    ensures Bitwise(AndOp, a, b, n) <= a && Bitwise(AndOp, a, b, n) <= b
  {
    if n > 0 {
      AndBounded(a / 2, b / 2, n - 1);
    }
  }

  lemma {:induction false} OrBounded(a: nat, b: nat, n: nat)
    requires a < Pow2(n) && b < Pow2(n)
    ensures Bitwise(OrOp, a, b, n) >= a && Bitwise(OrOp, a, b, n) >= b
  {
    if n > 0 {
      OrBounded(a / 2, b / 2, n - 1);
    }
  }

  /** All three operations are symmetric in their operands. */
  lemma {:induction false} BitwiseCommutes(op: BitOp, a: nat, b: nat, n: nat)
    ensures Bitwise(op, a, b, n) == Bitwise(op, b, a, n)
  {
    if n > 0 {
      BitwiseCommutes(op, a / 2, b / 2, n - 1);
    }
  }

  /** `x & x == x`, `x | x == x` and `x ^ x == 0`. */
  lemma {:induction false} BitwiseSelf(a: nat, n: nat)
    requires a < Pow2(n)
    ensures Bitwise(AndOp, a, a, n) == a
    ensures Bitwise(OrOp, a, a, n) == a
    ensures Bitwise(XorOp, a, a, n) == 0
  {
    if n > 0 {
      BitwiseSelf(a / 2, n - 1);
    }
  }

  /** `x | 0 == x`, `x ^ 0 == x` and `x & 0 == 0`. */
  lemma {:induction false} BitwiseZero(a: nat, n: nat)
    requires a < Pow2(n)
    ensures Bitwise(OrOp, a, 0, n) == a
    ensures Bitwise(XorOp, a, 0, n) == a
    ensures Bitwise(AndOp, a, 0, n) == 0
  {
    if n > 0 {
      BitwiseZero(a / 2, n - 1);
    }
  }

  /** `(x ^ y) ^ y == x`. */
  lemma {:induction false} XorCancels(a: nat, b: nat, n: nat)
    requires a < Pow2(n)
    ensures Bitwise(XorOp, Bitwise(XorOp, a, b, n), b, n) == a
  {
    if n > 0 {
      var x := Bitwise(XorOp, a, b, n);
      BitwiseSplits(XorOp, a, b, n);
      XorCancels(a / 2, b / 2, n - 1);
      assert Bitwise(XorOp, x, b, n) == BitOf(XorOp, x % 2, b % 2) + 2 * (a / 2);
    }
  }

  /** The lowest bit of the result and the rest of it. */
  lemma BitwiseSplits(op: BitOp, a: nat, b: nat, n: nat)
    requires n > 0
    ensures Bitwise(op, a, b, n) % 2 == BitOf(op, a % 2, b % 2)
    ensures Bitwise(op, a, b, n) / 2 == Bitwise(op, a / 2, b / 2, n - 1)
  {
  }

  /** `x ^ y == 0` exactly when `x == y`. */
  lemma {:induction false} XorZeroIffEqual(a: nat, b: nat, n: nat)
    requires a < Pow2(n) && b < Pow2(n)
    ensures Bitwise(XorOp, a, b, n) == 0 <==> a == b
  {
    if n > 0 {
      XorZeroIffEqual(a / 2, b / 2, n - 1);
      BitwiseSplits(XorOp, a, b, n);
    }
  }

  /** AND with a mask of the low `m` bits keeps the value modulo `2^m`. */
  lemma {:induction false} AndLowMask(a: nat, m: nat, n: nat)
    requires m <= n
    ensures Bitwise(AndOp, a, Pow2(m) - 1, n) == a % Pow2(m)
  {
    if m == 0 {
      AndBounded(a, 0, n);
    } else {
      var p := Pow2(m - 1);
      var mask := Pow2(m) - 1;
      assert mask == 2 * (p - 1) + 1;
      assert mask % 2 == 1 && mask / 2 == p - 1;
      var r := Bitwise(AndOp, a, mask, n);
      BitwiseSplits(AndOp, a, mask, n);
      assert r % 2 == a % 2;
      AndLowMask(a / 2, m - 1, n - 1);
      assert r / 2 == (a / 2) % p;
      ModDouble(a, p);
      assert r == a % 2 + 2 * ((a / 2) % p);
    }
  }

  /** The remainder by `2p` is the lowest bit plus twice the remainder of
      the halved value by `p`. */
  lemma ModDouble(a: nat, p: nat)
    requires p >= 1
    ensures a % (2 * p) == a % 2 + 2 * ((a / 2) % p)
  {
    var q := (a / 2) / p;
    var r := (a / 2) % p;
    assert a / 2 == q * p + r;
    assert a == q * (2 * p) + (a % 2 + 2 * r);
    DivModUnique(a, 2 * p, q, a % 2 + 2 * r);
  }

  /** Halving the quotient by `p` is dividing by `2p`. */
  lemma DivDouble(x: int, p: nat)
    requires p >= 1
    ensures (x / 2) / p == x / (2 * p)
  {
    var q := (x / 2) / p;
    var r := (x / 2) % p;
    assert x / 2 == q * p + r;
    assert x == q * (2 * p) + (x % 2 + 2 * r);
    DivModUnique(x, 2 * p, q, x % 2 + 2 * r);
  }

  /** Quotient and remainder are the only pair with `0 <= r < d`. */
  lemma DivModUnique(x: int, d: nat, q: int, r: int)
    requires d >= 1 && 0 <= r < d && x == q * d + r
    ensures x / d == q && x % d == r
  {
    var e := q - x / d;
    assert e * d == x % d - r by {
      assert x == (x / d) * d + x % d;
      SubtractProducts(q, x / d, d);
    }
    if e >= 1 {
      ProductAtLeast(e, d);
    } else if e <= -1 {
      ProductAtLeast(-e, d);
    }
  }

  lemma SubtractProducts(a: int, b: int, d: int)
    ensures (a - b) * d == a * d - b * d
  {
  }

  lemma ProductAtLeast(e: int, d: int)
    requires e >= 1 && d >= 1
    ensures e * d >= d && (-e) * d == -(e * d)
  {
  }

  /** `k` halvings are one floor division by `2^k`. */
  lemma {:induction false} HalveDivides(x: int, k: nat)
    ensures Halve(x, k) == x / Pow2(k)
    decreases k
  {
    if k > 0 {
      HalveDivides(x / 2, k - 1);
      DivDouble(x, Pow2(k - 1));
    }
  }

  /** `(x & y) & y == x & y` and `(x | y) | y == x | y`. */
  lemma {:induction false} BitwiseAbsorbs(a: nat, b: nat, n: nat)
    ensures Bitwise(AndOp, Bitwise(AndOp, a, b, n), b, n) == Bitwise(AndOp, a, b, n)
    ensures Bitwise(OrOp, Bitwise(OrOp, a, b, n), b, n) == Bitwise(OrOp, a, b, n)
  {
    if n > 0 {
      BitwiseAbsorbs(a / 2, b / 2, n - 1);
    }
  }

  // --------------------------------------------------------------- shifts

  /** `a << k` on a `u32`: `k` doublings, each dropping the bit shifted out.
      Rust panics on a shift amount of 32 or more. */
  function Shl(a: U32, k: int): (r: U32)
    requires 0 <= k < 32
    ensures k == 0 ==> r == a
    ensures k > 0 ==> r % 2 == 0
    decreases k
  {
    if k == 0 then a else Shl((2 * a) % TWO_32, k - 1)
  }

  /** `a >> k` on a `u32`: `k` halvings rounding down, so the vacated high
      bits are zero. */
  function Shr(a: U32, k: int): (r: U32)
    requires 0 <= k < 32
    ensures r == a / Pow2(k)
    ensures r <= a
  {
    HalveDivides(a, k);
    Halve(a, k)
  }

  /** `((a as i32) >> k) as u32`: Rust shifts an `i32` arithmetically, so the
      signed value is halved `k` times rounding toward minus infinity and the
      vacated high bits are copies of the sign bit. A non-negative word is
      shifted exactly as by `Shr`. */
  function Sar(a: U32, k: int): (r: U32)
    requires 0 <= k < 32
    ensures AsI32(r) == AsI32(a) / Pow2(k)
    ensures AsI32(r) < 0 <==> AsI32(a) < 0
    ensures AsI32(a) >= 0 ==> r == Shr(a, k)
  {
    HalveDivides(AsI32(a), k);
    HalveDivides(a, k);
    AsU32(Halve(AsI32(a), k))
  }

  /** `k` halvings of `x`, each rounding toward minus infinity. The result
      keeps the sign of `x` and its magnitude only shrinks. */
  function Halve(x: int, k: nat): (r: int)
    ensures x >= 0 ==> 0 <= r <= x
    ensures x < 0 ==> x <= r < 0
    decreases k
  {
    if k == 0 then x else Halve(x / 2, k - 1)
  }

  // --------------------------------------------------------------- lemmas

  /** Wrapping addition is undone by wrapping subtraction, whatever wrapped. */
  lemma AddThenSub(a: U32, b: U32)
    ensures WrappingSub(WrappingAdd(a, b), b) == a
  {
  }

  /** The `i32` and `u32` readings of a bit pattern convert into each other. */
  lemma SignedRoundTrip(w: U32, x: I32)
    ensures AsU32(AsI32(w)) == w && AsI32(AsU32(x)) == x
  {
  }

  /** `a << k` is multiplication by `2^k` modulo `2^32`. */
  lemma {:induction false} ShlMultiplies(a: U32, k: nat)
    requires k < 32
    ensures Shl(a, k) == (a * Pow2(k)) % TWO_32
    decreases k
  {
    if k > 0 {
      var b := (2 * a) % TWO_32;
      var q := (2 * a) / TWO_32;
      var p := Pow2(k - 1);
      ShlMultiplies(b, k - 1);
      assert 2 * a == q * TWO_32 + b;
      MulTwice(a, p);
      MulDistributes(q, b, p);
      ModMultiple(b * p, q * p);
    }
  }

  /** A shift by 16 moves the low half-word into the high one and clears
      the low half. */
  lemma ShlBy16(a: U32)
    ensures Shl(a, 16) == (a % 0x1_0000) * 0x1_0000
  {
    ShlBy16Wraps(a);
    HighHalfWord(a);
  }

  lemma ShlBy16Wraps(a: U32)
    ensures Shl(a, 16) == (a * 0x1_0000) % TWO_32
  {
    assert Pow2(8) == 0x100;
    assert Pow2(16) == 0x1_0000;
    ShlMultiplies(a, 16);
  }

  lemma HighHalfWord(a: U32)
    ensures (a * 0x1_0000) % TWO_32 == (a % 0x1_0000) * 0x1_0000
  {
    var q := a / 0x1_0000;
    var r := a % 0x1_0000;
    assert a * 0x1_0000 == r * 0x1_0000 + q * TWO_32;
    ModMultiple(r * 0x1_0000, q);
  }

  lemma ModMultiple(x: int, n: int)
    ensures (x + n * TWO_32) % TWO_32 == x % TWO_32
  {
  }

  lemma MulDistributes(q: int, b: int, p: int)
    ensures (q * TWO_32 + b) * p == b * p + (q * p) * TWO_32
  {
  }

  lemma MulTwice(a: int, p: int)
    ensures a * (2 * p) == (2 * a) * p
  {
  }
}
