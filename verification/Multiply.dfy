/**
 The shift-and-add multiplication of the simulated processor.
 */
module Multiplication {
  import opened Words

  /** Negation in 32 bits: the most negative number is its own negative. */
  function Negate(x: int): int { if x == -0x8000_0000 then x else -x }

  /** A double word read as a signed number. */
  function Signed64(x: int): int { if x < 0x8000_0000_0000_0000 then x else x - W * W }

  lemma Halve(b: int, u: int)
    requires u >= 0
    ensures b * u == (2 * b) * (u / 2) + if u % 2 == 1 then b else 0
  {
    var h := u / 2;
    assert u == 2 * h + u % 2;
    assert b * u == b * (2 * h) + b * (u % 2) by { Distribute(b, 2 * h, u % 2); }
  }

  lemma Distribute(b: int, x: int, y: int)
    ensures b * (x + y) == b * x + b * y
  {
  }

  lemma Bound(x: int, y: int)
    requires 0 <= x < W && 0 <= y < W
    ensures 0 <= x * y < W * W
  {
    assert x * y <= x * W by { Mono(y, W, x); }
    assert x * W < W * W;
  }

  lemma Mono(x: int, y: int, z: int)
    requires x <= y && 0 <= z
    ensures z * x <= z * y
  {
  }

  /** Adding one double word to another, with the carry found by comparison. */
  method AddCarry(hi: int, lo: int, bHi: int, bLo: int) returns (h: int, l: int)
    requires 0 <= hi < W && 0 <= lo < W && 0 <= bHi < W && 0 <= bLo < W
    requires hi * W + lo + bHi * W + bLo < W * W
    ensures 0 <= h < W && 0 <= l < W && h * W + l == hi * W + lo + bHi * W + bLo
  {
    l := (lo + bLo) % W;
    h := hi;
    if l < bLo { h := (h + 1) % W; }
    h := (h + bHi) % W;
  }

  /** Doubling a double word. */
  method ShiftLeft(bHi: int, bLo: int) returns (h: int, l: int)
    requires 0 <= bHi < W && 0 <= bLo < W && 2 * (bHi * W + bLo) < W * W
    ensures 0 <= h < W && 0 <= l < W && h * W + l == 2 * (bHi * W + bLo)
  {
    h := 2 * bHi % W;
    if bLo >= 0x8000_0000 { h := h + 1; }
    l := 2 * bLo % W;
  }

  /** The loop over the bits of a, least first. The shift of a is arithmetic, so a negative a runs all 32 rounds;
      otherwise the loop ends when no bit is left. What is left of a, times the shifted b, is what is left to add. */
  method ShiftAdd(a0: int, b: int) returns (hi: int, lo: int)
    requires IsWord(a0) && IsWord(b) && a0 != 0
    ensures 0 <= hi < W && 0 <= lo < W && hi * W + lo == Unsigned(a0) * Unsigned(b)
  {
    var a, bHi, bLo := a0, 0, Unsigned(b);
    hi, lo := 0, 0;
    ghost var u, high, product := Unsigned(a0), W, Unsigned(a0) * Unsigned(b);
    ghost var acc, shifted := 0, Unsigned(b);
    Pow32();
    LeftStart(Unsigned(a0), Unsigned(b));
    var i := 0;
    while i < 32
      invariant 0 <= i <= 32 && 0 <= hi < W && 0 <= lo < W && 0 <= bHi < W && 0 <= bLo < W
      invariant high == Pow2(32 - i) && Rest(a0, a, u, high)
      invariant acc == hi * W + lo && shifted == bHi * W + bLo
      invariant Left(acc, shifted, u, high, Unsigned(b), product)
    {
      ghost var half := Pow2(31 - i);
      assert high == 2 * half;
      LeftStep(acc, shifted, u, high, Unsigned(b), product, half);
      RestStep(a0, a, u, high, half);
      if a % 2 == 1 {
        hi, lo := AddCarry(hi, lo, bHi, bLo);
        acc := acc + shifted;
        if a == 0 || a == 1 {
          LeftNothing(acc, 2 * shifted, u / 2, half, Unsigned(b), product);
          break;
        }
      }
      bHi, bLo := ShiftLeft(bHi, bLo);
      a, u, high, shifted := a / 2, u / 2, half, 2 * shifted;
      i := i + 1;
    }
    if i == 32 { LeftNothing(acc, shifted, u, high, Unsigned(b), product); }
  }

  /** What is left of a, as a signed word, against what is left of its bits. */
  ghost predicate Rest(a0: int, a: int, u: int, high: int) {
    0 <= u < high && if a0 < 0 then a == u - high else a == u && 0 < u
  }

  lemma RestStep(a0: int, a: int, u: int, high: int, half: int)
    requires Rest(a0, a, u, high) && high == 2 * half
    ensures a % 2 == u % 2 && 0 <= u / 2 < half
    ensures if a0 < 0 then a < 0 && a / 2 == u / 2 - half else a / 2 == u / 2 && (a != 1 ==> 0 < u / 2)
  {
  }

  function Times(x: int, n: nat): int { if n == 0 then 0 else x + Times(x, n - 1) }

  lemma {:induction false} TimesIs(x: int, n: nat)
    ensures Times(x, n) == x * n
  {
    if n > 0 {
      TimesIs(x, n - 1);
      Distribute(x, n - 1, 1);
    }
  }

  /** What has been added up, and what is still to be added: the shifted b as often as the rest of a says. */
  ghost predicate Left(acc: int, shifted: int, u: int, high: int, b: int, product: int) {
    0 <= u && 0 <= high && 0 <= b && product < W * W && acc + Times(shifted, u) == product && Times(shifted, high) == Times(W, b)
  }

  lemma LeftStart(u: int, b: int)
    requires 0 <= u < W && 0 <= b < W
    ensures Left(0, b, u, W, b, u * b)
  {
    Bound(u, b);
    TimesIs(b, u);
    TimesIs(b, W);
    TimesIs(W, b);
  }

  lemma LeftNothing(acc: int, shifted: int, u: int, high: int, b: int, product: int)
    requires Left(acc, shifted, u, high, b, product) && u == 0
    ensures acc == product
  {
  }

  lemma LeftStep(acc: int, shifted: int, u: int, high: int, b: int, product: int, half: int)
    requires Left(acc, shifted, u, high, b, product) && 0 <= shifted && high == 2 * half && half >= 1 && 0 <= b < W
    ensures Left(if u % 2 == 1 then acc + shifted else acc, 2 * shifted, u / 2, half, b, product)
    ensures 2 * shifted < W * W && (u % 2 == 1 ==> acc + shifted < W * W)
  {
    TimesIs(shifted, u);
    TimesIs(shifted, high);
    TimesIs(W, b);
    TimesIs(2 * shifted, u / 2);
    TimesIs(2 * shifted, half);
    RoundMath(acc, shifted, u, high, product, b, half);
  }

  /** One round: either bit of a is accounted for, and neither the sum nor the shift overflows. */
  lemma RoundMath(acc: int, shifted: int, u: int, high: int, product: int, b: int, half: int)
    requires 0 <= u && 0 <= shifted && acc + shifted * u == product && product < W * W && high == 2 * half && half >= 1
    requires shifted * high == b * W && 0 <= b < W
    ensures acc + (if u % 2 == 1 then shifted else 0) + (2 * shifted) * (u / 2) == product
    ensures (2 * shifted) * half == b * W && 2 * shifted < W * W
    ensures u % 2 == 1 ==> acc + shifted < W * W
  {
    Halve(shifted, u);
    Regroup(shifted, half);
    Mono(1, half, 2 * shifted);
    Mono(0, u / 2, 2 * shifted);
  }

  lemma Regroup(x: int, y: int)
    ensures (2 * x) * y == x * (2 * y)
  {
  }

  lemma {:induction false} PowSum(m: nat, n: nat)
    ensures Pow2(m + n) == Pow2(m) * Pow2(n)
  {
    if m > 0 {
      PowSum(m - 1, n);
      Regroup2(Pow2(m - 1), Pow2(n));
    }
  }

  lemma Regroup2(x: int, y: int)
    ensures 2 * (x * y) == (2 * x) * y
  {
  }

  lemma Pow32()
    ensures Pow2(32) == W
  {
    assert Pow2(8) == 256;
    PowSum(8, 8);
    PowSum(16, 16);
  }

  /** Two's complement of a double word. */
  method Complement(hi: int, lo: int) returns (h: int, l: int)
    requires 0 <= hi < W && 0 <= lo < W && hi * W + lo > 0
    ensures 0 <= h < W && 0 <= l < W && h * W + l == W * W - (hi * W + lo)
  {
    h, l := W - 1 - hi, W - 1 - lo;
    l := (l + 1) % W;
    if l == 0 { h := (h + 1) % W; }
  }

  lemma Positive(x: int, y: int)
    requires x > 0 && y > 0
    ensures x * y > 0
  {
  }

  lemma Signs(a: int, b: int)
    requires IsWord(a) && IsWord(b)
    ensures var x, y := if a < 0 then -a else a, if b < 0 then -b else b;
            && x * y == (if (a < 0) != (b < 0) then -(a * b) else a * b) && x * y <= 0x8000_0000 * 0x8000_0000
  {
    var x, y := if a < 0 then -a else a, if b < 0 then -b else b;
    Mono(y, 0x8000_0000, x);
    Mono(x, 0x8000_0000, 0x8000_0000);
  }

  /** The product of two registers, read as signed or as unsigned. */
  function Product(a: int, b: int, signedArith: bool): int { if signedArith then a * b else Unsigned(a) * Unsigned(b) }

  lemma Reduce(x: int, p: int)
    requires 0 <= x < W * W && (x == p || x == p + W * W)
    ensures x == p % (W * W)
  {
  }

  /** The double word hi:lo is the exact product, for all signed and for all unsigned operands. */
  method Mult(a0: int, b0: int, signedArith: bool) returns (hi: int, lo: int)
    requires IsWord(a0) && IsWord(b0)
    ensures 0 <= hi < W && 0 <= lo < W
    ensures signedArith ==> Signed64(hi * W + lo) == a0 * b0
    ensures !signedArith ==> hi * W + lo == Unsigned(a0) * Unsigned(b0)
    ensures hi * W + lo == Product(a0, b0, signedArith) % (W * W)
  {
    if a0 == 0 || b0 == 0 { return 0, 0; }
    var a, b, negative := a0, b0, false;
    if signedArith {
      if a < 0 {
        negative := !negative;
        a := Negate(a);
      }
      if b < 0 {
        negative := !negative;
        b := Negate(b);
      }
      Signs(a0, b0);
      assert Unsigned(a) == if a0 < 0 then -a0 else a0;
      assert Unsigned(b) == if b0 < 0 then -b0 else b0;
    }
    hi, lo := ShiftAdd(a, b);
    Positive(Unsigned(a), Unsigned(b));
    if negative { hi, lo := Complement(hi, lo); }
    Reduce(hi * W + lo, Product(a0, b0, signedArith));
  }
}
