/**
 * The work of a target (`work_from_target` of `crates/opencsv-cbf/src/network.rs`):
 * a 256-step binary long division over limbs, against floor(2^256 / (target + 1)).
 */
module Pow {
  import opened Wrappers
  import opened Wire
  import opened Sorting
  import opened Bits
  import opened U256Arithmetic
  import opened Block

  // -- work ------------------------------------------------------------------

  /** `2^256 / (target + 1)` */
  function TrueWork(target: nat): nat {
    TWO256 / (target + 1)
  }

  /** The work the 128-bit accumulator holds. */
  function WorkOf(target: nat): nat {
    TrueWork(target) % TWO128
  }

  lemma {:induction false} ShrTail(x: nat, k: nat, y: nat, i: nat)
    requires x < Pow2(k)
    ensures i < k ==> Bit(x + Pow2(k) * y, i) == Bit(x, i)
    ensures i >= k ==> Shr(x + Pow2(k) * y, i) == Shr(y, i - k)
    decreases k
  {
    var z := x + Pow2(k) * y;
    if k == 0 {
      assert z == y;
    } else {
      assert Pow2(k) * y == 2 * (Pow2(k - 1) * y);
      if i > 0 {
        ShrTail(x / 2, k - 1, y, i - 1);
        assert z / 2 == x / 2 + Pow2(k - 1) * y;
      }
    }
  }

  lemma LimbWidth()
    ensures Pow2(64) == BASE
  {
    hide Pow2;
    ByteRange();
    Pow2Adds(8, 8);
    Pow2Adds(16, 16);
    Pow2Adds(32, 32);
  }

  lemma WorkWidths()
    ensures Pow2(128) == TWO128 && Pow2(256) == TWO256
  {
    LimbWidth();
    Pow2Adds(64, 64);
    Pow2Adds(128, 128);
  }

  predicate LimbBit(s: seq<u64>, i: nat)
    requires i < 64 * |s|
  {
    Bit(s[i / 64], i % 64)
  }

  /** `!limb` for each limb */
  function Complement(a: U256): (r: U256)
    ensures Limbs(r) == TWO256 - 1 - Limbs(a)
  {
    var r: U256 := [BASE - 1 - a[0], BASE - 1 - a[1], BASE - 1 - a[2], BASE - 1 - a[3]];
    FourLimbs(a);
    FourLimbs(r);
    r
  }

  lemma LimbsZeros()
    ensures Limbs([0, 0, 0, 0]) == 0
  {
    FourLimbs([0, 0, 0, 0]);
  }

  /** Bit `i` of a number sits in limb `i / 64`. */
  lemma {:induction false} BitOfLimbs(s: seq<u64>, i: nat)
    requires i < 64 * |s|
    ensures Bit(Limbs(s), i) == LimbBit(s, i)
    decreases |s|
  {
    LimbWidth();
    ShrTail(s[0], 64, Limbs(s[1..]), i);
    if i >= 64 {
      BitOfLimbs(s[1..], i - 64);
      assert (i - 64) / 64 == i / 64 - 1 && (i - 64) % 64 == i % 64;
    }
  }

  lemma {:induction false} ShrBound(x: nat, n: nat, i: nat)
    requires x < Pow2(n) && i <= n
    ensures Shr(x, i) < Pow2(n - i)
    decreases i
  {
    if i > 0 {
      ShrBound(x / 2, n - 1, i - 1);
    }
  }

  /** What the 128-bit accumulator shows of the partial quotient `q`, shifted to bit `i`. */
  function Window(q: nat, i: nat): nat {
    if i >= 128 then 0 else (q % Pow2(128 - i)) * Pow2(i)
  }

  lemma QuotientStep(q: nat, b: nat, i: nat)
    requires b <= 1 && i < 128
    ensures Window(q, i + 1) + b * Pow2(i) == Window(2 * q + b, i)
  {
    var m, unit := Pow2(127 - i), Pow2(i);
    DoubleModulo(q, b, m);
    WindowUnit(q, i);
    ScaledSum(q % m, b, unit);
  }

  lemma WindowUnit(q: nat, i: nat)
    requires i < 128
    ensures Pow2(128 - i) == 2 * Pow2(127 - i)
    ensures Window(q, i + 1) == (q % Pow2(127 - i)) * (2 * Pow2(i))
  {
  }

  lemma ScaledSum(r: nat, b: nat, unit: nat)
    ensures r * (2 * unit) + b * unit == (2 * r + b) * unit
  {
  }

  lemma DoubleModulo(q: nat, b: nat, m: nat)
    requires b <= 1 && m > 0
    ensures (2 * q + b) % (2 * m) == 2 * (q % m) + b
  {
    var r, d := q % m, q / m;
    assert q == d * m + r;
    DoubleFactor(d, m);
    DivisionUnique(2 * q + b, 2 * m, d, 2 * r + b);
  }

  lemma WorkFromQuotient(target: nat, numerator: nat, q: nat, rem: nat)
    requires numerator == TWO256 - 1 - target && rem < target + 1 && numerator == q * (target + 1) + rem
    ensures TrueWork(target) == q + 1
    ensures (q % TWO128 + 1) % TWO128 == WorkOf(target)
  {
    assert (q + 1) * (target + 1) == q * (target + 1) + (target + 1);
    DivisionUnique(TWO256, target + 1, q + 1, rem);
    SuccessorModulo(q, TWO128);
  }

  lemma SuccessorModulo(q: nat, m: nat)
    requires m > 1
    ensures (q % m + 1) % m == (q + 1) % m
  {
    var d, r := q / m, q % m;
    assert q == d * m + r;
    if r + 1 < m {
      DivisionUnique(q + 1, m, d, r + 1);
      DivisionUnique(r + 1, m, 0, r + 1);
    } else {
      assert q + 1 == (d + 1) * m;
      DivisionUnique(q + 1, m, d + 1, 0);
      DivisionUnique(m, m, 1, 0);
    }
  }

  /**
   * `work_from_target`: 256-step binary long division. Release arithmetic wraps;
   * `borrowed` tells whether the subtraction of any step did.
   */
  method WorkFromTarget(target: U256) returns (work: nat, ghost borrowed: bool)
    ensures work < TWO128
    ensures Limbs(target) + 1 <= TWO256 / 2 ==> !borrowed
    ensures Limbs(target) + 1 < TWO256 ==> work == WorkOf(Limbs(target))
  {
    hide Limbs, Pow2, Shr, Window, WorkOf, Bit, Pow64, Complement, LimbBit;
    var denominator := U256AddOne(target);
    var numerator := Complement(target);
    ghost var n, den, q: nat := Limbs(numerator), Limbs(denominator), 0;
    LimbsZeros();
    var quotient: nat := 0;
    var rem: U256 := [0, 0, 0, 0];
    DivisionStart(n);
    borrowed := false;
    for i := 256 downto 0
      invariant DivisionState(n, den, q, Limbs(rem), quotient, i)
      invariant 0 < den <= TWO256 / 2 ==> !borrowed
    {
      BitOfLimbs(numerator, i);
      assert LimbBit(numerator, i) == Bit(n, i);
      ghost var wrapped: bool;
      rem, quotient, q, wrapped := DivideBit(denominator, rem, quotient, LimbBit(numerator, i), i, n, q);
      borrowed := borrowed || wrapped;
    }
    WindowAll(q, n);
    if Limbs(target) + 1 < TWO256 {
      WorkFromQuotient(Limbs(target), n, q, Limbs(rem));
    }
    work := (quotient + 1) % TWO128;
  }

  lemma DivisionStart(n: nat)
    requires n < TWO256
    ensures Shr(n, 256) == 0 && Window(0, 256) == 0
  {
    WorkWidths();
    ShrBound(n, 256, 256);
  }

  lemma WindowAll(q: nat, n: nat)
    ensures Window(q, 0) == q % TWO128 && Shr(n, 0) == n
  {
    WorkWidths();
  }

  /** Bits `i` and up are divided: remainder, and the quotient's low 128 bits in place. */
  ghost predicate DivisionState(n: nat, den: nat, q: nat, rem: nat, quotient: nat, i: nat)
    requires i <= 256
  {
    && (den > 0 ==> Shr(n, i) == q * den + rem && rem < den)
    && quotient == Window(q, i)
  }

  /**
   * One turn of the loop. Bit `i` of the quotient is still clear, so the OR is a sum. The
   * subtraction borrows exactly when the shift went past 256 bits.
   */
  method DivideBit(denominator: U256, rem: U256, quotient: nat, bit: bool, i: nat, ghost n: nat, ghost q: nat)
    returns (rem': U256, quotient': nat, ghost q': nat, ghost borrowed: bool)
    requires i < 256 && n < TWO256 && bit == Bit(n, i)
    requires DivisionState(n, Limbs(denominator), q, Limbs(rem), quotient, i + 1)
    ensures DivisionState(n, Limbs(denominator), q', Limbs(rem'), quotient', i)
    ensures Limbs(denominator) > 0 ==> (borrowed <==> 2 * Limbs(rem) + (if bit then 1 else 0) >= TWO256)
  {
    hide Limbs, Pow2, Shr, Window;
    ghost var den := Limbs(denominator);
    ghost var shifted: nat := 2 * Limbs(rem) + if bit then 1 else 0;
    LimbsBound(denominator);
    Pow64Four();
    ShrSplit(n, i);
    DoubledProduct(q, den);
    var top: bool;
    rem', top := ShiftIn(rem, bit);
    LimbsBound(rem');
    assert den > 0 && top ==> Limbs(rem') < den;
    quotient' := quotient;
    borrowed := false;
    var ge := U256Ge(rem', denominator);
    if top || ge {
      var borrow: bool;
      rem', borrow := U256Sub(rem', denominator);
      borrowed := borrow;
      TopQuotientBit(n, den, i, q, shifted);
      assert den > TWO128 ==> i < 128;
      if i < 128 {
        quotient' := quotient + Pow2(i);
      }
      q' := 2 * q + 1;
    } else {
      q' := 2 * q;
    }
    WindowClosed(q, q', i);
    if i < 128 {
      QuotientStep(q, if top || ge then 1 else 0, i);
    }
  }

  lemma WindowClosed(q: nat, q': nat, i: nat)
    ensures i >= 128 ==> Window(q, i + 1) == 0 && Window(q', i) == 0
  {
  }

  lemma ShrSplit(n: nat, i: nat)
    ensures Shr(n, i) == 2 * Shr(n, i + 1) + if Bit(n, i) then 1 else 0
  {
    ShrStep(n, i);
  }

  lemma DoubledProduct(q: nat, den: nat)
    ensures 2 * q * den == 2 * (q * den) && (2 * q + 1) * den == 2 * (q * den) + den
  {
  }

  lemma TopQuotientBit(n: nat, den: nat, i: nat, q: nat, shifted: nat)
    requires n < TWO256 && i < 256
    ensures den > TWO128 && shifted >= den && Shr(n, i) == 2 * q * den + shifted ==> i < 128
  {
    WorkWidths();
    ShrBound(n, 256, i);
    if i >= 128 {
      Pow2Monotone(256 - i, 128);
    }
    assert 2 * q * den >= 0;
  }

  /** The 128-bit work is the exact quotient iff the target is at least `2^128`. */
  lemma WorkExactIff(target: nat)
    requires target + 1 < TWO256
    ensures WorkOf(target) == TrueWork(target) <==> target >= TWO128
    ensures TrueWork(target) >= 1
  {
    var w := TrueWork(target);
    assert TWO256 == w * (target + 1) + TWO256 % (target + 1);
    assert TWO256 == TWO128 * TWO128;
    MultipleAtLeast(target + 1, w - 1);
    if target >= TWO128 {
      ProductMonotone(TWO128, TWO128 + 1, target + 1);
      QuotientBelow(TWO256, target + 1, TWO128);
    } else {
      QuotientAtLeast(TWO256, target + 1, TWO128);
    }
  }

  lemma QuotientBelow(x: nat, b: nat, limit: nat)
    requires b > 0 && x < limit * b
    ensures x / b < limit
  {
    assert x == (x / b) * b + x % b;
    MultipleAtLeast(b, x / b - limit + 1);
    assert b * (x / b - limit + 1) == (x / b) * b - limit * b + b;
  }

  lemma QuotientAtLeast(x: nat, b: nat, limit: nat)
    requires b > 0 && limit * b <= x
    ensures x / b >= limit
  {
    assert x == (x / b) * b + x % b;
    MultipleAtLeast(b, x / b - limit);
    assert b * (x / b - limit) == (x / b) * b - limit * b;
  }

  /** A harder target is worth at least as much work. */
  lemma WorkAntitone(easy: nat, hard: nat)
    requires hard <= easy
    ensures TrueWork(easy) <= TrueWork(hard)
  {
    var w := TrueWork(easy);
    assert w * (easy + 1) <= TWO256;
    ProductMonotone(w, hard + 1, easy + 1);
    QuotientAtLeast(TWO256, hard + 1, w);
  }
}
