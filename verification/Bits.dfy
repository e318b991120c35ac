/** Shifts, single bits, and strings of bits with the most significant first. */
module Bits {
  import opened Wire

  function Pow2(e: nat): (r: nat)
    ensures r >= 1
  {
    if e == 0 then 1 else 2 * Pow2(e - 1)
  }

  lemma {:induction false} Pow2Adds(a: nat, b: nat)
    ensures Pow2(a + b) == Pow2(a) * Pow2(b)
  {
    if a > 0 {
      Pow2Adds(a - 1, b);
    }
  }

  lemma {:induction false} Pow2Monotone(a: nat, b: nat)
    requires a <= b
    ensures Pow2(a) <= Pow2(b)
  {
    if a < b {
      Pow2Monotone(a, b - 1);
    }
  }

  /** `x >> e` */
  function Shr(x: nat, e: nat): nat
    decreases e
  {
    if e == 0 then x else Shr(x / 2, e - 1)
  }

  /** `(x >> e) & 1` */
  predicate Bit(x: nat, e: nat) {
    Shr(x, e) % 2 == 1
  }

  lemma {:induction false} ShrIsDivision(x: nat, e: nat)
    ensures Shr(x, e) * Pow2(e) <= x < (Shr(x, e) + 1) * Pow2(e)
    decreases e
  {
    if e > 0 {
      ShrIsDivision(x / 2, e - 1);
      DoubleFactor(Shr(x, e), Pow2(e - 1));
      DoubleFactor(Shr(x, e) + 1, Pow2(e - 1));
    }
  }

  lemma DoubleFactor(a: nat, b: nat)
    ensures a * (2 * b) == 2 * (a * b)
  {
  }

  lemma {:induction false} ShrStep(x: nat, e: nat)
    ensures Shr(x, e + 1) == Shr(x, e) / 2
    decreases e
  {
    if e > 0 {
      ShrStep(x / 2, e - 1);
    }
  }

  /** Adding a power of two whose bit is clear sets that bit and no other. */
  lemma {:induction false} SetClearBit(x: nat, e: nat, n: nat)
    requires !Bit(x, e) && e < n && x < Pow2(n)
    ensures x + Pow2(e) < Pow2(n)
    ensures forall d: nat :: Bit(x + Pow2(e), d) == (d == e || Bit(x, d))
    decreases e
  {
    if e == 0 {
      forall d: nat ensures Bit(x + 1, d) == (d == 0 || Bit(x, d)) {
        assert d > 0 ==> (x + 1) / 2 == x / 2;
      }
    } else {
      SetClearBit(x / 2, e - 1, n - 1);
      assert (x + Pow2(e)) / 2 == x / 2 + Pow2(e - 1);
      forall d: nat ensures Bit(x + Pow2(e), d) == (d == e || Bit(x, d)) {
        if d > 0 {
          assert Bit(x + Pow2(e), d) == Bit(x / 2 + Pow2(e - 1), d - 1);
          assert Bit(x, d) == Bit(x / 2, d - 1);
        }
      }
    }
  }

  /** A number below `2^n` is its `n` low bits. */
  lemma {:induction false} BitsDetermine(x: nat, y: nat, n: nat)
    requires x < Pow2(n) && y < Pow2(n)
    requires forall d: nat | d < n :: Bit(x, d) == Bit(y, d)
    ensures x == y
    decreases n
  {
    if n > 0 {
      forall d: nat | d < n - 1 ensures Bit(x / 2, d) == Bit(y / 2, d) {
        assert Bit(x, d + 1) == Bit(y, d + 1);
      }
      BitsDetermine(x / 2, y / 2, n - 1);
      assert Bit(x, 0) == Bit(y, 0);
    }
  }

  lemma ByteRange()
    ensures Pow2(8) == 256
  {
    assert Pow2(4) == 16;
    Pow2Adds(4, 4);
  }

  /** Bit `k` of a byte, counting from the most significant. */
  predicate BitAt(b: byte, k: nat)
    requires k < 8
  {
    Bit(b, 7 - k)
  }

  /** `b | 1 << (7 - k)` */
  function SetBit(b: byte, k: nat): (r: byte)
    requires k < 8
    ensures forall j | 0 <= j < 8 :: BitAt(r, j) == (j == k || BitAt(b, j))
  {
    ByteRange();
    if BitAt(b, k) then b
    else
      SetClearBit(b, 7 - k, 8);
      b + Pow2(7 - k)
  }

  function BitsOf(bytes: Bytes): (s: seq<bool>)
    ensures |s| == 8 * |bytes|
  {
    seq(8 * |bytes|, i requires 0 <= i < 8 * |bytes| => BitAt(bytes[i / 8], i % 8))
  }

  lemma BitsOfInjective(a: Bytes, b: Bytes)
    requires BitsOf(a) == BitsOf(b)
    ensures a == b
  {
    assert |a| == |b|;
    ByteRange();
    forall i | 0 <= i < |a| ensures a[i] == b[i] {
      forall d: nat | d < 8 ensures Bit(a[i], d) == Bit(b[i], d) {
        var k := 8 * i + (7 - d);
        assert k / 8 == i && k % 8 == 7 - d;
        assert BitsOf(a)[k] == BitAt(a[i], 7 - d) && BitsOf(b)[k] == BitAt(b[i], 7 - d);
      }
      BitsDetermine(a[i], b[i], 8);
    }
  }

  /** The `n` low bits of `x`, highest first. */
  function LowBits(x: nat, n: nat): (s: seq<bool>)
    ensures |s| == n
    decreases n
  {
    if n == 0 then [] else LowBits(x / 2, n - 1) + [x % 2 == 1]
  }

  /** The number a bit string spells, first bit most significant. */
  function FromBits(s: seq<bool>): nat {
    if s == [] then 0 else 2 * FromBits(s[..|s| - 1]) + if s[|s| - 1] then 1 else 0
  }

  lemma {:induction false} FromLowBits(x: nat, n: nat)
    ensures FromBits(LowBits(x, n)) == x - Shr(x, n) * Pow2(n)
    decreases n
  {
    if n > 0 {
      FromLowBits(x / 2, n - 1);
      assert LowBits(x, n)[..n - 1] == LowBits(x / 2, n - 1);
      DoubleFactor(Shr(x, n), Pow2(n - 1));
    }
  }

  function Copies(b: bool, n: nat): (s: seq<bool>)
    ensures |s| == n
  {
    seq(n, i => b)
  }
}
