/**
 * 256-bit arithmetic over four little-endian 64-bit limbs
 * (`crates/opencsv-cbf/src/network.rs`). Every routine is proved against the
 * natural number its limbs spell.
 */
module U256Arithmetic {
  import opened Wire
  import opened Bits

  const BASE := 0x1_0000_0000_0000_0000
  const TWO128 := 0x1_0000_0000_0000_0000_0000_0000_0000_0000
  const TWO256 := 0x1_0000_0000_0000_0000_0000_0000_0000_0000_0000_0000_0000_0000_0000_0000_0000_0000

  type U256 = s: seq<u64> | |s| == 4 witness [0, 0, 0, 0]
  type U512 = s: seq<u64> | |s| == 8 witness [0, 0, 0, 0, 0, 0, 0, 0]

  function Limbs(s: seq<u64>): nat {
    if s == [] then 0 else s[0] + BASE * Limbs(s[1..])
  }

  function Pow64(e: nat): (r: nat)
    ensures r >= 1
  {
    if e == 0 then 1 else BASE * Pow64(e - 1)
  }

  lemma Pow64Four()
    ensures Pow64(4) == TWO256
  {
    assert Pow64(2) == BASE * BASE;
    assert Pow64(3) == BASE * Pow64(2);
  }

  lemma {:induction false} LimbsBound(s: seq<u64>)
    ensures Limbs(s) < Pow64(|s|)
  {
    if s != [] {
      LimbsBound(s[1..]);
    }
  }

  /** A number is its low limbs plus its high limbs, shifted. */
  lemma {:induction false} LimbsSplit(s: seq<u64>, i: nat)
    requires i <= |s|
    ensures Limbs(s) == Limbs(s[..i]) + Pow64(i) * Limbs(s[i..])
  {
    if i > 0 {
      LimbsSplit(s[1..], i - 1);
      assert s[..i][1..] == s[1..][..i - 1] && s[1..][i - 1..] == s[i..];
      Distribute(BASE, Limbs(s[1..][..i - 1]), Pow64(i - 1), Limbs(s[i..]));
    }
  }

  lemma Distribute(a: nat, b: nat, c: nat, d: nat)
    ensures a * (b + c * d) == a * b + a * c * d
  {
  }

  lemma {:induction false} LimbsOfZeros(s: seq<u64>)
    requires forall i | 0 <= i < |s| :: s[i] == 0
    ensures Limbs(s) == 0
  {
    if s != [] {
      LimbsOfZeros(s[1..]);
    }
  }

  lemma OneLimb(x: u64)
    ensures Limbs([x]) == x
  {
    assert Limbs([x]) == x + BASE * Limbs([x][1..]);
  }

  lemma LimbsAppend(s: seq<u64>, x: u64)
    ensures Limbs(s + [x]) == Limbs(s) + Pow64(|s|) * x
  {
    hide Limbs;
    LimbsSplit(s + [x], |s|);
    assert (s + [x])[..|s|] == s && (s + [x])[|s|..] == [x];
    OneLimb(x);
  }

  /** `u256_ge`: the first differing limb from the top decides. */
  method U256Ge(a: U256, b: U256) returns (r: bool)
    ensures r == (Limbs(a) >= Limbs(b))
  {
    for i := 4 downto 0
      invariant a[i..] == b[i..]
    {
      if a[i] != b[i] {
        r := a[i] > b[i];
        TopLimbDecides(a, b, i);
        return;
      }
      assert a[i..] == [a[i]] + a[i + 1..] && b[i..] == [b[i]] + b[i + 1..];
    }
    assert a == a[0..] && b == b[0..];
    r := true;
  }

  lemma TopLimbDecides(a: U256, b: U256, i: nat)
    requires i < 4 && a[i + 1..] == b[i + 1..] && a[i] != b[i]
    ensures Limbs(a) > Limbs(b) <==> a[i] > b[i]
    ensures Limbs(a) != Limbs(b)
  {
    LimbsSplit(a, i);
    LimbsSplit(b, i);
    LimbsBound(a[..i]);
    LimbsBound(b[..i]);
    LimbsHead(a, i);
    LimbsHead(b, i);
    ScaledOrder(Limbs(a[i..]), Limbs(b[i..]), Pow64(i), Limbs(a[..i]), Limbs(b[..i]));
  }

  lemma LimbsHead(s: seq<u64>, i: nat)
    requires i < |s|
    ensures Limbs(s[i..]) == s[i] + BASE * Limbs(s[i + 1..])
  {
    assert s[i..][1..] == s[i + 1..];
  }

  lemma ScaledOrder(x: nat, y: nat, unit: nat, lowX: nat, lowY: nat)
    requires lowX < unit && lowY < unit && x != y
    ensures lowX + unit * x > lowY + unit * y <==> x > y
    ensures lowX + unit * x != lowY + unit * y
  {
    MultipleAtLeast(unit, x - y);
    assert unit * (x - y) == unit * x - unit * y;
  }

  lemma MultipleAtLeast(unit: nat, d: int)
    ensures d >= 1 ==> unit * d >= unit
    ensures d <= -1 ==> unit * d + unit <= 0
  {
  }

  /** `u256_mul_u64`: schoolbook product with a running carry. */
  method U256MulU64(a: U256, b: u64) returns (out: U512)
    ensures Limbs(out) == Limbs(a) * b
  {
    var limbs: seq<u64>, carry: u64 := [], 0;
    for i := 0 to 4
      invariant |limbs| == i
      invariant Limbs(limbs) + Pow64(i) * carry == Limbs(a[..i]) * b
    {
      var acc := Acc(a[i], b, carry);
      MulStep(limbs, a[..i], a[i], b, carry);
      assert a[..i + 1] == a[..i] + [a[i]];
      limbs := limbs + [acc % BASE];
      carry := acc / BASE;
    }
    assert a[..4] == a;
    LimbsAppend(limbs, carry);
    limbs := limbs + [carry];
    out := limbs + [0, 0, 0];
    LimbsSplit(out, 5);
    assert out[..5] == limbs && out[5..] == [0, 0, 0];
    LimbsOfZeros([0, 0, 0]);
  }

  lemma ProductMonotone(x: nat, a: nat, b: nat)
    requires a <= b
    ensures x * a <= x * b
  {
  }

  /** One column of the product, as the 128-bit accumulator holds it. */
  function Acc(x: u64, y: u64, carry: u64): (acc: nat)
    ensures acc / BASE < BASE
  {
    ProductMonotone(x, y, BASE - 1);
    x * y + carry
  }

  lemma MulStep(limbs: seq<u64>, low: seq<u64>, x: u64, y: u64, carry: u64)
    requires |limbs| == |low| && Limbs(limbs) + Pow64(|low|) * carry == Limbs(low) * y
    ensures var acc := Acc(x, y, carry);
            Limbs(limbs + [acc % BASE]) + Pow64(|low| + 1) * (acc / BASE) == Limbs(low + [x]) * y
  {
    hide Limbs;
    LimbsAppend(low, x);
    LimbsAppend(limbs, Acc(x, y, carry) % BASE);
    MulStepNumbers(Limbs(limbs), Limbs(low), Pow64(|low|), x, y, carry);
  }

  lemma MulStepNumbers(done: nat, low: nat, unit: nat, x: nat, y: nat, carry: nat)
    requires done + unit * carry == low * y
    ensures var acc := x * y + carry;
            done + unit * (acc % BASE) + BASE * unit * (acc / BASE) == (low + unit * x) * y
  {
    var acc := x * y + carry;
    var q, r := acc / BASE, acc % BASE;
    assert acc == r + BASE * q;
    assert unit * acc == unit * r + unit * (BASE * q);
    assert unit * (BASE * q) == BASE * unit * q;
    assert unit * acc == unit * (x * y) + unit * carry;
    assert (low + unit * x) * y == low * y + unit * (x * y);
  }

  /** `u512_div_u64`: long division a limb at a time; limbs of the quotient past the fourth are dropped. */
  method U512DivU64(a: U512, b: u64) returns (out: U256)
    requires b > 0
    ensures Limbs(out) == (Limbs(a) / b) % TWO256
    ensures Limbs(a) / b < TWO256 ==> Limbs(out) == Limbs(a) / b
  {
    var quotient: seq<u64>, rem := [], 0;
    for i := 8 downto 0
      invariant |quotient| == 8 - i && 0 <= rem < b
      invariant Limbs(a[i..]) == Limbs(quotient) * b + rem
    {
      var cur := rem * BASE + a[i];
      assert a[i..] == [a[i]] + a[i + 1..];
      DivStep(cur, b, rem, Limbs(quotient), a[i]);
      quotient := [cur / b] + quotient;
      rem := cur % b;
    }
    assert a[0..] == a;
    out := quotient[..4];
    LimbsSplit(quotient, 4);
    LimbsBound(out);
    Pow64Four();
    DivisionUnique(Limbs(a), b, Limbs(quotient), rem);
    ModuloUnique(Limbs(quotient), TWO256, Limbs(quotient[4..]), Limbs(out));
  }

  lemma DivStep(cur: nat, b: u64, rem: nat, q: nat, digit: u64)
    requires 0 <= rem < b && cur == rem * BASE + digit
    ensures cur / b < BASE
    ensures digit + BASE * (q * b + rem) == (cur / b + BASE * q) * b + cur % b
  {
    assert cur == (cur / b) * b + cur % b;
    MultipleAtLeast(b, cur / b - (BASE - 1));
    assert b * (cur / b - (BASE - 1)) == (cur / b) * b - b * (BASE - 1);
    assert rem * BASE + digit < b * BASE;
    assert (cur / b + BASE * q) * b == (cur / b) * b + BASE * (q * b);
  }

  lemma DivisionUnique(x: nat, b: nat, q: nat, r: nat)
    requires r < b && x == q * b + r
    ensures x / b == q && x % b == r
  {
    assert x == (x / b) * b + x % b;
    MultipleAtLeast(b, x / b - q);
    assert b * (x / b - q) == (x / b) * b - q * b;
  }

  lemma ModuloUnique(x: nat, b: nat, q: nat, r: nat)
    requires r < b && x == r + b * q
    ensures x % b == r
  {
    DivisionUnique(x, b, q, r);
  }

  lemma {:induction false} LimbsUpdate(s: seq<u64>, i: nat, x: u64)
    requires i < |s|
    ensures Limbs(s[i := x]) == Limbs(s) + Pow64(i) * (x - s[i])
  {
    if i > 0 {
      LimbsUpdate(s[1..], i - 1, x);
      assert s[i := x][1..] == s[1..][i - 1 := x];
      assert BASE * (Pow64(i - 1) * (x - s[i])) == Pow64(i) * (x - s[i]);
    } else {
      assert s[0 := x][1..] == s[1..];
    }
  }

  /** `u256_add_one`, wrapping at 2^256. */
  method U256AddOne(a: U256) returns (out: U256)
    ensures Limbs(out) == (Limbs(a) + 1) % TWO256
  {
    out := a;
    Pow64Four();
    LimbsBound(a);
    for i := 0 to 4
      invariant out[i..] == a[i..] && Limbs(out) + Pow64(i) == Limbs(a) + 1
    {
      var carry := out[i] == BASE - 1;
      var v := if carry then 0 else out[i] + 1;
      LimbsUpdate(out, i, v);
      var change: int := if carry then 1 - BASE else 1;
      assert Pow64(i) * change == if carry then Pow64(i) - Pow64(i + 1) else Pow64(i);
      out := out[i := v];
      if !carry {
        LimbsBound(out);
        return;
      }
    }
    LimbsBound(out);
  }

  /** `u256_sub`, wrapping; the borrow out is what the source asserts not to happen. */
  method U256Sub(a: U256, b: U256) returns (out: U256, borrow: bool)
    ensures borrow == (Limbs(a) < Limbs(b))
    ensures Limbs(out) == Limbs(a) - Limbs(b) + if borrow then TWO256 else 0
  {
    var limbs: seq<u64> := [];
    borrow := false;
    for i := 0 to 4
      invariant |limbs| == i
      invariant Limbs(limbs) == Limbs(a[..i]) - Limbs(b[..i]) + if borrow then Pow64(i) else 0
    {
      var v1 := if a[i] >= b[i] then a[i] - b[i] else a[i] - b[i] + BASE;
      var b1 := a[i] < b[i];
      var borrowed := if borrow then 1 else 0;
      var v2 := if v1 >= borrowed then v1 - borrowed else v1 - borrowed + BASE;
      var b2 := v1 < borrowed;
      assert a[..i + 1] == a[..i] + [a[i]] && b[..i + 1] == b[..i] + [b[i]];
      LimbsAppend(a[..i], a[i]);
      LimbsAppend(b[..i], b[i]);
      LimbsAppend(limbs, v2);
      SubStep(Pow64(i), a[i], b[i], v2, borrowed, if b1 || b2 then 1 else 0);
      limbs := limbs + [v2];
      borrow := b1 || b2;
    }
    out := limbs;
    assert a[..4] == a && b[..4] == b;
    Pow64Four();
    LimbsBound(out);
    LimbsBound(a);
    LimbsBound(b);
  }

  lemma SubStep(unit: nat, x: nat, y: nat, v: nat, borrowIn: nat, borrowOut: nat)
    requires v == x - y - borrowIn + BASE * borrowOut
    ensures unit * v == unit * x - unit * y - unit * borrowIn + BASE * unit * borrowOut
  {
    assert unit * (x - y - borrowIn + BASE * borrowOut)
        == unit * x - unit * y - unit * borrowIn + unit * (BASE * borrowOut);
  }

  /** `rem = (rem << 1) | bit`, from the top limb down; `top` is the bit shifted out. */
  method ShiftIn(a: U256, bit: bool) returns (out: U256, top: bool)
    ensures Limbs(out) + (if top then TWO256 else 0) == 2 * Limbs(a) + if bit then 1 else 0
  {
    top := TopBit(a[3]) == 1;
    out := a;
    for j := 4 downto 0
      invariant forall k | 0 <= k < j :: out[k] == a[k]
      invariant forall k | j <= k < 4 :: out[k] == Shifted(a, k)
    {
      var carry := if j > 0 then TopBit(out[j - 1]) else 0;
      out := out[j := Doubled(out[j]) + carry];
    }
    assert out[0] == Shifted(a, 0) && out[1] == Shifted(a, 1) && out[2] == Shifted(a, 2) && out[3] == Shifted(a, 3);
    var low := if bit then 1 else 0;
    out := out[0 := out[0] + low];
    FourLimbs(a);
    FourLimbs(out);
  }

  /** `x >> 63` */
  function TopBit(x: u64): (r: u64)
    ensures r <= 1
  {
    x / 0x8000_0000_0000_0000
  }

  /** `x << 1` in 64 bits; the low bit is free. */
  function Doubled(x: u64): (r: u64)
    ensures r + BASE * TopBit(x) == 2 * x
    ensures r <= BASE - 2
  {
    2 * x % BASE
  }

  function Shifted(a: U256, k: nat): u64
    requires k < 4
  {
    Doubled(a[k]) + if k > 0 then TopBit(a[k - 1]) else 0
  }

  lemma FourLimbs(a: U256)
    ensures Limbs(a) == a[0] + BASE * (a[1] + BASE * (a[2] + BASE * a[3]))
  {
    assert Limbs(a[1..][1..][1..][1..]) == 0;
    assert a[1..][1..][1..][0] == a[3] && a[1..][1..][0] == a[2] && a[1..][0] == a[1];
    assert Limbs(a[1..][1..][1..]) == a[3];
    assert Limbs(a[1..][1..]) == a[2] + BASE * a[3];
    assert Limbs(a[1..]) == a[1] + BASE * (a[2] + BASE * a[3]);
  }
}
