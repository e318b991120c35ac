/**
 * Compact (`nBits`) targets (`crates/opencsv-cbf/src/network.rs`): expansion,
 * encoding, and what a round trip keeps.
 */
module Compact {
  import opened Wrappers
  import opened Wire
  import opened U256Arithmetic

  const SIGN := 0x80_0000
  const SIZE_UNIT := 0x100_0000

  function Size(bits: u32): nat {
    bits / SIZE_UNIT
  }

  function Mantissa(bits: u32): (m: nat)
    ensures m < SIGN
  {
    bits % SIGN
  }

  predicate Negative(bits: u32) {
    bits / SIGN % 2 == 1
  }

  predicate Overflows(size: nat, mantissa: nat) {
    mantissa != 0 && (size > 34 || (mantissa > 0xff && size > 33) || (mantissa > 0xffff && size > 32))
  }

  /** `SetCompact`: the target a compact value stands for, or none. */
  function Expand(bits: u32): Option<nat> {
    var size, mantissa := Size(bits), Mantissa(bits);
    if Overflows(size, mantissa) || Negative(bits) then None
    else if size <= 3 then Some(mantissa / Pow256(3 - size))
    else Some(mantissa * Pow256(size - 3))
  }

  lemma {:induction false} Pow256Adds(a: nat, b: nat)
    ensures Pow256(a + b) == Pow256(a) * Pow256(b)
  {
    if a > 0 {
      Pow256Adds(a - 1, b);
      MulAssociative(256, Pow256(a - 1), Pow256(b));
    }
  }

  lemma MulAssociative(a: nat, b: nat, c: nat)
    ensures a * (b * c) == a * b * c
  {
  }

  lemma {:induction false} Pow64IsBytes(k: nat)
    ensures Pow64(k) == Pow256(8 * k)
  {
    if k > 0 {
      Pow64IsBytes(k - 1);
      Widths();
      Pow256Adds(8, 8 * (k - 1));
    }
  }

  lemma {:induction false} Pow256Monotone(a: nat, b: nat)
    requires a <= b
    ensures Pow256(a) <= Pow256(b)
  {
    if a < b {
      Pow256Monotone(a, b - 1);
    }
  }

  // -- expansion ---------------------------------------------------------------

  /** Nothing at or above byte `pos` is set. */
  ghost predicate ClearFrom(out: U256, pos: nat) {
    forall k | 0 <= k < 4 ::
      k >= pos / 8 ==> out[k] < if k == pos / 8 then Pow256(pos % 8) else 1
  }

  /** `out[pos / 8] |= byte << (8 * (pos % 8))` on a clear position, where OR is a sum. */
  function Placed(out: U256, pos: nat, b: byte): U256
    requires pos < 32 && ClearFrom(out, pos)
  {
    ByteRoom(pos % 8);
    ProductMonotone(Pow256(pos % 8), b, 255);
    out[pos / 8 := out[pos / 8] + b * Pow256(pos % 8)]
  }

  lemma PlaceByte(out: U256, pos: nat, b: byte)
    requires pos < 32 && ClearFrom(out, pos)
    ensures Limbs(Placed(out, pos, b)) == Limbs(out) + b * Pow256(pos) && ClearFrom(Placed(out, pos, b), pos + 1)
  {
    hide Limbs, Pow256, Pow64;
    var k, r := pos / 8, pos % 8;
    var unit := Pow256(r);
    ByteRoom(r);
    ProductMonotone(unit, b, 255);
    LimbsUpdate(out, k, out[k] + b * unit);
    Pow64IsBytes(k);
    Pow256Adds(8 * k, r);
    MoveFactor(Pow64(k), b, unit);
    if r == 7 {
      assert (pos + 1) / 8 == k + 1 && (pos + 1) % 8 == 0;
    } else {
      assert (pos + 1) / 8 == k && (pos + 1) % 8 == r + 1;
    }
  }

  lemma ByteRoom(r: nat)
    requires r < 8
    ensures Pow256(r + 1) == 256 * Pow256(r) <= BASE && Pow256(0) == 1
  {
    Pow256Monotone(r + 1, 8);
    Widths();
  }

  lemma MoveFactor(a: nat, b: nat, c: nat)
    ensures a * (b * c) == b * (a * c)
  {
  }

  /** The mantissa bytes that matter fit below byte 32. */
  ghost predicate Fits(mantissa: nat, offset: nat) {
    mantissa == 0 || (offset <= 32 && mantissa < Pow256(32 - offset))
  }

  lemma MantissaByte(mantissa: nat, offset: nat, i: nat)
    requires mantissa < SIGN && i < 3
    ensures mantissa % Pow256(i + 1) == mantissa % Pow256(i) + ByteOf(mantissa, i) * Pow256(i)
    ensures Fits(mantissa, offset) && offset + i >= 32 ==> ByteOf(mantissa, i) == 0
  {
    SmallPowers();
    if Fits(mantissa, offset) && offset + i >= 32 && mantissa != 0 {
      Pow256Monotone(32 - offset, i);
      assert mantissa < Pow256(i);
    }
    ByteParts(mantissa);
  }

  /** The three bytes of a mantissa. */
  lemma ByteParts(m: nat)
    requires m < 0x100_0000
    ensures m % 0x100 == m % 1 + (m / 1 % 256) * 1
    ensures m % 0x1_0000 == m % 0x100 + (m / 0x100 % 256) * 0x100
    ensures m % 0x100_0000 == m % 0x1_0000 + (m / 0x1_0000 % 256) * 0x1_0000
  {
  }

  method FromCompact(bits: u32) returns (r: Option<U256>)
    ensures match Expand(bits)
            case None => r == None
            case Some(t) => r.Some? && Limbs(r.value) == t
  {
    hide Limbs, Pow256, Size, Mantissa, Negative, Overflows;
    var size, mantissa := Size(bits), Mantissa(bits);
    var out: U256;
    if size <= 3 {
      ShiftedMantissa(mantissa, Pow256(3 - size));
      out := [mantissa / Pow256(3 - size), 0, 0, 0];
      FourLimbs(out);
    } else {
      out := PlaceMantissa(mantissa, size - 3);
      ExpansionFits(size, mantissa);
    }
    if Overflows(size, mantissa) {
      return None;
    }
    if Negative(bits) {
      return None;
    }
    r := Some(out);
  }

  lemma ShiftedMantissa(mantissa: nat, unit: nat)
    requires mantissa < SIGN && unit >= 1
    ensures mantissa / unit < BASE
  {
    assert mantissa == (mantissa / unit) * unit + mantissa % unit;
    ProductMonotone(mantissa / unit, 1, unit);
  }

  lemma ExpansionFits(size: nat, mantissa: nat)
    requires size > 3 && mantissa < SIGN
    ensures !Overflows(size, mantissa) ==> Fits(mantissa, size - 3)
  {
    SmallPowers();
    if size <= 32 {
      Pow256Monotone(3, 35 - size);
    }
  }

  /** The byte loop of `from_compact`. */
  method PlaceMantissa(mantissa: nat, offset: nat) returns (out: U256)
    requires mantissa < SIGN
    ensures Fits(mantissa, offset) ==> Limbs(out) == mantissa * Pow256(offset)
  {
    hide Limbs, Pow256, ClearFrom, Fits, Placed, ByteOf;
    out := [0, 0, 0, 0];
    NothingPlaced(mantissa, offset);
    for i := 0 to 3
      invariant ClearFrom(out, offset + i)
      invariant Fits(mantissa, offset) ==> Limbs(out) == (mantissa % Pow256(i)) * Pow256(offset)
    {
      MantissaByte(mantissa, offset, i);
      var b := ByteOf(mantissa, i);
      var pos := offset + i;
      if pos < 32 {
        PlaceByte(out, pos, b);
        out := Placed(out, pos, b);
      } else {
        PastTheEnd(out, pos);
      }
      Pow256Adds(i, offset);
      PlacedSum(mantissa % Pow256(i), b, Pow256(i), Pow256(offset));
    }
    SmallPowers();
  }

  function ByteOf(mantissa: nat, i: nat): byte {
    mantissa / Pow256(i) % 256
  }

  lemma NothingPlaced(mantissa: nat, offset: nat)
    ensures ClearFrom([0, 0, 0, 0], offset)
    ensures Limbs([0, 0, 0, 0]) == (mantissa % Pow256(0)) * Pow256(offset)
  {
    hide Limbs, Pow256;
    FourLimbs([0, 0, 0, 0]);
    SmallPowers();
    assert mantissa % 1 == 0;
  }

  lemma PastTheEnd(out: U256, pos: nat)
    requires pos >= 32
    ensures ClearFrom(out, pos + 1)
  {
  }

  lemma SmallPowers()
    ensures Pow256(0) == 1 && Pow256(1) == 256 && Pow256(2) == 0x1_0000 && Pow256(3) == 0x100_0000
  {
  }

  lemma PlacedSum(low: nat, b: nat, unit: nat, scale: nat)
    ensures (low + b * unit) * scale == low * scale + b * (unit * scale)
  {
  }

  // -- encoding -----------------------------------------------------------------

  function ToBytes(t: U256): (s: Bytes)
    ensures |s| == 32
  {
    LE(t[0], 8) + (LE(t[1], 8) + (LE(t[2], 8) + LE(t[3], 8)))
  }

  lemma FromLEHead(s: Bytes)
    requires s != []
    ensures FromLE(s) == s[0] + 256 * FromLE(s[1..])
  {
  }

  lemma {:induction false} FromLEConcat(a: Bytes, b: Bytes)
    ensures FromLE(a + b) == FromLE(a) + Pow256(|a|) * FromLE(b)
  {
    if a == [] {
      assert a + b == b;
    } else {
      hide FromLE;
      FromLEConcat(a[1..], b);
      assert (a + b)[1..] == a[1..] + b;
      FromLEHead(a + b);
      FromLEHead(a);
      ConcatNumbers(a[0], FromLE(a[1..]), Pow256(|a| - 1), FromLE(b));
    }
  }

  lemma ConcatNumbers(head: nat, tail: nat, unit: nat, high: nat)
    ensures head + 256 * (tail + unit * high) == head + 256 * tail + 256 * unit * high
  {
  }

  lemma BytesSpellLimbs(t: U256)
    ensures FromLE(ToBytes(t)) == Limbs(t)
  {
    hide Limbs, FromLE;
    Widths();
    FromLEConcat(LE(t[0], 8), LE(t[1], 8) + (LE(t[2], 8) + LE(t[3], 8)));
    FromLEConcat(LE(t[1], 8), LE(t[2], 8) + LE(t[3], 8));
    FromLEConcat(LE(t[2], 8), LE(t[3], 8));
    LEThenFromLE(t[0], 8);
    LEThenFromLE(t[1], 8);
    LEThenFromLE(t[2], 8);
    LEThenFromLE(t[3], 8);
    FourLimbs(t);
  }

  /** `u256_from_hash` */
  function FromHash(hash: Hash): U256 {
    FromLEBound(hash[0..8]);
    FromLEBound(hash[8..16]);
    FromLEBound(hash[16..24]);
    FromLEBound(hash[24..32]);
    Widths();
    [FromLE(hash[0..8]), FromLE(hash[8..16]), FromLE(hash[16..24]), FromLE(hash[24..32])]
  }

  lemma HashSpellsLimbs(hash: Hash)
    ensures Limbs(FromHash(hash)) == FromLE(hash)
  {
    hide LE, FromLE, Limbs;
    var t := FromHash(hash);
    FromLEThenLE(hash[0..8]);
    FromLEThenLE(hash[8..16]);
    FromLEThenLE(hash[16..24]);
    FromLEThenLE(hash[24..32]);
    assert ToBytes(t) == hash;
    BytesSpellLimbs(t);
  }

  /** Drop `k` low bytes. */
  function Shr8(t: nat, k: nat): nat
    decreases k
  {
    if k == 0 then t else Shr8(t / 256, k - 1)
  }

  /** Significant bytes; zero counts as one. */
  function ByteLength(t: nat): nat {
    if t < 256 then 1 else 1 + ByteLength(t / 256)
  }

  lemma {:induction false} ByteLengthBounds(t: nat, e: nat)
    requires 1 <= e
    ensures t < Pow256(ByteLength(t))
    ensures t < Pow256(e) ==> ByteLength(t) <= e
    decreases t
  {
    SmallPowers();
    if t >= 256 {
      ByteLengthBounds(t / 256, if e > 1 then e - 1 else 1);
    }
  }

  lemma {:induction false} Shr8Bytes(s: Bytes, k: nat)
    requires k <= |s|
    ensures Shr8(FromLE(s), k) == FromLE(s[k..])
    decreases k
  {
    if k > 0 {
      assert FromLE(s) / 256 == FromLE(s[1..]);
      Shr8Bytes(s[1..], k - 1);
      assert s[1..][k - 1..] == s[k..];
    }
  }

  lemma {:induction false} SignificantBytes(s: Bytes)
    requires s != [] && (|s| == 1 || s[|s| - 1] != 0)
    ensures ByteLength(FromLE(s)) == |s|
    ensures s[|s| - 1] != 0 ==> FromLE(s) > 0
    decreases |s|
  {
    if |s| > 1 {
      SignificantBytes(s[1..]);
      assert FromLE(s) / 256 == FromLE(s[1..]);
    } else {
      assert FromLE(s[1..]) == 0;
    }
  }

  lemma ZeroTop(s: Bytes)
    requires s != [] && s[|s| - 1] == 0
    ensures FromLE(s) == FromLE(s[..|s| - 1])
  {
    var n := |s| - 1;
    FromLEConcat(s[..n], s[n..]);
    assert s == s[..n] + s[n..] && s[n..] == [0];
    assert FromLE([0]) == 0 + 256 * FromLE([]);
  }

  /** The three leading bytes, left-aligned. */
  function LeadingBytes(t: nat): nat {
    var n := ByteLength(t);
    if n <= 3 then t * Pow256(3 - n) else Shr8(t, n - 3)
  }

  /** `GetCompact`: size and leading bytes, moved down a byte when the sign bit would be hit. */
  function CompactBits(t: nat): nat {
    var n, m := ByteLength(t), LeadingBytes(t);
    if m >= SIGN then (n + 1) * SIZE_UNIT + m / 256 else n * SIZE_UNIT + m
  }

  method ToCompact(target: U256) returns (r: nat)
    ensures r == CompactBits(Limbs(target))
  {
    hide Limbs, Pow256, FromLE;
    BytesSpellLimbs(target);
    var bytes := ToBytes(target);
    ghost var t := Limbs(target);
    var size := 32;
    assert bytes[..32] == bytes;
    while size > 1 && bytes[size - 1] == 0
      invariant 1 <= size <= 32 && FromLE(bytes[..size]) == t
    {
      ZeroTop(bytes[..size]);
      assert bytes[..size][..size - 1] == bytes[..size - 1];
      size := size - 1;
    }
    SignificantBytes(bytes[..size]);
    var compact := AssembleLeading(bytes[..size]);
    if compact >= SIGN {
      compact := compact / 256;
      size := size + 1;
    }
    r := size * SIZE_UNIT + compact;
  }

  /** The three leading bytes as one word, or fewer shifted up. */
  method AssembleLeading(bytes: Bytes) returns (compact: nat)
    requires bytes != [] && ByteLength(FromLE(bytes)) == |bytes|
    ensures compact == LeadingBytes(FromLE(bytes))
  {
    hide FromLE, Pow256, Shr8;
    var size := |bytes|;
    if size <= 3 {
      assert FromLE(bytes[..0]) == 0 by {
        assert bytes[..0] == [];
        NoBytes();
      }
      var w: nat := 0;
      for i := 0 to size
        invariant w == FromLE(bytes[..i])
      {
        FromLEConcat(bytes[..i], [bytes[i]]);
        assert bytes[..i + 1] == bytes[..i] + [bytes[i]];
        OneByte(bytes[i]);
        w := w + bytes[i] * Pow256(i);
      }
      assert bytes[..size] == bytes;
      compact := w * Pow256(3 - size);
    } else {
      Shr8Bytes(bytes, size - 3);
      ThreeBytes(bytes[size - 3..]);
      compact := 0x1_0000 * (bytes[size - 1] as int) + 0x100 * (bytes[size - 2] as int) + bytes[size - 3];
    }
  }

  lemma NoBytes()
    ensures FromLE([]) == 0
  {
  }

  lemma OneByte(b: byte)
    ensures FromLE([b]) == b
  {
    assert FromLE([b]) == b + 256 * FromLE([]);
  }

  lemma ThreeBytes(s: Bytes)
    requires |s| == 3
    ensures FromLE(s) == s[0] as int + 0x100 * (s[1] as int) + 0x1_0000 * (s[2] as int)
  {
    FromLEHead(s);
    FromLEHead(s[1..]);
    FromLEHead(s[1..][1..]);
    NoBytes();
    assert s[1..][1..][1..] == [] && s[1..][1..][0] == s[2] && s[1..][0] == s[1];
  }

  // -- what a round trip keeps ------------------------------------------------------

  /** A target cut down to 23 leading bits at a byte boundary. */
  function Truncated(t: nat): nat {
    if t < SIGN then t else 256 * Truncated(t / 256)
  }

  lemma {:induction false} TruncatedAt(t: nat, k: nat)
    requires Shr8(t, k) < SIGN && (k == 0 || Shr8(t, k - 1) >= SIGN)
    ensures Truncated(t) == Shr8(t, k) * Pow256(k)
    decreases k
  {
    if k > 0 {
      Shr8Shrinks(t, k - 1);
      TruncatedAt(t / 256, k - 1);
      MoveFactor(256, Shr8(t, k), Pow256(k - 1));
    }
  }

  lemma {:induction false} Shr8Shrinks(t: nat, k: nat)
    ensures Shr8(t, k) <= t
    ensures Shr8(t, k + 1) == Shr8(t, k) / 256
    decreases k
  {
    if k > 0 {
      Shr8Shrinks(t / 256, k - 1);
    }
  }

  lemma {:induction false} LeadingByteBounds(t: nat)
    ensures ByteLength(t) > 3 ==> 0x1_0000 <= Shr8(t, ByteLength(t) - 3) < 0x100_0000
    ensures ByteLength(t) <= 3 <==> t < 0x100_0000
    decreases t
  {
    if t >= 0x100_0000 {
      LeadingByteBounds(t / 256);
      assert ByteLength(t) == 1 + ByteLength(t / 256);
      if t / 256 < 0x100_0000 {
        assert ByteLength(t / 256) == 3 by {
          assert ByteLength(t / 256 / 256 / 256) == 1;
          assert ByteLength(t / 256 / 256) == 2;
        }
      }
    } else if t >= 256 {
      assert t / 256 / 256 < 256;
      if t >= 0x1_0000 {
        assert ByteLength(t / 256 / 256) == 1;
      }
    }
  }

  /**
   * Encoding then expanding is defined for every 256-bit target and gives the
   * target cut at a byte boundary.
   */
  lemma ExpandCompact(t: nat)
    requires t < TWO256
    ensures CompactBits(t) < 0x1_0000_0000
    ensures Expand(CompactBits(t)) == Some(Truncated(t))
  {
    var n, m := ByteLength(t), LeadingBytes(t);
    hide Expand;
    Pow64Four();
    Pow64IsBytes(4);
    ByteLengthBounds(t, 32);
    if n > 3 {
      LongTarget(t);
    } else {
      ShortTarget(t);
    }
  }

  lemma CompactParts(size: nat, mantissa: nat)
    requires size <= 33 && mantissa < SIGN && !Overflows(size, mantissa)
    ensures size * SIZE_UNIT + mantissa < 0x1_0000_0000
    ensures Expand(size * SIZE_UNIT + mantissa)
         == Some(if size <= 3 then mantissa / Pow256(3 - size) else mantissa * Pow256(size - 3))
  {
    var bits := size * SIZE_UNIT + mantissa;
    assert Size(bits) == size && Mantissa(bits) == mantissa && bits / SIGN == 2 * size;
  }

  lemma LongTarget(t: nat)
    requires 3 < ByteLength(t) <= 32
    ensures CompactBits(t) < 0x1_0000_0000 && Expand(CompactBits(t)) == Some(Truncated(t))
  {
    var n, m := ByteLength(t), LeadingBytes(t);
    hide Expand, Pow256, Truncated;
    LeadingByteBounds(t);
    Shr8Shrinks(t, n - 3);
    Shr8Shrinks(t, n - 4);
    if m >= SIGN {
      TruncatedAt(t, n - 2);
      CompactParts(n + 1, m / 256);
    } else {
      TruncatedAt(t, n - 3);
      CompactParts(n, m);
    }
  }

  lemma ShortTarget(t: nat)
    requires ByteLength(t) <= 3
    ensures CompactBits(t) < 0x1_0000_0000 && Expand(CompactBits(t)) == Some(Truncated(t))
  {
    hide Expand, CompactBits, Truncated;
    ShortLeading(t);
    var n, m := ByteLength(t), LeadingBytes(t);
    hide LeadingBytes, ByteLength, Pow256;
    SmallPowers();
    ShortBits(t);
    PadAndDrop(t);
    if m >= SIGN {
      CompactParts(n + 1, m / 256);
    } else {
      CompactParts(n, m);
    }
  }

  lemma ShortBits(t: nat)
    ensures var n, m := ByteLength(t), LeadingBytes(t);
            CompactBits(t) == if m >= SIGN then (n + 1) * SIZE_UNIT + m / 256 else n * SIZE_UNIT + m
  {
    hide ByteLength, LeadingBytes;
  }

  /** Zero bytes put below a number come off again. */
  lemma PadAndDrop(t: nat)
    ensures t * 0x1_0000 / 256 == t * 256 && t * 256 / 256 == t && t * 0x1_0000 / 0x1_0000 == t && t / 1 == t
  {
  }

  /** Targets of at most three bytes, case by case. */
  lemma ShortLeading(t: nat)
    requires ByteLength(t) <= 3
    ensures t < 0x100_0000
    ensures t < 0x100 ==> ByteLength(t) == 1 && LeadingBytes(t) == t * 0x1_0000
    ensures 0x100 <= t < 0x1_0000 ==> ByteLength(t) == 2 && LeadingBytes(t) == t * 0x100
    ensures 0x1_0000 <= t ==> ByteLength(t) == 3 && LeadingBytes(t) == t
    ensures Truncated(t) == (if t < SIGN then t else 256 * (t / 256))
  {
    LeadingByteBounds(t);
    SmallPowers();
    if t >= 0x100 {
      assert ByteLength(t) == 1 + ByteLength(t / 256);
      if t >= 0x1_0000 {
        assert ByteLength(t / 256) == 1 + ByteLength(t / 256 / 256);
      }
    }
    if t >= SIGN {
      assert Truncated(t / 256) == t / 256;
    }
  }

  /** The leading 15 bits always survive. */
  lemma {:induction false} TruncatedFloor(t: nat)
    ensures t >= 0x8000 ==> Truncated(t) >= 0x8000
    decreases t
  {
    if t >= SIGN {
      TruncatedFloor(t / 256);
    }
  }

  /** Never above the target; what is cut off is less than one part in 2^15 of what stays. */
  lemma {:induction false} TruncationLoss(t: nat)
    ensures Truncated(t) <= t
    ensures t < SIGN ==> Truncated(t) == t
    ensures t >= SIGN ==> (t - Truncated(t) + 1) * 0x8000 <= Truncated(t)
    decreases t
  {
    if t >= SIGN {
      TruncationLoss(t / 256);
    }
  }

  /** A truncated target has nothing more to lose. */
  lemma {:induction false} TruncationIdempotent(t: nat)
    ensures Truncated(Truncated(t)) == Truncated(t)
    decreases t
  {
    if t >= SIGN {
      TruncationIdempotent(t / 256);
    }
  }

  lemma {:induction false} TruncationMonotone(t: nat, u: nat)
    requires t <= u
    ensures Truncated(t) <= Truncated(u)
    decreases t
  {
    if t >= SIGN {
      TruncationMonotone(t / 256, u / 256);
    } else if u >= SIGN {
      TruncatedFloor(u / 256);
    }
  }

  /** An expanded target is below `2^256 - 1`, so its work is always defined. */
  lemma ExpandBound(bits: u32)
    requires Expand(bits).Some?
    ensures Expand(bits).value + 1 < TWO256
  {
    hide Pow256;
    var size, mantissa := Size(bits), Mantissa(bits);
    if size <= 3 {
      SmallPowers();
      ShiftedMantissa(mantissa, Pow256(3 - size));
    } else if mantissa != 0 {
      ExpansionFits(size, mantissa);
      BelowTop(mantissa, size - 3);
    } else {
      assert mantissa * Pow256(size - 3) == 0;
    }
  }

  lemma BelowTop(mantissa: nat, offset: nat)
    requires 0 < offset <= 32 && mantissa < Pow256(32 - offset)
    ensures mantissa * Pow256(offset) + 1 < TWO256
  {
    hide Pow256;
    Pow64Four();
    Pow64IsBytes(4);
    SmallPowers();
    Pow256Adds(32 - offset, offset);
    Pow256Monotone(1, offset);
    ProductMonotone(Pow256(offset), mantissa, Pow256(32 - offset) - 1);
    Distribute256(Pow256(offset), Pow256(32 - offset));
  }

  lemma Distribute256(a: nat, b: nat)
    requires b >= 1
    ensures a * (b - 1) == b * a - a
  {
  }
}
