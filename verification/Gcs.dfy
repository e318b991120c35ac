/**
 * BIP158 Golomb-coded sets (`crates/opencsv-cbf/src/gcs.rs`): the bit-level
 * codec, filter construction and membership queries. SipHash-2-4 is the
 * parameter `sip`.
 */
module Gcs {
  import opened Wrappers
  import opened Wire
  import opened Sorting
  import opened Bits

  const BASIC_FILTER_P := 19
  const BASIC_FILTER_M := 784931
  const MAX_QUOTIENT := 0x1_0000_0000

  type Key = k: Bytes | |k| == 16 witness seq(16, i => 0)
  type SipHash = (u64, u64, Bytes) -> u64

  datatype BitRead = BitRead(value: nat, rest: seq<bool>)

  /** Golomb-Rice code of `x`: quotient in unary, then `p` remainder bits. */
  function Golomb(p: nat, x: nat): seq<bool> {
    Copies(true, Shr(x, p)) + [false] + LowBits(x, p)
  }

  /** The delta stream of an ascending list. */
  function Stream(p: nat, values: seq<nat>, last: nat): seq<bool>
    requires SortedBy(IntLe, [last] + values)
  {
    if values == [] then []
    else
      assert ([last] + values)[0] == last && ([last] + values)[1] == values[0];
      SortedTail(last, values);
      Golomb(p, values[0] - last) + Stream(p, values[1..], values[0])
  }

  lemma SortedTail(last: nat, values: seq<nat>)
    requires SortedBy(IntLe, [last] + values) && values != []
    ensures last <= values[0] && SortedBy(IntLe, [values[0]] + values[1..])
  {
    var s := [last] + values;
    assert s[0] == last && s[1] == values[0] && [values[0]] + values[1..] == s[1..];
  }

  /** `BitWriter`: bytes filled from the top, the unused low bits of the last one zero. */
  class BitWriter {
    var bytes: Bytes
    var used: nat

    ghost function Length(): int
      reads this
    {
      if used == 0 then 8 * |bytes| else 8 * (|bytes| - 1) + used
    }

    ghost predicate Valid()
      reads this
    {
      && used < 8
      && (used > 0 ==> bytes != [])
      && forall i :: Length() <= i < 8 * |bytes| ==> !BitsOf(bytes)[i]
    }

    /** The bits written so far, without the padding. */
    ghost function Written(): seq<bool>
      reads this
      requires Valid()
    {
      BitsOf(bytes)[..Length()]
    }

    constructor ()
      ensures Valid() && Written() == [] && bytes == []
    {
      bytes := [];
      used := 0;
    }

    method PushBit(bit: bool)
      requires Valid()
      modifies this
      ensures Valid() && Written() == old(Written()) + [bit]
    {
      ghost var n := Length();
      if used == 0 {
        AppendZeroByte(bytes);
        bytes := bytes + [0];
      }
      var last := |bytes| - 1;
      if bit {
        SetBitInLast(bytes, used);
        bytes := bytes[last := SetBit(bytes[last], used)];
      }
      used := (used + 1) % 8;
      assert Length() == n + 1;
    }

    /** Write the `nbits` low bits of `data`, highest first. */
    method Write(data: nat, nbits: nat)
      requires Valid()
      modifies this
      ensures Valid() && Written() == old(Written()) + LowBits(data, nbits)
    {
      var i := nbits;
      while i > 0
        invariant 0 <= i <= nbits && Valid()
        invariant Written() == old(Written()) + LowBits(Shr(data, i), nbits - i)
      {
        i := i - 1;
        ShrStep(data, i);
        PushBit(Bit(data, i));
      }
    }

    method GolombRiceEncode(p: nat, x: nat)
      requires Valid()
      modifies this
      ensures Valid() && Written() == old(Written()) + Golomb(p, x)
    {
      hide Shr, BitsOf;
      var q := Shr(x, p);
      for i := 0 to q
        invariant Valid() && Written() == old(Written()) + Copies(true, i)
      {
        Write(1, 1);
        assert LowBits(1, 1) == [true];
        assert Copies(true, i + 1) == Copies(true, i) + [true];
      }
      Write(0, 1);
      assert LowBits(0, 1) == [false];
      Write(x, p);
    }
  }

  lemma AppendZeroByte(bytes: Bytes)
    ensures BitsOf(bytes + [0]) == BitsOf(bytes) + Copies(false, 8)
  {
    forall i | 8 * |bytes| <= i < 8 * |bytes| + 8 ensures !BitsOf(bytes + [0])[i] {
      ZeroShift(7 - i % 8);
    }
  }

  lemma SetBitInLast(bytes: Bytes, k: nat)
    requires bytes != [] && k < 8
    ensures var last := |bytes| - 1;
            BitsOf(bytes[last := SetBit(bytes[last], k)]) == BitsOf(bytes)[8 * last + k := true]
  {
    var last := |bytes| - 1;
    var after := bytes[last := SetBit(bytes[last], k)];
    forall i | 0 <= i < 8 * |bytes| ensures BitsOf(after)[i] == (i == 8 * last + k || BitsOf(bytes)[i]) {
      assert i / 8 < last ==> after[i / 8] == bytes[i / 8];
    }
  }

  lemma {:induction false} ZeroShift(e: nat)
    ensures Shr(0, e) == 0
    decreases e
  {
    if e > 0 {
      ZeroShift(e - 1);
    }
  }

  /** Where the run of one-bits starting at `i` ends. */
  function RunEnd(bits: seq<bool>, i: nat): (e: nat)
    requires i <= |bits|
    ensures i <= e <= |bits|
    decreases |bits| - i
  {
    if i == |bits| || !bits[i] then i else RunEnd(bits, i + 1)
  }

  /** `(q << p) + r` */
  function Recombine(q: nat, p: nat, r: nat): nat {
    q * Pow2(p) + r
  }

  /** One code word: a run of at most `MAX_QUOTIENT` ones, a zero, `p` bits. */
  function DecodeGolomb(bits: seq<bool>, p: nat): Option<BitRead> {
    var q := RunEnd(bits, 0);
    if q == |bits| || q > MAX_QUOTIENT || |bits| < q + 1 + p then None
    else Some(BitRead(Recombine(q, p, FromBits(bits[q + 1..q + 1 + p])), bits[q + 1 + p..]))
  }

  lemma CodeWord(s: seq<bool>, p: nat, q: nat)
    requires q == RunEnd(s, 0) <= MAX_QUOTIENT && q + 1 + p <= |s|
    ensures DecodeGolomb(s, p) == Some(BitRead(Recombine(q, p, FromBits(s[q + 1..][..p])), s[q + 1..][p..]))
  {
    hide RunEnd, FromBits;
    assert s[q + 1..][..p] == s[q + 1..q + 1 + p] && s[q + 1..][p..] == s[q + 1 + p..];
  }

  lemma {:induction false} RunOfOnes(q: nat, i: nat, rest: seq<bool>)
    requires i <= q
    ensures RunEnd(Copies(true, q) + [false] + rest, i) == q
    decreases q - i
  {
    if i < q {
      RunOfOnes(q, i + 1, rest);
    }
  }

  /** Decoding undoes encoding exactly when the quotient respects the decoder's cap. */
  lemma GolombRoundTrip(p: nat, x: nat, rest: seq<bool>)
    ensures DecodeGolomb(Golomb(p, x) + rest, p)
         == if Shr(x, p) <= MAX_QUOTIENT then Some(BitRead(x, rest)) else None
  {
    hide RunEnd, FromBits, LowBits;
    var q := Shr(x, p);
    var tail := LowBits(x, p) + rest;
    assert Golomb(p, x) + rest == Copies(true, q) + [false] + tail;
    RunOfOnes(q, 0, tail);
    var bits := Golomb(p, x) + rest;
    assert bits[q + 1..q + 1 + p] == LowBits(x, p) && bits[q + 1 + p..] == rest;
    FromLowBits(x, p);
  }

  /** `BitReader`: reads MSB first, failing at the end of the data. */
  class BitReader {
    const data: Bytes
    var bitPos: nat

    ghost predicate Valid()
      reads this
    {
      bitPos <= 8 * |data|
    }

    ghost function Rest(): seq<bool>
      reads this
      requires Valid()
    {
      BitsOf(data)[bitPos..]
    }

    constructor (data: Bytes)
      ensures Valid() && Rest() == BitsOf(data)
    {
      this.data := data;
      bitPos := 0;
    }

    method ReadBit() returns (r: Option<bool>)
      requires Valid()
      modifies this`bitPos
      ensures Valid()
      ensures if old(Rest()) == [] then r == None && bitPos == old(bitPos)
              else r == Some(old(Rest())[0]) && Rest() == old(Rest())[1..]
    {
      if bitPos >= |data| * 8 {
        return None;
      }
      r := Some(BitAt(data[bitPos / 8], bitPos % 8));
      bitPos := bitPos + 1;
    }

    method ReadBits(nbits: nat) returns (r: Option<nat>)
      requires Valid()
      modifies this`bitPos
      ensures Valid()
      ensures if |old(Rest())| < nbits then r == None
              else r == Some(FromBits(old(Rest())[..nbits])) && Rest() == old(Rest())[nbits..]
    {
      ghost var s := Rest();
      var value := 0;
      for i := 0 to nbits
        invariant Valid() && i <= |s| && Rest() == s[i..]
        invariant value == FromBits(s[..i])
      {
        var bit :- ReadBit();
        value := 2 * value + if bit then 1 else 0;
        assert s[..i + 1][..i] == s[..i];
      }
      r := Some(value);
    }

    method GolombRiceDecode(p: nat) returns (r: Option<nat>)
      requires Valid()
      modifies this`bitPos
      ensures Valid()
      ensures match DecodeGolomb(old(Rest()), p)
              case None => r == None
              case Some(BitRead(v, rest)) => r == Some(v) && Rest() == rest
    {
      ghost var s := Rest();
      var q := 0;
      var bit :- ReadBit();
      while bit
        invariant Valid() && q <= MAX_QUOTIENT && q < |s|
        invariant s[q] == bit && Rest() == s[q + 1..] && RunEnd(s, 0) == RunEnd(s, q)
        decreases |s| - q
      {
        q := q + 1;
        if q > MAX_QUOTIENT {
          return None;
        }
        bit :- ReadBit();
      }
      var low :- ReadBits(p);
      CodeWord(s, p, q);
      r := Some(Recombine(q, p, low));
    }
  }

  /** Lemire's reduction `(h * f) >> 64`. */
  function MapIntoRange(h: u64, f: nat): (r: nat)
    ensures f > 0 ==> r < f
  {
    h * f / 0x1_0000_0000_0000_0000
  }

  /** The hash of an item in the value space `[0, n * m)` of a filter of `n` elements. */
  function HashToRange(sip: SipHash, key: Key, item: Bytes, n: nat, m: nat): nat {
    FromLEBound(key[..8]);
    FromLEBound(key[8..]);
    Widths();
    MapIntoRange(sip(FromLE(key[..8]), FromLE(key[8..]), item), n * m)
  }

  function FilterKey(blockHash: Hash): Key {
    blockHash[..16]
  }

  function Distinct(elements: seq<Bytes>): (r: seq<Bytes>)
    ensures |r| <= |elements|
  {
    if elements == [] then []
    else if elements[0] in elements[1..] then Distinct(elements[1..])
    else [elements[0]] + Distinct(elements[1..])
  }

  /** `elements.iter().collect::<BTreeSet<_>>()`, in iteration order. */
  function OrderedSet(elements: seq<Bytes>): seq<Bytes> {
    Sort(Distinct(elements), LexLe)
  }

  lemma {:induction false} DistinctCounts(elements: seq<Bytes>)
    ensures forall e :: multiset(Distinct(elements))[e] == if e in elements then 1 else 0
  {
    if elements != [] {
      DistinctCounts(elements[1..]);
      assert elements == [elements[0]] + elements[1..];
    }
  }

  lemma OrderedSetMembers(elements: seq<Bytes>)
    ensures forall e :: e in OrderedSet(elements) <==> e in elements
    ensures |OrderedSet(elements)| <= |elements|
  {
    LexOrder(Distinct(elements));
    SortIsSorted(Distinct(elements), LexLe);
    DistinctCounts(elements);
    forall e ensures e in OrderedSet(elements) <==> e in elements {
      assert e in OrderedSet(elements) <==> e in multiset(OrderedSet(elements));
      assert multiset(OrderedSet(elements))[e] == if e in elements then 1 else 0;
    }
  }

  /** Order and repetition of the elements do not matter. */
  lemma OrderedSetIsASet(a: seq<Bytes>, b: seq<Bytes>)
    requires forall e :: e in a <==> e in b
    ensures OrderedSet(a) == OrderedSet(b)
  {
    DistinctCounts(a);
    DistinctCounts(b);
    assert multiset(Distinct(a)) == multiset(Distinct(b)) by {
      assert forall e :: multiset(Distinct(a))[e] == multiset(Distinct(b))[e];
    }
    LexOrder(Distinct(a));
    SortIgnoresOrder(Distinct(a), Distinct(b), LexLe);
  }

  function HashAll(sip: SipHash, key: Key, items: seq<Bytes>, n: nat, m: nat): (r: seq<nat>)
    ensures |r| == |items|
  {
    seq(|items|, i requires 0 <= i < |items| => HashToRange(sip, key, items[i], n, m))
  }

  /** The sorted hashed values a filter of these elements encodes. */
  function FilterValues(sip: SipHash, key: Key, elements: seq<Bytes>, m: nat): seq<nat> {
    var items := OrderedSet(elements);
    Sort(HashAll(sip, key, items, |items|, m), IntLe)
  }

  lemma FilterValuesFacts(sip: SipHash, key: Key, elements: seq<Bytes>, m: nat)
    ensures var values := FilterValues(sip, key, elements, m);
            && |values| == |OrderedSet(elements)|
            && SortedBy(IntLe, [0] + values)
            && (forall v :: v in values <==> exists e :: e in elements && v == HashToRange(sip, key, e, |values|, m))
  {
    var items := OrderedSet(elements);
    var hashed := HashAll(sip, key, items, |items|, m);
    var values := FilterValues(sip, key, elements, m);
    SortIsSorted(hashed, IntLe);
    OrderedSetMembers(elements);
    forall v ensures v in values <==> exists e :: e in elements && v == HashToRange(sip, key, e, |values|, m) {
      assert v in values <==> v in multiset(values);
      assert v in hashed <==> v in multiset(hashed);
      if v in hashed {
        var i :| 0 <= i < |hashed| && hashed[i] == v;
        assert items[i] in elements;
      }
      if e :| e in elements && v == HashToRange(sip, key, e, |values|, m) {
        assert e in items;
        var i :| 0 <= i < |items| && items[i] == e;
        assert hashed[i] == v;
      }
    }
  }

  /** `tail` is `bits` followed by fewer than eight zero bits. */
  ghost predicate Packs(tail: Bytes, bits: seq<bool>) {
    && |bits| <= 8 * |tail| < |bits| + 8
    && BitsOf(tail) == bits + Copies(false, 8 * |tail| - |bits|)
  }

  /** `filter` is the serialized filter of the ascending list `values`. */
  ghost predicate IsFilterOf(filter: Bytes, values: seq<nat>, p: nat) {
    && |values| < 0x1_0000_0000_0000_0000
    && SortedBy(IntLe, [0] + values)
    && CompactSize(|values|) <= filter
    && Packs(filter[|CompactSize(|values|)|..], Stream(p, values, 0))
  }

  /** The predicate leaves no freedom: it names one byte string. */
  lemma FilterBytesUnique(a: Bytes, b: Bytes, values: seq<nat>, p: nat)
    requires IsFilterOf(a, values, p) && IsFilterOf(b, values, p)
    ensures a == b
  {
    var k := |CompactSize(|values|)|;
    BitsOfInjective(a[k..], b[k..]);
    assert a == a[..k] + a[k..] && b == b[..k] + b[k..];
  }

  lemma {:induction false} StreamAppends(p: nat, values: seq<nat>, last: nat, x: nat)
    requires SortedBy(IntLe, [last] + (values + [x]))
    ensures SortedBy(IntLe, [last] + values)
    ensures x >= if values == [] then last else values[|values| - 1]
    ensures Stream(p, values + [x], last)
         == Stream(p, values, last) + Golomb(p, x - if values == [] then last else values[|values| - 1])
  {
    hide Golomb;
    var all := [last] + (values + [x]);
    assert [last] + values == all[..|values| + 1];
    assert all[|values| + 1] == x;
    assert all[|values|] == if values == [] then last else values[|values| - 1];
    SortedTail(last, values + [x]);
    if values == [] {
      assert (values + [x])[1..] == [];
    } else {
      SortedTail(last, values);
      assert (values + [x])[1..] == values[1..] + [x];
      StreamAppends(p, values[1..], values[0], x);
    }
  }

  method Encode(sip: SipHash, elements: seq<Bytes>, key: Key, p: nat, m: nat) returns (out: Bytes)
    requires |elements| < 0x1_0000_0000_0000_0000
    ensures IsFilterOf(out, FilterValues(sip, key, elements, m), p)
  {
    OrderedSetMembers(elements);
    FilterValuesFacts(sip, key, elements, m);
    var items := OrderedSet(elements);
    var n := |items|;
    out := CompactSize(n);
    if n == 0 {
      assert out[|CompactSize(0)|..] == [];
      return;
    }
    var hashed: seq<nat> := [];
    for i := 0 to n
      invariant hashed == HashAll(sip, key, items, n, m)[..i]
    {
      hashed := hashed + [HashToRange(sip, key, items[i], n, m)];
    }
    assert HashAll(sip, key, items, n, m)[..n] == HashAll(sip, key, items, n, m);
    hashed := Sort(hashed, IntLe);
    var stream := PackStream(p, hashed);
    out := out + stream;
    assert out[|CompactSize(n)|..] == stream;
  }

  /** The delta loop of `encode`. */
  method PackStream(p: nat, values: seq<nat>) returns (stream: Bytes)
    requires SortedBy(IntLe, [0] + values)
    ensures Packs(stream, Stream(p, values, 0))
  {
    var writer := new BitWriter();
    var last := 0;
    for i := 0 to |values|
      invariant writer.Valid() && fresh(writer)
      invariant last == if i == 0 then 0 else values[i - 1]
      invariant SortedBy(IntLe, [0] + values[..i]) && writer.Written() == Stream(p, values[..i], 0)
    {
      assert values[..i + 1] == values[..i] + [values[i]];
      assert [0] + values[..i + 1] == ([0] + values)[..i + 2];
      StreamAppends(p, values[..i], 0, values[i]);
      writer.GolombRiceEncode(p, values[i] - last);
      last := values[i];
    }
    assert values[..|values|] == values;
    stream := writer.bytes;
  }

  /** A parsed filter: the element count and the compressed stream. */
  datatype GcsFilter = GcsFilter(n: nat, compressed: Bytes)

  function ParseFilter(serialized: Bytes): Option<GcsFilter> {
    var Read(n, rest) :- ParseVarint(serialized);
    if n >= 0x1_0000_0000 then None
    else if n == 0 && rest != [] then None
    else Some(GcsFilter(n, rest))
  }

  /** The membership loop over the raw bits. `None` is a decoding error. */
  function ScanBits(bits: seq<bool>, n: nat, p: nat, target: nat, last: nat): Option<bool>
    decreases n
  {
    if n == 0 then Some(false)
    else
      var BitRead(delta, rest) :- DecodeGolomb(bits, p);
      var value := last + delta;
      if value >= 0x1_0000_0000_0000_0000 then None
      else if value == target then Some(true)
      else if value > target then Some(false)
      else ScanBits(rest, n - 1, p, target, value)
  }

  function Matches(sip: SipHash, filter: GcsFilter, key: Key, item: Bytes, p: nat, m: nat): Option<bool> {
    if filter.n == 0 then Some(false)
    else ScanBits(BitsOf(filter.compressed), filter.n, p, HashToRange(sip, key, item, filter.n, m), 0)
  }

  method ComputeMatches(sip: SipHash, filter: GcsFilter, key: Key, item: Bytes, p: nat, m: nat)
    returns (r: Option<bool>)
    ensures r == Matches(sip, filter, key, item, p, m)
  {
    if filter.n == 0 {
      return Some(false);
    }
    r := ScanLoop(filter.compressed, filter.n, p, HashToRange(sip, key, item, filter.n, m));
  }

  /** The loop of `matches`, leaving as soon as the target is met or passed. */
  method ScanLoop(data: Bytes, n: nat, p: nat, target: nat) returns (r: Option<bool>)
    ensures r == ScanBits(BitsOf(data), n, p, target, 0)
  {
    var reader := new BitReader(data);
    hide DecodeGolomb;
    var last: nat := 0;
    for i := 0 to n
      invariant reader.Valid()
      invariant ScanBits(BitsOf(data), n, p, target, 0) == ScanBits(reader.Rest(), n - i, p, target, last)
    {
      var delta :- reader.GolombRiceDecode(p);
      last := last + delta;
      if last >= 0x1_0000_0000_0000_0000 {
        return None;
      }
      if last == target {
        return Some(true);
      }
      if last > target {
        return Some(false);
      }
    }
    r := Some(false);
  }

  /** `decode_all`: every cumulative value. */
  function DecodeAll(bits: seq<bool>, n: nat, p: nat, last: nat): Option<seq<nat>>
    decreases n
  {
    if n == 0 then Some([])
    else
      var BitRead(delta, rest) :- DecodeGolomb(bits, p);
      if last + delta >= 0x1_0000_0000_0000_0000 then None
      else
        var values :- DecodeAll(rest, n - 1, p, last + delta);
        Some([last + delta] + values)
  }

  /** The unary quotient the decoder meets at position `i`. */
  function GapQuotient(values: seq<nat>, p: nat, last: nat, i: nat): int
    requires i < |values|
  {
    var gap := values[i] - if i == 0 then last else values[i - 1];
    if gap < 0 then 0 else Shr(gap, p)
  }

  lemma StreamHead(p: nat, values: seq<nat>, last: nat, padding: seq<bool>)
    requires SortedBy(IntLe, [last] + values) && values != []
    ensures last <= values[0] && SortedBy(IntLe, [values[0]] + values[1..])
    ensures DecodeGolomb(Stream(p, values, last) + padding, p)
         == if GapQuotient(values, p, last, 0) > MAX_QUOTIENT then None
            else Some(BitRead(values[0] - last, Stream(p, values[1..], values[0]) + padding))
  {
    SortedTail(last, values);
    var rest := Stream(p, values[1..], values[0]) + padding;
    assert Stream(p, values, last) + padding == Golomb(p, values[0] - last) + rest;
    GolombRoundTrip(p, values[0] - last, rest);
  }

  ghost predicate Readable(values: seq<nat>, p: nat, last: nat) {
    forall i | 0 <= i < |values| :: GapQuotient(values, p, last, i) <= MAX_QUOTIENT
  }

  lemma ReadableStep(values: seq<nat>, p: nat, last: nat)
    requires values != []
    ensures Readable(values, p, last) <==>
              GapQuotient(values, p, last, 0) <= MAX_QUOTIENT && Readable(values[1..], p, values[0])
  {
    GapsShift(values, p, last);
  }

  lemma DecodeAllStep(p: nat, values: seq<nat>, last: nat, padding: seq<bool>)
    requires SortedBy(IntLe, [last] + values) && values != [] && values[0] < 0x1_0000_0000_0000_0000
    ensures SortedBy(IntLe, [values[0]] + values[1..])
    ensures DecodeAll(Stream(p, values, last) + padding, |values|, p, last)
         == if GapQuotient(values, p, last, 0) > MAX_QUOTIENT then None
            else match DecodeAll(Stream(p, values[1..], values[0]) + padding, |values| - 1, p, values[0])
                 case None => None
                 case Some(rest) => Some([values[0]] + rest)
  {
    hide DecodeGolomb;
    StreamHead(p, values, last, padding);
  }

  /**
   * Decoding an encoded stream yields the values back, exactly when no gap
   * exceeds the decoder's quotient cap.
   */
  lemma {:induction false} DecodeAllExact(p: nat, values: seq<nat>, last: nat, padding: seq<bool>)
    requires SortedBy(IntLe, [last] + values)
    requires forall v :: v in values ==> v < 0x1_0000_0000_0000_0000
    ensures DecodeAll(Stream(p, values, last) + padding, |values|, p, last)
         == if Readable(values, p, last) then Some(values) else None
  {
    hide DecodeGolomb, GapQuotient, Golomb;
    if values != [] {
      assert values[0] in values && forall v :: v in values[1..] ==> v in values;
      DecodeAllStep(p, values, last, padding);
      ReadableStep(values, p, last);
      DecodeAllExact(p, values[1..], values[0], padding);
      assert [values[0]] + values[1..] == values;
    }
  }

  lemma GapsShift(values: seq<nat>, p: nat, last: nat)
    requires values != []
    ensures forall i | 0 <= i < |values| - 1 ::
              GapQuotient(values[1..], p, values[0], i) == GapQuotient(values, p, last, i + 1)
    ensures forall i | 1 <= i < |values| ::
              GapQuotient(values, p, last, i) == GapQuotient(values[1..], p, values[0], i - 1)
  {
  }

  /** The first oversized gap is reached before the target is met or passed. */
  ghost predicate Unreadable(values: seq<nat>, p: nat, last: nat, target: nat) {
    exists i | 0 <= i < |values| ::
      GapQuotient(values, p, last, i) > MAX_QUOTIENT && forall j | 0 <= j < i :: values[j] < target
  }

  lemma ScanStep(p: nat, values: seq<nat>, last: nat, target: nat, padding: seq<bool>)
    requires SortedBy(IntLe, [last] + values) && values != [] && values[0] < 0x1_0000_0000_0000_0000
    ensures SortedBy(IntLe, [values[0]] + values[1..])
    ensures ScanBits(Stream(p, values, last) + padding, |values|, p, target, last)
         == if GapQuotient(values, p, last, 0) > MAX_QUOTIENT then None
            else if values[0] == target then Some(true)
            else if values[0] > target then Some(false)
            else ScanBits(Stream(p, values[1..], values[0]) + padding, |values| - 1, p, target, values[0])
  {
    hide DecodeGolomb;
    StreamHead(p, values, last, padding);
  }

  /** The early exit of the loop never changes the answer. */
  lemma {:induction false} ScanExact(p: nat, values: seq<nat>, last: nat, target: nat, padding: seq<bool>)
    requires SortedBy(IntLe, [last] + values)
    requires forall v :: v in values ==> v < 0x1_0000_0000_0000_0000
    ensures ScanBits(Stream(p, values, last) + padding, |values|, p, target, last)
         == if Unreadable(values, p, last, target) then None else Some(target in values)
  {
    if values != [] {
      assert values[0] in values && forall v :: v in values[1..] ==> v in values;
      ScanStep(p, values, last, target, padding);
      UnreadableStep(values, p, last, target);
      if values[0] > target {
        AboveSmallest(values, last, target);
      } else if values[0] < target {
        ScanExact(p, values[1..], values[0], target, padding);
        assert target in values <==> target in values[1..];
      }
    }
  }

  lemma AboveSmallest(values: seq<nat>, last: nat, target: nat)
    requires SortedBy(IntLe, [last] + values) && values != [] && values[0] > target
    ensures target !in values
  {
    forall i | 0 <= i < |values| ensures values[i] > target {
      assert ([last] + values)[1] == values[0] && ([last] + values)[i + 1] == values[i];
    }
  }

  lemma UnreadableStep(values: seq<nat>, p: nat, last: nat, target: nat)
    requires values != []
    ensures Unreadable(values, p, last, target) <==>
              (GapQuotient(values, p, last, 0) > MAX_QUOTIENT
               || (values[0] < target && Unreadable(values[1..], p, values[0], target)))
  {
    GapsShift(values, p, last);
    if i :| 0 <= i < |values| && GapQuotient(values, p, last, i) > MAX_QUOTIENT
            && forall j | 0 <= j < i :: values[j] < target {
      if i > 0 {
        assert GapQuotient(values[1..], p, values[0], i - 1) > MAX_QUOTIENT;
      }
    }
    if i :| 0 <= i < |values| - 1 && GapQuotient(values[1..], p, values[0], i) > MAX_QUOTIENT
            && forall j | 0 <= j < i :: values[1..][j] < target {
      if values[0] < target {
        assert GapQuotient(values, p, last, i + 1) > MAX_QUOTIENT;
        assert forall j | 1 <= j < i + 1 :: values[j] == values[1..][j - 1];
      }
    }
  }

  /** `item` collides with an element in the filter's value space. */
  ghost predicate HashHit(sip: SipHash, key: Key, elements: seq<Bytes>, item: Bytes, n: nat, m: nat) {
    exists e :: e in elements && HashToRange(sip, key, e, n, m) == HashToRange(sip, key, item, n, m)
  }

  /**
   * GCS exactness. For a filter built from `elements`, a query that can be read
   * to its end answers `true` exactly when the item's range hash is that of an
   * element; a query fails exactly when it runs into a gap whose quotient the
   * decoder refuses.
   */
  lemma FilterExact(sip: SipHash, filter: Bytes, elements: seq<Bytes>, key: Key, item: Bytes, p: nat, m: nat)
    requires IsFilterOf(filter, FilterValues(sip, key, elements, m), p)
    requires |OrderedSet(elements)| < 0x1_0000_0000 && |OrderedSet(elements)| * m < 0x1_0000_0000_0000_0000
    ensures var values := FilterValues(sip, key, elements, m);
            var n := |values|;
            && ParseFilter(filter).Some?
            && ParseFilter(filter).value.n == n
            && Matches(sip, ParseFilter(filter).value, key, item, p, m)
               == if n > 0 && Unreadable(values, p, 0, HashToRange(sip, key, item, n, m)) then None
                  else Some(HashHit(sip, key, elements, item, n, m))
  {
    var values := FilterValues(sip, key, elements, m);
    var n := |values|;
    FilterValuesFacts(sip, key, elements, m);
    var head := CompactSize(n);
    var tail := filter[|head|..];
    assert filter == head + tail;
    VarintRoundTrip(n, tail);
    if n > 0 {
      forall v | v in values ensures v < 0x1_0000_0000_0000_0000 {
        var e :| e in elements && v == HashToRange(sip, key, e, n, m);
        assert m > 0 ==> v < n * m;
      }
      var target := HashToRange(sip, key, item, n, m);
      var padding := Copies(false, 8 * |tail| - |Stream(p, values, 0)|);
      ScanExact(p, values, 0, target, padding);
      assert target in values <==> HashHit(sip, key, elements, item, n, m);
    } else {
      assert Stream(p, values, 0) == [];
      OrderedSetMembers(elements);
      assert forall e :: e !in elements;
    }
  }

  lemma MulMonotone(a: nat, b: nat, c: nat)
    ensures a <= b ==> a * c <= b * c
  {
  }

  lemma QuotientBound(gap: nat, p: nat)
    requires gap < MAX_QUOTIENT * Pow2(p)
    ensures Shr(gap, p) < MAX_QUOTIENT
  {
    var q, unit := Shr(gap, p), Pow2(p);
    ShrIsDivision(gap, p);
    MulMonotone(MAX_QUOTIENT, q, unit);
  }

  /** No gap can reach the cap while the value space is at most `2^(32 + p)`. */
  lemma SmallFiltersReadable(values: seq<nat>, p: nat, target: nat, space: nat)
    requires space <= MAX_QUOTIENT * Pow2(p)
    requires forall v :: v in values ==> v < space
    ensures !Unreadable(values, p, 0, target)
  {
    forall i | 0 <= i < |values| ensures GapQuotient(values, p, 0, i) <= MAX_QUOTIENT {
      assert values[i] in values;
      var before := if i == 0 then 0 else values[i - 1];
      if before <= values[i] {
        QuotientBound(values[i] - before, p);
      }
    }
  }

  /** Every query against a basic filter of an ordinary block is answered, and exactly. */
  lemma BasicFilterExact(sip: SipHash, filter: Bytes, elements: seq<Bytes>, key: Key, item: Bytes)
    requires IsFilterOf(filter, FilterValues(sip, key, elements, BASIC_FILTER_M), BASIC_FILTER_P)
    requires |OrderedSet(elements)| * BASIC_FILTER_M <= MAX_QUOTIENT * 0x8_0000
    ensures ParseFilter(filter).Some?
    ensures Matches(sip, ParseFilter(filter).value, key, item, BASIC_FILTER_P, BASIC_FILTER_M)
         == Some(HashHit(sip, key, elements, item, |OrderedSet(elements)|, BASIC_FILTER_M))
    ensures item in elements ==>
              Matches(sip, ParseFilter(filter).value, key, item, BASIC_FILTER_P, BASIC_FILTER_M) == Some(true)
  {
    var values := FilterValues(sip, key, elements, BASIC_FILTER_M);
    var n := |values|;
    FilterExact(sip, filter, elements, key, item, BASIC_FILTER_P, BASIC_FILTER_M);
    FilterValuesFacts(sip, key, elements, BASIC_FILTER_M);
    assert Pow2(19) == 0x8_0000 by {
      ByteRange();
      Pow2Adds(8, 8);
      Pow2Adds(16, 3);
      assert Pow2(3) == 8;
    }
    if n > 0 {
      SmallFiltersReadable(values, 19, HashToRange(sip, key, item, n, BASIC_FILTER_M), n * BASIC_FILTER_M);
    }
  }
}
