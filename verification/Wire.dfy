/**
 * Wire-format primitives (`crates/opencsv-cbf/src/wire.rs`): little-endian
 * integers, CompactSize and the bounds-checked byte cursor.
 *
 * Every reader is specified by a function from the unread suffix to the value
 * and the suffix left over, so that parsers compose by plain substitution.
 */
module Wire {
  import opened Wrappers

  type byte = x: int | 0 <= x < 256
  type u16 = x: int | 0 <= x < 0x1_0000
  type u32 = x: int | 0 <= x < 0x1_0000_0000
  type i32 = x: int | -0x8000_0000 <= x < 0x8000_0000
  type u64 = x: int | 0 <= x < 0x1_0000_0000_0000_0000
  type Bytes = seq<byte>
  type Hash = h: Bytes | |h| == 32 witness seq(32, i => 0)

  /** A successful read: the value and the bytes after it. */
  datatype Read<+T> = Read(value: T, rest: Bytes)

  function Pow256(e: nat): (r: nat)
    ensures r >= 1
  {
    if e == 0 then 1 else 256 * Pow256(e - 1)
  }

  function LE(n: nat, width: nat): (s: Bytes)
    ensures |s| == width
  {
    if width == 0 then [] else [n % 256] + LE(n / 256, width - 1)
  }

  function FromLE(s: Bytes): nat {
    if s == [] then 0 else s[0] + 256 * FromLE(s[1..])
  }

  lemma {:induction false} FromLEBound(s: Bytes)
    ensures FromLE(s) < Pow256(|s|)
  {
    if s != [] {
      FromLEBound(s[1..]);
    }
  }

  lemma {:induction false} LEThenFromLE(n: nat, width: nat)
    requires n < Pow256(width)
    ensures FromLE(LE(n, width)) == n
  {
    if width > 0 {
      LEThenFromLE(n / 256, width - 1);
      assert LE(n, width)[1..] == LE(n / 256, width - 1);
    }
  }

  lemma {:induction false} FromLEThenLE(s: Bytes)
    ensures LE(FromLE(s), |s|) == s
  {
    if s != [] {
      FromLEThenLE(s[1..]);
      assert FromLE(s) % 256 == s[0] && FromLE(s) / 256 == FromLE(s[1..]);
    }
  }

  /** The widths the wire format uses, with their ranges spelled out. */
  lemma Widths()
    ensures Pow256(1) == 0x100 && Pow256(2) == 0x1_0000
    ensures Pow256(4) == 0x1_0000_0000 && Pow256(8) == 0x1_0000_0000_0000_0000
  {
    assert Pow256(3) == 0x100_0000;
    assert Pow256(5) == 256 * Pow256(4);
    assert Pow256(6) == 256 * Pow256(5);
    assert Pow256(7) == 256 * Pow256(6);
  }

  /** Two's complement, as `i32::to_le_bytes` lays it out. */
  function I32Bytes(v: i32): (s: Bytes)
    ensures |s| == 4
  {
    LE(v % 0x1_0000_0000, 4)
  }

  function I32From(s: Bytes): i32
    requires |s| == 4
  {
    FromLEBound(s);
    Widths();
    var n := FromLE(s);
    if n < 0x8000_0000 then n else n - 0x1_0000_0000
  }

  function TakeBytes(s: Bytes, n: nat): (r: Option<Read<Bytes>>)
    ensures r.Some? <==> n <= |s|
  {
    if |s| < n then None else Some(Read(s[..n], s[n..]))
  }

  function ParseU32(s: Bytes): Option<Read<u32>> {
    if |s| < 4 then None
    else
      FromLEBound(s[..4]);
      Widths();
      Some(Read(FromLE(s[..4]), s[4..]))
  }

  function ParseU64(s: Bytes): Option<Read<u64>> {
    if |s| < 8 then None
    else
      FromLEBound(s[..8]);
      Widths();
      Some(Read(FromLE(s[..8]), s[8..]))
  }

  function ParseI32(s: Bytes): Option<Read<i32>> {
    if |s| < 4 then None else Some(Read(I32From(s[..4]), s[4..]))
  }

  /** CompactSize, shortest form. */
  function CompactSize(n: u64): (s: Bytes)
    ensures |s| == if n < 0xfd then 1 else if n <= 0xffff then 3 else if n <= 0xffff_ffff then 5 else 9
  {
    if n < 0xfd then [n]
    else if n <= 0xffff then [0xfd] + LE(n, 2)
    else if n <= 0xffff_ffff then [0xfe] + LE(n, 4)
    else [0xff] + LE(n, 8)
  }

  /** A byte vector; its length fits the machine word. */
  type Buffer = b: Bytes | |b| < 0x1_0000_0000_0000_0000

  function VarBytes(b: Buffer): Bytes {
    CompactSize(|b|) + b
  }

  function ParseVarint(s: Bytes): (r: Option<Read<u64>>)
    ensures r.Some? ==> |r.value.rest| < |s|
  {
    if s == [] then None
    else
      var width := if s[0] == 0xff then 8 else if s[0] == 0xfe then 4 else if s[0] == 0xfd then 2 else 0;
      if width == 0 then Some(Read(s[0], s[1..]))
      else if |s| < 1 + width then None
      else
        FromLEBound(s[1..1 + width]);
        Widths();
        var n := FromLE(s[1..1 + width]);
        var least := if width == 8 then 0x1_0000_0000 else if width == 4 then 0x1_0000 else 0xfd;
        if n < least then None else Some(Read(n, s[1 + width..]))
  }

  function ParseVarBytes(s: Bytes): (r: Option<Read<Buffer>>) {
    match ParseVarint(s)
    case None => None
    case Some(Read(n, rest)) => if |rest| < n then None else Some(Read(rest[..n], rest[n..]))
  }

  lemma U32RoundTrip(n: u32, rest: Bytes)
    ensures ParseU32(LE(n, 4) + rest) == Some(Read(n, rest))
  {
    Widths();
    LEThenFromLE(n, 4);
    assert (LE(n, 4) + rest)[..4] == LE(n, 4) && (LE(n, 4) + rest)[4..] == rest;
  }

  lemma U64RoundTrip(n: u64, rest: Bytes)
    ensures ParseU64(LE(n, 8) + rest) == Some(Read(n, rest))
  {
    Widths();
    LEThenFromLE(n, 8);
    assert (LE(n, 8) + rest)[..8] == LE(n, 8) && (LE(n, 8) + rest)[8..] == rest;
  }

  lemma UintCanonical(s: Bytes, width: nat)
    requires width <= |s|
    ensures s == LE(FromLE(s[..width]), width) + s[width..]
  {
    FromLEThenLE(s[..width]);
  }

  lemma I32RoundTrip(v: i32, rest: Bytes)
    ensures ParseI32(I32Bytes(v) + rest) == Some(Read(v, rest))
  {
    Widths();
    LEThenFromLE(v % 0x1_0000_0000, 4);
    assert (I32Bytes(v) + rest)[..4] == I32Bytes(v);
    assert (I32Bytes(v) + rest)[4..] == rest;
  }

  /** Writing then reading a CompactSize gives the number back and touches nothing after it. */
  lemma VarintRoundTrip(n: u64, rest: Bytes)
    ensures ParseVarint(CompactSize(n) + rest) == Some(Read(n, rest))
  {
    Widths();
    var s := CompactSize(n) + rest;
    if n >= 0xfd {
      var width := if n <= 0xffff then 2 else if n <= 0xffff_ffff then 4 else 8;
      LEThenFromLE(n, width);
      assert s[1..1 + width] == LE(n, width);
      assert s[1 + width..] == rest;
    } else {
      assert s[1..] == rest;
    }
  }

  /** Every accepted CompactSize is the shortest one: no number has two readings. */
  lemma VarintCanonical(s: Bytes)
    requires ParseVarint(s).Some?
    ensures s == CompactSize(ParseVarint(s).value.value) + ParseVarint(s).value.rest
  {
    Widths();
    if s[0] >= 0xfd {
      var width := if s[0] == 0xff then 8 else if s[0] == 0xfe then 4 else 2;
      FromLEThenLE(s[1..1 + width]);
      FromLEBound(s[1..1 + width]);
      assert s == [s[0]] + s[1..1 + width] + s[1 + width..];
    } else {
      assert s == [s[0]] + s[1..];
    }
  }

  lemma VarBytesRoundTrip(b: Buffer, rest: Bytes)
    ensures ParseVarBytes(VarBytes(b) + rest) == Some(Read(b, rest))
  {
    VarintRoundTrip(|b|, b + rest);
    assert VarBytes(b) + rest == CompactSize(|b|) + (b + rest);
    assert (b + rest)[..|b|] == b && (b + rest)[|b|..] == rest;
  }

  lemma VarBytesCanonical(s: Bytes)
    requires ParseVarBytes(s).Some?
    ensures s == VarBytes(ParseVarBytes(s).value.value) + ParseVarBytes(s).value.rest
  {
    hide ParseVarint, CompactSize;
    VarintCanonical(s);
    var Read(n, tail) := ParseVarint(s).value;
    assert s == CompactSize(n) + (tail[..n] + tail[n..]);
  }

  /** `n` items in a row, each read by `item`. */
  function ParseMany<T>(s: Bytes, n: nat, item: Bytes -> Option<Read<T>>): Option<Read<seq<T>>>
    decreases n
  {
    if n == 0 then Some(Read([], s))
    else
      var Read(x, s1) :- item(s);
      var Read(xs, s2) :- ParseMany(s1, n - 1, item);
      Some(Read([x] + xs, s2))
  }

  function EncodeMany<T>(xs: seq<T>, enc: T -> Bytes): Bytes {
    if xs == [] then [] else enc(xs[0]) + EncodeMany(xs[1..], enc)
  }

  lemma {:induction false} ManyRoundTrip<T(!new)>(xs: seq<T>, rest: Bytes, enc: T -> Bytes,
                                                  item: Bytes -> Option<Read<T>>)
    requires forall x, r :: item(enc(x) + r) == Some(Read(x, r))
    ensures ParseMany(EncodeMany(xs, enc) + rest, |xs|, item) == Some(Read(xs, rest))
  {
    if xs == [] {
      assert [] + rest == rest;
    } else {
      var tail := EncodeMany(xs[1..], enc) + rest;
      assert EncodeMany(xs, enc) + rest == enc(xs[0]) + tail;
      ManyRoundTrip(xs[1..], rest, enc, item);
      assert xs == [xs[0]] + xs[1..];
    }
  }

  lemma {:induction false} ManyCanonical<T(!new)>(s: Bytes, n: nat, enc: T -> Bytes, item: Bytes -> Option<Read<T>>)
    requires forall t :: item(t).Some? ==> t == enc(item(t).value.value) + item(t).value.rest
    requires ParseMany(s, n, item).Some?
    ensures var Read(xs, rest) := ParseMany(s, n, item).value;
            |xs| == n && s == EncodeMany(xs, enc) + rest
    decreases n
  {
    if n > 0 {
      var Read(x, s1) := item(s).value;
      ManyCanonical(s1, n - 1, enc, item);
      var Read(xs, rest) := ParseMany(s1, n - 1, item).value;
      assert ([x] + xs)[1..] == xs;
      assert s == enc(x) + (EncodeMany(xs, enc) + rest);
    } else {
      assert s == [] + s;
    }
  }

  /** The byte cursor: `data` never changes, `pos` only moves forward. */
  class Cursor {
    const data: Bytes
    var pos: nat

    ghost predicate Valid()
      reads this
    {
      pos <= |data|
    }

    ghost function Rest(): Bytes
      reads this
      requires Valid()
    {
      data[pos..]
    }

    constructor (data: Bytes)
      ensures Valid() && Rest() == data && this.data == data
    {
      this.data := data;
      pos := 0;
    }

    function Remaining(): (n: nat)
      reads this
      requires Valid()
      ensures n == |Rest()|
    {
      |data| - pos
    }

    method ReadBytes(n: nat) returns (r: Option<Bytes>)
      requires Valid()
      modifies this`pos
      ensures Valid()
      ensures match TakeBytes(old(Rest()), n)
              case None => r == None && pos == old(pos)
              case Some(Read(v, rest)) => r == Some(v) && Rest() == rest
    {
      if Remaining() < n {
        return None;
      }
      r := Some(data[pos..pos + n]);
      pos := pos + n;
      assert data[old(pos)..][..n] == data[old(pos)..pos];
      assert data[old(pos)..][n..] == data[pos..];
    }

    method ReadU32() returns (r: Option<u32>)
      requires Valid()
      modifies this`pos
      ensures Valid()
      ensures match ParseU32(old(Rest()))
              case None => r == None
              case Some(Read(v, rest)) => r == Some(v) && Rest() == rest
    {
      var raw :- ReadBytes(4);
      FromLEBound(raw);
      Widths();
      r := Some(FromLE(raw));
    }

    method ReadU64() returns (r: Option<u64>)
      requires Valid()
      modifies this`pos
      ensures Valid()
      ensures match ParseU64(old(Rest()))
              case None => r == None
              case Some(Read(v, rest)) => r == Some(v) && Rest() == rest
    {
      var raw :- ReadBytes(8);
      FromLEBound(raw);
      Widths();
      r := Some(FromLE(raw));
    }

    method ReadI32() returns (r: Option<i32>)
      requires Valid()
      modifies this`pos
      ensures Valid()
      ensures match ParseI32(old(Rest()))
              case None => r == None
              case Some(Read(v, rest)) => r == Some(v) && Rest() == rest
    {
      var raw :- ReadBytes(4);
      r := Some(I32From(raw));
    }

    method ReadVarint() returns (r: Option<u64>)
      requires Valid()
      modifies this`pos
      ensures Valid()
      ensures match ParseVarint(old(Rest()))
              case None => r == None
              case Some(Read(v, rest)) => r == Some(v) && Rest() == rest
    {
      ghost var s := Rest();
      var tag :- ReadBytes(1);
      if tag[0] < 0xfd {
        return Some(tag[0]);
      }
      var width := if tag[0] == 0xff then 8 else if tag[0] == 0xfe then 4 else 2;
      var least := if tag[0] == 0xff then 0x1_0000_0000 else if tag[0] == 0xfe then 0x1_0000 else 0xfd;
      assert s[1..][..] == Rest();
      var raw :- ReadBytes(width);
      assert s[1..][..width] == s[1..1 + width] && s[1..][width..] == s[1 + width..];
      FromLEBound(raw);
      Widths();
      var n := FromLE(raw);
      r := if n < least then None else Some(n);
    }

    method ReadVarBytes() returns (r: Option<Buffer>)
      requires Valid()
      modifies this`pos
      ensures Valid()
      ensures match ParseVarBytes(old(Rest()))
              case None => r == None
              case Some(Read(v, rest)) => r == Some(v) && Rest() == rest
    {
      var n :- ReadVarint();
      r := ReadBytes(n);
    }
  }
}
