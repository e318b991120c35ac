/**
 * Difficulty rules and header validation (`crates/opencsv-cbf/src/network.rs`).
 */
module Consensus {
  import opened Wrappers
  import opened Wire
  import opened Sorting
  import opened U256Arithmetic
  import opened Block
  import opened Compact
  import Pow

  const RETARGET_INTERVAL := 2016

  datatype Params = Params(
    genesisHash: Hash, powLimit: U256, powLimitBits: u32, spacing: u32, timespan: u32,
    allowMinDifficulty: bool, noRetargeting: bool)

  datatype Network = Mainnet | Signet | Regtest

  // The genesis hashes, in internal byte order.

  function MainnetGenesis(): (h: Hash) {
    [0x6f, 0xe2, 0x8c, 0x0a, 0xb6, 0xf1, 0xb3, 0x72, 0xc1, 0xa6, 0xa2, 0x46, 0xae, 0x63, 0xf7, 0x4f]
    + [0x93, 0x1e, 0x83, 0x65, 0xe1, 0x5a, 0x08, 0x9c, 0x68, 0xd6, 0x19, 0x00, 0x00, 0x00, 0x00, 0x00]
  }

  function SignetGenesis(): (h: Hash) {
    [0xf6, 0x1e, 0xee, 0x3b, 0x63, 0xa3, 0x80, 0xa4, 0x77, 0xa0, 0x63, 0xaf, 0x32, 0xb2, 0xbb, 0xc9]
    + [0x7c, 0x9f, 0xf9, 0xf0, 0x1f, 0x2c, 0x42, 0x25, 0xe9, 0x73, 0x98, 0x81, 0x08, 0x00, 0x00, 0x00]
  }

  function RegtestGenesis(): (h: Hash) {
    [0x06, 0x22, 0x6e, 0x46, 0x11, 0x1a, 0x0b, 0x59, 0xca, 0xaf, 0x12, 0x60, 0x43, 0xeb, 0x5b, 0xbf]
    + [0x28, 0xc3, 0x4f, 0x3a, 0x5e, 0x33, 0x2a, 0x1f, 0xc7, 0xb2, 0xb7, 0x3c, 0xf1, 0x88, 0x91, 0x0f]
  }

  /** `params`, as far as the rules depend on it; limits are written out in limbs. */
  function ParamsOf(network: Network): Params {
    match network
    case Mainnet =>
      Params(MainnetGenesis(), [0, 0, 0, 0xffff_0000], 0x1d00_ffff, 600, 14 * 24 * 60 * 60, false, false)
    case Signet =>
      Params(SignetGenesis(), [0, 0, 0, 0x377_ae00_0000], 0x1e03_77ae, 600, 14 * 24 * 60 * 60, false, false)
    case Regtest =>
      Params(RegtestGenesis(), [0, 0, 0, 0x7fff_ff00_0000_0000], 0x207f_ffff, 600, 14 * 24 * 60 * 60, true, true)
  }

  /** What the rules need of the parameters. */
  ghost predicate Supported(params: Params) {
    && params.timespan == 14 * 24 * 60 * 60 && params.spacing == 600
    && Limbs(params.powLimit) < TWO256 / 2
    && (params.noRetargeting || Limbs(params.powLimit) < TWO256 / 4)
    && (params.allowMinDifficulty ==> params.noRetargeting)
  }

  /** Every network has it, and its limit is what its compact form stands for. */
  lemma NetworksSupported(network: Network)
    ensures Supported(ParamsOf(network))
    ensures Expand(ParamsOf(network).powLimitBits) == Some(Limbs(ParamsOf(network).powLimit))
  {
    TopLimb(ParamsOf(network).powLimit[3]);
    Pow256By8();
    match network
    case Mainnet =>
      Pow256Adds(24, 2);
    case Signet =>
      Pow256Adds(24, 3);
    case Regtest =>
      Pow256Adds(24, 5);
  }

  lemma TopLimb(x: u64)
    ensures Limbs([0, 0, 0, x]) == x * (BASE * BASE * BASE)
  {
    assert [0, 0, 0, x][1..] == [0, 0, x] && [0, 0, x][1..] == [0, x] && [0, x][1..] == [x] && [x][1..] == [];
    assert Limbs([x]) == x;
    assert Limbs([0, x]) == BASE * x;
    assert Limbs([0, 0, x]) == BASE * (BASE * x);
  }

  lemma Pow256By8()
    ensures Pow256(24) == BASE * BASE * BASE
    ensures Pow256(2) == 0x1_0000 && Pow256(3) == 0x100_0000 && Pow256(5) == 0x100_0000_0000
  {
    assert Pow256(8) == BASE;
    Pow256Adds(8, 8);
    Pow256Adds(16, 8);
  }

  // -- retargeting ---------------------------------------------------------------

  function Clamp(x: int, low: int, high: int): (r: int)
    requires low <= high
    ensures low <= r <= high
  {
    if x < low then low else if x > high then high else x
  }

  /** The target consensus asks for at a retarget height. */
  function RetargetedTarget(params: Params, previous: nat, actual: int): nat
    requires params.timespan > 0
  {
    var span := Clamp(actual, params.timespan / 4, params.timespan * 4);
    var scaled := previous * span / params.timespan % TWO256;
    if scaled >= Limbs(params.powLimit) then Limbs(params.powLimit) else scaled
  }

  method NextWorkRequired(params: Params, headers: seq<BlockHeader>, height: nat) returns (bits: nat)
    requires params.timespan > 0
    requires 0 < height <= |headers|
    requires params.noRetargeting || height % RETARGET_INTERVAL == 0 || !params.allowMinDifficulty
    requires Expand(headers[height - 1].bits).Some?
    ensures params.noRetargeting || height % RETARGET_INTERVAL != 0 ==> bits == headers[height - 1].bits
    ensures !params.noRetargeting && height % RETARGET_INTERVAL == 0 ==>
              bits == CompactBits(RetargetedTarget(params, Expand(headers[height - 1].bits).value,
                                  headers[height - 1].time - headers[height - RETARGET_INTERVAL].time))
  {
    hide CompactBits, Limbs, Expand;
    var prev := headers[height - 1];
    if params.noRetargeting {
      return prev.bits;
    }
    if height % RETARGET_INTERVAL != 0 {
      return prev.bits;
    }
    var first := headers[height - RETARGET_INTERVAL];
    var actual: int := prev.time - first.time;
    actual := Clamp(actual, params.timespan / 4, params.timespan * 4);
    var prevTarget := FromCompact(prev.bits);
    var product := U256MulU64(prevTarget.value, actual);
    var newTarget := U512DivU64(product, params.timespan);
    var ge := U256Ge(newTarget, params.powLimit);
    bits := ToCompact(if ge then params.powLimit else newTarget);
  }

  /**
   * The retarget is the exact rational scaling, cut down to a compact target: never
   * above the limit or four times the previous target, never below a quarter of it
   * unless the limit is.
   */
  lemma RetargetBounds(params: Params, previous: nat, actual: int)
    requires Supported(params) && !params.noRetargeting && previous <= Limbs(params.powLimit)
    ensures var span := Clamp(actual, params.timespan / 4, params.timespan * 4);
            var exact := previous * span / params.timespan;
            var next := RetargetedTarget(params, previous, actual);
            && next == (if exact < Limbs(params.powLimit) then exact else Limbs(params.powLimit))
            && next <= 4 * previous
            && (next == Limbs(params.powLimit) || next >= previous / 4)
            && Expand(CompactBits(next) % 0x1_0000_0000) == Some(Truncated(next))
            && CompactBits(next) < 0x1_0000_0000 && Truncated(next) <= next
  {
    hide Truncated, CompactBits, Expand, Limbs;
    var t := params.timespan;
    var span := Clamp(actual, t / 4, t * 4);
    ScalingBounds(previous, span, t);
    var next := RetargetedTarget(params, previous, actual);
    ExpandCompact(next);
    TruncationLoss(next);
  }

  lemma ScalingBounds(previous: nat, span: nat, t: nat)
    requires t > 0 && t % 4 == 0 && t / 4 <= span <= 4 * t
    ensures previous / 4 <= previous * span / t <= 4 * previous
  {
    ProductMonotone(previous, span, 4 * t);
    ProductMonotone(previous, t / 4, span);
    assert previous * (4 * t) == 4 * previous * t;
    DividesInto(previous * span, t, 4 * previous);
    QuarterScaling(previous, span, t);
  }

  lemma DividesInto(x: nat, t: nat, limit: nat)
    requires t > 0 && x <= limit * t
    ensures x / t <= limit
  {
    assert x == (x / t) * t + x % t;
    MultipleAtLeast(t, x / t - limit);
    assert t * (x / t - limit) == (x / t) * t - limit * t;
  }

  lemma QuarterScaling(previous: nat, span: nat, t: nat)
    requires t > 0 && t % 4 == 0 && previous * (t / 4) <= previous * span
    ensures previous * span / t >= previous / 4
  {
    var q, u := previous / 4, t / 4;
    assert previous == 4 * q + previous % 4 && t == 4 * u;
    assert q * t == 4 * q * u;
    assert previous * u == 4 * q * u + (previous % 4) * u;
    Pow.QuotientAtLeast(previous * span, t, q);
  }

  // -- required bits -----------------------------------------------------------------

  /** The last block of the period, at or below `h`, that is not a minimum-difficulty block. */
  function LastRegular(params: Params, headers: seq<BlockHeader>, h: nat): (r: nat)
    requires h < |headers|
    ensures r <= h && h - r <= h % RETARGET_INTERVAL
  {
    if h % RETARGET_INTERVAL == 0 || headers[h].bits != params.powLimitBits then h
    else LastRegular(params, headers, h - 1)
  }

  lemma {:induction false} LastRegularIsLast(params: Params, headers: seq<BlockHeader>, h: nat)
    requires h < |headers|
    ensures var r := LastRegular(params, headers, h);
            && (r % RETARGET_INTERVAL == 0 || headers[r].bits != params.powLimitBits)
            && forall k | r < k <= h :: k % RETARGET_INTERVAL != 0 && headers[k].bits == params.powLimitBits
  {
    if h % RETARGET_INTERVAL != 0 && headers[h].bits == params.powLimitBits {
      LastRegularIsLast(params, headers, h - 1);
    }
  }

  lemma LastRegularStep(params: Params, headers: seq<BlockHeader>, h: nat)
    requires h < |headers|
    ensures LastRegular(params, headers, h)
         == if h % RETARGET_INTERVAL == 0 || headers[h].bits != params.powLimitBits then h
            else LastRegular(params, headers, h - 1)
  {
  }

  /** `required_bits`; comparisons of times wrap like the 32-bit sum they are. */
  function RequiredBits(params: Params, headers: seq<BlockHeader>, height: nat, time: u32): nat
    requires params.timespan > 0 && 0 < height <= |headers|
    requires Expand(headers[height - 1].bits).Some?
  {
    var prev := headers[height - 1];
    if params.noRetargeting then prev.bits
    else if height % RETARGET_INTERVAL == 0 then
      CompactBits(RetargetedTarget(params, Expand(prev.bits).value,
                                   prev.time - headers[height - RETARGET_INTERVAL].time))
    else if !params.allowMinDifficulty then prev.bits
    else if time > (prev.time + 2 * params.spacing) % 0x1_0000_0000 then params.powLimitBits
    else headers[LastRegular(params, headers, height - 1)].bits
  }

  method WalkBack(params: Params, headers: seq<BlockHeader>, from: nat) returns (h: nat)
    requires from < |headers|
    ensures h == LastRegular(params, headers, from) <= from
  {
    hide LastRegular;
    h := from;
    while h % RETARGET_INTERVAL != 0 && headers[h].bits == params.powLimitBits
      invariant 0 <= h <= from
      invariant LastRegular(params, headers, h) == LastRegular(params, headers, from)
    {
      LastRegularStep(params, headers, h);
      h := h - 1;
    }
    LastRegularStep(params, headers, h);
  }

  method ComputeRequiredBits(params: Params, headers: seq<BlockHeader>, height: nat, time: u32) returns (bits: nat)
    requires params.timespan > 0 && 0 < height <= |headers|
    requires Expand(headers[height - 1].bits).Some?
    ensures bits == RequiredBits(params, headers, height, time)
  {
    hide RetargetedTarget, CompactBits, Limbs, Expand;
    var prev := headers[height - 1];
    if params.noRetargeting {
      return prev.bits;
    }
    if height % RETARGET_INTERVAL != 0 {
      if params.allowMinDifficulty {
        if time > (prev.time + 2 * params.spacing) % 0x1_0000_0000 {
          return params.powLimitBits;
        }
        var h := WalkBack(params, headers, height - 1);
        return headers[h].bits;
      }
      return prev.bits;
    }
    bits := NextWorkRequired(params, headers, height);
  }

  // -- validation -------------------------------------------------------------------------

  /** The middle of the up to eleven times before `height`. */
  function MedianTimePast(headers: seq<BlockHeader>, height: nat): int
    requires 0 < height <= |headers|
  {
    var start := if height < 11 then 0 else height - 11;
    var sorted := Sort(Times(headers[start..height]), IntLe);
    SortIsSorted(Times(headers[start..height]), IntLe);
    sorted[|sorted| / 2]
  }

  function Times(headers: seq<BlockHeader>): (r: seq<int>)
    ensures |r| == |headers|
  {
    seq(|headers|, i requires 0 <= i < |headers| => headers[i].time)
  }

  /** A header that consensus lets follow the first `height` headers. */
  ghost predicate ValidNext(params: Params, sha256d: HashFn, headers: seq<BlockHeader>, height: nat, header: BlockHeader)
    requires params.timespan > 0 && 0 < height <= |headers|
    requires Expand(headers[height - 1].bits).Some?
  {
    && header.prevBlock == HeaderHash(sha256d, headers[height - 1])
    && header.bits == RequiredBits(params, headers, height, header.time)
    && Expand(header.bits).Some?
    && 0 < Expand(header.bits).value <= Limbs(params.powLimit)
    && FromLE(HeaderHash(sha256d, header)) <= Expand(header.bits).value
    && header.time > MedianTimePast(headers, height)
  }

  method ValidateHeader(params: Params, sha256d: HashFn, headers: seq<BlockHeader>, height: nat, header: BlockHeader)
    returns (work: Option<nat>)
    requires params.timespan > 0 && 0 < height <= |headers|
    requires Expand(headers[height - 1].bits).Some?
    ensures work.Some? <==> ValidNext(params, sha256d, headers, height, header)
    ensures work.Some? ==> work.value == Pow.WorkOf(Expand(header.bits).value)
  {
    hide Limbs, Expand, RequiredBits, MedianTimePast, FromLE, Pow.WorkOf;
    if header.prevBlock != HeaderHash(sha256d, headers[height - 1]) {
      return None;
    }
    var required := ComputeRequiredBits(params, headers, height, header.time);
    if header.bits != required {
      return None;
    }
    var target := FromCompact(header.bits);
    if target.None? {
      return None;
    }
    var aboveLimit := U256Ge(target.value, params.powLimit);
    LimbsZero(target.value);
    LimbsInjective(target.value, params.powLimit);
    if target.value == [0, 0, 0, 0] || (aboveLimit && target.value != params.powLimit) {
      return None;
    }
    HashSpellsLimbs(HeaderHash(sha256d, header));
    var met := U256Ge(target.value, FromHash(HeaderHash(sha256d, header)));
    if !met {
      return None;
    }
    if header.time <= MedianTimePast(headers, height) {
      return None;
    }
    ExpandBound(header.bits);
    var w, _ := Pow.WorkFromTarget(target.value);
    work := Some(w);
  }

  lemma LimbsZero(a: U256)
    ensures Limbs(a) == 0 <==> a == [0, 0, 0, 0]
  {
    FourLimbs(a);
  }

  lemma {:induction false} LimbsInjective(a: seq<u64>, b: seq<u64>)
    requires |a| == |b|
    ensures Limbs(a) == Limbs(b) ==> a == b
  {
    if a != [] {
      HeadAndTail(a[0], Limbs(a[1..]), b[0], Limbs(b[1..]));
      LimbsInjective(a[1..], b[1..]);
      assert a == [a[0]] + a[1..] && b == [b[0]] + b[1..];
    }
  }

  lemma HeadAndTail(x: u64, restX: nat, y: u64, restY: nat)
    ensures x + BASE * restX == y + BASE * restY ==> x == y && restX == restY
  {
  }
}
