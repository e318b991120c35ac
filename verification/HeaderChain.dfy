/**
 * The proof-of-work header chain (`crates/opencsv-cbf/src/chain.rs`) and the
 * cross-peer tip agreement of `crates/opencsv-cbf/src/client.rs`. A peer is the
 * list of replies it gives in one run: any replies at all.
 */
module HeaderChains {
  import opened Wrappers
  import opened Wire
  import opened Block
  import opened U256Arithmetic
  import opened Compact
  import opened Consensus
  import Pow

  // -- linked headers ---------------------------------------------------------

  ghost predicate Linked(sha256d: HashFn, headers: seq<BlockHeader>) {
    forall i | 0 < i < |headers| :: headers[i].prevBlock == HeaderHash(sha256d, headers[i - 1])
  }

  function Hashes(sha256d: HashFn, headers: seq<BlockHeader>): (r: seq<Hash>)
    ensures |r| == |headers|
  {
    seq(|headers|, i requires 0 <= i < |headers| => HeaderHash(sha256d, headers[i]))
  }

  /** No two different headers, one from each chain, hash alike. */
  ghost predicate NoHeaderCollision(sha256d: HashFn, a: seq<BlockHeader>, b: seq<BlockHeader>) {
    forall i, j | 0 <= i < |a| && 0 <= j < |b| ::
      HeaderHash(sha256d, a[i]) == HeaderHash(sha256d, b[j]) ==> HeaderBytes(a[i]) == HeaderBytes(b[j])
  }

  /** One equal hash at a common height pins everything below: headers commit to their parents. */
  lemma {:induction false} EqualHashEqualPast(sha256d: HashFn, a: seq<BlockHeader>, b: seq<BlockHeader>, height: nat)
    requires Linked(sha256d, a) && Linked(sha256d, b) && NoHeaderCollision(sha256d, a, b)
    requires height < |a| && height < |b|
    requires HeaderHash(sha256d, a[height]) == HeaderHash(sha256d, b[height])
    ensures a[..height + 1] == b[..height + 1]
  {
    HeaderBytesInjective(a[height], b[height]);
    if height > 0 {
      EqualHashEqualPast(sha256d, a, b, height - 1);
    }
    assert a[..height + 1] == a[..height] + [a[height]] && b[..height + 1] == b[..height] + [b[height]];
  }

  // -- validity ----------------------------------------------------------------

  /** May `header` stand on top of `chain`? */
  ghost predicate Acceptable(params: Params, sha256d: HashFn, chain: seq<BlockHeader>, header: BlockHeader)
    requires params.timespan > 0
  {
    && Expand(header.bits).Some?
    && if chain == [] then HeaderHash(sha256d, header) == params.genesisHash
       else Expand(chain[|chain| - 1].bits).Some? && ValidNext(params, sha256d, chain, |chain|, header)
  }

  /** Every header is acceptable on top of those below it. */
  ghost predicate ValidChain(params: Params, sha256d: HashFn, chain: seq<BlockHeader>)
    requires params.timespan > 0
  {
    chain == [] || (ValidChain(params, sha256d, chain[..|chain| - 1])
                    && Acceptable(params, sha256d, chain[..|chain| - 1], chain[|chain| - 1]))
  }

  /** The exact work of a chain. */
  function TotalWork(chain: seq<BlockHeader>): nat {
    if chain == [] then 0
    else
      var target := Expand(chain[|chain| - 1].bits);
      TotalWork(chain[..|chain| - 1]) + if target.None? then 0 else Pow.TrueWork(target.value)
  }

  lemma {:induction false} ValidPrefix(params: Params, sha256d: HashFn, chain: seq<BlockHeader>, n: nat)
    requires params.timespan > 0 && ValidChain(params, sha256d, chain) && n <= |chain|
    ensures ValidChain(params, sha256d, chain[..n])
    decreases |chain|
  {
    if n < |chain| {
      ValidPrefix(params, sha256d, chain[..|chain| - 1], n);
      assert chain[..|chain| - 1][..n] == chain[..n];
    } else {
      assert chain[..n] == chain;
    }
  }

  lemma ValidAt(params: Params, sha256d: HashFn, chain: seq<BlockHeader>, i: nat)
    requires params.timespan > 0 && ValidChain(params, sha256d, chain) && i < |chain|
    ensures Acceptable(params, sha256d, chain[..i], chain[i])
  {
    ValidPrefix(params, sha256d, chain, i + 1);
    assert chain[..i + 1][..i] == chain[..i];
  }

  lemma ValidIsLinked(params: Params, sha256d: HashFn, chain: seq<BlockHeader>)
    requires params.timespan > 0 && ValidChain(params, sha256d, chain)
    ensures Linked(sha256d, chain)
    ensures chain != [] ==> HeaderHash(sha256d, chain[0]) == params.genesisHash
  {
    forall i | 0 < i < |chain| ensures chain[i].prevBlock == HeaderHash(sha256d, chain[i - 1]) {
      ValidAt(params, sha256d, chain, i);
    }
    if chain != [] {
      ValidAt(params, sha256d, chain, 0);
    }
  }

  /** Exact work grows by at least one with every block. */
  lemma WorkGrows(params: Params, sha256d: HashFn, chain: seq<BlockHeader>, i: nat)
    requires params.timespan > 0 && ValidChain(params, sha256d, chain) && i < |chain|
    ensures TotalWork(chain[..i + 1]) > TotalWork(chain[..i])
  {
    ValidAt(params, sha256d, chain, i);
    assert chain[..i + 1][..i] == chain[..i];
    ExpandBound(chain[i].bits);
    Pow.WorkExactIff(Expand(chain[i].bits).value);
  }

  lemma {:induction false} WorkMonotone(params: Params, sha256d: HashFn, chain: seq<BlockHeader>, i: nat, j: nat)
    requires params.timespan > 0 && ValidChain(params, sha256d, chain) && i <= j <= |chain|
    ensures TotalWork(chain[..i]) <= TotalWork(chain[..j])
    ensures i < j ==> TotalWork(chain[..i]) < TotalWork(chain[..j])
    decreases j
  {
    if i < j {
      WorkMonotone(params, sha256d, chain, i, j - 1);
      WorkGrows(params, sha256d, chain, j - 1);
    }
  }

  // -- following a peer --------------------------------------------------------------

  datatype Progress = Progress(chain: seq<BlockHeader>, ok: bool)

  /** First position of `hash`, if any. */
  function Position(hashes: seq<Hash>, hash: Hash): (r: Option<nat>)
    ensures r.Some? ==> r.value < |hashes| && hashes[r.value] == hash && forall j | 0 <= j < r.value :: hashes[j] != hash
    ensures r.None? ==> hash !in hashes
  {
    if hashes == [] then None
    else if hashes[0] == hash then Some(0)
    else
      match Position(hashes[1..], hash)
      case None => assert hashes == [hashes[0]] + hashes[1..]; None
      case Some(i) => Some(i + 1)
  }

  ghost function Append(params: Params, sha256d: HashFn, chain: seq<BlockHeader>, header: BlockHeader): Progress
    requires params.timespan > 0
  {
    if Acceptable(params, sha256d, chain, header) then Progress(chain + [header], true) else Progress(chain, false)
  }

  /**
   * What one served header does: extend the tip, fork off a known ancestor, or
   * nothing when its parent is unknown.
   */
  ghost function Absorb(params: Params, sha256d: HashFn, chain: seq<BlockHeader>, header: BlockHeader): Progress
    requires params.timespan > 0
  {
    var hashes := Hashes(sha256d, chain);
    if chain != [] && hashes[|chain| - 1] == header.prevBlock then Append(params, sha256d, chain, header)
    else
      match Position(hashes, header.prevBlock)
      case Some(fork) => Append(params, sha256d, chain[..fork + 1], header)
      case None => Progress(chain, true)
  }

  ghost function AbsorbAll(params: Params, sha256d: HashFn, chain: seq<BlockHeader>, batch: seq<BlockHeader>): Progress
    requires params.timespan > 0
    decreases |batch|
  {
    if batch == [] then Progress(chain, true)
    else
      var step := Absorb(params, sha256d, chain, batch[0]);
      if step.ok then AbsorbAll(params, sha256d, step.chain, batch[1..]) else step
  }

  /** A whole run: batches until the peer has nothing more, fails, or serves a bad header. */
  ghost function Follow(params: Params, sha256d: HashFn, chain: seq<BlockHeader>,
                        replies: seq<Option<seq<BlockHeader>>>): Progress
    requires params.timespan > 0
    decreases |replies|
  {
    if replies == [] || replies[0].None? then Progress(chain, false)
    else if replies[0].value == [] then Progress(chain, true)
    else
      var step := AbsorbAll(params, sha256d, chain, replies[0].value);
      if step.ok then Follow(params, sha256d, step.chain, replies[1..]) else step
  }

  class HeaderChain {
    const params: Params
    const sha256d: HashFn
    var headers: seq<BlockHeader>
    var hashes: seq<Hash>
    var chainwork: seq<nat>

    /** The chain invariant, on success and on every error exit. */
    ghost predicate Valid()
      reads this
    {
      && params.timespan > 0
      && ValidChain(params, sha256d, headers)
      && hashes == Hashes(sha256d, headers)
      && |chainwork| == |headers|
      && forall i | 0 <= i < |headers| :: chainwork[i] == TotalWork(headers[..i + 1]) % TWO128
    }

    constructor (params: Params, sha256d: HashFn)
      requires params.timespan > 0
      ensures Valid() && headers == [] && this.params == params && this.sha256d == sha256d
    {
      this.params, this.sha256d := params, sha256d;
      headers, hashes, chainwork := [], [], [];
    }

    method AppendValidated(header: BlockHeader) returns (ok: bool)
      requires Valid()
      modifies this
      ensures Valid()
      ensures Progress(headers, ok) == Append(params, sha256d, old(headers), header)
    {
      hide Expand, ValidNext, TotalWork, Pow.WorkOf, ValidChain, HeaderHash;
      var work := CheckHeader(header);
      if work.None? {
        return false;
      }
      var height := |headers|;
      var last := if height == 0 then 0 else chainwork[height - 1];
      ghost var before, beforeWork := headers, chainwork;
      AppendKeepsValid(params, sha256d, before, beforeWork, header);
      hashes := hashes + [HeaderHash(sha256d, header)];
      headers := headers + [header];
      chainwork := chainwork + [(last + work.value) % TWO128];
      ok := true;
    }

    /** The checks of `append_validated`, and the work of a header that passes. */
    method CheckHeader(header: BlockHeader) returns (work: Option<nat>)
      requires Valid()
      ensures work.Some? <==> Acceptable(params, sha256d, headers, header)
      ensures work.Some? ==> work.value == Pow.WorkOf(Expand(header.bits).value)
    {
      hide Expand, ValidNext, TotalWork, Pow.WorkOf, HeaderHash, HeaderBytes;
      var height := |headers|;
      if height == 0 {
        if HeaderHash(sha256d, header) != params.genesisHash {
          return None;
        }
        var target := FromCompact(header.bits);
        if target.None? {
          return None;
        }
        ExpandBound(header.bits);
        var w, _ := Pow.WorkFromTarget(target.value);
        return Some(w);
      }
      TipExpands(params, sha256d, headers);
      work := ValidateHeader(params, sha256d, headers, height, header);
      ValidNextExpands(params, sha256d, headers, header);
    }

    /** Drop everything above `fork`. */
    method TruncateTo(fork: nat)
      requires Valid() && fork < |headers|
      modifies this
      ensures Valid() && headers == old(headers)[..fork + 1]
    {
      hide TotalWork, ValidChain, HeaderHash;
      ValidPrefix(params, sha256d, headers, fork + 1);
      ghost var before := headers;
      headers := headers[..fork + 1];
      hashes := hashes[..fork + 1];
      chainwork := chainwork[..fork + 1];
      forall i | 0 <= i <= fork ensures chainwork[i] == TotalWork(headers[..i + 1]) % TWO128 {
        assert headers[..i + 1] == before[..i + 1];
      }
    }

    /** The loop body of `sync`. */
    method AbsorbHeader(header: BlockHeader) returns (ok: bool)
      requires Valid()
      modifies this
      ensures Valid()
      ensures Progress(headers, ok) == Absorb(params, sha256d, old(headers), header)
    {
      hide Acceptable, ValidChain, TotalWork, HeaderHash;
      if |hashes| > 0 && hashes[|hashes| - 1] == header.prevBlock {
        ok := AppendValidated(header);
        return;
      }
      match Position(hashes, header.prevBlock) {
        case Some(fork) =>
          TruncateTo(fork);
          ok := AppendValidated(header);
        case None =>
          ok := true;
      }
    }

    method AbsorbBatch(batch: seq<BlockHeader>) returns (ok: bool)
      requires Valid()
      modifies this
      ensures Valid()
      ensures Progress(headers, ok) == AbsorbAll(params, sha256d, old(headers), batch)
    {
      hide Absorb, ValidChain, TotalWork;
      ghost var goal := AbsorbAll(params, sha256d, headers, batch);
      for i := 0 to |batch|
        invariant Valid()
        invariant goal == AbsorbAll(params, sha256d, headers, batch[i..])
      {
        assert batch[i..][0] == batch[i] && batch[i..][1..] == batch[i + 1..];
        ok := AbsorbHeader(batch[i]);
        if !ok {
          return;
        }
      }
      ok := true;
    }

    /** Is this the reply the bootstrap request asks for? */
    ghost predicate GoodGenesis(reply: Option<seq<BlockHeader>>)
      requires params.timespan > 0
    {
      reply.Some? && |reply.value| == 1 && Acceptable(params, sha256d, [], reply.value[0])
    }

    /** `sync`: bootstrap from genesis if empty, then follow the peer. */
    method Sync(genesisReply: Option<seq<BlockHeader>>, replies: seq<Option<seq<BlockHeader>>>) returns (ok: bool)
      requires Valid()
      modifies this
      ensures Valid()
      ensures old(headers) != [] ==> Progress(headers, ok) == Follow(params, sha256d, old(headers), replies)
      ensures old(headers) == [] ==>
                Progress(headers, ok) == if !GoodGenesis(genesisReply) then Progress([], false)
                                         else Follow(params, sha256d, genesisReply.value, replies)
    {
      hide Acceptable, ValidChain, TotalWork, HeaderHash, AbsorbAll;
      if headers == [] {
        if genesisReply.None? || |genesisReply.value| != 1 {
          return false;
        }
        ok := AppendValidated(genesisReply.value[0]);
        if !ok {
          return;
        }
        assert [] + [genesisReply.value[0]] == genesisReply.value;
      }
      ghost var goal := Follow(params, sha256d, headers, replies);
      var i := 0;
      while i < |replies|
        invariant i <= |replies| && Valid()
        invariant goal == Follow(params, sha256d, headers, replies[i..])
      {
        assert replies[i..][0] == replies[i] && replies[i..][1..] == replies[i + 1..];
        if replies[i].None? {
          return false;
        }
        if replies[i].value == [] {
          return true;
        }
        ok := AbsorbBatch(replies[i].value);
        if !ok {
          return;
        }
        i := i + 1;
      }
      ok := false;
    }

    /** Block locator: the tip and its ten predecessors, then doubling steps, then genesis. */
    method Locator() returns (locator: seq<Hash>, ghost heights: seq<nat>)
      requires Valid()
      ensures |locator| == |heights| && (|headers| == 0 <==> |locator| == 0)
      ensures forall i | 0 <= i < |heights| :: heights[i] < |headers| && locator[i] == HeaderHash(sha256d, headers[heights[i]])
      ensures forall i, j | 0 <= i < j < |heights| :: heights[i] > heights[j]
      ensures forall i | 0 <= i < |heights| && i <= 10 && heights[i] > 0 :: heights[i] == |headers| - 1 - i
      ensures |headers| > 0 ==> heights[|heights| - 1] == 0
    {
      hide ValidChain, TotalWork, HeaderHash;
      locator, heights := [], [];
      var height, step := |headers| - 1, 1;
      while height > 0
        invariant height < |headers| && step >= 1
        invariant |locator| == |heights| && (|headers| == 0 ==> |heights| == 0)
        invariant forall i | 0 <= i < |heights| ::
                    0 < heights[i] < |headers| && height < heights[i] && locator[i] == HeaderHash(sha256d, headers[heights[i]])
        invariant forall i, j | 0 <= i < j < |heights| :: heights[i] > heights[j]
        invariant forall i | 0 <= i < |heights| && i <= 10 :: heights[i] == |headers| - 1 - i
        invariant |heights| <= 10 ==> height == |headers| - 1 - |heights|
        decreases height
      {
        locator, heights := locator + [hashes[height]], heights + [height];
        if |locator| > 10 {
          step := step * 2;
          height := height - step;
        } else {
          height := height - 1;
        }
      }
      if |hashes| > 0 {
        locator, heights := locator + [hashes[0]], heights + [0];
      }
    }

    /** `common_prefix_len` */
    method CommonPrefixLen(other: HeaderChain) returns (n: nat)
      requires Valid() && other.Valid() && other.sha256d == sha256d
      ensures n <= |headers| && n <= |other.headers|
      ensures Hashes(sha256d, headers)[..n] == Hashes(sha256d, other.headers)[..n]
      ensures n < |headers| && n < |other.headers| ==>
                HeaderHash(sha256d, headers[n]) != HeaderHash(sha256d, other.headers[n])
    {
      hide ValidChain, TotalWork, HeaderHash;
      n := 0;
      while n < |hashes| && n < |other.hashes| && hashes[n] == other.hashes[n]
        invariant n <= |hashes| && n <= |other.hashes|
        invariant forall i | 0 <= i < n :: hashes[i] == other.hashes[i]
      {
        n := n + 1;
      }
    }
  }

  /** The parts of the chain invariant that mention the past, after one more header. */
  lemma AppendKeepsValid(params: Params, sha256d: HashFn, chain: seq<BlockHeader>, chainwork: seq<nat>,
                         header: BlockHeader)
    requires params.timespan > 0 && ValidChain(params, sha256d, chain)
    requires Acceptable(params, sha256d, chain, header)
    requires |chainwork| == |chain|
    requires forall i | 0 <= i < |chain| :: chainwork[i] == TotalWork(chain[..i + 1]) % TWO128
    ensures var longer := chain + [header];
            var last := if chain == [] then 0 else chainwork[|chain| - 1];
            && ValidChain(params, sha256d, longer)
            && Hashes(sha256d, longer) == Hashes(sha256d, chain) + [HeaderHash(sha256d, header)]
            && TotalWork(longer[..|chain| + 1]) % TWO128 == (last + Pow.WorkOf(Expand(header.bits).value)) % TWO128
            && forall i | 0 <= i < |chain| :: chainwork[i] == TotalWork(longer[..i + 1]) % TWO128
  {
    hide ValidNext, Expand, Acceptable, HeaderHash, Pow.WorkOf, TotalWork;
    var longer := chain + [header];
    assert longer[..|chain|] == chain && longer[..|chain| + 1] == longer && chain[..|chain|] == chain;
    AcceptableExpands(params, sha256d, chain, header);
    WorkSum(chain, header);
    NoWork();
    if chain != [] {
      assert chainwork[|chain| - 1] == TotalWork(chain[..|chain| - 1 + 1]) % TWO128;
    }
    forall i | 0 <= i < |chain| ensures chainwork[i] == TotalWork(longer[..i + 1]) % TWO128 {
      assert longer[..i + 1] == chain[..i + 1];
    }
  }

  lemma TipExpands(params: Params, sha256d: HashFn, chain: seq<BlockHeader>)
    requires params.timespan > 0 && ValidChain(params, sha256d, chain) && chain != []
    ensures Expand(chain[|chain| - 1].bits).Some?
  {
    hide Expand, ValidNext;
  }

  lemma AcceptableExpands(params: Params, sha256d: HashFn, chain: seq<BlockHeader>, header: BlockHeader)
    requires params.timespan > 0 && Acceptable(params, sha256d, chain, header)
    ensures Expand(header.bits).Some?
  {
    hide Expand, ValidNext, HeaderHash;
  }

  lemma NoWork()
    ensures TotalWork([]) % TWO128 == 0
  {
  }

  lemma ValidNextExpands(params: Params, sha256d: HashFn, chain: seq<BlockHeader>, header: BlockHeader)
    requires params.timespan > 0 && chain != [] && Expand(chain[|chain| - 1].bits).Some?
    ensures ValidNext(params, sha256d, chain, |chain|, header) <==> Acceptable(params, sha256d, chain, header)
  {
    hide Expand, RequiredBits, Limbs, FromLE, MedianTimePast, HeaderHash;
  }

  lemma WorkSum(chain: seq<BlockHeader>, header: BlockHeader)
    requires Expand(header.bits).Some?
    ensures TotalWork(chain + [header]) % TWO128
         == (TotalWork(chain) % TWO128 + Pow.WorkOf(Expand(header.bits).value)) % TWO128
  {
    hide Expand, Pow.TrueWork;
    assert (chain + [header])[..|chain|] == chain;
    SumModulo(TotalWork(chain), Pow.TrueWork(Expand(header.bits).value), TWO128);
  }

  lemma SumModulo(x: nat, y: nat, m: nat)
    requires m > 0
    ensures (x + y) % m == (x % m + y % m) % m
  {
    Quotients(x, m);
    Quotients(y, m);
    Quotients(x % m + y % m, m);
    var a, b, c := x / m, y / m, (x % m + y % m) / m;
    assert (a + b + c) * m == a * m + b * m + c * m;
    DivisionUnique(x + y, m, a + b + c, (x % m + y % m) % m);
  }

  // -- consequences ------------------------------------------------------------------------

  lemma Quotients(x: nat, m: nat)
    requires m > 0
    ensures x == (x / m) * m + x % m && 0 <= x % m < m && 0 <= x / m
  {
  }

  lemma BelowModulus(x: nat, m: nat)
    requires x < m
    ensures x % m == x
  {
  }

  /** Below 2^128 of total work the stored figures are exact and strictly increasing. */
  lemma ChainworkIsExact(chain: HeaderChain, i: nat, j: nat)
    requires chain.Valid() && i < j < |chain.headers|
    requires TotalWork(chain.headers) < TWO128
    ensures chain.chainwork[j] == TotalWork(chain.headers[..j + 1])
    ensures chain.chainwork[i] < chain.chainwork[j]
  {
    hide TotalWork, ValidChain;
    var h := chain.headers;
    assert h[..|h|] == h;
    WorkMonotone(chain.params, chain.sha256d, h, j + 1, |h|);
    WorkMonotone(chain.params, chain.sha256d, h, i + 1, j + 1);
    BelowModulus(TotalWork(h[..i + 1]), TWO128);
    BelowModulus(TotalWork(h[..j + 1]), TWO128);
  }

  /** Tip agreement is whole-chain agreement. */
  lemma SameTipSameChain(params: Params, sha256d: HashFn, a: seq<BlockHeader>, b: seq<BlockHeader>)
    requires params.timespan > 0 && ValidChain(params, sha256d, a) && ValidChain(params, sha256d, b)
    requires a != [] && |a| == |b|
    requires HeaderHash(sha256d, a[|a| - 1]) == HeaderHash(sha256d, b[|b| - 1])
    requires NoHeaderCollision(sha256d, a, b)
    ensures a == b
  {
    ValidIsLinked(params, sha256d, a);
    ValidIsLinked(params, sha256d, b);
    EqualHashEqualPast(sha256d, a, b, |a| - 1);
    assert a[..|a|] == a && b[..|b|] == b;
  }

  /**
   * The agreement step of `sync_inner`: every peer's candidate must show the first
   * one's tip. When that holds, all candidates are the same chain.
   */
  method AgreeOnTip(candidates: seq<HeaderChain>) returns (agreed: bool)
    requires candidates != []
    requires forall c | c in candidates :: c.Valid() && c.headers != [] && c.params == candidates[0].params
                                           && c.sha256d == candidates[0].sha256d
    ensures agreed && (forall c | c in candidates ::
                         NoHeaderCollision(c.sha256d, candidates[0].headers, c.headers)) ==>
              forall c | c in candidates :: c.headers == candidates[0].headers
    ensures (forall c | c in candidates :: c.headers == candidates[0].headers) ==> agreed
  {
    hide ValidChain, TotalWork, HeaderHash;
    var first := candidates[0];
    assert first in candidates && first.Valid();
    for i := 0 to |candidates|
      invariant forall k | 0 <= k < i ::
                  |candidates[k].hashes| == |first.hashes| > 0
                  && candidates[k].hashes[|first.hashes| - 1] == first.hashes[|first.hashes| - 1]
    {
      var c := candidates[i];
      assert c in candidates;
      if |c.hashes| != |first.hashes| || c.hashes[|c.hashes| - 1] != first.hashes[|first.hashes| - 1]
         || c.chainwork[|c.chainwork| - 1] != first.chainwork[|first.chainwork| - 1] {
        return false;
      }
    }
    forall c | c in candidates && NoHeaderCollision(c.sha256d, first.headers, c.headers)
      ensures c.headers == first.headers {
      SameTipSameChain(c.params, c.sha256d, first.headers, c.headers);
    }
    agreed := true;
  }

  /** Equal hashes along a prefix are equal headers along it. */
  lemma CommonPrefixIsShared(sha256d: HashFn, a: seq<BlockHeader>, b: seq<BlockHeader>, n: nat)
    requires n <= |a| && n <= |b| && Hashes(sha256d, a)[..n] == Hashes(sha256d, b)[..n]
    requires NoHeaderCollision(sha256d, a, b)
    ensures a[..n] == b[..n]
  {
    forall i | 0 <= i < n ensures a[i] == b[i] {
      assert Hashes(sha256d, a)[..n][i] == Hashes(sha256d, b)[..n][i];
      HeaderBytesInjective(a[i], b[i]);
    }
  }

  ghost predicate Distinct(sha256d: HashFn, chain: seq<BlockHeader>) {
    forall i, j | 0 <= i < j < |chain| :: HeaderHash(sha256d, chain[i]) != HeaderHash(sha256d, chain[j])
  }

  /**
   * What a peer on `target` may answer to any locator of `chain`: the headers after some
   * block the two share, as many as it likes, and none only when that is its tip.
   */
  ghost predicate HonestPage(chain: seq<BlockHeader>, target: seq<BlockHeader>, page: seq<BlockHeader>) {
    exists j :: 0 < j <= |target| && j <= |chain| && chain[..j] == target[..j]
                && page <= target[j..] && (page == [] ==> j == |target|)
  }

  /** Answers to one request after another, each to the chain as it then is, up to the first empty one. */
  ghost predicate HonestTalk(params: Params, sha256d: HashFn, chain: seq<BlockHeader>, target: seq<BlockHeader>,
                             replies: seq<Option<seq<BlockHeader>>>)
    requires params.timespan > 0
    decreases |replies|
  {
    && replies != [] && replies[0].Some? && HonestPage(chain, target, replies[0].value)
    && (replies[0].value != [] ==>
          HonestTalk(params, sha256d, AbsorbAll(params, sha256d, chain, replies[0].value).chain, target, replies[1..]))
  }

  /**
   * A peer on a valid chain is followed to its tip, page by page and across any reorg;
   * only a peer with nothing to add to ours, because its chain is part of ours, leaves it.
   */
  lemma {:induction false} FollowsHonestPeer(params: Params, sha256d: HashFn, chain: seq<BlockHeader>,
                                             target: seq<BlockHeader>, replies: seq<Option<seq<BlockHeader>>>)
    requires params.timespan > 0 && ValidChain(params, sha256d, target)
    requires Distinct(sha256d, chain) && Distinct(sha256d, target)
    requires HonestTalk(params, sha256d, chain, target, replies)
    ensures Follow(params, sha256d, chain, replies)
         == Progress(if replies[0].value == [] then chain else target, true)
    ensures replies[0].value == [] ==> target <= chain
    decreases |replies|
  {
    hide ValidChain, AbsorbAll, HeaderHash, Distinct;
    var page := replies[0].value;
    var j :| 0 < j <= |target| && j <= |chain| && chain[..j] == target[..j]
             && page <= target[j..] && (page == [] ==> j == |target|);
    if page == [] {
      assert target == target[..j];
    } else {
      var next := target[..j + |page|];
      PageCuts(target, chain, j, page);
      ValidPrefix(params, sha256d, target, j + |page|);
      AbsorbsFork(params, sha256d, chain, next, j);
      DistinctPrefix(sha256d, target, j + |page|);
      FollowsHonestPeer(params, sha256d, next, target, replies[1..]);
      if replies[1].value == [] {
        assert next == target;
      }
    }
  }

  lemma PageCuts(target: seq<BlockHeader>, chain: seq<BlockHeader>, j: nat, page: seq<BlockHeader>)
    requires j <= |target| && j <= |chain| && chain[..j] == target[..j] && page <= target[j..]
    ensures target[..j + |page|][j..] == page && chain[..j] == target[..j + |page|][..j]
  {
  }

  lemma DistinctPrefix(sha256d: HashFn, chain: seq<BlockHeader>, n: nat)
    requires Distinct(sha256d, chain) && n <= |chain|
    ensures Distinct(sha256d, chain[..n])
  {
    hide HeaderHash;
  }

  /** What lies above a shared block replaces whatever we had there. */
  lemma AbsorbsFork(params: Params, sha256d: HashFn, chain: seq<BlockHeader>, target: seq<BlockHeader>, k: nat)
    requires params.timespan > 0 && ValidChain(params, sha256d, target) && Distinct(sha256d, chain)
    requires 0 < k <= |chain| && k < |target| && chain[..k] == target[..k]
    ensures AbsorbAll(params, sha256d, chain, target[k..]) == Progress(target, true)
  {
    hide *;
    AbsorbsFirst(params, sha256d, chain, target, k);
    assert target[k..][0] == target[k] && target[k..][1..] == target[k + 1..];
    AbsorbStep(params, sha256d, chain, target[k..]);
    ExtendsToTip(params, sha256d, target, k + 1);
  }

  lemma AbsorbStep(params: Params, sha256d: HashFn, chain: seq<BlockHeader>, batch: seq<BlockHeader>)
    requires params.timespan > 0 && batch != []
    ensures var step := Absorb(params, sha256d, chain, batch[0]);
            AbsorbAll(params, sha256d, chain, batch)
            == if step.ok then AbsorbAll(params, sha256d, step.chain, batch[1..]) else step
  {
    hide Absorb;
  }

  lemma AbsorbsFirst(params: Params, sha256d: HashFn, chain: seq<BlockHeader>, target: seq<BlockHeader>, k: nat)
    requires params.timespan > 0 && ValidChain(params, sha256d, target) && Distinct(sha256d, chain)
    requires 0 < k <= |chain| && k < |target| && chain[..k] == target[..k]
    ensures Absorb(params, sha256d, chain, target[k]) == Progress(target[..k + 1], true)
  {
    hide Acceptable, ValidChain, HeaderHash;
    var header := target[k];
    ValidAt(params, sha256d, target, k);
    ValidIsLinked(params, sha256d, target);
    var hashes := Hashes(sha256d, chain);
    assert chain[k - 1] == chain[..k][k - 1] == target[k - 1];
    assert hashes[k - 1] == header.prevBlock;
    assert target[..k] + [header] == target[..k + 1];
    if hashes[|chain| - 1] == header.prevBlock {
      assert chain == chain[..k];
    } else {
      assert Position(hashes, header.prevBlock) == Some(k - 1);
    }
  }

  lemma {:induction false} ExtendsToTip(params: Params, sha256d: HashFn, target: seq<BlockHeader>, k: nat)
    requires params.timespan > 0 && ValidChain(params, sha256d, target) && 0 < k <= |target|
    ensures AbsorbAll(params, sha256d, target[..k], target[k..]) == Progress(target, true)
    decreases |target| - k
  {
    hide Acceptable, ValidChain, HeaderHash;
    if k == |target| {
      assert target[..k] == target;
    } else {
      ValidAt(params, sha256d, target, k);
      ValidIsLinked(params, sha256d, target);
      assert Hashes(sha256d, target[..k])[k - 1] == target[k].prevBlock;
      assert target[..k] + [target[k]] == target[..k + 1] && target[k..][1..] == target[k + 1..];
      ExtendsToTip(params, sha256d, target, k + 1);
    }
  }

  // -- no most-work rule -----------------------------------------------------------------

  /** The work a header adds on top of `chain`; nothing if it is refused there. */
  ghost function Gained(params: Params, sha256d: HashFn, chain: seq<BlockHeader>, header: BlockHeader): nat
    requires params.timespan > 0
  {
    if Acceptable(params, sha256d, chain, header) then
      assert TotalWork(chain + [header]) >= TotalWork(chain) by { MoreWork(chain, header); }
      TotalWork(chain + [header]) - TotalWork(chain)
    else 0
  }

  /** The work of the headers from height `n` up. */
  ghost function Above(chain: seq<BlockHeader>, n: nat): int
    requires n <= |chain|
  {
    TotalWork(chain) - TotalWork(chain[..n])
  }

  /** The height a served header forks off at, if it attaches to us below our tip. */
  ghost function ForksAt(sha256d: HashFn, chain: seq<BlockHeader>, header: BlockHeader): (r: Option<nat>)
    ensures r.Some? ==> r.value < |chain|
  {
    if chain != [] && HeaderHash(sha256d, chain[|chain| - 1]) == header.prevBlock then None
    else Position(Hashes(sha256d, chain), header.prevBlock)
  }

  /**
   * One served header lowers the work of our chain exactly when it forks off below the tip
   * and brings less than it drops; a refused one brings nothing and still drops.
   */
  lemma AbsorbLowersIff(params: Params, sha256d: HashFn, chain: seq<BlockHeader>, header: BlockHeader)
    requires params.timespan > 0
    ensures TotalWork(Absorb(params, sha256d, chain, header).chain) < TotalWork(chain) <==>
              var fork := ForksAt(sha256d, chain, header);
              fork.Some? && Gained(params, sha256d, chain[..fork.value + 1], header) < Above(chain, fork.value + 1)
  {
    hide Acceptable, TotalWork, HeaderHash;
    MoreWork(chain, header);
    var fork := ForksAt(sha256d, chain, header);
    if fork.Some? {
      MoreWork(chain[..fork.value + 1], header);
    }
  }

  lemma MoreWork(chain: seq<BlockHeader>, header: BlockHeader)
    ensures TotalWork(chain + [header]) >= TotalWork(chain)
  {
    assert (chain + [header])[..|chain|] == chain;
  }

  /** What all the headers of a batch, and of all batches up to the end of a sync, add and drop together. */
  ghost function BatchChange(params: Params, sha256d: HashFn, chain: seq<BlockHeader>, batch: seq<BlockHeader>): int
    requires params.timespan > 0
    decreases |batch|
  {
    if batch == [] then 0
    else
      var fork := ForksAt(sha256d, chain, batch[0]);
      var step := Absorb(params, sha256d, chain, batch[0]);
      (if fork.Some? then
         Gained(params, sha256d, chain[..fork.value + 1], batch[0]) - Above(chain, fork.value + 1)
       else if Extends(sha256d, chain, batch[0]) then Gained(params, sha256d, chain, batch[0]) else 0)
      + if step.ok then BatchChange(params, sha256d, step.chain, batch[1..]) else 0
  }

  ghost predicate Extends(sha256d: HashFn, chain: seq<BlockHeader>, header: BlockHeader) {
    chain != [] && HeaderHash(sha256d, chain[|chain| - 1]) == header.prevBlock
  }

  ghost function SyncChange(params: Params, sha256d: HashFn, chain: seq<BlockHeader>,
                            replies: seq<Option<seq<BlockHeader>>>): int
    requires params.timespan > 0
    decreases |replies|
  {
    if replies == [] || replies[0].None? || replies[0].value == [] then 0
    else
      var step := AbsorbAll(params, sha256d, chain, replies[0].value);
      BatchChange(params, sha256d, chain, replies[0].value)
      + if step.ok then SyncChange(params, sha256d, step.chain, replies[1..]) else 0
  }

  lemma {:induction false} BatchChanges(params: Params, sha256d: HashFn, chain: seq<BlockHeader>, batch: seq<BlockHeader>)
    requires params.timespan > 0
    ensures TotalWork(AbsorbAll(params, sha256d, chain, batch).chain)
         == TotalWork(chain) + BatchChange(params, sha256d, chain, batch)
    decreases |batch|
  {
    hide Acceptable, TotalWork, HeaderHash;
    if batch != [] {
      MoreWork(chain, batch[0]);
      var fork := ForksAt(sha256d, chain, batch[0]);
      if fork.Some? {
        MoreWork(chain[..fork.value + 1], batch[0]);
      }
      var step := Absorb(params, sha256d, chain, batch[0]);
      if step.ok {
        BatchChanges(params, sha256d, step.chain, batch[1..]);
      }
    }
  }

  /**
   * Whatever the replies, a sync leaves the work it found plus what the served headers
   * brought less what they dropped: it lowers our work exactly when they drop more.
   */
  lemma {:induction false} SyncChanges(params: Params, sha256d: HashFn, chain: seq<BlockHeader>,
                                       replies: seq<Option<seq<BlockHeader>>>)
    requires params.timespan > 0
    ensures TotalWork(Follow(params, sha256d, chain, replies).chain)
         == TotalWork(chain) + SyncChange(params, sha256d, chain, replies)
    decreases |replies|
  {
    hide AbsorbAll, BatchChange, TotalWork;
    if replies != [] && replies[0].Some? && replies[0].value != [] {
      BatchChanges(params, sha256d, chain, replies[0].value);
      var step := AbsorbAll(params, sha256d, chain, replies[0].value);
      if step.ok {
        SyncChanges(params, sha256d, step.chain, replies[1..]);
      }
    }
  }

  /** An honest peer lowers our work exactly when its chain has less and is no part of ours it has nothing to add to. */
  lemma HonestPeerLowersIff(params: Params, sha256d: HashFn, chain: seq<BlockHeader>, target: seq<BlockHeader>,
                            replies: seq<Option<seq<BlockHeader>>>)
    requires params.timespan > 0 && ValidChain(params, sha256d, target)
    requires Distinct(sha256d, chain) && Distinct(sha256d, target)
    requires HonestTalk(params, sha256d, chain, target, replies)
    ensures TotalWork(Follow(params, sha256d, chain, replies).chain) < TotalWork(chain)
       <==> replies[0].value != [] && TotalWork(target) < TotalWork(chain)
  {
    hide TotalWork, Follow, HonestTalk, ValidChain, Distinct;
    FollowsHonestPeer(params, sha256d, chain, target, replies);
  }
}
