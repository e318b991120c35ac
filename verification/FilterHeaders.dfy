/**
 * The BIP157 filter-header chain (`crates/opencsv-cbf/src/chain.rs`): one filter
 * hash per height, chained into headers, fetched in pages and re-attested by the
 * tail alone. A peer is any function from request to reply.
 */
module FilterHeaders {
  import opened Wrappers
  import opened Wire
  import opened Block

  const PAGE := 2000
  const REATTEST_BLOCKS := 144

  /** A `cfheaders` reply. */
  datatype CfHeaders = CfHeaders(previous: Hash, hashes: seq<Hash>)

  /** Replies by start height and stop block; `None` is an error or silence. */
  type FilterPeer = (u32, Hash) -> Option<CfHeaders>

  /** `advance_filter_header`: each header commits to a filter hash and the header before. */
  function Advance(sha256d: HashFn, header: Hash, hashes: seq<Hash>): Hash
    decreases |hashes|
  {
    if hashes == [] then header else Advance(sha256d, sha256d(Join(hashes[0], header)), hashes[1..])
  }

  method AdvanceFilterHeader(sha256d: HashFn, header: Hash, hashes: seq<Hash>) returns (last: Hash)
    ensures last == Advance(sha256d, header, hashes)
  {
    last := header;
    for i := 0 to |hashes|
      invariant Advance(sha256d, last, hashes[i..]) == Advance(sha256d, header, hashes)
    {
      last := sha256d(Join(hashes[i], last));
      assert hashes[i..][1..] == hashes[i + 1..];
    }
  }

  /** Folding page by page is folding at once. */
  lemma {:induction false} AdvanceConcat(sha256d: HashFn, header: Hash, a: seq<Hash>, b: seq<Hash>)
    ensures Advance(sha256d, header, a + b) == Advance(sha256d, Advance(sha256d, header, a), b)
    decreases |a|
  {
    if a == [] {
      assert a + b == b;
    } else {
      assert (a + b)[1..] == a[1..] + b;
      AdvanceConcat(sha256d, sha256d(Join(a[0], header)), a[1..], b);
    }
  }

  lemma AdvanceLast(sha256d: HashFn, header: Hash, hashes: seq<Hash>)
    requires hashes != []
    ensures Advance(sha256d, header, hashes)
         == sha256d(Join(hashes[|hashes| - 1], Advance(sha256d, header, hashes[..|hashes| - 1])))
  {
    var front, last := hashes[..|hashes| - 1], hashes[|hashes| - 1];
    assert hashes == front + [last];
    AdvanceConcat(sha256d, header, front, [last]);
    assert [last][1..] == [];
  }

  /** Everything hashed on the way to a filter header. */
  ghost function FoldPreimages(sha256d: HashFn, header: Hash, hashes: seq<Hash>): set<Bytes>
    decreases |hashes|
  {
    if hashes == [] then {}
    else
      var front := hashes[..|hashes| - 1];
      FoldPreimages(sha256d, header, front) + {Join(hashes[|hashes| - 1], Advance(sha256d, header, front))}
  }

  /** A filter header pins every filter hash below it. */
  lemma {:induction false} AdvanceBinding(sha256d: HashFn, header: Hash, a: seq<Hash>, b: seq<Hash>)
    requires |a| == |b| && Advance(sha256d, header, a) == Advance(sha256d, header, b)
    requires NoCollision(sha256d, FoldPreimages(sha256d, header, a), FoldPreimages(sha256d, header, b))
    ensures a == b
    decreases |a|
  {
    if a != [] {
      var n := |a| - 1;
      AdvanceLast(sha256d, header, a);
      AdvanceLast(sha256d, header, b);
      var x := Join(a[n], Advance(sha256d, header, a[..n]));
      var y := Join(b[n], Advance(sha256d, header, b[..n]));
      assert x == y;
      assert a[n] == x[..32] == b[n] && Advance(sha256d, header, a[..n]) == x[32..];
      AdvanceBinding(sha256d, header, a[..n], b[..n]);
      assert a == a[..n] + [a[n]] && b == b[..n] + [b[n]];
    }
  }

  /** The filter header on top of a whole list of filter hashes. */
  function HeaderAbove(sha256d: HashFn, hashes: seq<Hash>): Hash {
    Advance(sha256d, ZeroHash(), hashes)
  }

  lemma NothingBelow(sha256d: HashFn)
    ensures HeaderAbove(sha256d, []) == ZeroHash()
  {
  }

  function PageStop(start: nat, stopHeight: nat): nat {
    if start + PAGE - 1 < stopHeight then start + PAGE - 1 else stopHeight
  }

  /** One checked page. */
  function FetchPage(peer: FilterPeer, blocks: seq<Hash>, start: nat, stopHeight: nat, expectedPrev: Hash):
    (r: Option<seq<Hash>>)
    requires start <= stopHeight
    ensures r.Some? ==> |r.value| == PageStop(start, stopHeight) - start + 1
  {
    var stop := PageStop(start, stopHeight);
    if stop >= |blocks| then None
    else
      var reply :- peer(start % 0x1_0000_0000, blocks[stop]);
      if reply.previous != expectedPrev || |reply.hashes| != stop - start + 1 then None else Some(reply.hashes)
  }

  /** The pages from `start` on, each linked to the header rolled forward so far. */
  function FetchFrom(sha256d: HashFn, peer: FilterPeer, blocks: seq<Hash>, start: nat, stopHeight: nat,
                     expectedPrev: Hash): Option<seq<Hash>>
    decreases stopHeight + 1 - start
  {
    if start > stopHeight then Some([])
    else
      var page :- FetchPage(peer, blocks, start, stopHeight, expectedPrev);
      var rest :- FetchFrom(sha256d, peer, blocks, PageStop(start, stopHeight) + 1, stopHeight,
                            Advance(sha256d, expectedPrev, page));
      Some(page + rest)
  }

  /** The fetch on top of the filter hashes already held. */
  function Fetch(sha256d: HashFn, held: seq<Hash>, peer: FilterPeer, blocks: seq<Hash>, stopHeight: nat):
    Option<seq<Hash>>
  {
    FetchFrom(sha256d, peer, blocks, |held|, stopHeight, HeaderAbove(sha256d, held))
  }

  function ReattestStart(length: nat, maxBlocks: nat): nat {
    if maxBlocks < length then length - maxBlocks else 0
  }

  /** `reattest_tail` as a function of the cache. */
  function Reattests(sha256d: HashFn, cache: seq<Hash>, peer: FilterPeer, blocks: seq<Hash>, maxBlocks: nat): bool {
    cache == []
    || (maxBlocks > 0
        && var start := ReattestStart(|cache|, maxBlocks);
           Fetch(sha256d, cache[..start], peer, blocks, |cache| - 1) == Some(cache[start..]))
  }

  /** What one peer brings to a sync: the hashes up to the tip, after re-attesting those held if it is asked to. */
  function Brings(sha256d: HashFn, held: seq<Hash>, peer: FilterPeer, blocks: seq<Hash>, revalidate: bool):
    Option<seq<Hash>>
    requires blocks != []
  {
    if revalidate && !Reattests(sha256d, held, peer, blocks, REATTEST_BLOCKS) then None
    else Fetch(sha256d, held, peer, blocks, |blocks| - 1)
  }

  function Shortened(hashes: seq<Hash>, length: nat): (r: seq<Hash>)
    ensures r <= hashes && |r| <= length
  {
    if length < |hashes| then hashes[..length] else hashes
  }

  class FilterHeaderChain {
    var filterHashes: seq<Hash>

    constructor FromVerified(filterHashes: seq<Hash>)
      ensures this.filterHashes == filterHashes
    {
      this.filterHashes := filterHashes;
    }

    method FilterHeaderAt(sha256d: HashFn, height: nat) returns (r: Option<Hash>)
      ensures r == if height >= |filterHashes| then None else Some(HeaderAbove(sha256d, filterHashes[..height + 1]))
    {
      if height >= |filterHashes| {
        return None;
      }
      var header := AdvanceFilterHeader(sha256d, ZeroHash(), filterHashes[..height + 1]);
      r := Some(header);
    }

    method FetchRange(sha256d: HashFn, peer: FilterPeer, blocks: seq<Hash>, stopHeight: nat)
      returns (r: Option<seq<Hash>>)
      ensures r == Fetch(sha256d, filterHashes, peer, blocks, stopHeight)
    {
      hide Advance, FetchPage;
      var out: seq<Hash> := [];
      var start := |filterHashes|;
      var expectedPrev := ZeroHash();
      NothingBelow(sha256d);
      if start > 0 {
        var held := FilterHeaderAt(sha256d, start - 1);
        expectedPrev := held.value;
        assert filterHashes[..start] == filterHashes;
      }
      ghost var goal := Fetch(sha256d, filterHashes, peer, blocks, stopHeight);
      WithNothing(goal);
      while start <= stopHeight
        invariant goal == With(out, FetchFrom(sha256d, peer, blocks, start, stopHeight, expectedPrev))
        decreases stopHeight + 1 - start
      {
        var page :- FetchPage(peer, blocks, start, stopHeight, expectedPrev);
        WithMore(out, page, FetchFrom(sha256d, peer, blocks, PageStop(start, stopHeight) + 1, stopHeight,
                                      Advance(sha256d, expectedPrev, page)));
        expectedPrev := AdvanceFilterHeader(sha256d, expectedPrev, page);
        out := out + page;
        start := PageStop(start, stopHeight) + 1;
      }
      assert out + [] == out;
      r := Some(out);
    }

    method ReattestTail(sha256d: HashFn, peer: FilterPeer, blocks: seq<Hash>, maxBlocks: nat) returns (ok: bool)
      ensures ok == Reattests(sha256d, filterHashes, peer, blocks, maxBlocks)
    {
      if filterHashes == [] {
        return true;
      }
      if maxBlocks == 0 {
        return false;
      }
      var stop := |filterHashes| - 1;
      var start := ReattestStart(stop + 1, maxBlocks);
      var prefix := new FilterHeaderChain.FromVerified(filterHashes[..start]);
      var fetched := prefix.FetchRange(sha256d, peer, blocks, stop);
      ok := fetched == Some(filterHashes[start..]);
    }

    method Extend(hashes: seq<Hash>)
      modifies this
      ensures filterHashes == old(filterHashes) + hashes
    {
      filterHashes := filterHashes + hashes;
    }

    method Truncate(length: nat)
      modifies this
      ensures filterHashes == Shortened(old(filterHashes), length)
    {
      if length < |filterHashes| {
        filterHashes := filterHashes[..length];
      }
    }

    /**
     * The filter half of `sync_inner`: forget what the new header chain does not share,
     * hear every peer, and extend only if those that complete bring the same hashes.
     */
    method SyncFilters(sha256d: HashFn, peers: seq<FilterPeer>, blocks: seq<Hash>, shared: nat, revalidate: bool)
      returns (ok: bool)
      requires blocks != []
      modifies this
      ensures var held := Shortened(old(filterHashes), shared);
              && (ok <==>
                   && (exists i | 0 <= i < |peers| :: Brings(sha256d, held, peers[i], blocks, revalidate).Some?)
                   && (forall i, j | 0 <= i < |peers| && 0 <= j < |peers| ::
                         var a, b := Brings(sha256d, held, peers[i], blocks, revalidate),
                                     Brings(sha256d, held, peers[j], blocks, revalidate);
                         a.Some? && b.Some? ==> a == b))
              && (!ok ==> filterHashes == held)
              && (ok ==> forall i | 0 <= i < |peers| && Brings(sha256d, held, peers[i], blocks, revalidate).Some? ::
                           filterHashes == held + Brings(sha256d, held, peers[i], blocks, revalidate).value)
    {
      hide Reattests, Fetch;
      Truncate(shared);
      ghost var held := filterHashes;
      var reference: Option<seq<Hash>> := None;
      for i := 0 to |peers|
        invariant filterHashes == held
        invariant reference.Some? <==> exists k | 0 <= k < i :: Brings(sha256d, held, peers[k], blocks, revalidate).Some?
        invariant forall k | 0 <= k < i && Brings(sha256d, held, peers[k], blocks, revalidate).Some? ::
                    Brings(sha256d, held, peers[k], blocks, revalidate) == reference
      {
        var fetched := HearPeer(sha256d, peers[i], blocks, revalidate);
        if fetched.Some? {
          if reference.Some? && reference != fetched {
            return false;
          }
          reference := fetched;
        }
      }
      if reference.None? {
        return false;
      }
      Extend(reference.value);
      ok := true;
    }

    method HearPeer(sha256d: HashFn, peer: FilterPeer, blocks: seq<Hash>, revalidate: bool) returns (r: Option<seq<Hash>>)
      requires blocks != []
      ensures r == Brings(sha256d, filterHashes, peer, blocks, revalidate)
    {
      hide Reattests, Fetch;
      if revalidate {
        var ok := ReattestTail(sha256d, peer, blocks, REATTEST_BLOCKS);
        if !ok {
          return None;
        }
      }
      r := FetchRange(sha256d, peer, blocks, |blocks| - 1);
    }
  }

  ghost function With(done: seq<Hash>, pending: Option<seq<Hash>>): Option<seq<Hash>> {
    match pending
    case None => None
    case Some(rest) => Some(done + rest)
  }

  lemma WithNothing(pending: Option<seq<Hash>>)
    ensures With([], pending) == pending
  {
    if pending.Some? {
      assert [] + pending.value == pending.value;
    }
  }

  lemma WithMore(a: seq<Hash>, b: seq<Hash>, pending: Option<seq<Hash>>)
    ensures With(a, With(b, pending)) == With(a + b, pending)
  {
    if pending.Some? {
      assert a + (b + pending.value) == a + b + pending.value;
    }
  }

  // -- what a fetch establishes ---------------------------------------------------

  /** The page at `s` was served with the header that one fold over everything below it gives. */
  ghost predicate PageChecked(sha256d: HashFn, peer: FilterPeer, blocks: seq<Hash>, all: seq<Hash>, s: nat)
    requires s < |all|
  {
    var stop := PageStop(s, |all| - 1);
    && stop < |blocks|
    && peer(s % 0x1_0000_0000, blocks[stop]) == Some(CfHeaders(HeaderAbove(sha256d, all[..s]), all[s..stop + 1]))
  }

  /**
   * However many pages a fetch took, each was checked against the header a single
   * fold over everything below it gives.
   */
  lemma {:induction false} PagesMatchOneShot(sha256d: HashFn, below: seq<Hash>, peer: FilterPeer, blocks: seq<Hash>,
                                             stopHeight: nat)
    requires |below| <= stopHeight + 1
    requires Fetch(sha256d, below, peer, blocks, stopHeight).Some?
    ensures var all := below + Fetch(sha256d, below, peer, blocks, stopHeight).value;
            && |all| == stopHeight + 1
            && forall s: nat | |below| <= s < |all| && (s - |below|) % PAGE == 0 ::
                 PageChecked(sha256d, peer, blocks, all, s)
    decreases stopHeight + 1 - |below|
  {
    hide Advance, PageChecked, HeaderAbove;
    if |below| <= stopHeight {
      FirstPage(sha256d, below, peer, blocks, stopHeight);
      var page := FetchPage(peer, blocks, |below|, stopHeight, HeaderAbove(sha256d, below)).value;
      PagesMatchOneShot(sha256d, below + page, peer, blocks, stopHeight);
    }
  }

  /** Peels one page off a fetch. */
  lemma FirstPage(sha256d: HashFn, below: seq<Hash>, peer: FilterPeer, blocks: seq<Hash>, stopHeight: nat)
    requires |below| <= stopHeight
    requires Fetch(sha256d, below, peer, blocks, stopHeight).Some?
    ensures var page := FetchPage(peer, blocks, |below|, stopHeight, HeaderAbove(sha256d, below)).value;
            var rest := Fetch(sha256d, below + page, peer, blocks, stopHeight);
            var all := below + Fetch(sha256d, below, peer, blocks, stopHeight).value;
            && |below + page| == PageStop(|below|, stopHeight) + 1
            && rest.Some? && all == below + page + rest.value
            && (|all| == stopHeight + 1 ==> PageChecked(sha256d, peer, blocks, all, |below|))
  {
    hide Advance;
    var start, stop := |below|, PageStop(|below|, stopHeight);
    var page := FetchPage(peer, blocks, start, stopHeight, HeaderAbove(sha256d, below)).value;
    AdvanceConcat(sha256d, ZeroHash(), below, page);
    var rest := FetchFrom(sha256d, peer, blocks, stop + 1, stopHeight, HeaderAbove(sha256d, below + page)).value;
    var all := below + (page + rest);
    assert all == below + page + rest;
    assert all[..start] == below && all[start..stop + 1] == page;
  }

  /** Every reply, whatever it was asked, is a stretch of the one filter-hash chain `honest`. */
  ghost predicate AnswersFrom(sha256d: HashFn, peer: FilterPeer, honest: seq<Hash>) {
    forall start: u32, stop: Hash :: peer(start, stop).Some? ==>
      && start <= |honest|
      && peer(start, stop).value.previous == HeaderAbove(sha256d, honest[..start])
      && peer(start, stop).value.hashes <= honest[start..]
  }

  /** The peer also answers, and with the whole stretch asked for. */
  ghost predicate Serves(sha256d: HashFn, peer: FilterPeer, blocks: seq<Hash>, honest: seq<Hash>) {
    forall start: u32, stop: nat | start <= stop < |honest| && stop < |blocks| && stop < start + PAGE ::
      peer(start, blocks[stop]) == Some(CfHeaders(HeaderAbove(sha256d, honest[..start]), honest[start..stop + 1]))
  }

  lemma {:induction false} FetchesHonestly(sha256d: HashFn, peer: FilterPeer, blocks: seq<Hash>, honest: seq<Hash>,
                                           start: nat, stopHeight: nat, expectedPrev: Hash)
    requires AnswersFrom(sha256d, peer, honest) && start <= stopHeight + 1 <= 0x1_0000_0000
    requires FetchFrom(sha256d, peer, blocks, start, stopHeight, expectedPrev).Some?
    ensures start <= stopHeight ==>
              && stopHeight < |honest|
              && expectedPrev == HeaderAbove(sha256d, honest[..start])
              && FetchFrom(sha256d, peer, blocks, start, stopHeight, expectedPrev) == Some(honest[start..stopHeight + 1])
    decreases stopHeight + 1 - start
  {
    hide Advance;
    if start <= stopHeight {
      var page := FetchPage(peer, blocks, start, stopHeight, expectedPrev).value;
      var next := PageStop(start, stopHeight) + 1;
      assert page == honest[start..next];
      FetchesHonestly(sha256d, peer, blocks, honest, next, stopHeight, Advance(sha256d, expectedPrev, page));
      if next <= stopHeight {
        assert honest[start..next] + honest[next..stopHeight + 1] == honest[start..stopHeight + 1];
      } else {
        assert page + [] == page;
      }
    }
  }

  lemma ServedPage(sha256d: HashFn, peer: FilterPeer, blocks: seq<Hash>, honest: seq<Hash>, start: nat, stopHeight: nat)
    requires Serves(sha256d, peer, blocks, honest) && start <= stopHeight < 0x1_0000_0000
    requires stopHeight < |honest| && stopHeight < |blocks|
    ensures FetchPage(peer, blocks, start, stopHeight, HeaderAbove(sha256d, honest[..start]))
         == Some(honest[start..PageStop(start, stopHeight) + 1])
  {
    hide Advance;
  }

  lemma {:induction false} FetchSucceeds(sha256d: HashFn, peer: FilterPeer, blocks: seq<Hash>, honest: seq<Hash>,
                                         start: nat, stopHeight: nat)
    requires Serves(sha256d, peer, blocks, honest) && start <= stopHeight + 1 <= 0x1_0000_0000
    requires stopHeight < |honest| && stopHeight < |blocks|
    ensures FetchFrom(sha256d, peer, blocks, start, stopHeight, HeaderAbove(sha256d, honest[..start]))
         == Some(honest[start..stopHeight + 1])
    decreases stopHeight + 1 - start
  {
    hide Advance, Serves;
    if start <= stopHeight {
      var next := PageStop(start, stopHeight) + 1;
      ServedPage(sha256d, peer, blocks, honest, start, stopHeight);
      AdvanceConcat(sha256d, ZeroHash(), honest[..start], honest[start..next]);
      assert honest[..start] + honest[start..next] == honest[..next];
      FetchSucceeds(sha256d, peer, blocks, honest, next, stopHeight);
      assert next == stopHeight + 1 ==> honest[next..stopHeight + 1] == [];
      assert honest[start..next] + honest[next..stopHeight + 1] == honest[start..stopHeight + 1];
    } else {
      assert honest[start..stopHeight + 1] == [];
    }
  }

  /**
   * Re-attesting the tail pins the whole cache: success against a peer that speaks
   * for one chain means every cached entry, not just the tail, is that chain's.
   */
  lemma ReattestPinsCache(sha256d: HashFn, cache: seq<Hash>, peer: FilterPeer, blocks: seq<Hash>, maxBlocks: nat,
                          honest: seq<Hash>)
    requires AnswersFrom(sha256d, peer, honest) && |cache| <= 0x1_0000_0000
    requires |cache| <= |honest| ==>
               var k := ReattestStart(|cache|, maxBlocks);
               NoCollision(sha256d, FoldPreimages(sha256d, ZeroHash(), cache[..k]),
                           FoldPreimages(sha256d, ZeroHash(), honest[..k]))
    requires Reattests(sha256d, cache, peer, blocks, maxBlocks)
    ensures |cache| <= |honest| && cache == honest[..|cache|]
  {
    hide Advance, FetchFrom, FoldPreimages, AnswersFrom;
    if cache != [] {
      var n, k := |cache|, ReattestStart(|cache|, maxBlocks);
      FetchesHonestly(sha256d, peer, blocks, honest, k, n - 1, HeaderAbove(sha256d, cache[..k]));
      AdvanceBinding(sha256d, ZeroHash(), cache[..k], honest[..k]);
      assert cache == cache[..k] + cache[k..] && honest[..n] == honest[..k] + honest[k..n];
    }
  }

  lemma ReattestAccepts(sha256d: HashFn, peer: FilterPeer, blocks: seq<Hash>, maxBlocks: nat, honest: seq<Hash>, n: nat)
    requires Serves(sha256d, peer, blocks, honest) && maxBlocks > 0
    requires 0 < n <= 0x1_0000_0000 && n <= |honest| && n <= |blocks|
    ensures Reattests(sha256d, honest[..n], peer, blocks, maxBlocks)
  {
    hide Serves, Advance, FetchFrom;
    var k := ReattestStart(n, maxBlocks);
    FetchSucceeds(sha256d, peer, blocks, honest, k, n - 1);
    assert honest[..n][..k] == honest[..k] && honest[..n][k..] == honest[k..n];
  }

  /** Against a peer that serves `honest`, re-attestation succeeds exactly on its prefixes. */
  lemma ReattestExact(sha256d: HashFn, cache: seq<Hash>, peer: FilterPeer, blocks: seq<Hash>, maxBlocks: nat,
                      honest: seq<Hash>)
    requires AnswersFrom(sha256d, peer, honest) && Serves(sha256d, peer, blocks, honest)
    requires 0 < |cache| <= 0x1_0000_0000 && |cache| <= |honest| && |cache| <= |blocks|
    requires var k := ReattestStart(|cache|, maxBlocks);
             NoCollision(sha256d, FoldPreimages(sha256d, ZeroHash(), cache[..k]),
                         FoldPreimages(sha256d, ZeroHash(), honest[..k]))
    ensures Reattests(sha256d, cache, peer, blocks, maxBlocks) <==> maxBlocks > 0 && cache == honest[..|cache|]
  {
    hide AnswersFrom, Serves, Advance, FoldPreimages, FetchFrom, NoCollision;
    if Reattests(sha256d, cache, peer, blocks, maxBlocks) {
      ReattestPinsCache(sha256d, cache, peer, blocks, maxBlocks, honest);
    }
    if maxBlocks > 0 && cache == honest[..|cache|] {
      ReattestAccepts(sha256d, peer, blocks, maxBlocks, honest, |cache|);
    }
  }

  // -- what an agreement establishes ------------------------------------------------

  lemma {:induction false} FoldPreimagesBelow(sha256d: HashFn, header: Hash, hashes: seq<Hash>, k: nat)
    requires k <= |hashes|
    ensures FoldPreimages(sha256d, header, hashes[..k]) <= FoldPreimages(sha256d, header, hashes)
    decreases |hashes|
  {
    hide Advance;
    var n := |hashes| - 1;
    if k <= n {
      FoldPreimagesBelow(sha256d, header, hashes[..n], k);
      assert hashes[..n][..k] == hashes[..k];
    } else {
      assert hashes[..k] == hashes;
    }
  }

  /**
   * One peer that speaks for one chain is enough: whatever a completed sync holds up to
   * the tip, cached or fetched, is that chain's.
   */
  lemma BroughtIsPinned(sha256d: HashFn, held: seq<Hash>, peer: FilterPeer, blocks: seq<Hash>, revalidate: bool,
                        honest: seq<Hash>)
    requires 0 < |blocks| <= 0x1_0000_0000 && |held| <= |blocks| && (|held| < |blocks| || revalidate)
    requires AnswersFrom(sha256d, peer, honest)
    requires |held| <= |honest| ==>
               NoCollision(sha256d, FoldPreimages(sha256d, ZeroHash(), held),
                           FoldPreimages(sha256d, ZeroHash(), honest[..|held|]))
    requires Brings(sha256d, held, peer, blocks, revalidate).Some?
    ensures |blocks| <= |honest|
    ensures held + Brings(sha256d, held, peer, blocks, revalidate).value == honest[..|blocks|]
  {
    hide *;
    if |held| < |blocks| {
      FetchedIsPinned(sha256d, held, peer, blocks, revalidate, honest);
    } else {
      CachedIsPinned(sha256d, held, peer, blocks, honest);
    }
  }

  lemma FetchedIsPinned(sha256d: HashFn, held: seq<Hash>, peer: FilterPeer, blocks: seq<Hash>, revalidate: bool,
                        honest: seq<Hash>)
    requires |held| < |blocks| <= 0x1_0000_0000 && AnswersFrom(sha256d, peer, honest)
    requires |held| <= |honest| ==>
               NoCollision(sha256d, FoldPreimages(sha256d, ZeroHash(), held),
                           FoldPreimages(sha256d, ZeroHash(), honest[..|held|]))
    requires Brings(sha256d, held, peer, blocks, revalidate).Some?
    ensures |blocks| <= |honest|
    ensures held + Brings(sha256d, held, peer, blocks, revalidate).value == honest[..|blocks|]
  {
    hide Advance, FetchFrom, FoldPreimages, AnswersFrom, Reattests, NoCollision;
    var n, m := |blocks|, |held|;
    FetchesHonestly(sha256d, peer, blocks, honest, m, n - 1, HeaderAbove(sha256d, held));
    AdvanceBinding(sha256d, ZeroHash(), held, honest[..m]);
    assert honest[..n] == honest[..m] + honest[m..n];
  }

  lemma CachedIsPinned(sha256d: HashFn, held: seq<Hash>, peer: FilterPeer, blocks: seq<Hash>, honest: seq<Hash>)
    requires 0 < |held| == |blocks| <= 0x1_0000_0000 && AnswersFrom(sha256d, peer, honest)
    requires |held| <= |honest| ==>
               NoCollision(sha256d, FoldPreimages(sha256d, ZeroHash(), held),
                           FoldPreimages(sha256d, ZeroHash(), honest[..|held|]))
    requires Brings(sha256d, held, peer, blocks, true).Some?
    ensures |blocks| <= |honest|
    ensures held + Brings(sha256d, held, peer, blocks, true).value == honest[..|blocks|]
  {
    hide Advance, Fetch, FoldPreimages, AnswersFrom, Reattests;
    var m, k := |held|, ReattestStart(|held|, REATTEST_BLOCKS);
    if m <= |honest| {
      FoldPreimagesBelow(sha256d, ZeroHash(), held, k);
      FoldPreimagesBelow(sha256d, ZeroHash(), honest[..m], k);
      assert honest[..m][..k] == honest[..k];
    }
    ReattestPinsCache(sha256d, held, peer, blocks, REATTEST_BLOCKS, honest);
    NothingToFetch(sha256d, held, peer, blocks);
    assert held + [] == held;
  }

  lemma NothingToFetch(sha256d: HashFn, held: seq<Hash>, peer: FilterPeer, blocks: seq<Hash>)
    requires |held| == |blocks| > 0
    ensures Fetch(sha256d, held, peer, blocks, |blocks| - 1) == Some([])
  {
  }

  /** A peer that serves `honest` completes, with what is missing, whenever what is held is part of it. */
  lemma HonestPeerBrings(sha256d: HashFn, held: seq<Hash>, peer: FilterPeer, blocks: seq<Hash>, revalidate: bool,
                         honest: seq<Hash>)
    requires 0 < |blocks| <= 0x1_0000_0000 && |blocks| <= |honest| && |held| <= |blocks|
    requires Serves(sha256d, peer, blocks, honest) && held == honest[..|held|]
    ensures Brings(sha256d, held, peer, blocks, revalidate) == Some(honest[|held|..|blocks|])
  {
    hide Serves, Advance, FetchFrom, Reattests;
    if held == [] {
      NothingToReattest(sha256d, peer, blocks);
    } else {
      ReattestAccepts(sha256d, peer, blocks, REATTEST_BLOCKS, honest, |held|);
    }
    FetchSucceeds(sha256d, peer, blocks, honest, |held|, |blocks| - 1);
  }

  lemma NothingToReattest(sha256d: HashFn, peer: FilterPeer, blocks: seq<Hash>)
    ensures Reattests(sha256d, [], peer, blocks, REATTEST_BLOCKS)
  {
  }

  /** The filter hash of every block of a chain. */
  function FilterChainOf(filterOf: Hash -> Hash, blocks: seq<Hash>): (r: seq<Hash>)
    ensures |r| == |blocks|
  {
    seq(|blocks|, i requires 0 <= i < |blocks| => filterOf(blocks[i]))
  }

  /** After a reorganisation, what is left of the old chain's filter hashes is part of the new chain's. */
  lemma ShortenedIsShared(filterOf: Hash -> Hash, was: seq<Hash>, now: seq<Hash>, shared: nat, cache: seq<Hash>)
    requires shared <= |was| && shared <= |now| && was[..shared] == now[..shared]
    requires cache <= FilterChainOf(filterOf, was)
    ensures Shortened(cache, shared) <= FilterChainOf(filterOf, now)
  {
    var held := Shortened(cache, shared);
    forall i | 0 <= i < |held| ensures held[i] == FilterChainOf(filterOf, now)[i] {
      assert was[i] == was[..shared][i] == now[..shared][i] == now[i];
    }
  }

  /**
   * So the agreement follows any reorganisation: from the filter hashes of the old chain,
   * a peer that serves the new chain's brings exactly what makes them the new chain's.
   */
  lemma SyncFollowsReorg(sha256d: HashFn, filterOf: Hash -> Hash, was: seq<Hash>, now: seq<Hash>, shared: nat,
                         cache: seq<Hash>, peer: FilterPeer, revalidate: bool)
    requires shared <= |was| && shared <= |now| && was[..shared] == now[..shared]
    requires cache <= FilterChainOf(filterOf, was) && 0 < |now| <= 0x1_0000_0000
    requires Serves(sha256d, peer, now, FilterChainOf(filterOf, now))
    ensures var held := Shortened(cache, shared);
            var brought := Brings(sha256d, held, peer, now, revalidate);
            brought.Some? && held + brought.value == FilterChainOf(filterOf, now)
  {
    hide Serves, Brings, FilterChainOf, Shortened;
    var held, honest := Shortened(cache, shared), FilterChainOf(filterOf, now);
    ShortenedIsShared(filterOf, was, now, shared, cache);
    assert held == honest[..|held|];
    HonestPeerBrings(sha256d, held, peer, now, revalidate, honest);
    assert honest == honest[..|held|] + honest[|held|..|now|];
  }
}
