/**
 * The persistent scan index (`crates/opencsv-cbf/src/scan.rs`): what a sync does
 * to the cache, why the cache always equals a scan from scratch, and why its
 * answers are the brute-force scan's.
 */
module ScanIndexes {
  import opened Wrappers
  import opened Wire
  import opened Lists
  import opened Block
  import opened Anchors
  import opened FullScan
  import opened Gcs
  import HeaderChains

  // -- filters ---------------------------------------------------------------------

  /** The answer of a serialized basic filter; `None` is a parse or decoding error. */
  function FilterVerdict(sip: SipHash, filter: Bytes, hash: Hash, item: Bytes): Option<bool> {
    var parsed :- ParseFilter(filter);
    Matches(sip, parsed, FilterKey(hash), item, BASIC_FILTER_P, BASIC_FILTER_M)
  }

  /** `filter_matches` */
  function FilterMatches(sip: SipHash, client: Client, height: nat, item: Bytes): Option<bool>
    requires height < |client.hashes|
  {
    var filter :- client.filterAt(height);
    FilterVerdict(sip, filter, client.hashes[height], item)
  }

  /** Does the block's filter show either marker? */
  function Marked(sip: SipHash, world: World, hash: Hash): bool {
    || FilterVerdict(sip, world.filterOf(hash), hash, MarkerSpk()) == Some(true)
    || FilterVerdict(sip, world.filterOf(hash), hash, LegacyMarkerSpk()) == Some(true)
  }

  /** The filter of `hash` is the BIP158 filter of its block. */
  ghost predicate HonestFilter(sip: SipHash, world: World, hash: Hash) {
    var elements := FilterElements(world.blockOf(hash).txs, world.prevoutsOf(hash), true);
    && elements.Some?
    && |OrderedSet(elements.value)| * BASIC_FILTER_M <= MAX_QUOTIENT * 0x8_0000
    && IsFilterOf(world.filterOf(hash), FilterValues(sip, FilterKey(hash), elements.value, BASIC_FILTER_M),
                  BASIC_FILTER_P)
  }

  /** Anchors travel with a marker output somewhere in their block. */
  ghost predicate AnchorsMarked(crypto: Crypto, world: World, hash: Hash) {
    Candidates(crypto, world.blockOf(hash), 0) != [] ==>
      exists tx, o :: tx in world.blockOf(hash).txs && o in tx.outputs
                      && o.scriptPubkey in {MarkerSpk(), LegacyMarkerSpk()}
  }

  lemma HonestVerdict(sip: SipHash, world: World, hash: Hash, item: Bytes)
    requires HonestFilter(sip, world, hash)
    ensures FilterVerdict(sip, world.filterOf(hash), hash, item).Some?
    ensures (exists tx, o :: tx in world.blockOf(hash).txs && o in tx.outputs && o.scriptPubkey == item && Filterable(item)) ==>
              FilterVerdict(sip, world.filterOf(hash), hash, item) == Some(true)
  {
    hide IsFilterOf, FilterValues, OrderedSet, Matches, FilterElements, ParseFilter;
    var elements := FilterElements(world.blockOf(hash).txs, world.prevoutsOf(hash), true).value;
    BasicFilterExact(sip, world.filterOf(hash), elements, FilterKey(hash), item);
    ElementsCover(world.blockOf(hash).txs, world.prevoutsOf(hash), true);
  }

  lemma {:induction false} SameCount(crypto: Crypto, txs: seq<Transaction>, a: nat, b: nat, position: nat)
    requires position <= |txs|
    ensures CandidatesFrom(crypto, txs, a, position) == [] <==> CandidatesFrom(crypto, txs, b, position) == []
    decreases |txs| - position
  {
    hide TransactionCandidates;
    if position < |txs| {
      SameCount(crypto, txs, a, b, position + 1);
      SameTransaction(crypto, txs[position], a, b, position);
    }
  }

  lemma SameTransaction(crypto: Crypto, tx: Transaction, a: nat, b: nat, position: nat)
    ensures TransactionCandidates(crypto, tx, a, position) == [] <==> TransactionCandidates(crypto, tx, b, position) == []
  {
    hide FromBytes, FirstPayload, WitnessEnvelope, Txid, FundingCtx, IsCoinbase;
  }

  /** No false negatives: an honest filter never hides a marked block. */
  lemma AnchorsAreFound(crypto: Crypto, sip: SipHash, world: World, hash: Hash, height: nat)
    requires HonestFilter(sip, world, hash) && AnchorsMarked(crypto, world, hash)
    requires Candidates(crypto, world.blockOf(hash), height) != []
    ensures Marked(sip, world, hash)
  {
    hide FilterVerdict, HonestFilter, CandidatesFrom;
    SameCount(crypto, world.blockOf(hash).txs, height, 0, 0);
    HonestVerdict(sip, world, hash, MarkerSpk());
    HonestVerdict(sip, world, hash, LegacyMarkerSpk());
  }

  // -- the cache ---------------------------------------------------------------------

  datatype IndexState = IndexState(
    fromHeight: nat, syncedTip: nat, chainHashes: seq<Hash>, occurrences: seq<ScannedAnchor>)

  const FRESH: IndexState := IndexState(0, 0, [], [])

  datatype Outcome = Outcome(state: IndexState, ok: bool)

  /** What a scan records for one block. */
  function Found(crypto: Crypto, sip: SipHash, world: World, hash: Hash, height: nat): seq<ScannedAnchor> {
    if Marked(sip, world, hash) then Candidates(crypto, world.blockOf(hash), height) else []
  }

  /** What a scan from scratch records from `from` up to but excluding `end`. */
  function Indexed(crypto: Crypto, sip: SipHash, world: World, hashes: seq<Hash>, from: nat, end: nat):
    seq<ScannedAnchor>
    requires end <= |hashes|
  {
    if end <= from then []
    else Indexed(crypto, sip, world, hashes, from, end - 1) + Found(crypto, sip, world, hashes[end - 1], end - 1)
  }

  /** The cache is a scan of `hashes` from its birth height up to its tip. */
  ghost predicate Reflects(crypto: Crypto, sip: SipHash, world: World, s: IndexState, hashes: seq<Hash>) {
    && 1 <= s.fromHeight <= s.syncedTip + 1
    && (s.syncedTip < s.fromHeight || s.syncedTip < |hashes|)
    && s.chainHashes == (if s.syncedTip < s.fromHeight then [] else hashes[s.fromHeight..s.syncedTip + 1])
    && s.occurrences == (if s.syncedTip < s.fromHeight then []
                         else Indexed(crypto, sip, world, hashes, s.fromHeight, s.syncedTip + 1))
  }

  /** The scan from scratch of the whole of `hashes`. */
  function ScanFromScratch(crypto: Crypto, sip: SipHash, world: World, hashes: seq<Hash>, from: nat): IndexState
    requires hashes != [] && from > 0
  {
    if |hashes| <= from then IndexState(from, from - 1, [], [])
    else IndexState(from, |hashes| - 1, hashes[from..], Indexed(crypto, sip, world, hashes, from, |hashes|))
  }

  // -- one sync -----------------------------------------------------------------------

  /** The highest height up to `height` where the stored hash is still canonical, or `from - 1`. */
  function Ancestor(s: IndexState, canonical: seq<Hash>, height: nat): (a: Option<nat>)
    requires height < |canonical| && s.fromHeight > 0
    ensures a.Some? && height + 1 >= s.fromHeight ==> s.fromHeight - 1 <= a.value <= height
    ensures a.Some? && a.value >= s.fromHeight ==>
              && a.value <= height && a.value - s.fromHeight < |s.chainHashes|
              && s.chainHashes[a.value - s.fromHeight] == canonical[a.value]
    decreases height
  {
    if height < s.fromHeight then Some(s.fromHeight - 1)
    else if height - s.fromHeight >= |s.chainHashes| then None
    else if s.chainHashes[height - s.fromHeight] == canonical[height] then Some(height)
    else Ancestor(s, canonical, height - 1)
  }

  function Least(a: nat, b: nat): nat {
    if a < b then a else b
  }

  /** `reconcile_chain_view` */
  function Reconcile(s: IndexState, canonical: seq<Hash>): Option<IndexState>
    requires canonical != [] && s.fromHeight > 0
  {
    if s.chainHashes == [] then Some(s)
    else
      var ancestor :- Ancestor(s, canonical, Least(s.syncedTip, |canonical| - 1));
      if ancestor >= s.syncedTip then Some(s) else Some(CutTo(s, ancestor))
  }

  /** Forget everything above `ancestor`. */
  function CutTo(s: IndexState, ancestor: nat): (r: IndexState)
    ensures r.fromHeight == s.fromHeight && r.syncedTip == ancestor
  {
    var keep := if ancestor < s.fromHeight then 0 else ancestor - s.fromHeight + 1;
    IndexState(s.fromHeight, ancestor, if keep < |s.chainHashes| then s.chainHashes[..keep] else s.chainHashes,
               Filter(s.occurrences, AtOrBelow(ancestor)))
  }

  function AtOrBelow(height: nat): ScannedAnchor -> bool {
    (e: ScannedAnchor) => e.location.height <= height
  }

  /** One height of the loop: filters first, the block only if one of them matches. */
  function ScanHeight(crypto: Crypto, sip: SipHash, client: Client, height: nat): Option<seq<ScannedAnchor>>
    requires height < |client.hashes|
  {
    var current :- FilterMatches(sip, client, height, MarkerSpk());
    var legacy :- FilterMatches(sip, client, height, LegacyMarkerSpk());
    if !current && !legacy then Some([])
    else
      var block :- CheckedBlock(crypto, client, client.hashes[height]);
      Some(Candidates(crypto, block, height))
  }

  function Record(s: IndexState, hash: Hash, height: nat, found: seq<ScannedAnchor>): IndexState {
    IndexState(s.fromHeight, height, s.chainHashes + [hash], s.occurrences + found)
  }

  function ScanUp(crypto: Crypto, sip: SipHash, client: Client, s: IndexState, height: nat): Outcome
    decreases |client.hashes| - height
  {
    if height >= |client.hashes| then Outcome(s, true)
    else
      match ScanHeight(crypto, sip, client, height)
      case None => Outcome(s, false)
      case Some(found) =>
        ScanUp(crypto, sip, client, Record(s, client.hashes[height], height, found), height + 1)
  }

  function Greatest(a: nat, b: nat): nat {
    if a < b then b else a
  }

  function Born(s: IndexState, from: nat): (r: IndexState)
    ensures r.fromHeight > 0 && (s.fromHeight > 0 ==> r == s)
  {
    if s.fromHeight == 0 then s.(fromHeight := Greatest(from, 1), syncedTip := Greatest(from, 1) - 1) else s
  }

  /** `scan_sync`, up to saving the file. */
  function Sync(crypto: Crypto, sip: SipHash, client: Client, s: IndexState, from: nat): Outcome
    requires client.hashes != []
  {
    match Reconcile(Born(s, from), client.hashes)
    case None => Outcome(Born(s, from), false)
    case Some(cut) => ScanUp(crypto, sip, client, cut, Greatest(cut.syncedTip + 1, cut.fromHeight))
  }

  class ScanIndex {
    var fromHeight: nat
    var syncedTip: nat
    var chainHashes: seq<Hash>
    var occurrences: seq<ScannedAnchor>

    function State(): IndexState
      reads this
    {
      IndexState(fromHeight, syncedTip, chainHashes, occurrences)
    }

    constructor ()
      ensures State() == FRESH
    {
      fromHeight, syncedTip, chainHashes, occurrences := 0, 0, [], [];
    }

    /** Walk down from the common tip to the first stored hash that is still canonical. */
    method HighestAgreement(canonical: seq<Hash>, commonTip: nat) returns (a: Option<nat>)
      requires commonTip < |canonical| && fromHeight > 0
      ensures a == Ancestor(State(), canonical, commonTip)
    {
      var height: nat := commonTip;
      while height >= fromHeight
        invariant Ancestor(State(), canonical, commonTip) == Ancestor(State(), canonical, height)
        invariant height <= commonTip
      {
        if height - fromHeight >= |chainHashes| {
          return None;
        }
        if chainHashes[height - fromHeight] == canonical[height] {
          return Some(height);
        }
        height := height - 1;
      }
      a := Some(fromHeight - 1);
    }

    method ReconcileChainView(canonical: seq<Hash>) returns (ok: bool)
      requires canonical != [] && fromHeight > 0
      modifies this
      ensures match Reconcile(old(State()), canonical)
              case None => !ok && State() == old(State())
              case Some(s) => ok && State() == s
    {
      if chainHashes == [] {
        return true;
      }
      var found := HighestAgreement(canonical, Least(syncedTip, |canonical| - 1));
      if found.None? {
        return false;
      }
      var ancestor := found.value;
      if ancestor < syncedTip {
        occurrences := Filter(occurrences, AtOrBelow(ancestor));
        var keep := if ancestor < fromHeight then 0 else ancestor - fromHeight + 1;
        if keep < |chainHashes| {
          chainHashes := chainHashes[..keep];
        }
        syncedTip := ancestor;
      }
      ok := true;
    }

    /** Filters and, on a match, the block of one height. */
    method ScanAt(crypto: Crypto, sip: SipHash, client: Client, height: nat) returns (r: Option<seq<ScannedAnchor>>)
      requires height < |client.hashes|
      ensures r == ScanHeight(crypto, sip, client, height)
    {
      hide FilterMatches, CheckedBlock, Candidates;
      var current :- FilterMatches(sip, client, height, MarkerSpk());
      var legacy :- FilterMatches(sip, client, height, LegacyMarkerSpk());
      if !current && !legacy {
        return Some([]);
      }
      var block :- CheckedBlock(crypto, client, client.hashes[height]);
      var found := AnchorsInBlock(crypto, block, height);
      r := Some(found);
    }

    method ScanSync(crypto: Crypto, sip: SipHash, client: Client, from: nat) returns (ok: bool)
      requires client.hashes != []
      modifies this
      ensures Outcome(State(), ok) == Sync(crypto, sip, client, old(State()), from)
    {
      hide ScanHeight, Reconcile;
      if fromHeight == 0 {
        fromHeight := Greatest(from, 1);
        syncedTip := fromHeight - 1;
      }
      ok := ReconcileChainView(client.hashes);
      if !ok {
        return;
      }
      var height := Greatest(syncedTip + 1, fromHeight);
      ghost var goal := ScanUp(crypto, sip, client, State(), height);
      while height < |client.hashes|
        invariant goal == ScanUp(crypto, sip, client, State(), height)
      {
        var found := ScanAt(crypto, sip, client, height);
        if found.None? {
          return false;
        }
        occurrences := occurrences + found.value;
        chainHashes := chainHashes + [client.hashes[height]];
        syncedTip := height;
        height := height + 1;
      }
      ok := true;
    }

    /**
     * `scan_check`: no network. Nothing exactly when no cached record of the window binds
     * the nullifier, otherwise the place and context of one that is before no other.
     */
    method ScanCheck(crypto: Crypto, rawNf: Hash, birth: nat, spend: nat) returns (r: Option<Occurrence>)
      ensures r.None? <==> forall e | e in occurrences && birth <= e.location.height <= spend :: !Binds(crypto, e, rawNf)
      ensures r.Some? ==>
                exists e :: e in occurrences && birth <= e.location.height <= spend && Binds(crypto, e, rawNf)
                            && r.value == Occurrence(e.location, e.ctx)
      ensures r.Some? ==>
                forall e | e in occurrences && birth <= e.location.height <= spend && Binds(crypto, e, rawNf) ::
                  r.value.location.AtMost(e.location)
      ensures r == Check(crypto, State(), rawNf, birth, spend)
    {
      hide Binds;
      r := Earliest(Filter(occurrences, BindsWithin(crypto, rawNf, birth, spend)));
    }
  }

  function InWindow(birth: nat, spend: nat): ScannedAnchor -> bool {
    (e: ScannedAnchor) => birth <= e.location.height <= spend
  }

  function BindsWithin(crypto: Crypto, rawNf: Hash, birth: nat, spend: nat): ScannedAnchor -> bool {
    (e: ScannedAnchor) => birth <= e.location.height <= spend && Binds(crypto, e, rawNf)
  }

  function Check(crypto: Crypto, s: IndexState, rawNf: Hash, birth: nat, spend: nat): Option<Occurrence> {
    Earliest(Filter(s.occurrences, BindsWithin(crypto, rawNf, birth, spend)))
  }

  // -- the cache equals a scan from scratch ------------------------------------------------

  lemma {:induction false} IndexedSame(crypto: Crypto, sip: SipHash, world: World, a: seq<Hash>, b: seq<Hash>,
                                       from: nat, end: nat)
    requires end <= |a| && end <= |b| && a[..end] == b[..end]
    ensures Indexed(crypto, sip, world, a, from, end) == Indexed(crypto, sip, world, b, from, end)
    decreases end
  {
    hide Found;
    if end > from {
      assert a[end - 1] == a[..end][end - 1] == b[end - 1];
      assert a[..end - 1] == a[..end][..end - 1] == b[..end - 1];
      IndexedSame(crypto, sip, world, a, b, from, end - 1);
    }
  }

  lemma {:induction false} IndexedShape(crypto: Crypto, sip: SipHash, world: World, hashes: seq<Hash>, from: nat, end: nat)
    requires end <= |hashes|
    ensures forall e | e in Indexed(crypto, sip, world, hashes, from, end) ::
              from <= e.location.height < end && Scanned(e, e.location.height)
    ensures InOrder(Indexed(crypto, sip, world, hashes, from, end))
    decreases end
  {
    hide Scanned, InOrder, CandidatesFrom, Marked;
    NothingInOrder();
    if end > from {
      IndexedShape(crypto, sip, world, hashes, from, end - 1);
      CandidatesShape(crypto, world.blockOf(hashes[end - 1]).txs, end - 1, 0);
      var front := Indexed(crypto, sip, world, hashes, from, end - 1);
      var here := Found(crypto, sip, world, hashes[end - 1], end - 1);
      OrderedConcat(front, here);
      assert forall e :: e in front + here ==> e in front || e in here;
    }
  }

  lemma {:induction false} IndexedCut(crypto: Crypto, sip: SipHash, world: World, hashes: seq<Hash>, from: nat, end: nat,
                                      ancestor: nat)
    requires end <= |hashes| && from <= ancestor + 1 <= end
    ensures Filter(Indexed(crypto, sip, world, hashes, from, end), AtOrBelow(ancestor))
         == Indexed(crypto, sip, world, hashes, from, ancestor + 1)
    decreases end
  {
    hide Found, Indexed, Filter;
    if ancestor + 1 == end {
      AllAtOrBelow(crypto, sip, world, hashes, from, end);
    } else {
      IndexedCut(crypto, sip, world, hashes, from, end - 1, ancestor);
      IndexedStep(crypto, sip, world, hashes, from, end);
      NoneAtOrBelow(crypto, sip, world, hashes[end - 1], end - 1, ancestor,
                    Indexed(crypto, sip, world, hashes, from, end - 1));
    }
  }

  lemma AllAtOrBelow(crypto: Crypto, sip: SipHash, world: World, hashes: seq<Hash>, from: nat, end: nat)
    requires 0 < end <= |hashes|
    ensures var s := Indexed(crypto, sip, world, hashes, from, end);
            Filter(s, AtOrBelow(end - 1)) == s
  {
    hide Found, Indexed, Filter, Scanned, InOrder;
    IndexedShape(crypto, sip, world, hashes, from, end);
    FilterAll(Indexed(crypto, sip, world, hashes, from, end), AtOrBelow(end - 1));
  }

  lemma NoneAtOrBelow(crypto: Crypto, sip: SipHash, world: World, hash: Hash, height: nat, ancestor: nat,
                      front: seq<ScannedAnchor>)
    requires ancestor < height
    ensures Filter(front + Found(crypto, sip, world, hash, height), AtOrBelow(ancestor))
         == Filter(front, AtOrBelow(ancestor))
  {
    hide Found, Filter;
    var here := Found(crypto, sip, world, hash, height);
    FilterConcat(front, here, AtOrBelow(ancestor));
    FoundShape(crypto, sip, world, hash, height);
    FilterNone(here, AtOrBelow(ancestor));
  }

  lemma IndexedStep(crypto: Crypto, sip: SipHash, world: World, hashes: seq<Hash>, from: nat, end: nat)
    requires from < end <= |hashes|
    ensures Indexed(crypto, sip, world, hashes, from, end)
         == Indexed(crypto, sip, world, hashes, from, end - 1) + Found(crypto, sip, world, hashes[end - 1], end - 1)
  {
  }

  lemma FoundShape(crypto: Crypto, sip: SipHash, world: World, hash: Hash, height: nat)
    ensures forall e | e in Found(crypto, sip, world, hash, height) :: e.location.height == height
  {
    hide Scanned, InOrder, CandidatesFrom, Marked;
    CandidatesShape(crypto, world.blockOf(hash).txs, height, 0);
  }

  /** The two chains, given as the hashes of linked headers, fork for good where they first differ. */
  ghost predicate ForksForGood(a: seq<Hash>, b: seq<Hash>) {
    forall h | 0 <= h < |a| && h < |b| && a[h] == b[h] :: a[..h] == b[..h]
  }

  lemma LinkedChainsFork(sha256d: HashFn, a: seq<BlockHeader>, b: seq<BlockHeader>)
    requires HeaderChains.Linked(sha256d, a) && HeaderChains.Linked(sha256d, b)
    requires HeaderChains.NoHeaderCollision(sha256d, a, b)
    ensures ForksForGood(HeaderChains.Hashes(sha256d, a), HeaderChains.Hashes(sha256d, b))
  {
    hide HeaderHash, HeaderChains.Linked, HeaderChains.NoHeaderCollision;
    var x, y := HeaderChains.Hashes(sha256d, a), HeaderChains.Hashes(sha256d, b);
    forall h | 0 <= h < |x| && h < |y| && x[h] == y[h] ensures x[..h] == y[..h] {
      HeaderChains.EqualHashEqualPast(sha256d, a, b, h);
      forall i | 0 <= i < h ensures x[i] == y[i] {
        assert a[i] == a[..h + 1][i] == b[..h + 1][i] == b[i];
      }
    }
  }

  /** Why one equal hash is enough: the walk back stops at the highest shared block. */
  lemma ReconcileReflects(crypto: Crypto, sip: SipHash, world: World, s: IndexState, was: seq<Hash>, now: seq<Hash>)
    requires Reflects(crypto, sip, world, s, was) && now != [] && ForksForGood(was, now)
    ensures Reconcile(s, now).Some?
    ensures Reflects(crypto, sip, world, Reconcile(s, now).value, now)
    ensures Reconcile(s, now).value.fromHeight == s.fromHeight
  {
    hide Indexed, ForksForGood, CutTo;
    if s.chainHashes != [] {
      var top := Least(s.syncedTip, |now| - 1);
      AncestorExists(s, now, top);
      var a := Ancestor(s, now, top).value;
      if a < s.fromHeight {
        CutToNothing(crypto, sip, world, s, was, now);
      } else {
        assert was[a] == now[a];
        ForkPoint(was, now, a);
        CutToShared(crypto, sip, world, s, was, now, a);
      }
    }
  }

  lemma ForkPoint(was: seq<Hash>, now: seq<Hash>, a: nat)
    requires ForksForGood(was, now) && a < |was| && a < |now| && was[a] == now[a]
    ensures was[..a + 1] == now[..a + 1]
  {
    assert was[..a + 1] == was[..a] + [was[a]] && now[..a + 1] == now[..a] + [now[a]];
  }

  lemma {:induction false} AncestorExists(s: IndexState, canonical: seq<Hash>, height: nat)
    requires height < |canonical| && s.fromHeight > 0
    requires height < s.fromHeight + |s.chainHashes|
    ensures Ancestor(s, canonical, height).Some?
    decreases height
  {
    if height >= s.fromHeight && height > 0 {
      AncestorExists(s, canonical, height - 1);
    }
  }

  lemma CutToNothing(crypto: Crypto, sip: SipHash, world: World, s: IndexState, was: seq<Hash>, now: seq<Hash>)
    requires Reflects(crypto, sip, world, s, was)
    ensures Reflects(crypto, sip, world, CutTo(s, s.fromHeight - 1), now)
  {
    hide Indexed;
    if s.syncedTip >= s.fromHeight {
      IndexedShape(crypto, sip, world, was, s.fromHeight, s.syncedTip + 1);
    }
    FilterNone(s.occurrences, AtOrBelow(s.fromHeight - 1));
  }

  lemma CutToShared(crypto: Crypto, sip: SipHash, world: World, s: IndexState, was: seq<Hash>, now: seq<Hash>, a: nat)
    requires Reflects(crypto, sip, world, s, was)
    requires s.fromHeight <= a <= s.syncedTip && a < |now| && was[..a + 1] == now[..a + 1]
    ensures Reflects(crypto, sip, world, if a >= s.syncedTip then s else CutTo(s, a), now)
  {
    hide Indexed, Found, AtOrBelow;
    IndexedSame(crypto, sip, world, was, now, s.fromHeight, a + 1);
    IndexedCut(crypto, sip, world, was, s.fromHeight, s.syncedTip + 1, a);
    assert was[s.fromHeight..a + 1] == was[..a + 1][s.fromHeight..];
    assert now[s.fromHeight..a + 1] == now[..a + 1][s.fromHeight..];
    assert was[s.fromHeight..s.syncedTip + 1][..a - s.fromHeight + 1] == was[s.fromHeight..a + 1];
  }

  lemma ScanHeightIsFound(crypto: Crypto, sip: SipHash, world: World, client: Client, height: nat)
    requires Faithful(world, client) && height < |client.hashes|
    ensures ScanHeight(crypto, sip, client, height).Some? ==>
              ScanHeight(crypto, sip, client, height).value == Found(crypto, sip, world, client.hashes[height], height)
  {
    hide FilterVerdict, Candidates, MerkleRoot;
  }

  lemma RecordReflects(crypto: Crypto, sip: SipHash, world: World, s: IndexState, hashes: seq<Hash>, height: nat)
    requires Reflects(crypto, sip, world, s, hashes)
    requires height == Greatest(s.syncedTip + 1, s.fromHeight) < |hashes|
    ensures Reflects(crypto, sip, world, Record(s, hashes[height], height,
                                                Found(crypto, sip, world, hashes[height], height)), hashes)
  {
    hide Found;
    assert hashes[s.fromHeight..height] + [hashes[height]] == hashes[s.fromHeight..height + 1];
    if s.syncedTip < s.fromHeight {
      assert Indexed(crypto, sip, world, hashes, s.fromHeight, height) == [];
    }
  }

  lemma NothingLeft(crypto: Crypto, sip: SipHash, world: World, s: IndexState, hashes: seq<Hash>)
    requires Reflects(crypto, sip, world, s, hashes) && hashes != []
    requires Greatest(s.syncedTip + 1, s.fromHeight) >= |hashes|
    ensures s == ScanFromScratch(crypto, sip, world, hashes, s.fromHeight)
  {
    hide Indexed;
    if s.syncedTip >= s.fromHeight {
      assert hashes[s.fromHeight..|hashes|] == hashes[s.fromHeight..];
    }
  }

  /** Scanning upwards keeps the cache a scan from scratch, on error exits too. */
  lemma {:induction false} ScanUpReflects(crypto: Crypto, sip: SipHash, world: World, client: Client, s: IndexState,
                                          height: nat)
    requires Faithful(world, client) && client.hashes != []
    requires Reflects(crypto, sip, world, s, client.hashes)
    requires height == Greatest(s.syncedTip + 1, s.fromHeight) && s.fromHeight > 0
    ensures var r := ScanUp(crypto, sip, client, s, height);
            && Reflects(crypto, sip, world, r.state, client.hashes)
            && r.state.fromHeight == s.fromHeight
            && (r.ok ==> r.state == ScanFromScratch(crypto, sip, world, client.hashes, s.fromHeight))
    decreases |client.hashes| - height
  {
    hide ScanHeight, Found, Reflects, Indexed, ScanFromScratch;
    if height >= |client.hashes| {
      NothingLeft(crypto, sip, world, s, client.hashes);
    } else {
      ScanHeightIsFound(crypto, sip, world, client, height);
      var found := ScanHeight(crypto, sip, client, height);
      if found.Some? {
        RecordReflects(crypto, sip, world, s, client.hashes, height);
        ScanUpReflects(crypto, sip, world, client, Record(s, client.hashes[height], height, found.value), height + 1);
      }
    }
  }

  /**
   * One sync, after any reorg or shrinking of the chain: whatever happens the cache
   * is a scan from scratch of the new chain up to its tip, and on success of all of it.
   */
  lemma SyncIsScanFromScratch(crypto: Crypto, sip: SipHash, world: World, client: Client, s: IndexState,
                              was: seq<Hash>, from: nat)
    requires Faithful(world, client) && client.hashes != []
    requires s == FRESH || (Reflects(crypto, sip, world, s, was) && ForksForGood(was, client.hashes))
    ensures var r := Sync(crypto, sip, client, s, from);
            var birth := if s == FRESH then Greatest(from, 1) else s.fromHeight;
            && Reflects(crypto, sip, world, r.state, client.hashes)
            && r.state.fromHeight == birth
            && (r.ok ==> r.state == ScanFromScratch(crypto, sip, world, client.hashes, birth))
  {
    hide Indexed, ScanUp, ForksForGood, ScanFromScratch, Faithful, Reflects, Reconcile;
    var born := Born(s, from);
    if s == FRESH {
      BornReflects(crypto, sip, world, from, client.hashes);
    } else {
      StaysBorn(crypto, sip, world, s, was, from);
      ReconcileReflects(crypto, sip, world, s, was, client.hashes);
    }
    var cut := Reconcile(born, client.hashes).value;
    ScanUpReflects(crypto, sip, world, client, cut, Greatest(cut.syncedTip + 1, cut.fromHeight));
  }

  /** A fresh cache starts as an empty scan from its birth height. */
  lemma BornReflects(crypto: Crypto, sip: SipHash, world: World, from: nat, hashes: seq<Hash>)
    requires hashes != []
    ensures var born := Born(FRESH, from);
            && born.fromHeight == Greatest(from, 1) && Reconcile(born, hashes) == Some(born)
            && Reflects(crypto, sip, world, born, hashes)
  {
    hide Indexed;
  }

  lemma StaysBorn(crypto: Crypto, sip: SipHash, world: World, s: IndexState, was: seq<Hash>, from: nat)
    requires Reflects(crypto, sip, world, s, was)
    ensures Born(s, from) == s && s.fromHeight > 0
  {
    hide Indexed;
  }
}
