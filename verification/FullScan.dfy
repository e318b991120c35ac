/**
 * The brute-force scan (`crates/opencsv-cbf/src/fullscan.rs`), the client it
 * reads from, and the public chain both scanners are measured against.
 */
module FullScan {
  import opened Wrappers
  import opened Wire
  import opened Lists
  import opened Block
  import opened Anchors

  const MAX_WINDOW_BLOCKS := 2016

  /**
   * What a connected client offers: the verified hash of every height, the
   * verified filter of a height, and blocks from whichever peer has them.
   */
  datatype Client = Client(
    hashes: seq<Hash>,
    filterAt: nat -> Option<Bytes>,
    fetch: Hash -> Option<Block>)

  /** The public chain data behind every hash. */
  datatype World = World(
    blockOf: Hash -> Block,
    filterOf: Hash -> Bytes,
    prevoutsOf: Hash -> seq<Buffer>)

  /** Whatever the client hands out is the real thing; it may hand out nothing. */
  ghost predicate Faithful(world: World, client: Client) {
    && (forall h: nat | h < |client.hashes| && client.filterAt(h).Some? ::
          client.filterAt(h).value == world.filterOf(client.hashes[h]))
    && (forall hash :: client.fetch(hash).Some? ==> client.fetch(hash).value == world.blockOf(hash))
  }

  /** A fetched block whose merkle root is the one in its header. */
  function CheckedBlock(crypto: Crypto, client: Client, hash: Hash): Option<Block> {
    var block :- client.fetch(hash);
    if block.txs == [] || MerkleRoot(crypto.sha256d, Txids(crypto.sha256d, block.txs)) != block.header.merkleRoot
    then None else Some(block)
  }

  /** All candidates of the heights from `from` up to but excluding `to`. */
  function AllCandidates(crypto: Crypto, world: World, hashes: seq<Hash>, from: nat, end: nat): seq<ScannedAnchor>
    requires end <= |hashes|
  {
    if end <= from then []
    else AllCandidates(crypto, world, hashes, from, end - 1) + Candidates(crypto, world.blockOf(hashes[end - 1]), end - 1)
  }

  predicate WindowAccepted(client: Client, birth: nat, spend: nat) {
    && 0 < birth <= spend < |client.hashes|
    && spend - birth + 1 <= MAX_WINDOW_BLOCKS
  }

  /** Every block of the window downloads and checks out. */
  ghost predicate WindowServed(crypto: Crypto, client: Client, birth: nat, spend: nat)
    requires spend < |client.hashes|
  {
    forall h | birth <= h <= spend :: CheckedBlock(crypto, client, client.hashes[h]).Some?
  }

  /** `FullScanChain::scan` */
  method Scan(crypto: Crypto, ghost world: World, client: Client, birth: nat, spend: nat)
    returns (r: Option<seq<ScannedAnchor>>)
    requires Faithful(world, client)
    ensures r.Some? <==> WindowAccepted(client, birth, spend) && WindowServed(crypto, client, birth, spend)
    ensures r.Some? ==> r.value == AllCandidates(crypto, world, client.hashes, birth, spend + 1)
  {
    hide Candidates, MerkleRoot;
    if birth == 0 || spend < birth || spend >= |client.hashes| || spend - birth + 1 > MAX_WINDOW_BLOCKS {
      return None;
    }
    var entries: seq<ScannedAnchor> := [];
    for height := birth to spend + 1
      invariant forall h | birth <= h < height :: CheckedBlock(crypto, client, client.hashes[h]).Some?
      invariant entries == AllCandidates(crypto, world, client.hashes, birth, height)
    {
      var block := CheckedBlock(crypto, client, client.hashes[height]);
      if block.None? {
        return None;
      }
      var found := AnchorsInBlock(crypto, block.value, height);
      entries := entries + found;
    }
    r := Some(entries);
  }

  datatype Occurrence = Occurrence(location: AnchorLocation, ctx: Hash)

  /** `min_by_key` on the location: the first of the least. */
  function Earliest(entries: seq<ScannedAnchor>): (r: Option<Occurrence>)
    ensures r.None? <==> entries == []
    ensures r.Some? ==> exists e :: e in entries && r.value == Occurrence(e.location, e.ctx)
    ensures r.Some? ==> forall e :: e in entries ==> r.value.location.AtMost(e.location)
  {
    if entries == [] then None
    else
      var last := entries[|entries| - 1];
      assert entries == entries[..|entries| - 1] + [last];
      match Earliest(entries[..|entries| - 1])
      case None => Some(Occurrence(last.location, last.ctx))
      case Some(best) =>
        if best.location.AtMost(last.location) then Some(best) else Some(Occurrence(last.location, last.ctx))
  }

  function Binding(crypto: Crypto, rawNf: Hash): ScannedAnchor -> bool {
    (e: ScannedAnchor) => Binds(crypto, e, rawNf)
  }

  /** `first_occurrence_in_window`, on the entries of a successful scan. */
  function FirstOccurrence(crypto: Crypto, entries: seq<ScannedAnchor>, rawNf: Hash): Option<Occurrence> {
    Earliest(Filter(entries, Binding(crypto, rawNf)))
  }

  lemma NothingInOrder()
    ensures InOrder([])
  {
  }
}
