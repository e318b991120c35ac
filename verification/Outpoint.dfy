/**
 * Verifying that an output exists and is unspent (`crates/opencsv-cbf/src/client.rs`):
 * a walk that skips blocks by their filters, against the walk that reads them all.
 */
module Outpoints {
  import opened Wrappers
  import opened Wire
  import opened Block
  import opened Anchors
  import opened FullScan
  import opened ScanIndexes
  import opened Gcs

  /** What is looked for: an outpoint with its expected value and script. */
  datatype Expected = Expected(outpoint: OutPoint, amount: u64, script: Buffer)

  datatype Observation =
    | Continue
    | SpentHere(creationHeight: nat, spendingTxid: Hash)
    | Mismatch
    | SpendBeforeCreation

  datatype Verdict =
    | Unspent(creationHeight: nat, checkedThrough: nat, matchedBlocks: nat)
    | Spent(creationHeight: nat, spendHeight: nat, spendingTxid: Hash)
    | OutputMismatch(creationHeight: nat)
    | NotFound(checkedFrom: nat, checkedThrough: nat)

  datatype Inspected = Inspected(seen: Observation, created: Option<nat>)

  predicate Carries(tx: Transaction, x: Expected) {
    && x.outpoint.vout < |tx.outputs|
    && tx.outputs[x.outpoint.vout].amount == x.amount
    && tx.outputs[x.outpoint.vout].scriptPubkey == x.script
  }

  predicate Spends(tx: Transaction, outpoint: OutPoint) {
    exists i | 0 <= i < |tx.inputs| :: tx.inputs[i].prev == outpoint
  }

  /** One transaction of `inspect_outpoint_block`. */
  function InspectTx(sha256d: HashFn, tx: Transaction, height: nat, x: Expected, created: Option<nat>): Inspected {
    var txid := Txid(sha256d, tx);
    if txid == x.outpoint.txid && !Carries(tx, x) then Inspected(Mismatch, created)
    else
      var now := if txid == x.outpoint.txid then Some(height) else created;
      if !Spends(tx, x.outpoint) then Inspected(Continue, now)
      else if now.Some? then Inspected(SpentHere(now.value, txid), now)
      else Inspected(SpendBeforeCreation, now)
  }

  function Inspect(sha256d: HashFn, txs: seq<Transaction>, height: nat, x: Expected, created: Option<nat>): Inspected {
    if txs == [] then Inspected(Continue, created)
    else
      var first := InspectTx(sha256d, txs[0], height, x, created);
      if first.seen.Continue? then Inspect(sha256d, txs[1..], height, x, first.created) else first
  }

  /** `inspect_outpoint_block`; the creation height goes in and comes out. */
  method InspectOutpointBlock(sha256d: HashFn, block: Block, height: nat, x: Expected, created: Option<nat>)
    returns (r: Inspected)
    ensures r == Inspect(sha256d, block.txs, height, x, created)
  {
    hide InspectTx;
    r := Inspected(Continue, created);
    for i := 0 to |block.txs|
      invariant r.seen == Continue
      invariant Inspect(sha256d, block.txs, height, x, created) == Inspect(sha256d, block.txs[i..], height, x, r.created)
    {
      assert block.txs[i..][1..] == block.txs[i + 1..];
      r := InspectTx(sha256d, block.txs[i], height, x, r.created);
      if !r.seen.Continue? {
        return;
      }
    }
  }

  /** Nothing in these transactions ends the walk. */
  ghost predicate Clean(sha256d: HashFn, txs: seq<Transaction>, x: Expected) {
    forall tx | tx in txs :: (Txid(sha256d, tx) == x.outpoint.txid ==> Carries(tx, x)) && !Spends(tx, x.outpoint)
  }

  ghost predicate Creates(sha256d: HashFn, txs: seq<Transaction>, x: Expected) {
    exists tx :: tx in txs && Txid(sha256d, tx) == x.outpoint.txid
  }

  lemma {:induction false} InspectContinuesIff(sha256d: HashFn, txs: seq<Transaction>, height: nat, x: Expected,
                                               created: Option<nat>)
    ensures var r := Inspect(sha256d, txs, height, x, created);
            && (r.seen.Continue? <==> Clean(sha256d, txs, x))
            && (r.seen.Continue? ==> r.created == if Creates(sha256d, txs, x) then Some(height) else created)
  {
    hide Txid, Carries, Spends;
    if txs != [] {
      assert txs == [txs[0]] + txs[1..];
      var first := InspectTx(sha256d, txs[0], height, x, created);
      InspectContinuesIff(sha256d, txs[1..], height, x, first.created);
    }
  }

  // -- reading every block ---------------------------------------------------------------

  function Conclude(created: Option<nat>, birth: nat, tip: nat, matched: nat): Verdict {
    if created.Some? then Unspent(created.value, tip, matched) else NotFound(birth, tip)
  }

  function Stopped(seen: Observation, birth: nat, height: nat): Verdict
    requires !seen.Continue?
  {
    match seen
    case Mismatch => OutputMismatch(height)
    case SpendBeforeCreation => NotFound(birth, height)
    case SpentHere(creation, txid) => Spent(creation, height, txid)
  }

  /** Inspect every block from `height` to the tip. */
  function FullWalk(sha256d: HashFn, world: World, hashes: seq<Hash>, x: Expected, birth: nat, height: nat,
                    created: Option<nat>): Verdict
    requires hashes != [] && height <= |hashes|
    decreases |hashes| - height
  {
    if height == |hashes| then Conclude(created, birth, |hashes| - 1, 0)
    else
      var r := Inspect(sha256d, world.blockOf(hashes[height]).txs, height, x, created);
      if r.seen.Continue? then FullWalk(sha256d, world, hashes, x, birth, height + 1, r.created)
      else Stopped(r.seen, birth, height)
  }

  ghost predicate CleanBlocks(sha256d: HashFn, world: World, hashes: seq<Hash>, x: Expected, from: nat) {
    forall h | from <= h < |hashes| :: Clean(sha256d, world.blockOf(hashes[h]).txs, x)
  }

  /** The last block that holds the creating transaction. */
  ghost predicate LastCreation(sha256d: HashFn, world: World, hashes: seq<Hash>, x: Expected, from: nat, c: nat) {
    && from <= c < |hashes| && Creates(sha256d, world.blockOf(hashes[c]).txs, x)
    && forall h | c < h < |hashes| :: !Creates(sha256d, world.blockOf(hashes[h]).txs, x)
  }

  lemma {:induction false} WalkEndsUnspentIff(sha256d: HashFn, world: World, hashes: seq<Hash>, x: Expected, birth: nat,
                                              height: nat, created: Option<nat>, c: nat)
    requires hashes != [] && height <= |hashes|
    requires created.Some? ==> created.value < height
    ensures FullWalk(sha256d, world, hashes, x, birth, height, created) == Unspent(c, |hashes| - 1, 0) <==>
              && CleanBlocks(sha256d, world, hashes, x, height)
              && (LastCreation(sha256d, world, hashes, x, height, c)
                  || (created == Some(c) && forall h | height <= h < |hashes| ::
                        !Creates(sha256d, world.blockOf(hashes[h]).txs, x)))
    decreases |hashes| - height
  {
    hide Inspect, Clean, Creates;
    if height < |hashes| {
      var txs := world.blockOf(hashes[height]).txs;
      InspectContinuesIff(sha256d, txs, height, x, created);
      var r := Inspect(sha256d, txs, height, x, created);
      if r.seen.Continue? {
        WalkEndsUnspentIff(sha256d, world, hashes, x, birth, height + 1, r.created, c);
      }
    }
  }

  /**
   * What `Unspent` means: the creating transaction sits in range with the expected
   * value and script, last at the reported height, and nothing in range spends it.
   */
  lemma UnspentMeans(sha256d: HashFn, world: World, hashes: seq<Hash>, x: Expected, birth: nat, c: nat)
    requires hashes != [] && birth <= |hashes|
    ensures FullWalk(sha256d, world, hashes, x, birth, birth, None) == Unspent(c, |hashes| - 1, 0) <==>
              && LastCreation(sha256d, world, hashes, x, birth, c)
              && forall h, tx | birth <= h < |hashes| && tx in world.blockOf(hashes[h]).txs ::
                   (Txid(sha256d, tx) == x.outpoint.txid ==> Carries(tx, x)) && !Spends(tx, x.outpoint)
  {
    hide FullWalk, Creates, Txid, Carries, Spends;
    WalkEndsUnspentIff(sha256d, world, hashes, x, birth, birth, None, c);
  }

  // -- skipping by filter ------------------------------------------------------------------

  /** The loop of `verify_outpoint_unspent`; `None` is a filter, fetch or merkle error. */
  function FilteredWalk(crypto: Crypto, sip: SipHash, client: Client, x: Expected, birth: nat, height: nat,
                        created: Option<nat>, matched: nat): Option<Verdict>
    requires client.hashes != []
    decreases |client.hashes| - height
  {
    if height >= |client.hashes| then Some(Conclude(created, birth, |client.hashes| - 1, matched))
    else
      var hit :- FilterMatches(sip, client, height, x.script);
      if !hit then FilteredWalk(crypto, sip, client, x, birth, height + 1, created, matched)
      else
        var block :- CheckedBlock(crypto, client, client.hashes[height]);
        var r := Inspect(crypto.sha256d, block.txs, height, x, created);
        if r.seen.Continue? then FilteredWalk(crypto, sip, client, x, birth, height + 1, r.created, matched + 1)
        else Some(Stopped(r.seen, birth, height))
  }

  predicate RangeAccepted(client: Client, birth: nat, maxBlocks: nat) {
    0 < birth < |client.hashes| && maxBlocks > 0 && |client.hashes| - birth <= maxBlocks
  }

  method VerifyOutpointUnspent(crypto: Crypto, sip: SipHash, client: Client, x: Expected, birth: nat, maxBlocks: nat)
    returns (r: Option<Verdict>)
    requires client.hashes != []
    ensures r == if !RangeAccepted(client, birth, maxBlocks) then None
                 else FilteredWalk(crypto, sip, client, x, birth, birth, None, 0)
  {
    hide FilterMatches, CheckedBlock, Inspect;
    if birth == 0 || birth > |client.hashes| - 1 {
      return None;
    }
    if maxBlocks == 0 || |client.hashes| - birth > maxBlocks {
      return None;
    }
    var created: Option<nat> := None;
    var matched := 0;
    for height := birth to |client.hashes|
      invariant FilteredWalk(crypto, sip, client, x, birth, birth, None, 0)
             == FilteredWalk(crypto, sip, client, x, birth, height, created, matched)
    {
      var hit :- FilterMatches(sip, client, height, x.script);
      if hit {
        var block :- CheckedBlock(crypto, client, client.hashes[height]);
        var seen := InspectOutpointBlock(crypto.sha256d, block, height, x, created);
        if !seen.seen.Continue? {
          return Some(Stopped(seen.seen, birth, height));
        }
        created := seen.created;
        matched := matched + 1;
      }
    }
    r := Some(Conclude(created, birth, |client.hashes| - 1, matched));
  }

  /** The verdict without the count of downloaded blocks. */
  function Bare(v: Verdict): Verdict {
    if v.Unspent? then v.(matchedBlocks := 0) else v
  }

  /**
   * The prevout scripts tell the truth about the outpoint: an input that spends it
   * is recorded with its script, and the first transaction of a block does not.
   */
  ghost predicate SpendsCarry(txs: seq<Transaction>, prevouts: seq<Buffer>, first: bool, x: Expected) {
    txs == [] ||
    var k := if first then 0 else |txs[0].inputs|;
    && k <= |prevouts|
    && (first ==> !Spends(txs[0], x.outpoint))
    && (forall j | 0 <= j < k :: txs[0].inputs[j].prev == x.outpoint ==> prevouts[j] == x.script)
    && SpendsCarry(txs[1..], prevouts[k..], false, x)
  }

  /** Whatever has the outpoint's transaction id carries the expected script there. */
  ghost predicate CreationCarries(sha256d: HashFn, txs: seq<Transaction>, x: Expected) {
    forall tx | tx in txs && Txid(sha256d, tx) == x.outpoint.txid ::
      x.outpoint.vout < |tx.outputs| && tx.outputs[x.outpoint.vout].scriptPubkey == x.script
  }

  lemma {:induction false} SpendIsRecorded(txs: seq<Transaction>, prevouts: seq<Buffer>, first: bool, x: Expected,
                                           tx: Transaction)
    requires SpendsCarry(txs, prevouts, first, x) && tx in txs && Spends(tx, x.outpoint)
    ensures x.script in prevouts
  {
    var k := if first then 0 else |txs[0].inputs|;
    if tx == txs[0] && !first {
      var j :| 0 <= j < |tx.inputs| && tx.inputs[j].prev == x.outpoint;
      assert prevouts[j] == x.script;
    } else {
      assert txs == [txs[0]] + txs[1..];
      SpendIsRecorded(txs[1..], prevouts[k..], false, x, tx);
    }
  }

  /** Everything the filters of the walk must be right about at one height. */
  ghost predicate Watched(crypto: Crypto, sip: SipHash, world: World, hash: Hash, x: Expected) {
    && HonestFilter(sip, world, hash)
    && CreationCarries(crypto.sha256d, world.blockOf(hash).txs, x)
    && SpendsCarry(world.blockOf(hash).txs, world.prevoutsOf(hash), true, x)
  }

  lemma PrevoutMatches(sip: SipHash, world: World, hash: Hash, item: Buffer)
    requires HonestFilter(sip, world, hash) && item in world.prevoutsOf(hash) && item != []
    ensures FilterVerdict(sip, world.filterOf(hash), hash, item) == Some(true)
  {
    hide IsFilterOf, FilterValues, OrderedSet, Matches, FilterElements, ParseFilter;
    var elements := FilterElements(world.blockOf(hash).txs, world.prevoutsOf(hash), true).value;
    BasicFilterExact(sip, world.filterOf(hash), elements, FilterKey(hash), item);
    ElementsCover(world.blockOf(hash).txs, world.prevoutsOf(hash), true);
  }

  /** A block whose filter does not show the script has nothing to say about the outpoint. */
  lemma SkippedIsClean(crypto: Crypto, sip: SipHash, world: World, hash: Hash, x: Expected)
    requires Filterable(x.script) && Watched(crypto, sip, world, hash, x)
    requires FilterVerdict(sip, world.filterOf(hash), hash, x.script) != Some(true)
    ensures Clean(crypto.sha256d, world.blockOf(hash).txs, x)
    ensures !Creates(crypto.sha256d, world.blockOf(hash).txs, x)
  {
    hide FilterVerdict, Txid, Watched, Filterable;
    var txs := world.blockOf(hash).txs;
    forall tx | tx in txs ensures Txid(crypto.sha256d, tx) != x.outpoint.txid && !Spends(tx, x.outpoint) {
      if Txid(crypto.sha256d, tx) == x.outpoint.txid || Spends(tx, x.outpoint) {
        TouchShows(crypto, sip, world, hash, x, tx);
      }
    }
  }

  /** Creating or spending the outpoint puts its script in the filter. */
  lemma TouchShows(crypto: Crypto, sip: SipHash, world: World, hash: Hash, x: Expected, tx: Transaction)
    requires Filterable(x.script) && Watched(crypto, sip, world, hash, x)
    requires tx in world.blockOf(hash).txs
    requires Txid(crypto.sha256d, tx) == x.outpoint.txid || Spends(tx, x.outpoint)
    ensures FilterVerdict(sip, world.filterOf(hash), hash, x.script) == Some(true)
  {
    hide FilterVerdict, HonestFilter, Txid, SpendsCarry;
    var txs := world.blockOf(hash).txs;
    if Spends(tx, x.outpoint) {
      SpendIsRecorded(txs, world.prevoutsOf(hash), true, x, tx);
      PrevoutMatches(sip, world, hash, x.script);
    } else {
      HonestVerdict(sip, world, hash, x.script);
      assert tx.outputs[x.outpoint.vout] in tx.outputs;
    }
  }

  /**
   * Skipping blocks by their filters loses nothing: a walk that finishes gives the
   * verdict of inspecting every block.
   */
  lemma {:induction false} FilteredIsFull(crypto: Crypto, sip: SipHash, world: World, client: Client, x: Expected,
                                          birth: nat, height: nat, created: Option<nat>, matched: nat)
    requires client.hashes != [] && height <= |client.hashes| && Faithful(world, client) && Filterable(x.script)
    requires forall h | height <= h < |client.hashes| :: Watched(crypto, sip, world, client.hashes[h], x)
    ensures var r := FilteredWalk(crypto, sip, client, x, birth, height, created, matched);
            r.Some? ==> Bare(r.value) == FullWalk(crypto.sha256d, world, client.hashes, x, birth, height, created)
    decreases |client.hashes| - height
  {
    hide FilterVerdict, Inspect, MerkleRoot, Watched, Clean, Creates;
    if height < |client.hashes| {
      var hash := client.hashes[height];
      var hit := FilterMatches(sip, client, height, x.script);
      if hit == Some(false) {
        SkippedIsClean(crypto, sip, world, hash, x);
        InspectContinuesIff(crypto.sha256d, world.blockOf(hash).txs, height, x, created);
        FilteredIsFull(crypto, sip, world, client, x, birth, height + 1, created, matched);
      } else if hit == Some(true) && CheckedBlock(crypto, client, hash).Some? {
        var r := Inspect(crypto.sha256d, world.blockOf(hash).txs, height, x, created);
        if r.seen.Continue? {
          FilteredIsFull(crypto, sip, world, client, x, birth, height + 1, r.created, matched + 1);
        }
      }
    }
  }

  /** No other element of the block's filter has the range hash of the script. */
  ghost predicate NoRangeCollision(sip: SipHash, world: World, hash: Hash, script: Bytes) {
    var elements := FilterElements(world.blockOf(hash).txs, world.prevoutsOf(hash), true);
    elements.Some? ==>
      forall e | e in elements.value && e != script ::
        HashToRange(sip, FilterKey(hash), e, |OrderedSet(elements.value)|, BASIC_FILTER_M)
        != HashToRange(sip, FilterKey(hash), script, |OrderedSet(elements.value)|, BASIC_FILTER_M)
  }

  /** An honest filter leaves out a script that is empty or starts with OP_RETURN, and answers so. */
  lemma UnfilterableVerdict(sip: SipHash, world: World, hash: Hash, script: Buffer)
    requires HonestFilter(sip, world, hash) && !Filterable(script)
    requires (script == [] || script !in world.prevoutsOf(hash)) && NoRangeCollision(sip, world, hash, script)
    ensures FilterVerdict(sip, world.filterOf(hash), hash, script) == Some(false)
  {
    hide IsFilterOf, FilterValues, OrderedSet, Matches, FilterElements, ParseFilter, HashToRange;
    var elements := FilterElements(world.blockOf(hash).txs, world.prevoutsOf(hash), true).value;
    BasicFilterExact(sip, world.filterOf(hash), elements, FilterKey(hash), script);
    ElementsCover(world.blockOf(hash).txs, world.prevoutsOf(hash), true);
    assert script !in elements;
  }

  lemma {:induction false} AllMissed(crypto: Crypto, sip: SipHash, client: Client, x: Expected, birth: nat, height: nat)
    requires client.hashes != []
    requires forall h | height <= h < |client.hashes| :: FilterMatches(sip, client, h, x.script) == Some(false)
    ensures FilteredWalk(crypto, sip, client, x, birth, height, None, 0) == Some(NotFound(birth, |client.hashes| - 1))
    decreases |client.hashes| - height
  {
    hide FilterMatches, CheckedBlock, Inspect;
    if height < |client.hashes| {
      AllMissed(crypto, sip, client, x, birth, height + 1);
    }
  }

  /**
   * Why the script must be one that filters hold: if it is empty or starts with OP_RETURN,
   * the walk skips the creation wherever it is and finds nothing, with every filter
   * honest, where reading every block finds the output unspent.
   */
  lemma UnfilterableIsInvisible(crypto: Crypto, sip: SipHash, world: World, client: Client, x: Expected, birth: nat,
                                c: nat)
    requires client.hashes != [] && Faithful(world, client) && birth <= |client.hashes|
    requires !Filterable(x.script)
    requires forall h | birth <= h < |client.hashes| ::
               && client.filterAt(h).Some? && HonestFilter(sip, world, client.hashes[h])
               && (x.script == [] || x.script !in world.prevoutsOf(client.hashes[h]))
               && NoRangeCollision(sip, world, client.hashes[h], x.script)
    requires LastCreation(crypto.sha256d, world, client.hashes, x, birth, c)
    requires CleanBlocks(crypto.sha256d, world, client.hashes, x, birth)
    ensures FilteredWalk(crypto, sip, client, x, birth, birth, None, 0) == Some(NotFound(birth, |client.hashes| - 1))
    ensures FullWalk(crypto.sha256d, world, client.hashes, x, birth, birth, None) == Unspent(c, |client.hashes| - 1, 0)
  {
    hide FilterVerdict, HonestFilter, NoRangeCollision, Clean, Creates, FullWalk, FilteredWalk;
    forall h | birth <= h < |client.hashes| ensures FilterMatches(sip, client, h, x.script) == Some(false) {
      UnfilterableVerdict(sip, world, client.hashes[h], x.script);
    }
    AllMissed(crypto, sip, client, x, birth, birth);
    WalkEndsUnspentIff(crypto.sha256d, world, client.hashes, x, birth, birth, None, c);
  }
}
