/**
 * The answers of the scan index against those of the brute-force scan, what makes
 * a sync succeed, and what the header of a served block does and does not pin.
 */
module ScanAnswers {
  import opened Wrappers
  import opened Wire
  import opened Lists
  import opened Block
  import opened Anchors
  import opened FullScan
  import opened ScanIndexes
  import opened Gcs

  // -- the window of an index --------------------------------------------------------------

  /** Cutting the index to a window is scanning the window. */
  lemma {:induction false} IndexedWindow(crypto: Crypto, sip: SipHash, world: World, hashes: seq<Hash>, from: nat,
                                         end: nat, birth: nat, spend: nat)
    requires end <= |hashes| && from <= birth
    ensures Filter(Indexed(crypto, sip, world, hashes, from, end), InWindow(birth, spend))
         == Indexed(crypto, sip, world, hashes, birth, Least(end, spend + 1))
    decreases end
  {
    hide Found, Filter, Indexed;
    if end <= from {
      NothingIndexed(crypto, sip, world, hashes, from, end, InWindow(birth, spend));
      NothingIndexed(crypto, sip, world, hashes, birth, Least(end, spend + 1), InWindow(birth, spend));
    } else {
      IndexedWindow(crypto, sip, world, hashes, from, end - 1, birth, spend);
      IndexedStep(crypto, sip, world, hashes, from, end);
      WindowStep(crypto, sip, world, hashes, from, end, birth, spend);
      if birth < end <= spend + 1 {
        IndexedStep(crypto, sip, world, hashes, birth, end);
      } else if end <= birth {
        NothingIndexed(crypto, sip, world, hashes, birth, Least(end, spend + 1), InWindow(birth, spend));
        NothingIndexed(crypto, sip, world, hashes, birth, Least(end - 1, spend + 1), InWindow(birth, spend));
      }
    }
  }

  lemma NothingIndexed(crypto: Crypto, sip: SipHash, world: World, hashes: seq<Hash>, from: nat, end: nat,
                       p: ScannedAnchor -> bool)
    requires end <= from && end <= |hashes|
    ensures Indexed(crypto, sip, world, hashes, from, end) == []
    ensures Filter(Indexed(crypto, sip, world, hashes, from, end), p) == []
  {
  }

  lemma WindowStep(crypto: Crypto, sip: SipHash, world: World, hashes: seq<Hash>, from: nat, end: nat, birth: nat,
                   spend: nat)
    requires from < end <= |hashes|
    ensures var front := Indexed(crypto, sip, world, hashes, from, end - 1);
            var here := Found(crypto, sip, world, hashes[end - 1], end - 1);
            Filter(front + here, InWindow(birth, spend))
            == Filter(front, InWindow(birth, spend)) + if birth < end <= spend + 1 then here else []
  {
    hide Found, Filter, Indexed;
    var front := Indexed(crypto, sip, world, hashes, from, end - 1);
    var here := Found(crypto, sip, world, hashes[end - 1], end - 1);
    FilterConcat(front, here, InWindow(birth, spend));
    FoundShape(crypto, sip, world, hashes[end - 1], end - 1);
    if birth < end <= spend + 1 {
      FilterAll(here, InWindow(birth, spend));
    } else {
      FilterNone(here, InWindow(birth, spend));
    }
  }

  // -- index against full scan ---------------------------------------------------------------

  /** Candidates of blocks whose filter shows a marker. */
  function InMarkedBlock(sip: SipHash, world: World, hashes: seq<Hash>): ScannedAnchor -> bool {
    (e: ScannedAnchor) => e.location.height < |hashes| && Marked(sip, world, hashes[e.location.height])
  }

  /** With no assumption on markers, the index is the full scan less the blocks whose filters show none. */
  lemma {:induction false} IndexedIsFilteredScan(crypto: Crypto, sip: SipHash, world: World, hashes: seq<Hash>,
                                                 from: nat, end: nat)
    requires end <= |hashes|
    ensures Indexed(crypto, sip, world, hashes, from, end)
         == Filter(AllCandidates(crypto, world, hashes, from, end), InMarkedBlock(sip, world, hashes))
    decreases end
  {
    hide Marked, Candidates, Filter;
    var p := InMarkedBlock(sip, world, hashes);
    if end > from {
      IndexedIsFilteredScan(crypto, sip, world, hashes, from, end - 1);
      var here := Candidates(crypto, world.blockOf(hashes[end - 1]), end - 1);
      FilterConcat(AllCandidates(crypto, world, hashes, from, end - 1), here, p);
      MarkedBlockKept(crypto, sip, world, hashes, end - 1);
    } else {
      FilterAll([], p);
    }
  }

  lemma MarkedBlockKept(crypto: Crypto, sip: SipHash, world: World, hashes: seq<Hash>, height: nat)
    requires height < |hashes|
    ensures Filter(Candidates(crypto, world.blockOf(hashes[height]), height), InMarkedBlock(sip, world, hashes))
         == Found(crypto, sip, world, hashes[height], height)
  {
    hide Marked, CandidatesFrom, Filter, Scanned, InOrder;
    var here := Candidates(crypto, world.blockOf(hashes[height]), height);
    CandidatesShape(crypto, world.blockOf(hashes[height]).txs, height, 0);
    if Marked(sip, world, hashes[height]) {
      FilterAll(here, InMarkedBlock(sip, world, hashes));
    } else {
      FilterNone(here, InMarkedBlock(sip, world, hashes));
    }
  }

  /** A block is either shown by its filter or has nothing to show. */
  predicate NothingHidden(crypto: Crypto, sip: SipHash, world: World, hash: Hash, height: nat) {
    Marked(sip, world, hash) || Candidates(crypto, world.blockOf(hash), height) == []
  }

  /** The index holds the full scan exactly when no unmarked block carries an anchor. */
  lemma {:induction false} IndexIsFullScanIff(crypto: Crypto, sip: SipHash, world: World, hashes: seq<Hash>, from: nat,
                                              end: nat)
    requires end <= |hashes|
    ensures |Indexed(crypto, sip, world, hashes, from, end)| <= |AllCandidates(crypto, world, hashes, from, end)|
    ensures Indexed(crypto, sip, world, hashes, from, end) == AllCandidates(crypto, world, hashes, from, end)
       <==> forall h | from <= h < end :: NothingHidden(crypto, sip, world, hashes[h], h)
    decreases end
  {
    hide Marked, Candidates;
    if end > from {
      IndexIsFullScanIff(crypto, sip, world, hashes, from, end - 1);
      var front := Indexed(crypto, sip, world, hashes, from, end - 1);
      var full := AllCandidates(crypto, world, hashes, from, end - 1);
      var found := Found(crypto, sip, world, hashes[end - 1], end - 1);
      var here := Candidates(crypto, world.blockOf(hashes[end - 1]), end - 1);
      if front + found == full + here {
        assert |front| == |full| && |found| == |here|;
        assert front == (front + found)[..|front|] && full == (full + here)[..|full|];
      }
    }
  }

  /** The state of a cache, asked about a window inside it, answers from the scan of that window. */
  lemma CheckReadsWindow(crypto: Crypto, sip: SipHash, world: World, s: IndexState, hashes: seq<Hash>, rawNf: Hash,
                         birth: nat, spend: nat)
    requires Reflects(crypto, sip, world, s, hashes)
    requires s.fromHeight <= birth <= spend <= s.syncedTip
    ensures spend < |hashes|
    ensures Check(crypto, s, rawNf, birth, spend)
         == FirstOccurrence(crypto, Indexed(crypto, sip, world, hashes, birth, spend + 1), rawNf)
  {
    hide Indexed, Filter, Binds, Earliest;
    FilterTwice(s.occurrences, InWindow(birth, spend), Binding(crypto, rawNf), BindsWithin(crypto, rawNf, birth, spend));
    IndexedWindow(crypto, sip, world, hashes, s.fromHeight, s.syncedTip + 1, birth, spend);
  }

  /** Honest filters, and anchors never travel without a marker in their block. */
  ghost predicate HonestWindow(crypto: Crypto, sip: SipHash, world: World, hashes: seq<Hash>, birth: nat, spend: nat)
    requires spend < |hashes|
  {
    forall h | birth <= h <= spend :: HonestFilter(sip, world, hashes[h]) && AnchorsMarked(crypto, world, hashes[h])
  }

  /** With honest filters and marked anchors the index of a window is its full scan. */
  lemma HonestWindowIsFull(crypto: Crypto, sip: SipHash, world: World, hashes: seq<Hash>, birth: nat, spend: nat)
    requires spend < |hashes| && HonestWindow(crypto, sip, world, hashes, birth, spend)
    ensures Indexed(crypto, sip, world, hashes, birth, spend + 1) == AllCandidates(crypto, world, hashes, birth, spend + 1)
  {
    hide Indexed, AllCandidates, HonestFilter, AnchorsMarked, Marked, Candidates;
    forall h | birth <= h < spend + 1 ensures NothingHidden(crypto, sip, world, hashes[h], h) {
      if Candidates(crypto, world.blockOf(hashes[h]), h) != [] {
        AnchorsAreFound(crypto, sip, world, hashes[h], h);
      }
    }
    IndexIsFullScanIff(crypto, sip, world, hashes, birth, spend + 1);
  }

  /**
   * End to end: over any window the index has covered, the local check gives exactly
   * the answer of downloading and scanning every block.
   */
  lemma CheckIsFullScan(crypto: Crypto, sip: SipHash, world: World, s: IndexState, hashes: seq<Hash>, rawNf: Hash,
                        birth: nat, spend: nat)
    requires Reflects(crypto, sip, world, s, hashes)
    requires s.fromHeight <= birth <= spend <= s.syncedTip
    requires HonestWindow(crypto, sip, world, hashes, birth, spend)
    ensures Check(crypto, s, rawNf, birth, spend)
         == FirstOccurrence(crypto, AllCandidates(crypto, world, hashes, birth, spend + 1), rawNf)
  {
    hide Indexed, AllCandidates, FirstOccurrence, Check, HonestWindow;
    CheckReadsWindow(crypto, sip, world, s, hashes, rawNf, birth, spend);
    HonestWindowIsFull(crypto, sip, world, hashes, birth, spend);
  }

  /** Whatever the markers, a local answer is a real occurrence, and never before the true first one. */
  lemma CheckIsSound(crypto: Crypto, sip: SipHash, world: World, s: IndexState, hashes: seq<Hash>, rawNf: Hash,
                     birth: nat, spend: nat)
    requires Reflects(crypto, sip, world, s, hashes)
    requires s.fromHeight <= birth <= spend <= s.syncedTip
    ensures var all := AllCandidates(crypto, world, hashes, birth, spend + 1);
            var answer := Check(crypto, s, rawNf, birth, spend);
            && answer == FirstOccurrence(crypto, Filter(all, InMarkedBlock(sip, world, hashes)), rawNf)
            && (answer.Some? ==>
                 && (exists e :: e in all && Binds(crypto, e, rawNf) && answer.value == Occurrence(e.location, e.ctx))
                 && FirstOccurrence(crypto, all, rawNf).Some?
                 && FirstOccurrence(crypto, all, rawNf).value.location.AtMost(answer.value.location))
  {
    hide Indexed, AllCandidates, Binds, Marked, Check, FirstOccurrence, Filter, Reflects;
    CheckReadsWindow(crypto, sip, world, s, hashes, rawNf, birth, spend);
    IndexedIsFilteredScan(crypto, sip, world, hashes, birth, spend + 1);
    PartIsLater(crypto, AllCandidates(crypto, world, hashes, birth, spend + 1), InMarkedBlock(sip, world, hashes), rawNf);
  }

  /** The first occurrence in a part of a scan is an occurrence of the scan, at or after its first. */
  lemma PartIsLater(crypto: Crypto, all: seq<ScannedAnchor>, p: ScannedAnchor -> bool, rawNf: Hash)
    ensures var answer := FirstOccurrence(crypto, Filter(all, p), rawNf);
            answer.Some? ==>
              && (exists e :: e in all && Binds(crypto, e, rawNf) && answer.value == Occurrence(e.location, e.ctx))
              && FirstOccurrence(crypto, all, rawNf).Some?
              && FirstOccurrence(crypto, all, rawNf).value.location.AtMost(answer.value.location)
  {
    hide Binds;
    var kept := Filter(Filter(all, p), Binding(crypto, rawNf));
    if kept != [] {
      assert Earliest(kept).Some?;
      var e :| e in kept && Earliest(kept).value == Occurrence(e.location, e.ctx);
      assert e in all && Binding(crypto, rawNf)(e);
      assert e in Filter(all, Binding(crypto, rawNf));
    }
  }

  // -- syncs that succeed -----------------------------------------------------------------------

  /** The client has a filter and a block for every height from `from` on. */
  ghost predicate Serves(crypto: Crypto, world: World, client: Client, from: nat) {
    forall h: nat | from <= h < |client.hashes| ::
      && client.filterAt(h).Some?
      && CheckedBlock(crypto, client, client.hashes[h]).Some?
  }

  lemma HeightSucceeds(crypto: Crypto, sip: SipHash, world: World, client: Client, h: nat)
    requires Faithful(world, client) && h < |client.hashes|
    requires client.filterAt(h).Some? && CheckedBlock(crypto, client, client.hashes[h]).Some?
    requires HonestFilter(sip, world, client.hashes[h])
    ensures ScanHeight(crypto, sip, client, h).Some?
  {
    hide FilterVerdict, HonestFilter, Candidates, MerkleRoot;
    HonestVerdict(sip, world, client.hashes[h], MarkerSpk());
    HonestVerdict(sip, world, client.hashes[h], LegacyMarkerSpk());
  }

  lemma {:induction false} ScanUpSucceeds(crypto: Crypto, sip: SipHash, world: World, client: Client, s: IndexState,
                                          height: nat)
    requires Faithful(world, client) && Serves(crypto, world, client, height)
    requires forall h: nat | height <= h < |client.hashes| :: HonestFilter(sip, world, client.hashes[h])
    ensures ScanUp(crypto, sip, client, s, height).ok
    decreases |client.hashes| - height
  {
    hide ScanHeight, HonestFilter, Faithful, CheckedBlock;
    if height < |client.hashes| {
      HeightSucceeds(crypto, sip, world, client, height);
      ScanUpSucceeds(crypto, sip, world, client,
                     Record(s, client.hashes[height], height, ScanHeight(crypto, sip, client, height).value), height + 1);
    }
  }

  /** Honest filters never fail to decode: a sync against a client that has everything succeeds. */
  lemma HonestSyncSucceeds(crypto: Crypto, sip: SipHash, world: World, client: Client, s: IndexState, was: seq<Hash>,
                           from: nat)
    requires Faithful(world, client) && client.hashes != []
    requires s == FRESH || (Reflects(crypto, sip, world, s, was) && ForksForGood(was, client.hashes))
    requires Serves(crypto, world, client, 1)
    requires forall h: nat | 1 <= h < |client.hashes| :: HonestFilter(sip, world, client.hashes[h])
    ensures Sync(crypto, sip, client, s, from).ok
  {
    hide Reflects, ScanUp, HonestFilter, Faithful, CheckedBlock, ForksForGood;
    var born := Born(s, from);
    if s != FRESH {
      ReconcileReflects(crypto, sip, world, s, was, client.hashes);
      assert born == s by {
        BirthPositive(crypto, sip, world, s, was);
      }
    }
    var cut := Reconcile(born, client.hashes).value;
    assert cut.fromHeight == born.fromHeight > 0;
    ScanUpSucceeds(crypto, sip, world, client, cut, Greatest(cut.syncedTip + 1, cut.fromHeight));
  }

  lemma BirthPositive(crypto: Crypto, sip: SipHash, world: World, s: IndexState, hashes: seq<Hash>)
    requires Reflects(crypto, sip, world, s, hashes)
    ensures s.fromHeight > 0
  {
    hide Indexed;
  }

  // -- what a block header pins --------------------------------------------------------------------

  function Solo(): ScannedAnchor -> bool {
    (e: ScannedAnchor) => !e.record.BatchHeader?
  }

  /**
   * Two peers serving the same header with blocks that check out agree on every
   * candidate that is not a batch header, even if one of them withholds witnesses.
   */
  lemma HeaderPinsSoloCandidates(crypto: Crypto, a: Block, b: Block, height: nat)
    requires a.txs != [] && |a.txs| == |b.txs|
    requires forall tx :: tx in a.txs || tx in b.txs ==> InMemory(tx)
    requires MerkleRoot(crypto.sha256d, Txids(crypto.sha256d, a.txs)) == MerkleRoot(crypto.sha256d, Txids(crypto.sha256d, b.txs))
    requires NoCollision(crypto.sha256d, MerklePreimages(crypto.sha256d, Txids(crypto.sha256d, a.txs)),
                         MerklePreimages(crypto.sha256d, Txids(crypto.sha256d, b.txs)))
    requires NoCollision(crypto.sha256d, set tx | tx in a.txs :: LegacyBytes(tx), set tx | tx in b.txs :: LegacyBytes(tx))
    ensures Filter(Candidates(crypto, a, height), Solo()) == Filter(Candidates(crypto, b, height), Solo())
  {
    hide MerkleRoot, MerklePreimages, NoCollision, LegacyBytes, CandidatesFrom, Filter;
    RootPinsTransactions(crypto.sha256d, a.txs, b.txs);
    SoloFrom(crypto, a.txs, b.txs, height, 0);
  }

  lemma {:induction false} SoloFrom(crypto: Crypto, a: seq<Transaction>, b: seq<Transaction>, height: nat, position: nat)
    requires |a| == |b| && position <= |a|
    requires forall i | 0 <= i < |a| :: Stripped(a[i]) == Stripped(b[i])
    ensures Filter(CandidatesFrom(crypto, a, height, position), Solo())
         == Filter(CandidatesFrom(crypto, b, height, position), Solo())
    decreases |a| - position
  {
    hide TransactionCandidates, Filter;
    if position < |a| {
      SoloFrom(crypto, a, b, height, position + 1);
      SoloOfTransaction(crypto, a[position], b[position], height, position);
      FilterConcat(TransactionCandidates(crypto, a[position], height, position),
                   CandidatesFrom(crypto, a, height, position + 1), Solo());
      FilterConcat(TransactionCandidates(crypto, b[position], height, position),
                   CandidatesFrom(crypto, b, height, position + 1), Solo());
    }
  }

  lemma SoloOfTransaction(crypto: Crypto, a: Transaction, b: Transaction, height: nat, position: nat)
    requires Stripped(a) == Stripped(b)
    ensures Filter(TransactionCandidates(crypto, a, height, position), Solo())
         == Filter(TransactionCandidates(crypto, b, height, position), Solo())
  {
    hide FromBytes, FirstPayload, WitnessEnvelope, Filter;
    assert LegacyBytes(a) == LegacyBytes(b);
    var x, y := TransactionCandidates(crypto, a, height, position), TransactionCandidates(crypto, b, height, position);
    if x != y {
      FilterNone(x, Solo());
      FilterNone(y, Solo());
    }
  }

  /** A batch header where the scanners look for a record; the legacy bytes show it. */
  predicate CarriesBatchHeader(tx: Transaction) {
    && !IsCoinbase(tx) && tx.inputs != []
    && FirstPayload(tx.outputs).Some? && FromBytes(FirstPayload(tx.outputs).value).BatchHeader?
  }

  ghost predicate NoBatchHeaders(txs: seq<Transaction>) {
    forall tx | tx in txs :: !CarriesBatchHeader(tx)
  }

  /** Under the same assumptions, a block without batch headers has all its candidates pinned. */
  lemma HeaderPinsCandidates(crypto: Crypto, a: Block, b: Block, height: nat)
    requires a.txs != [] && |a.txs| == |b.txs| && NoBatchHeaders(a.txs)
    requires forall tx :: tx in a.txs || tx in b.txs ==> InMemory(tx)
    requires MerkleRoot(crypto.sha256d, Txids(crypto.sha256d, a.txs)) == MerkleRoot(crypto.sha256d, Txids(crypto.sha256d, b.txs))
    requires NoCollision(crypto.sha256d, MerklePreimages(crypto.sha256d, Txids(crypto.sha256d, a.txs)),
                         MerklePreimages(crypto.sha256d, Txids(crypto.sha256d, b.txs)))
    requires NoCollision(crypto.sha256d, set tx | tx in a.txs :: LegacyBytes(tx), set tx | tx in b.txs :: LegacyBytes(tx))
    ensures Candidates(crypto, a, height) == Candidates(crypto, b, height)
  {
    hide MerkleRoot, MerklePreimages, NoCollision, LegacyBytes, CandidatesFrom, CarriesBatchHeader;
    RootPinsTransactions(crypto.sha256d, a.txs, b.txs);
    PinnedFrom(crypto, a.txs, b.txs, height, 0);
  }

  lemma {:induction false} PinnedFrom(crypto: Crypto, a: seq<Transaction>, b: seq<Transaction>, height: nat, position: nat)
    requires |a| == |b| && position <= |a| && NoBatchHeaders(a)
    requires forall i | 0 <= i < |a| :: Stripped(a[i]) == Stripped(b[i])
    ensures CandidatesFrom(crypto, a, height, position) == CandidatesFrom(crypto, b, height, position)
    decreases |a| - position
  {
    hide TransactionCandidates, CarriesBatchHeader;
    if position < |a| {
      PinnedFrom(crypto, a, b, height, position + 1);
      PinnedTransaction(crypto, a[position], b[position], height, position);
    }
  }

  lemma PinnedTransaction(crypto: Crypto, a: Transaction, b: Transaction, height: nat, position: nat)
    requires Stripped(a) == Stripped(b) && !CarriesBatchHeader(a)
    ensures TransactionCandidates(crypto, a, height, position) == TransactionCandidates(crypto, b, height, position)
  {
    hide FromBytes, FirstPayload, WitnessEnvelope, LegacyBytes;
    assert Txid(crypto.sha256d, a) == Txid(crypto.sha256d, b) by {
      SameLegacyBytes(a, b);
    }
  }

  lemma SameLegacyBytes(a: Transaction, b: Transaction)
    requires Stripped(a) == Stripped(b)
    ensures LegacyBytes(a) == LegacyBytes(b)
  {
  }

  /** The same block, served with other witnesses or none. */
  ghost predicate SameButWitnesses(a: Block, b: Block) {
    a.header == b.header && StripAll(a.txs) == StripAll(b.txs)
  }

  /**
   * What the root check lets through: every version of a block with other witnesses has
   * its transaction ids, and all of them show the same candidates exactly when none
   * of its transactions carries a batch header.
   */
  lemma CandidatesPinnedIff(crypto: Crypto, a: Block, height: nat)
    ensures forall b :: SameButWitnesses(a, b) ==> Txids(crypto.sha256d, b.txs) == Txids(crypto.sha256d, a.txs)
    ensures (forall b :: SameButWitnesses(a, b) ==> Candidates(crypto, b, height) == Candidates(crypto, a, height))
            <==> NoBatchHeaders(a.txs)
  {
    hide CandidatesFrom, CarriesBatchHeader, LegacyBytes;
    forall b | SameButWitnesses(a, b)
      ensures Txids(crypto.sha256d, b.txs) == Txids(crypto.sha256d, a.txs)
      ensures NoBatchHeaders(a.txs) ==> Candidates(crypto, b, height) == Candidates(crypto, a, height) {
      SameStripped(crypto.sha256d, a.txs, b.txs);
      if NoBatchHeaders(a.txs) {
        PinnedFrom(crypto, a.txs, b.txs, height, 0);
      }
    }
    if !NoBatchHeaders(a.txs) {
      var tx :| tx in a.txs && CarriesBatchHeader(tx);
      var k :| 0 <= k < |a.txs| && a.txs[k] == tx;
      var bare := Block(a.header, StripAll(a.txs));
      var dressed := Block(a.header, bare.txs[k := Dressed(tx)]);
      StripTwice(a.txs);
      assert StripAll(dressed.txs) == StripAll(a.txs);
      NoBatches(crypto, bare.txs, height, 0);
      var e := DressedShows(crypto, dressed.txs, height, k, tx);
      assert SameButWitnesses(a, bare) && SameButWitnesses(a, dressed);
      assert Candidates(crypto, bare, height) != Candidates(crypto, dressed, height);
    }
  }

  lemma SameStripped(sha256d: HashFn, a: seq<Transaction>, b: seq<Transaction>)
    requires StripAll(a) == StripAll(b)
    ensures |a| == |b| && Txids(sha256d, b) == Txids(sha256d, a)
    ensures forall i | 0 <= i < |a| :: Stripped(a[i]) == Stripped(b[i])
  {
    hide LegacyBytes;
    assert |StripAll(a)| == |StripAll(b)|;
    forall i | 0 <= i < |a| ensures Stripped(a[i]) == Stripped(b[i]) && Txids(sha256d, b)[i] == Txids(sha256d, a)[i] {
      assert StripAll(a)[i] == StripAll(b)[i];
      SameLegacyBytes(a[i], b[i]);
    }
  }

  lemma StripTwice(txs: seq<Transaction>)
    ensures StripAll(StripAll(txs)) == StripAll(txs)
  {
  }

  /** The transaction with one stack per input, the first an envelope of one payload, the others empty. */
  function Dressed(tx: Transaction): (r: Transaction)
    ensures Stripped(r) == Stripped(tx) && |r.witnesses| == |tx.inputs|
  {
    var p: Buffer := seq(24, i => 0);
    var stack: seq<Buffer> := [OCS2(), p, [0], [0]];
    tx.(witnesses := seq(|tx.inputs|, i => if i == 0 then stack else []))
  }

  lemma DressedDecodes(tx: Transaction)
    requires tx.inputs != []
    ensures WitnessEnvelope(Dressed(tx)).Some? && WitnessEnvelope(Dressed(tx)).value.payloads != []
  {
    var stack := Dressed(tx).witnesses[0];
    assert |stack| == 4 && stack[0] == OCS2() != OCSV();
    assert stack[1..2] == [stack[1]] && |stack[1]| == 24;
  }

  lemma DressedShows(crypto: Crypto, txs: seq<Transaction>, height: nat, k: nat, tx: Transaction)
    returns (e: ScannedAnchor)
    requires k < |txs| && CarriesBatchHeader(tx) && txs[k] == Dressed(tx)
    ensures e in CandidatesFrom(crypto, txs, height, 0) && e.batch.Some?
  {
    hide FromBytes, FirstPayload, Txid, FundingCtx, WitnessEnvelope;
    DressedDecodes(tx);
    assert IsCoinbase(Dressed(tx)) == IsCoinbase(tx);
    e := TransactionCandidates(crypto, txs[k], height, k)[0];
    CandidateOf(crypto, txs, height, 0, k, e);
  }

  lemma {:induction false} CandidateOf(crypto: Crypto, txs: seq<Transaction>, height: nat, position: nat, k: nat,
                                       e: ScannedAnchor)
    requires position <= k < |txs| && e in TransactionCandidates(crypto, txs[k], height, k)
    ensures e in CandidatesFrom(crypto, txs, height, position)
    decreases k - position
  {
    hide TransactionCandidates;
    if position < k {
      CandidateOf(crypto, txs, height, position + 1, k, e);
    }
  }

  /**
   * Batch members are not pinned: a block with its witnesses withheld has the same
   * merkle root, and no nullifier binds a batch header of it.
   */
  lemma WithheldWitnessesPass(crypto: Crypto, block: Block, height: nat, rawNf: Hash)
    ensures var bare := Block(block.header, StripAll(block.txs));
            && Txids(crypto.sha256d, bare.txs) == Txids(crypto.sha256d, block.txs)
            && forall e | e in Candidates(crypto, bare, height) :: e.batch == None && (!Solo()(e) ==> !Binds(crypto, e, rawNf))
  {
    hide FromBytes, FirstPayload;
    var bare := StripAll(block.txs);
    forall i | 0 <= i < |bare| ensures Txids(crypto.sha256d, bare)[i] == Txids(crypto.sha256d, block.txs)[i] {
      assert LegacyBytes(bare[i]) == LegacyBytes(block.txs[i]);
    }
    assert Txids(crypto.sha256d, bare) == Txids(crypto.sha256d, block.txs);
    NoBatches(crypto, bare, height, 0);
  }

  function StripAll(txs: seq<Transaction>): (r: seq<Transaction>)
    ensures |r| == |txs|
  {
    seq(|txs|, i requires 0 <= i < |txs| => Stripped(txs[i]))
  }

  lemma {:induction false} NoBatches(crypto: Crypto, txs: seq<Transaction>, height: nat, position: nat)
    requires position <= |txs|
    requires forall i | 0 <= i < |txs| :: txs[i].witnesses == []
    ensures forall e | e in CandidatesFrom(crypto, txs, height, position) :: e.batch == None
    decreases |txs| - position
  {
    hide FromBytes, FirstPayload;
    if position < |txs| {
      NoBatches(crypto, txs, height, position + 1);
    }
  }
}
