/**
 * What a restart does to the scan index: the records come back as they read once
 * written. Everything a sync does to the cache ignores the difference.
 */
module Restarts {
  import opened Wrappers
  import opened Wire
  import opened Lists
  import opened Block
  import opened Anchors
  import opened FullScan
  import opened ScanIndexes
  import opened Gcs

  /** A record written to the index file and parsed again. */
  function Reread(e: ScannedAnchor): ScannedAnchor {
    e.(record := FromBytes(ToBytes(e.record)))
  }

  function RereadAll(entries: seq<ScannedAnchor>): (r: seq<ScannedAnchor>)
    ensures |r| == |entries|
  {
    seq(|entries|, i requires 0 <= i < |entries| => Reread(entries[i]))
  }

  /** The cache after saving and loading. */
  function Reload(s: IndexState): IndexState {
    s.(occurrences := RereadAll(s.occurrences))
  }

  ghost predicate AllStable(entries: seq<ScannedAnchor>) {
    forall e | e in entries :: Stable(e.record)
  }

  /** A restart leaves the cache alone exactly when every record in it re-reads as itself. */
  lemma ReloadIsIdentityIff(s: IndexState)
    ensures Reload(s) == s <==> AllStable(s.occurrences)
  {
    hide FromBytes, ToBytes;
    if Reload(s) == s {
      forall e | e in s.occurrences ensures Stable(e.record) {
        var i :| 0 <= i < |s.occurrences| && s.occurrences[i] == e;
        assert RereadAll(s.occurrences)[i] == Reread(e);
      }
    }
    if AllStable(s.occurrences) {
      StableReread(s.occurrences);
    }
  }

  lemma StableReread(entries: seq<ScannedAnchor>)
    requires AllStable(entries)
    ensures RereadAll(entries) == entries
  {
    hide FromBytes, ToBytes;
    forall i | 0 <= i < |entries| ensures RereadAll(entries)[i] == entries[i] {
      assert entries[i] in entries;
    }
  }

  lemma RereadConcat(a: seq<ScannedAnchor>, b: seq<ScannedAnchor>)
    ensures RereadAll(a + b) == RereadAll(a) + RereadAll(b)
  {
    hide FromBytes, ToBytes;
  }

  /** A second restart changes nothing more. */
  lemma RereadOnce(e: ScannedAnchor)
    ensures Reread(Reread(e)) == Reread(e)
  {
    hide FromBytes, ToBytes;
    WrittenOnce(e.record);
  }

  /**
   * When a restart does change a cache: a transfer whose bound payload starts with the
   * mint tag, in an output whose last bytes are not zero, binds its nullifier as
   * scanned and binds nothing once the cache has been saved and loaded.
   */
  lemma RestartForgetsOccurrence(crypto: Crypto, b: Record64, e: ScannedAnchor, rawNf: Hash, other: Hash)
    requires e.record == FromBytes(b) && e.batch == None
    requires b[0] == TAG_MINT && !AllZero(b[57..])
    requires b[..24] == crypto.bind(rawNf, e.ctx)
    ensures Binds(crypto, e, rawNf)
    ensures !Binds(crypto, Reread(e), other)
  {
    var w := ToBytes(e.record);
    assert e.record == Xfer(b[0..24], b[24..48]);
    assert w[57..] == Zeros(7);
    assert b[0..24] == b[..24];
  }

  // -- caches that went through restarts ---------------------------------------------------

  /** `a` is `b`, once `restarted` with any of its records as re-read. */
  ghost predicate Aged(a: seq<ScannedAnchor>, b: seq<ScannedAnchor>, restarted: bool) {
    && |a| == |b|
    && forall i | 0 <= i < |a| :: a[i] == b[i] || (restarted && a[i] == Reread(b[i]))
  }

  ghost predicate AgedState(a: IndexState, b: IndexState, restarted: bool) {
    && a.fromHeight == b.fromHeight && a.syncedTip == b.syncedTip && a.chainHashes == b.chainHashes
    && Aged(a.occurrences, b.occurrences, restarted)
  }

  /** However old, the cache loads as the original would, and is the original if nothing in that is unstable. */
  lemma AgedMeans(a: IndexState, b: IndexState, restarted: bool)
    requires AgedState(a, b, restarted)
    ensures Reload(a) == Reload(b)
    ensures !restarted || AllStable(b.occurrences) ==> a == b
  {
    hide FromBytes, ToBytes;
    forall i | 0 <= i < |a.occurrences|
      ensures Reread(a.occurrences[i]) == Reread(b.occurrences[i])
      ensures AllStable(b.occurrences) ==> a.occurrences[i] == b.occurrences[i] {
      RereadOnce(b.occurrences[i]);
      assert b.occurrences[i] in b.occurrences;
    }
    if !restarted || AllStable(b.occurrences) {
      assert a.occurrences == b.occurrences;
    }
  }

  lemma AgedReload(a: IndexState, b: IndexState, restarted: bool)
    requires AgedState(a, b, restarted)
    ensures AgedState(Reload(a), b, true)
  {
    hide FromBytes, ToBytes;
    forall i | 0 <= i < |a.occurrences| ensures Reread(a.occurrences[i]) == Reread(b.occurrences[i]) {
      RereadOnce(b.occurrences[i]);
    }
  }

  // -- a sync cannot tell --------------------------------------------------------------------

  lemma {:induction false} AgedBelow(a: seq<ScannedAnchor>, b: seq<ScannedAnchor>, restarted: bool, height: nat)
    requires Aged(a, b, restarted)
    ensures Aged(Filter(a, AtOrBelow(height)), Filter(b, AtOrBelow(height)), restarted)
  {
    hide Reread, Filter;
    var p := AtOrBelow(height);
    if a == [] {
      FilterNone(a, p);
      FilterNone(b, p);
    } else {
      AgedBelow(a[1..], b[1..], restarted, height);
      RereadPlace(b[0]);
      FilterHead(a, p);
      FilterHead(b, p);
    }
  }

  lemma {:induction false} SameAncestor(a: IndexState, b: IndexState, canonical: seq<Hash>, height: nat)
    requires height < |canonical| && a.fromHeight == b.fromHeight > 0 && a.chainHashes == b.chainHashes
    ensures Ancestor(a, canonical, height) == Ancestor(b, canonical, height)
    decreases height
  {
    if height >= a.fromHeight && height - a.fromHeight < |a.chainHashes| {
      SameAncestor(a, b, canonical, height - 1);
    }
  }

  lemma AgedReconcile(a: IndexState, b: IndexState, restarted: bool, canonical: seq<Hash>)
    requires AgedState(a, b, restarted) && canonical != [] && a.fromHeight > 0
    ensures Reconcile(a, canonical).Some? <==> Reconcile(b, canonical).Some?
    ensures Reconcile(a, canonical).Some? ==>
              AgedState(Reconcile(a, canonical).value, Reconcile(b, canonical).value, restarted)
  {
    hide Reread, Filter;
    var top := Least(a.syncedTip, |canonical| - 1);
    SameAncestor(a, b, canonical, top);
    if Ancestor(a, canonical, top).Some? {
      AgedBelow(a.occurrences, b.occurrences, restarted, Ancestor(a, canonical, top).value);
    }
  }

  lemma {:induction false} AgedScanUp(crypto: Crypto, sip: SipHash, client: Client, a: IndexState, b: IndexState,
                                      restarted: bool, height: nat)
    requires AgedState(a, b, restarted)
    ensures ScanUp(crypto, sip, client, a, height).ok == ScanUp(crypto, sip, client, b, height).ok
    ensures AgedState(ScanUp(crypto, sip, client, a, height).state, ScanUp(crypto, sip, client, b, height).state, restarted)
    decreases |client.hashes| - height
  {
    hide Reread, ScanHeight;
    if height < |client.hashes| && ScanHeight(crypto, sip, client, height).Some? {
      var found, hash := ScanHeight(crypto, sip, client, height).value, client.hashes[height];
      AgedScanUp(crypto, sip, client, Record(a, hash, height, found), Record(b, hash, height, found), restarted, height + 1);
    }
  }

  /** A sync never looks at a record it has cached: it does the same to both. */
  lemma AgedSync(crypto: Crypto, sip: SipHash, client: Client, a: IndexState, b: IndexState, from: nat, restarted: bool)
    requires AgedState(a, b, restarted) && client.hashes != []
    ensures Sync(crypto, sip, client, a, from).ok == Sync(crypto, sip, client, b, from).ok
    ensures AgedState(Sync(crypto, sip, client, a, from).state, Sync(crypto, sip, client, b, from).state, restarted)
  {
    hide Aged, Reconcile, ScanUp;
    var x, y := Born(a, from), Born(b, from);
    AgedReconcile(x, y, restarted, client.hashes);
    if Reconcile(x, client.hashes).Some? {
      var cut := Reconcile(x, client.hashes).value;
      AgedScanUp(crypto, sip, client, cut, Reconcile(y, client.hashes).value, restarted,
                 Greatest(cut.syncedTip + 1, cut.fromHeight));
    }
  }

  // -- answers of an aged cache ----------------------------------------------------------------

  /** The nullifier binds the same of these records before and after a restart. */
  ghost predicate BindsAlike(crypto: Crypto, entries: seq<ScannedAnchor>, rawNf: Hash) {
    forall e | e in entries :: Binds(crypto, Reread(e), rawNf) <==> Binds(crypto, e, rawNf)
  }

  /** What the scanners produce: no compressed transfers, and batch members only under a batch header. */
  predicate Scannable(e: ScannedAnchor) {
    !e.record.XferCompressed? && (e.batch.Some? ==> e.record.BatchHeader?)
  }

  /** A transfer whose first 48 bytes read as a tagged record once the others are zero. */
  predicate LooksTagged(first: Payload, second: Payload) {
    first[0] in {TAG_MINT, TAG_REDEEM} || (first[0] == TAG_BATCH && AllZero((first + second)[26..]))
  }

  /**
   * The nullifier binds the record only before a re-read or only after one. It is then a
   * transfer that will read as a tagged record: bound by one of its own payloads, or,
   * tagged as a redemption, by the payload the shifted fields leave.
   */
  predicate BindsOnce(crypto: Crypto, e: ScannedAnchor, rawNf: Hash) {
    match e.record
    case Xfer(first, second) =>
      var bound := crypto.bind(rawNf, e.ctx);
      && LooksTagged(first, second)
      && (bound == first || bound == second) != (first[0] == TAG_REDEEM && bound == second[9..] + Zeros(9))
    case _ => false
  }

  ghost predicate NoneBindsOnce(crypto: Crypto, entries: seq<ScannedAnchor>, rawNf: Hash) {
    forall e | e in entries :: !BindsOnce(crypto, e, rawNf)
  }

  /** What a transfer reads as after it was written. */
  lemma XferReread(first: Payload, second: Payload)
    ensures var r := FromBytes(ToBytes(Xfer(first, second)));
            if first[0] == TAG_MINT then r.Mint?
            else if first[0] == TAG_REDEEM then r.Redeem? && r.payload == second[9..] + Zeros(9)
            else if LooksTagged(first, second) then r.BatchHeader?
            else r == Xfer(first, second)
  {
    hide AmountOf;
    var w := ToBytes(Xfer(first, second));
    XferStable(first, second);
    assert w[57..] == Zeros(7);
    assert w[33..57] == second[9..] + Zeros(9);
    assert w[26..] == (first + second)[26..] + Zeros(16);
    AllZeroConcat((first + second)[26..], Zeros(16));
  }

  /** Exactly the records whose own bytes say so bind differently after a re-read. */
  lemma BindsOnceIff(crypto: Crypto, e: ScannedAnchor, rawNf: Hash)
    requires Scannable(e)
    ensures BindsOnce(crypto, e, rawNf) <==> Binds(crypto, Reread(e), rawNf) != Binds(crypto, e, rawNf)
  {
    hide FromBytes, ToBytes, LooksTagged;
    match e.record
    case Mint(id, amount, payload) => MintStable(id, amount, payload);
    case Redeem(id, amount, payload) => RedeemStable(id, amount, payload);
    case BatchHeader(count, payload) => BatchStable(count, payload);
    case Xfer(first, second) =>
      XferReread(first, second);
      TaggedFirst(first, second);
    case XferCompressed(_) =>
      assert false;
  }

  lemma TaggedFirst(first: Payload, second: Payload)
    ensures first[0] in {TAG_MINT, TAG_REDEEM} ==> LooksTagged(first, second)
  {
  }

  lemma AlikeIff(crypto: Crypto, entries: seq<ScannedAnchor>, rawNf: Hash)
    requires forall e | e in entries :: Scannable(e)
    ensures BindsAlike(crypto, entries, rawNf) <==> NoneBindsOnce(crypto, entries, rawNf)
  {
    hide Reread, Binds, BindsOnce, Scannable;
    forall e | e in entries
      ensures BindsOnce(crypto, e, rawNf) <==> Binds(crypto, Reread(e), rawNf) != Binds(crypto, e, rawNf) {
      BindsOnceIff(crypto, e, rawNf);
    }
  }

  /** Re-reading leaves a record one the scanners could have produced. */
  lemma RereadScannable(e: ScannedAnchor)
    requires Scannable(e)
    ensures Scannable(Reread(e))
  {
    hide ToBytes;
    if e.record.BatchHeader? {
      BatchStable(e.record.count, e.record.batchCommit);
    }
  }

  lemma ScannedIsScannable(e: ScannedAnchor, height: nat)
    requires Scanned(e, height)
    ensures Scannable(e)
  {
  }

  /** Position by position, the same place and context. */
  ghost predicate SamePlaces(a: seq<ScannedAnchor>, b: seq<ScannedAnchor>) {
    |a| == |b| && forall i | 0 <= i < |a| :: a[i].location == b[i].location && a[i].ctx == b[i].ctx
  }

  lemma {:induction false} SameEarliest(a: seq<ScannedAnchor>, b: seq<ScannedAnchor>)
    requires SamePlaces(a, b)
    ensures Earliest(a) == Earliest(b)
    decreases |a|
  {
    if a != [] {
      SameEarliest(a[..|a| - 1], b[..|b| - 1]);
    }
  }

  lemma {:induction false} AgedFilter(a: seq<ScannedAnchor>, b: seq<ScannedAnchor>, p: ScannedAnchor -> bool)
    requires Aged(a, b, true) && forall e | e in b :: p(Reread(e)) == p(e)
    ensures SamePlaces(Filter(a, p), Filter(b, p))
  {
    hide Reread, Filter, SamePlaces;
    if a == [] {
      NoPlaces(a, b, p);
    } else {
      assert b[0] in b && forall e | e in b[1..] :: e in b;
      AgedFilter(a[1..], b[1..], p);
      RereadPlace(b[0]);
      FilterHead(a, p);
      FilterHead(b, p);
      if p(b[0]) {
        OneMorePlace(a[0], b[0], Filter(a[1..], p), Filter(b[1..], p));
      }
    }
  }

  lemma NoPlaces(a: seq<ScannedAnchor>, b: seq<ScannedAnchor>, p: ScannedAnchor -> bool)
    requires a == b == []
    ensures SamePlaces(Filter(a, p), Filter(b, p))
  {
  }

  lemma OneMorePlace(x: ScannedAnchor, y: ScannedAnchor, a: seq<ScannedAnchor>, b: seq<ScannedAnchor>)
    requires x.location == y.location && x.ctx == y.ctx && SamePlaces(a, b)
    ensures SamePlaces([x] + a, [y] + b)
  {
  }

  lemma RereadPlace(e: ScannedAnchor)
    ensures Reread(e).location == e.location && Reread(e).ctx == e.ctx
  {
  }

  /** An aged cache gives the answers of the original about every nullifier that binds alike in the window. */
  lemma AgedCheck(crypto: Crypto, a: IndexState, b: IndexState, rawNf: Hash, birth: nat, spend: nat)
    requires AgedState(a, b, true)
    requires BindsAlike(crypto, Filter(b.occurrences, InWindow(birth, spend)), rawNf)
    ensures Check(crypto, a, rawNf, birth, spend) == Check(crypto, b, rawNf, birth, spend)
  {
    hide FromBytes, ToBytes, Binds, Filter, Earliest;
    var p := BindsWithin(crypto, rawNf, birth, spend);
    forall e | e in b.occurrences ensures p(Reread(e)) == p(e) {
      if InWindow(birth, spend)(e) {
        assert e in Filter(b.occurrences, InWindow(birth, spend));
      }
    }
    AgedFilter(a.occurrences, b.occurrences, p);
    SameEarliest(Filter(a.occurrences, p), Filter(b.occurrences, p));
  }
}
