/**
 * What the scan index is for: over every run, through any reorganisations, failures
 * and restarts, it is the scan from scratch of its chain and answers as the
 * brute-force scan would.
 */
module ScanRuns {
  import opened Wrappers
  import opened Wire
  import opened Lists
  import opened Block
  import opened Anchors
  import opened FullScan
  import opened ScanIndexes
  import opened ScanAnswers
  import opened Restarts
  import opened Gcs
  import HeaderChains

  /** The cache in memory and the file on disk. */
  datatype Machine = Machine(memory: IndexState, disk: Option<IndexState>)

  /**
   * A sync against a client (`saved` says whether writing the file worked), or a
   * process restart. `headers` is the linked chain behind the client's hashes.
   */
  datatype Event =
    | SyncWith(client: Client, headers: seq<BlockHeader>, from: nat, saved: bool)
    | Restart

  function SyncOutcome(crypto: Crypto, sip: SipHash, m: Machine, ev: Event): Outcome
    requires ev.SyncWith? && ev.client.hashes != []
  {
    Sync(crypto, sip, ev.client, m.memory, ev.from)
  }

  function Step(crypto: Crypto, sip: SipHash, m: Machine, ev: Event): Machine
    requires ev.SyncWith? ==> ev.client.hashes != []
  {
    match ev
    case Restart => Machine(if m.disk.None? then FRESH else Reload(m.disk.value), m.disk)
    case SyncWith(_, _, _, saved) =>
      var o := SyncOutcome(crypto, sip, m, ev);
      Machine(o.state, if o.ok && saved then Some(o.state) else m.disk)
  }

  /** The machine after the first `n` events, from a machine with no file. */
  function After(crypto: Crypto, sip: SipHash, events: seq<Event>, n: nat): Machine
    requires n <= |events|
    requires forall i | 0 <= i < n :: events[i].SyncWith? ==> events[i].client.hashes != []
  {
    if n == 0 then Machine(FRESH, None) else Step(crypto, sip, After(crypto, sip, events, n - 1), events[n - 1])
  }

  predicate AnyRestart(events: seq<Event>, n: nat)
    requires n <= |events|
  {
    exists i | 0 <= i < n :: events[i].Restart?
  }

  ghost predicate GoodSync(crypto: Crypto, world: World, ev: Event) {
    ev.SyncWith? ==>
      && ev.client.hashes != []
      && ev.headers != [] && HeaderChains.Linked(crypto.sha256d, ev.headers)
      && ev.client.hashes == HeaderChains.Hashes(crypto.sha256d, ev.headers)
      && Faithful(world, ev.client)
  }

  /** Clients show linked chains, arbitrarily reorganised between events; no two headers collide. */
  ghost predicate GoodRun(crypto: Crypto, world: World, events: seq<Event>) {
    && (forall i | 0 <= i < |events| :: GoodSync(crypto, world, events[i]))
    && (forall i, j | 0 <= i < |events| && 0 <= j < |events| && events[i].SyncWith? && events[j].SyncWith? ::
          HeaderChains.NoHeaderCollision(crypto.sha256d, events[i].headers, events[j].headers))
  }

  // -- what memory and disk hold ---------------------------------------------------------------

  /** The cache with every record as it was scanned. */
  function Original(crypto: Crypto, sip: SipHash, world: World, s: IndexState, hashes: seq<Hash>): IndexState {
    s.(occurrences := if s.syncedTip < s.fromHeight || s.syncedTip >= |hashes| then []
                      else Indexed(crypto, sip, world, hashes, s.fromHeight, s.syncedTip + 1))
  }

  /** The cache is a scan of `hashes` from its birth height up to its tip, aged by restarts if there were any. */
  ghost predicate ReflectsAged(crypto: Crypto, sip: SipHash, world: World, s: IndexState, hashes: seq<Hash>,
                               restarted: bool) {
    && Reflects(crypto, sip, world, Original(crypto, sip, world, s, hashes), hashes)
    && AgedState(s, Original(crypto, sip, world, s, hashes), restarted)
  }

  lemma AgedReflects(crypto: Crypto, sip: SipHash, world: World, s: IndexState, t: IndexState, hashes: seq<Hash>,
                     restarted: bool)
    requires Reflects(crypto, sip, world, t, hashes) && AgedState(s, t, restarted)
    ensures Original(crypto, sip, world, s, hashes) == t
    ensures ReflectsAged(crypto, sip, world, s, hashes, restarted)
  {
    hide Indexed, Aged;
  }

  /** `s` is untouched, or a scan of a chain seen before event `n`. */
  ghost predicate Explained(crypto: Crypto, sip: SipHash, world: World, events: seq<Event>, n: nat, s: IndexState)
    requires n <= |events|
  {
    s == FRESH || exists i :: 0 <= i < n && events[i].SyncWith?
                              && ReflectsAged(crypto, sip, world, s, events[i].client.hashes, AnyRestart(events, n))
  }

  lemma SyncFromExplained(crypto: Crypto, sip: SipHash, world: World, events: seq<Event>, n: nat, s: IndexState)
    requires GoodRun(crypto, world, events) && n < |events| && events[n].SyncWith?
    requires Explained(crypto, sip, world, events, n, s)
    ensures var client := events[n].client;
            var birth := if s == FRESH then Greatest(events[n].from, 1) else s.fromHeight;
            && client.hashes != [] && birth > 0
            && var o := Sync(crypto, sip, client, s, events[n].from);
               ReflectsAged(crypto, sip, world, o.state, client.hashes, AnyRestart(events, n))
               && (o.ok ==>
                    AgedState(o.state, ScanFromScratch(crypto, sip, world, client.hashes, birth), AnyRestart(events, n)))
  {
    hide Sync, Reflects, Faithful, HeaderChains.Linked, HeaderChains.NoHeaderCollision, HeaderHash, Original, AgedState,
         ForksForGood, ScanFromScratch, AnyRestart;
    var now := events[n];
    assert GoodSync(crypto, world, now);
    var was: seq<Hash> := [];
    var t := s;
    NotAged(s, AnyRestart(events, n));
    if s != FRESH {
      var i :| 0 <= i < n && events[i].SyncWith?
               && ReflectsAged(crypto, sip, world, s, events[i].client.hashes, AnyRestart(events, n));
      assert GoodSync(crypto, world, events[i]);
      LinkedChainsFork(crypto.sha256d, events[i].headers, now.headers);
      was := events[i].client.hashes;
      t := Original(crypto, sip, world, s, was);
      ReflectsBirth(crypto, sip, world, t, was);
      SameBirth(s, t, AnyRestart(events, n));
    }
    SyncIsScanFromScratch(crypto, sip, world, now.client, t, was, now.from);
    AgedSync(crypto, sip, now.client, s, t, now.from, AnyRestart(events, n));
    var o, p := Sync(crypto, sip, now.client, s, now.from), Sync(crypto, sip, now.client, t, now.from);
    AgedReflects(crypto, sip, world, o.state, p.state, now.client.hashes, AnyRestart(events, n));
  }

  lemma NotAged(s: IndexState, restarted: bool)
    ensures AgedState(s, s, restarted)
  {
  }

  lemma SameBirth(s: IndexState, t: IndexState, restarted: bool)
    requires AgedState(s, t, restarted) && t.fromHeight > 0
    ensures s.fromHeight == t.fromHeight && t != FRESH
  {
  }

  lemma ReflectsBirth(crypto: Crypto, sip: SipHash, world: World, s: IndexState, hashes: seq<Hash>)
    requires Reflects(crypto, sip, world, s, hashes)
    ensures s.fromHeight > 0
  {
    hide Indexed;
  }

  lemma AgesFurther(crypto: Crypto, sip: SipHash, world: World, s: IndexState, hashes: seq<Hash>, restarted: bool,
                    later: bool)
    requires ReflectsAged(crypto, sip, world, s, hashes, restarted) && (restarted ==> later)
    ensures ReflectsAged(crypto, sip, world, s, hashes, later)
  {
    hide Reflects, Original, Reread;
  }

  lemma ExplainedLater(crypto: Crypto, sip: SipHash, world: World, events: seq<Event>, n: nat, s: IndexState)
    requires n < |events| && Explained(crypto, sip, world, events, n, s)
    ensures Explained(crypto, sip, world, events, n + 1, s)
  {
    hide ReflectsAged;
    if s != FRESH {
      var i :| 0 <= i < n && events[i].SyncWith?
               && ReflectsAged(crypto, sip, world, s, events[i].client.hashes, AnyRestart(events, n));
      AgesFurther(crypto, sip, world, s, events[i].client.hashes, AnyRestart(events, n), AnyRestart(events, n + 1));
    }
  }

  /** Reloading an explained cache is a restart it survives. */
  lemma ExplainedReload(crypto: Crypto, sip: SipHash, world: World, events: seq<Event>, n: nat, s: IndexState)
    requires n < |events| && events[n].Restart? && Explained(crypto, sip, world, events, n, s)
    ensures Explained(crypto, sip, world, events, n + 1, Reload(s))
  {
    hide Reflects, Reload, AgedState;
    if s == FRESH {
      NothingToReload();
    } else {
      var i :| 0 <= i < n && events[i].SyncWith?
               && ReflectsAged(crypto, sip, world, s, events[i].client.hashes, AnyRestart(events, n));
      var hashes := events[i].client.hashes;
      AgedReload(s, Original(crypto, sip, world, s, hashes), AnyRestart(events, n));
      AgedReflects(crypto, sip, world, Reload(s), Original(crypto, sip, world, s, hashes), hashes, true);
      assert AnyRestart(events, n + 1);
    }
  }

  lemma NothingToReload()
    ensures Reload(FRESH) == FRESH
  {
  }

  /** Memory and disk always hold a scan of some chain the machine was shown, up to the restarts since. */
  lemma {:induction false} EveryStateExplained(crypto: Crypto, sip: SipHash, world: World, events: seq<Event>, n: nat)
    requires GoodRun(crypto, world, events) && n <= |events|
    ensures forall i | 0 <= i < n :: events[i].SyncWith? ==> events[i].client.hashes != []
    ensures var m := After(crypto, sip, events, n);
            && Explained(crypto, sip, world, events, n, m.memory)
            && (m.disk.Some? ==> Explained(crypto, sip, world, events, n, m.disk.value))
  {
    hide ReflectsAged, Faithful, HeaderChains.Linked, HeaderChains.NoHeaderCollision, HeaderHash, Sync, Explained, Reload;
    forall i | 0 <= i < n && events[i].SyncWith? ensures events[i].client.hashes != [] {
      assert GoodSync(crypto, world, events[i]);
    }
    FreshExplained(crypto, sip, world, events, n);
    if n > 0 {
      EveryStateExplained(crypto, sip, world, events, n - 1);
      var m := After(crypto, sip, events, n - 1);
      ExplainedLater(crypto, sip, world, events, n - 1, m.memory);
      if m.disk.Some? {
        ExplainedLater(crypto, sip, world, events, n - 1, m.disk.value);
      }
      if events[n - 1].SyncWith? {
        SyncFromExplained(crypto, sip, world, events, n - 1, m.memory);
        ExplainedNow(crypto, sip, world, events, n, SyncOutcome(crypto, sip, m, events[n - 1]).state);
      } else if m.disk.Some? {
        ExplainedReload(crypto, sip, world, events, n - 1, m.disk.value);
      }
    }
  }

  lemma FreshExplained(crypto: Crypto, sip: SipHash, world: World, events: seq<Event>, n: nat)
    requires n <= |events|
    ensures Explained(crypto, sip, world, events, n, FRESH)
  {
  }

  lemma ExplainedNow(crypto: Crypto, sip: SipHash, world: World, events: seq<Event>, n: nat, s: IndexState)
    requires 0 < n <= |events| && events[n - 1].SyncWith?
    requires ReflectsAged(crypto, sip, world, s, events[n - 1].client.hashes, AnyRestart(events, n - 1))
    ensures Explained(crypto, sip, world, events, n, s)
  {
    hide ReflectsAged;
    AgesFurther(crypto, sip, world, s, events[n - 1].client.hashes, AnyRestart(events, n - 1), AnyRestart(events, n));
  }

  /** Whatever a run can leave behind: nothing yet, or a scan of some chain aged by restarts. */
  ghost predicate Reachable(crypto: Crypto, sip: SipHash, world: World, s: IndexState) {
    s == FRESH || exists hashes, restarted :: ReflectsAged(crypto, sip, world, s, hashes, restarted)
  }

  lemma EveryStateReachable(crypto: Crypto, sip: SipHash, world: World, events: seq<Event>, n: nat)
    requires GoodRun(crypto, world, events) && n <= |events|
    ensures forall i | 0 <= i < n :: events[i].SyncWith? ==> events[i].client.hashes != []
    ensures var m := After(crypto, sip, events, n);
            && Reachable(crypto, sip, world, m.memory)
            && (m.disk.Some? ==> Reachable(crypto, sip, world, m.disk.value))
  {
    hide GoodRun, ReflectsAged, Step;
    EveryStateExplained(crypto, sip, world, events, n);
  }

  /** Every record of a reachable cache is one the scanners produce. */
  lemma ReachableScannable(crypto: Crypto, sip: SipHash, world: World, s: IndexState)
    requires Reachable(crypto, sip, world, s)
    ensures forall e | e in s.occurrences :: Scannable(e)
  {
    hide Scanned, Scannable, Reread, Indexed;
    if s != FRESH {
      var hashes, restarted :| ReflectsAged(crypto, sip, world, s, hashes, restarted);
      var t := Original(crypto, sip, world, s, hashes);
      if s.syncedTip >= s.fromHeight {
        IndexedScannable(crypto, sip, world, hashes, s.fromHeight, s.syncedTip + 1);
      }
      forall e | e in s.occurrences ensures Scannable(e) {
        var i :| 0 <= i < |s.occurrences| && s.occurrences[i] == e;
        assert t.occurrences[i] in t.occurrences;
        RereadScannable(t.occurrences[i]);
      }
    }
  }

  lemma IndexedScannable(crypto: Crypto, sip: SipHash, world: World, hashes: seq<Hash>, from: nat, end: nat)
    requires end <= |hashes|
    ensures forall e | e in Indexed(crypto, sip, world, hashes, from, end) :: Scannable(e)
  {
    hide Scanned, Scannable, Indexed, InOrder;
    IndexedShape(crypto, sip, world, hashes, from, end);
    forall e | e in Indexed(crypto, sip, world, hashes, from, end) ensures Scannable(e) {
      ScannedIsScannable(e, e.location.height);
    }
  }

  // -- the two main results ------------------------------------------------------------------------

  /**
   * Over every run of syncs and restarts, through any reorganisations and failures, a
   * successful sync leaves the scan from scratch of the chain it saw: birth, tip and
   * lineage exactly, and every record as scanned or, after a restart, as re-read.
   * Without a restart, or with nothing unstable to re-read, it is exactly that scan.
   */
  lemma EverySyncIsScanFromScratch(crypto: Crypto, sip: SipHash, world: World, events: seq<Event>, n: nat)
    requires GoodRun(crypto, world, events) && n < |events| && events[n].SyncWith?
    ensures forall i | 0 <= i < n :: events[i].SyncWith? ==> events[i].client.hashes != []
    ensures var memory := After(crypto, sip, events, n).memory;
            var client := events[n].client;
            var birth := if memory == FRESH then Greatest(events[n].from, 1) else memory.fromHeight;
            && client.hashes != [] && birth > 0
            && var o := Sync(crypto, sip, client, memory, events[n].from);
               var scan := ScanFromScratch(crypto, sip, world, client.hashes, birth);
               o.ok ==>
                 && AgedState(o.state, scan, AnyRestart(events, n))
                 && Reload(o.state) == Reload(scan)
                 && (!AnyRestart(events, n) || AllStable(scan.occurrences) ==> o.state == scan)
  {
    hide Sync, ScanFromScratch, GoodRun, Explained, AgedState, Reload, AllStable, AnyRestart, ReflectsAged;
    EveryStateExplained(crypto, sip, world, events, n);
    var memory := After(crypto, sip, events, n).memory;
    SyncFromExplained(crypto, sip, world, events, n, memory);
    var client := events[n].client;
    var birth := if memory == FRESH then Greatest(events[n].from, 1) else memory.fromHeight;
    var o := Sync(crypto, sip, client, memory, events[n].from);
    if o.ok {
      AgedMeans(o.state, ScanFromScratch(crypto, sip, world, client.hashes, birth), AnyRestart(events, n));
    }
  }

  /**
   * And so, over every run, the local check after a sync is the brute-force answer: for
   * any window the cache covers in which filters are honest and anchors marked, and any
   * nullifier that, if there was a restart, binds no record of the window only before
   * or only after a re-read.
   */
  lemma EveryCheckIsFullScan(crypto: Crypto, sip: SipHash, world: World, events: seq<Event>, n: nat, rawNf: Hash,
                             birth: nat, spend: nat)
    requires GoodRun(crypto, world, events) && 0 < n <= |events| && events[n - 1].SyncWith?
    requires var s := After(crypto, sip, events, n).memory; s.fromHeight <= birth <= spend <= s.syncedTip
    ensures spend < |events[n - 1].client.hashes|
    ensures var hashes := events[n - 1].client.hashes;
            var all := AllCandidates(crypto, world, hashes, birth, spend + 1);
            HonestWindow(crypto, sip, world, hashes, birth, spend)
            && (AnyRestart(events, n) ==> NoneBindsOnce(crypto, all, rawNf)) ==>
              Check(crypto, After(crypto, sip, events, n).memory, rawNf, birth, spend)
              == FirstOccurrence(crypto, all, rawNf)
  {
    hide ReflectsAged, Explained, Sync, Faithful, HeaderChains.Linked, HeaderChains.NoHeaderCollision, HeaderHash,
         HonestWindow, NoneBindsOnce, Check, FirstOccurrence, AllCandidates;
    EveryStateExplained(crypto, sip, world, events, n - 1);
    var m := After(crypto, sip, events, n - 1);
    SyncFromExplained(crypto, sip, world, events, n - 1, m.memory);
    var s, hashes := SyncOutcome(crypto, sip, m, events[n - 1]).state, events[n - 1].client.hashes;
    assert AnyRestart(events, n) == AnyRestart(events, n - 1);
    AgedAnswers(crypto, sip, world, s, hashes, AnyRestart(events, n), rawNf, birth, spend);
  }

  lemma AgedAnswers(crypto: Crypto, sip: SipHash, world: World, s: IndexState, hashes: seq<Hash>, restarted: bool,
                    rawNf: Hash, birth: nat, spend: nat)
    requires ReflectsAged(crypto, sip, world, s, hashes, restarted)
    requires s.fromHeight <= birth <= spend <= s.syncedTip
    ensures spend < |hashes|
    ensures var all := AllCandidates(crypto, world, hashes, birth, spend + 1);
            HonestWindow(crypto, sip, world, hashes, birth, spend) && (restarted ==> NoneBindsOnce(crypto, all, rawNf)) ==>
              Check(crypto, s, rawNf, birth, spend) == FirstOccurrence(crypto, all, rawNf)
  {
    hide Check, FirstOccurrence, AllCandidates, HonestWindow, BindsAlike, NoneBindsOnce, Aged, Indexed, Filter, AllStable;
    var t := Original(crypto, sip, world, s, hashes);
    var all := AllCandidates(crypto, world, hashes, birth, spend + 1);
    if HonestWindow(crypto, sip, world, hashes, birth, spend) && (restarted ==> NoneBindsOnce(crypto, all, rawNf)) {
      CheckIsFullScan(crypto, sip, world, t, hashes, rawNf, birth, spend);
      AgedMeans(s, t, restarted);
      if restarted {
        IndexedWindow(crypto, sip, world, hashes, s.fromHeight, s.syncedTip + 1, birth, spend);
        HonestWindowIsFull(crypto, sip, world, hashes, birth, spend);
        IndexedScannable(crypto, sip, world, hashes, birth, spend + 1);
        AlikeIff(crypto, all, rawNf);
        AgedCheck(crypto, s, t, rawNf, birth, spend);
      }
    }
  }
}
