/**
 * Exporting the scan index as a deduplicated snapshot (`snapshot_entries` of
 * `ffi/src/scan.rs`) and answering from it (`ffi/src/snapshot.rs`). JSON and hex
 * are left to the value level.
 */
module Snapshots {
  import opened Wrappers
  import opened Wire
  import opened Lists
  import opened Sorting
  import opened Block
  import opened Anchors
  import opened FullScan
  import opened ScanIndexes
  import opened Restarts
  import opened ScanRuns

  datatype SnapshotEntry = SnapshotEntry(
    location: AnchorLocation, txid: Hash, ctx: Hash, record: Record64, batch: Option<Envelope>)

  /** An entry after parsing. */
  datatype Entry = Entry(location: AnchorLocation, txid: Hash, record: AnchorRecord, ctx: Hash, batch: Option<Envelope>)

  /** Unmined transactions are referred to by this location. */
  const MEMPOOL: AnchorLocation := AnchorLocation(0, 0)

  // -- export --------------------------------------------------------------------------------

  function Exported(e: ScannedAnchor): SnapshotEntry {
    SnapshotEntry(e.location, e.txid, e.ctx, ToBytes(e.record),
                  if e.batch.None? then None else Some(Envelope(e.batch.value.version, e.batch.value.envelope)))
  }

  /** One entry per location and transaction: the first. */
  function Deduplicated(occurrences: seq<ScannedAnchor>, seen: set<(AnchorLocation, Hash)>): seq<SnapshotEntry>
    decreases |occurrences|
  {
    if occurrences == [] then []
    else
      var e := occurrences[0];
      if (e.location, e.txid) in seen then Deduplicated(occurrences[1..], seen)
      else [Exported(e)] + Deduplicated(occurrences[1..], seen + {(e.location, e.txid)})
  }

  function LocationLe(): (SnapshotEntry, SnapshotEntry) -> bool {
    (a: SnapshotEntry, b: SnapshotEntry) => a.location.AtMost(b.location)
  }

  function EntryLe(): (Entry, Entry) -> bool {
    (a: Entry, b: Entry) => a.location.AtMost(b.location)
  }

  function Export(occurrences: seq<ScannedAnchor>): seq<SnapshotEntry> {
    Sort(Deduplicated(occurrences, {}), LocationLe())
  }

  /** `snapshot_entries` */
  method SnapshotEntries(occurrences: seq<ScannedAnchor>) returns (entries: seq<SnapshotEntry>)
    ensures entries == Export(occurrences)
  {
    hide Exported;
    entries := [];
    var seen: set<(AnchorLocation, Hash)> := {};
    for i := 0 to |occurrences|
      invariant Deduplicated(occurrences, {}) == entries + Deduplicated(occurrences[i..], seen)
    {
      var e := occurrences[i];
      assert occurrences[i..][0] == e && occurrences[i..][1..] == occurrences[i + 1..];
      if (e.location, e.txid) !in seen {
        seen := seen + {(e.location, e.txid)};
        entries := entries + [Exported(e)];
      }
    }
    assert entries + [] == entries;
    entries := Sort(entries, LocationLe());
  }

  // -- load -------------------------------------------------------------------------------------

  /** Does the envelope belong to the batch header? */
  predicate EnvelopeFits(crypto: Crypto, record: AnchorRecord, ctx: Hash, e: Envelope) {
    && record.BatchHeader? && |e.payloads| == record.count
    && crypto.commit(e.version, e.payloads, ctx) == record.batchCommit
  }

  function LoadEntry(crypto: Crypto, s: SnapshotEntry): Option<Entry> {
    var record := FromBytes(s.record);
    if s.batch.Some? && !EnvelopeFits(crypto, record, s.ctx, s.batch.value) then None
    else Some(Entry(s.location, s.txid, record, s.ctx, s.batch))
  }

  function LoadAll(crypto: Crypto, entries: seq<SnapshotEntry>): Option<seq<Entry>> {
    if entries == [] then Some([])
    else
      var first :- LoadEntry(crypto, entries[0]);
      var rest :- LoadAll(crypto, entries[1..]);
      Some([first] + rest)
  }

  /** The chain view of a snapshot: every entry parsed, in chain order. */
  function FromSnapshot(crypto: Crypto, entries: seq<SnapshotEntry>): Option<seq<Entry>> {
    var loaded :- LoadAll(crypto, entries);
    Some(Sort(loaded, EntryLe()))
  }

  /** `SnapshotChain::from_snapshot` */
  method LoadSnapshot(crypto: Crypto, entries: seq<SnapshotEntry>) returns (r: Option<seq<Entry>>)
    ensures r == FromSnapshot(crypto, entries)
  {
    hide LoadEntry, Sort;
    var loaded: seq<Entry> := [];
    AfterNone(LoadAll(crypto, entries));
    for i := 0 to |entries|
      invariant LoadAll(crypto, entries) == After(loaded, LoadAll(crypto, entries[i..]))
    {
      assert entries[i..][0] == entries[i] && entries[i..][1..] == entries[i + 1..];
      var e :- LoadEntry(crypto, entries[i]);
      AfterOne(loaded, e, LoadAll(crypto, entries[i + 1..]));
      loaded := loaded + [e];
    }
    assert loaded + [] == loaded;
    r := Some(Sort(loaded, EntryLe()));
  }

  ghost function After(done: seq<Entry>, pending: Option<seq<Entry>>): Option<seq<Entry>> {
    if pending.None? then None else Some(done + pending.value)
  }

  lemma AfterNone(pending: Option<seq<Entry>>)
    ensures After([], pending) == pending
  {
    if pending.Some? {
      assert [] + pending.value == pending.value;
    }
  }

  lemma AfterOne(done: seq<Entry>, e: Entry, pending: Option<seq<Entry>>)
    ensures After(done, if pending.None? then None else Some([e] + pending.value)) == After(done + [e], pending)
  {
    if pending.Some? {
      assert done + ([e] + pending.value) == done + [e] + pending.value;
    }
  }

  // -- answers ----------------------------------------------------------------------------------------

  /** `entry_matches_nullifier` */
  predicate EntryMatches(crypto: Crypto, e: Entry, rawNf: Hash) {
    match e.batch
    case Some(b) => EnvelopeOccurrence(crypto, b.version, e.record, b.payloads, e.ctx, rawNf).Some?
    case None => WellFormed(crypto, e.record, e.ctx, rawNf)
  }

  function MatchesMined(crypto: Crypto, rawNf: Hash): Entry -> bool {
    (e: Entry) => e.location != MEMPOOL && EntryMatches(crypto, e, rawNf)
  }

  function EntryLocations(entries: seq<Entry>): (r: seq<AnchorLocation>)
    ensures |r| == |entries|
  {
    seq(|entries|, i requires 0 <= i < |entries| => entries[i].location)
  }

  /** `nullifier_occurrences` of a loaded snapshot. */
  function SnapshotOccurrences(crypto: Crypto, entries: seq<Entry>, rawNf: Hash): seq<AnchorLocation> {
    EntryLocations(Filter(entries, MatchesMined(crypto, rawNf)))
  }

  /** `first_nullifier_occurrence` of a loaded snapshot: mined first, then the injected one. */
  function SnapshotFirst(crypto: Crypto, entries: seq<Entry>, rawNf: Hash): Option<AnchorLocation> {
    var mined := SnapshotOccurrences(crypto, entries, rawNf);
    if mined != [] then Some(mined[0])
    else if exists e | e in entries :: e.location == MEMPOOL && EntryMatches(crypto, e, rawNf) then Some(MEMPOOL)
    else None
  }

  predicate LocationOrder(a: AnchorLocation, b: AnchorLocation) {
    a.AtMost(b)
  }

  function AnchorLocations(entries: seq<ScannedAnchor>): (r: seq<AnchorLocation>)
    ensures |r| == |entries|
  {
    seq(|entries|, i requires 0 <= i < |entries| => entries[i].location)
  }

  /** `nullifier_occurrences` of the index. */
  function IndexOccurrences(crypto: Crypto, occurrences: seq<ScannedAnchor>, rawNf: Hash): seq<AnchorLocation> {
    Sort(AnchorLocations(Filter(occurrences, Binding(crypto, rawNf))), LocationOrder)
  }

  function LeastLocation(locations: seq<AnchorLocation>): Option<AnchorLocation> {
    if locations == [] then None
    else
      match LeastLocation(locations[1..])
      case None => Some(locations[0])
      case Some(best) => if locations[0].AtMost(best) then Some(locations[0]) else Some(best)
  }

  /** `first_nullifier_occurrence` of the index. */
  function IndexFirst(crypto: Crypto, occurrences: seq<ScannedAnchor>, rawNf: Hash): Option<AnchorLocation> {
    LeastLocation(AnchorLocations(Filter(occurrences, Binding(crypto, rawNf))))
  }

  // -- an index is a list of transactions ---------------------------------------------------------------

  /** The candidates of one transaction: a record, and for a batch its envelope. */
  datatype Group = Group(base: ScannedAnchor, envelope: Option<Envelope>)

  function Expand(g: Group): (r: seq<ScannedAnchor>)
    ensures g.envelope.None? || g.envelope.value.payloads != [] ==> r != []
  {
    match g.envelope
    case None => [g.base]
    case Some(e) => ExpandBatch(g.base, e)
  }

  function Flatten(groups: seq<Group>): seq<ScannedAnchor> {
    if groups == [] then [] else Expand(groups[0]) + Flatten(groups[1..])
  }

  predicate Strictly(a: AnchorLocation, b: AnchorLocation) {
    a.AtMost(b) && a != b
  }

  ghost predicate WellGrouped(groups: seq<Group>) {
    && (forall i | 0 <= i < |groups| ::
          && groups[i].base.batch == None
          && (groups[i].envelope.Some? ==> groups[i].envelope.value.payloads != [] && groups[i].base.record.BatchHeader?))
    && forall i, j | 0 <= i < j < |groups| :: Strictly(groups[i].base.location, groups[j].base.location)
  }

  ghost predicate Between(groups: seq<Group>, low: AnchorLocation, high: AnchorLocation) {
    forall i | 0 <= i < |groups| :: low.AtMost(groups[i].base.location) && Strictly(groups[i].base.location, high)
  }

  lemma {:induction false} FlattenConcat(a: seq<Group>, b: seq<Group>)
    ensures Flatten(a + b) == Flatten(a) + Flatten(b)
  {
    hide Expand;
    if a == [] {
      assert a + b == b;
    } else {
      assert (a + b)[1..] == a[1..] + b;
      FlattenConcat(a[1..], b);
    }
  }

  lemma JoinGroups(a: seq<Group>, b: seq<Group>, low: AnchorLocation, mid: AnchorLocation, high: AnchorLocation)
    requires WellGrouped(a) && WellGrouped(b) && Between(a, low, mid) && Between(b, mid, high)
    requires low.AtMost(mid) && mid.AtMost(high)
    ensures WellGrouped(a + b) && Between(a + b, low, high) && Flatten(a + b) == Flatten(a) + Flatten(b)
  {
    hide Flatten, Expand;
    FlattenConcat(a, b);
  }

  lemma TransactionGroup(crypto: Crypto, tx: Transaction, height: nat, position: nat) returns (groups: seq<Group>)
    ensures Flatten(groups) == TransactionCandidates(crypto, tx, height, position)
    ensures WellGrouped(groups)
    ensures Between(groups, AnchorLocation(height, position), AnchorLocation(height, position + 1))
  {
    hide FromBytes, Txid, FundingCtx, OpReturnPayload, DecodeWitness;
    if TransactionCandidates(crypto, tx, height, position) == [] {
      groups := [];
    } else {
      var payload := FirstPayload(tx.outputs).value;
      var base := ScannedAnchor(AnchorLocation(height, position), Txid(crypto.sha256d, tx), FromBytes(payload),
                                FundingCtx(crypto, tx.inputs[0].prev), None);
      var g := Group(base, if base.record.BatchHeader? then WitnessEnvelope(tx) else None);
      groups := [g];
      assert groups[1..] == [] && Flatten(groups) == Expand(g) + [];
    }
  }

  lemma {:induction false} BlockGroups(crypto: Crypto, txs: seq<Transaction>, height: nat, position: nat)
    returns (groups: seq<Group>)
    requires position <= |txs|
    ensures Flatten(groups) == CandidatesFrom(crypto, txs, height, position)
    ensures WellGrouped(groups) && Between(groups, AnchorLocation(height, position), AnchorLocation(height + 1, 0))
    decreases |txs| - position
  {
    hide TransactionCandidates, Expand;
    if position == |txs| {
      groups := [];
    } else {
      var here := TransactionGroup(crypto, txs[position], height, position);
      var rest := BlockGroups(crypto, txs, height, position + 1);
      JoinGroups(here, rest, AnchorLocation(height, position), AnchorLocation(height, position + 1), AnchorLocation(height + 1, 0));
      groups := here + rest;
    }
  }

  lemma {:induction false} IndexGroups(crypto: Crypto, sip: Gcs.SipHash, world: World, hashes: seq<Hash>, from: nat,
                                       end: nat) returns (groups: seq<Group>)
    requires end <= |hashes|
    ensures Flatten(groups) == Indexed(crypto, sip, world, hashes, from, end)
    ensures WellGrouped(groups)
    ensures Between(groups, AnchorLocation(from, 0), AnchorLocation(if end < from then from else end, 0))
    decreases end
  {
    hide Found, Flatten, Indexed, WellGrouped, Between;
    if end <= from {
      groups := [];
      NoneYet(crypto, sip, world, hashes, from, end);
    } else {
      var front := IndexGroups(crypto, sip, world, hashes, from, end - 1);
      var here := FoundGroups(crypto, sip, world, hashes[end - 1], end - 1);
      JoinGroups(front, here, AnchorLocation(from, 0), AnchorLocation(end - 1, 0), AnchorLocation(end, 0));
      IndexedStep(crypto, sip, world, hashes, from, end);
      groups := front + here;
    }
  }

  lemma NoneYet(crypto: Crypto, sip: Gcs.SipHash, world: World, hashes: seq<Hash>, from: nat, end: nat)
    requires end <= from && end <= |hashes|
    ensures Flatten([]) == Indexed(crypto, sip, world, hashes, from, end) && WellGrouped([])
    ensures forall low, high :: Between([], low, high)
  {
  }

  lemma FoundGroups(crypto: Crypto, sip: Gcs.SipHash, world: World, hash: Hash, height: nat) returns (groups: seq<Group>)
    ensures Flatten(groups) == Found(crypto, sip, world, hash, height)
    ensures WellGrouped(groups) && Between(groups, AnchorLocation(height, 0), AnchorLocation(height + 1, 0))
  {
    hide Marked, CandidatesFrom, Expand;
    groups := [];
    if Marked(sip, world, hash) {
      groups := BlockGroups(crypto, world.blockOf(hash).txs, height, 0);
    }
  }

  // -- deduplication keeps one entry per transaction ---------------------------------------------------------

  function Representative(g: Group): SnapshotEntry {
    SnapshotEntry(g.base.location, g.base.txid, g.base.ctx, ToBytes(g.base.record), g.envelope)
  }

  function Representatives(groups: seq<Group>): (r: seq<SnapshotEntry>)
    ensures |r| == |groups|
  {
    seq(|groups|, i requires 0 <= i < |groups| => Representative(groups[i]))
  }

  ghost predicate SameKey(entries: seq<ScannedAnchor>, key: (AnchorLocation, Hash)) {
    forall e | e in entries :: (e.location, e.txid) == key
  }

  lemma {:induction false} SkipSeen(entries: seq<ScannedAnchor>, rest: seq<ScannedAnchor>, seen: set<(AnchorLocation, Hash)>,
                                    key: (AnchorLocation, Hash))
    requires SameKey(entries, key) && key in seen
    ensures Deduplicated(entries + rest, seen) == Deduplicated(rest, seen)
    decreases |entries|
  {
    if entries == [] {
      assert entries + rest == rest;
    } else {
      assert entries[0] in entries;
      assert (entries + rest)[1..] == entries[1..] + rest;
      SkipSeen(entries[1..], rest, seen, key);
    }
  }

  lemma GroupDeduplicated(g: Group, rest: seq<ScannedAnchor>, seen: set<(AnchorLocation, Hash)>)
    requires g.base.batch == None && (g.envelope.Some? ==> g.envelope.value.payloads != [])
    requires (g.base.location, g.base.txid) !in seen
    ensures Deduplicated(Expand(g) + rest, seen)
         == [Representative(g)] + Deduplicated(rest, seen + {(g.base.location, g.base.txid)})
  {
    hide ToBytes;
    var entries, key := Expand(g), (g.base.location, g.base.txid);
    assert (entries + rest)[0] == entries[0];
    assert (entries + rest)[1..] == entries[1..] + rest;
    SkipSeen(entries[1..], rest, seen + {key}, key);
  }

  lemma {:induction false} DeduplicatesToGroups(groups: seq<Group>, seen: set<(AnchorLocation, Hash)>)
    requires WellGrouped(groups)
    requires forall key, i | key in seen && 0 <= i < |groups| :: key.0 != groups[i].base.location
    ensures Deduplicated(Flatten(groups), seen) == Representatives(groups)
  {
    hide Expand, Representative;
    if groups != [] {
      var g := groups[0];
      GroupDeduplicated(g, Flatten(groups[1..]), seen);
      DeduplicatesToGroups(groups[1..], seen + {(g.base.location, g.base.txid)});
      assert Representatives(groups) == [Representative(g)] + Representatives(groups[1..]);
    }
  }

  lemma {:induction false} SortOfSorted<T(!new)>(s: seq<T>, le: (T, T) -> bool)
    requires SortedBy(le, s)
    ensures Sort(s, le) == s
  {
    if s != [] {
      SortOfSorted(s[1..], le);
    }
  }

  /** The export of an index is its transactions, in chain order. */
  lemma ExportIsGroups(groups: seq<Group>)
    requires WellGrouped(groups)
    ensures Export(Flatten(groups)) == Representatives(groups)
  {
    hide Flatten, Representative, Sort, Deduplicated;
    DeduplicatesToGroups(groups, {});
    var reps := Representatives(groups);
    forall i, j | 0 <= i < j < |reps| ensures LocationLe()(reps[i], reps[j]) {
      RepresentativeLocation(groups[i]);
      RepresentativeLocation(groups[j]);
    }
    SortOfSorted(reps, LocationLe());
  }

  lemma RepresentativeLocation(g: Group)
    ensures Representative(g).location == g.base.location
  {
  }

  // -- loading the export --------------------------------------------------------------------------------------

  function Loaded(g: Group): Entry {
    Entry(g.base.location, g.base.txid, g.base.record, g.base.ctx, g.envelope)
  }

  function AllLoaded(groups: seq<Group>): (r: seq<Entry>)
    ensures |r| == |groups|
  {
    seq(|groups|, i requires 0 <= i < |groups| => Loaded(groups[i]))
  }

  /** The group a re-read of its record gives. */
  function RereadGroup(g: Group): Group {
    Group(Reread(g.base), g.envelope)
  }

  function RereadGroups(groups: seq<Group>): (r: seq<Group>)
    ensures |r| == |groups|
  {
    seq(|groups|, i requires 0 <= i < |groups| => RereadGroup(groups[i]))
  }

  predicate GroupFits(crypto: Crypto, g: Group) {
    g.envelope.Some? ==> EnvelopeFits(crypto, g.base.record, g.base.ctx, g.envelope.value)
  }

  /** A batch header re-reads as itself. */
  lemma BatchReread(e: ScannedAnchor)
    requires e.record.BatchHeader?
    ensures Reread(e) == e
  {
    BatchStable(e.record.count, e.record.batchCommit);
  }

  lemma RereadGrouped(groups: seq<Group>)
    requires WellGrouped(groups)
    ensures WellGrouped(RereadGroups(groups))
    ensures forall i | 0 <= i < |groups| :: RereadGroups(groups)[i].base.location == groups[i].base.location
  {
    hide FromBytes, ToBytes;
    forall i | 0 <= i < |groups| && groups[i].envelope.Some? ensures RereadGroup(groups[i]) == groups[i] {
      BatchReread(groups[i].base);
    }
  }

  lemma ExpandReread(g: Group)
    requires g.envelope.Some? ==> g.base.record.BatchHeader?
    ensures Expand(RereadGroup(g)) == RereadAll(Expand(g))
  {
    hide FromBytes, ToBytes;
    if g.envelope.Some? {
      BatchReread(g.base);
      forall i | 0 <= i < |Expand(g)| ensures Reread(Expand(g)[i]) == Expand(g)[i] {
        BatchReread(Expand(g)[i]);
      }
    }
  }

  /** Re-reading the groups is re-reading the list. */
  lemma {:induction false} FlattenReread(groups: seq<Group>)
    requires WellGrouped(groups)
    ensures Flatten(RereadGroups(groups)) == RereadAll(Flatten(groups))
  {
    hide Expand, RereadAll, Reread, Strictly;
    if groups == [] {
      assert RereadAll([]) == [];
    } else {
      FlattenReread(groups[1..]);
      assert RereadGroups(groups)[1..] == RereadGroups(groups[1..]);
      ExpandReread(groups[0]);
      RereadConcat(Expand(groups[0]), Flatten(groups[1..]));
    }
  }

  lemma LoadsOne(crypto: Crypto, g: Group)
    ensures LoadEntry(crypto, Representative(g))
         == if GroupFits(crypto, RereadGroup(g)) then Some(Loaded(RereadGroup(g))) else None
  {
    hide FromBytes, ToBytes, EnvelopeFits;
  }

  predicate AllFit(crypto: Crypto, groups: seq<Group>) {
    forall i | 0 <= i < |groups| :: GroupFits(crypto, groups[i])
  }

  lemma AllFitHead(crypto: Crypto, groups: seq<Group>)
    requires groups != []
    ensures AllFit(crypto, groups) <==> GroupFits(crypto, groups[0]) && AllFit(crypto, groups[1..])
  {
    hide GroupFits;
    assert forall i | 0 < i < |groups| :: groups[i] == groups[1..][i - 1];
  }

  /** Loading the representatives gives the groups with their records re-read. */
  lemma {:induction false} LoadsGroups(crypto: Crypto, groups: seq<Group>)
    ensures LoadAll(crypto, Representatives(groups))
         == if AllFit(crypto, RereadGroups(groups)) then Some(AllLoaded(RereadGroups(groups))) else None
  {
    hide RereadGroup, Representative, Loaded, LoadEntry, GroupFits, AllFit;
    if groups == [] {
      assert Representatives(groups) == [] && AllLoaded(RereadGroups(groups)) == [];
      NoneUnfit(crypto);
    } else {
      var rest := groups[1..];
      assert Representatives(groups)[1..] == Representatives(rest);
      LoadsOne(crypto, groups[0]);
      LoadsGroups(crypto, rest);
      assert RereadGroups(groups)[1..] == RereadGroups(rest);
      AllFitHead(crypto, RereadGroups(groups));
      assert AllLoaded(RereadGroups(groups)) == [Loaded(RereadGroup(groups[0]))] + AllLoaded(RereadGroups(rest));
    }
  }

  lemma NoneUnfit(crypto: Crypto)
    ensures AllFit(crypto, [])
  {
  }

  lemma LoadedOrder(crypto: Crypto, groups: seq<Group>)
    requires WellGrouped(groups)
    ensures FromSnapshot(crypto, Representatives(groups))
         == if AllFit(crypto, RereadGroups(groups)) then Some(AllLoaded(RereadGroups(groups))) else None
  {
    hide Representatives, AllFit, Sort, RereadGroups;
    LoadsGroups(crypto, groups);
    RereadGrouped(groups);
    LoadedAscend(RereadGroups(groups));
    SortOfSorted(AllLoaded(RereadGroups(groups)), EntryLe());
  }

  lemma LoadedAscend(groups: seq<Group>)
    requires WellGrouped(groups)
    ensures SortedBy(EntryLe(), AllLoaded(groups))
  {
    var loaded := AllLoaded(groups);
    forall i, j | 0 <= i < j < |loaded| ensures EntryLe()(loaded[i], loaded[j]) {
      assert Strictly(groups[i].base.location, groups[j].base.location);
    }
  }

  // -- the answers agree -----------------------------------------------------------------------------------------

  lemma FilterOne<T>(s: seq<T>, p: T -> bool, i: nat)
    requires i < |s| && p(s[i]) && forall j | 0 <= j < |s| && j != i :: !p(s[j])
    ensures Filter(s, p) == [s[i]]
  {
    hide Filter;
    assert s == s[..i] + ([s[i]] + s[i + 1..]);
    FilterConcat(s[..i], [s[i]] + s[i + 1..], p);
    FilterConcat([s[i]], s[i + 1..], p);
    FilterNone(s[..i], p);
    FilterNone(s[i + 1..], p);
    FilterAll([s[i]], p);
  }

  /** The candidates of a transaction that bind: one if its entry matches, none otherwise. */
  lemma GroupAnswers(crypto: Crypto, g: Group, rawNf: Hash)
    requires g.base.batch == None
    ensures AnchorLocations(Filter(Expand(g), Binding(crypto, rawNf)))
         == if EntryMatches(crypto, Loaded(g), rawNf) then [g.base.location] else []
  {
    hide WellFormed, EnvelopeOccurrence, Filter;
    var p := Binding(crypto, rawNf);
    match g.envelope
    case None =>
      if p(g.base) {
        FilterAll([g.base], p);
      } else {
        FilterNone([g.base], p);
      }
    case Some(e) =>
      var entries := ExpandBatch(g.base, e);
      var found := EnvelopeOccurrence(crypto, e.version, g.base.record, e.payloads, g.base.ctx, rawNf);
      FoundInEnvelope(crypto, e, g.base, rawNf);
      if found.Some? {
        FilterOne(entries, p, found.value);
      } else {
        FilterNone(entries, p);
      }
  }

  lemma FoundInEnvelope(crypto: Crypto, e: Envelope, base: ScannedAnchor, rawNf: Hash)
    ensures var found := EnvelopeOccurrence(crypto, e.version, base.record, e.payloads, base.ctx, rawNf);
            found.Some? ==> found.value < |e.payloads|
  {
  }

  lemma LocationsConcat(a: seq<ScannedAnchor>, b: seq<ScannedAnchor>)
    ensures AnchorLocations(a + b) == AnchorLocations(a) + AnchorLocations(b)
  {
  }

  lemma {:induction false} GroupsAnswer(crypto: Crypto, groups: seq<Group>, rawNf: Hash)
    requires WellGrouped(groups)
    requires forall i | 0 <= i < |groups| :: groups[i].base.location != MEMPOOL
    ensures AnchorLocations(Filter(Flatten(groups), Binding(crypto, rawNf)))
         == SnapshotOccurrences(crypto, AllLoaded(groups), rawNf)
  {
    hide Expand, EntryMatches, Filter, Strictly;
    var p, q := Binding(crypto, rawNf), MatchesMined(crypto, rawNf);
    if groups == [] {
      FilterAll(Flatten(groups), p);
      FilterAll(AllLoaded(groups), q);
    } else {
      var g, rest := groups[0], groups[1..];
      GroupsAnswer(crypto, rest, rawNf);
      GroupAnswers(crypto, g, rawNf);
      FilterConcat(Expand(g), Flatten(rest), p);
      LocationsConcat(Filter(Expand(g), p), Filter(Flatten(rest), p));
      assert AllLoaded(groups) == [Loaded(g)] + AllLoaded(rest);
      FilterConcat([Loaded(g)], AllLoaded(rest), q);
      if q(Loaded(g)) {
        FilterAll([Loaded(g)], q);
      } else {
        FilterNone([Loaded(g)], q);
      }
      EntriesConcat(Filter([Loaded(g)], q), Filter(AllLoaded(rest), q));
    }
  }

  lemma EntriesConcat(a: seq<Entry>, b: seq<Entry>)
    ensures EntryLocations(a + b) == EntryLocations(a) + EntryLocations(b)
  {
  }

  ghost predicate LocationsAscend(locations: seq<AnchorLocation>) {
    forall i, j | 0 <= i < j < |locations| :: locations[i].AtMost(locations[j])
  }

  lemma {:induction false} LeastIsFirst(locations: seq<AnchorLocation>)
    requires LocationsAscend(locations)
    ensures LeastLocation(locations) == if locations == [] then None else Some(locations[0])
  {
    if locations != [] {
      LeastIsFirst(locations[1..]);
    }
  }

  lemma {:induction false} FilteredAscend(entries: seq<Entry>, p: Entry -> bool)
    requires SortedBy(EntryLe(), entries)
    ensures LocationsAscend(EntryLocations(Filter(entries, p)))
  {
    if entries != [] {
      FilteredAscend(entries[1..], p);
      var rest := Filter(entries[1..], p);
      forall j | 0 <= j < |rest| ensures entries[0].location.AtMost(EntryLocations(rest)[j]) {
        assert rest[j] in entries[1..];
        var k :| 0 <= k < |entries[1..]| && entries[1..][k] == rest[j];
        assert EntryLe()(entries[0], entries[k + 1]);
      }
      if p(entries[0]) {
        assert EntryLocations(Filter(entries, p)) == [entries[0].location] + EntryLocations(rest);
      } else {
        assert Filter(entries, p) == rest;
      }
    }
  }

  /** The answers of transaction groups, loaded or indexed, agree. */
  lemma GroupsAgree(crypto: Crypto, groups: seq<Group>, rawNf: Hash)
    requires WellGrouped(groups)
    requires forall i | 0 <= i < |groups| :: groups[i].base.location != MEMPOOL
    ensures SnapshotOccurrences(crypto, AllLoaded(groups), rawNf) == IndexOccurrences(crypto, Flatten(groups), rawNf)
    ensures SnapshotFirst(crypto, AllLoaded(groups), rawNf) == IndexFirst(crypto, Flatten(groups), rawNf)
  {
    hide Flatten, Filter, EntryMatches, Sort;
    GroupsAnswer(crypto, groups, rawNf);
    var loaded := AllLoaded(groups);
    LoadedAscend(groups);
    FilteredAscend(loaded, MatchesMined(crypto, rawNf));
    var locations := SnapshotOccurrences(crypto, loaded, rawNf);
    LeastIsFirst(locations);
    SortOfSorted(locations, LocationOrder);
    NoneInMempool(groups);
  }

  lemma NoneInMempool(groups: seq<Group>)
    requires forall i | 0 <= i < |groups| :: groups[i].base.location != MEMPOOL
    ensures forall e | e in AllLoaded(groups) :: e.location != MEMPOOL
  {
  }

  /** Every batch member of the index carries an envelope its header commits to. */
  ghost predicate BatchesFit(crypto: Crypto, occurrences: seq<ScannedAnchor>) {
    forall e | e in occurrences && e.batch.Some? ::
      EnvelopeFits(crypto, e.record, e.ctx, Envelope(e.batch.value.version, e.batch.value.envelope))
  }

  lemma {:induction false} GroupOf(groups: seq<Group>, e: ScannedAnchor) returns (i: nat)
    requires e in Flatten(groups)
    ensures i < |groups| && e in Expand(groups[i])
  {
    hide Expand;
    if e in Expand(groups[0]) {
      i := 0;
    } else {
      var j := GroupOf(groups[1..], e);
      i := j + 1;
    }
  }

  lemma {:induction false} MemberOfGroup(groups: seq<Group>, i: nat, e: ScannedAnchor)
    requires i < |groups| && e in Expand(groups[i])
    ensures e in Flatten(groups)
  {
    hide Expand;
    if i > 0 {
      MemberOfGroup(groups[1..], i - 1, e);
    }
  }

  lemma MemberFits(crypto: Crypto, g: Group, e: ScannedAnchor)
    requires g.base.batch == None && e in Expand(g) && e.batch.Some? && GroupFits(crypto, g)
    ensures EnvelopeFits(crypto, e.record, e.ctx, Envelope(e.batch.value.version, e.batch.value.envelope))
  {
    hide EnvelopeFits;
  }

  lemma GroupsFitIff(crypto: Crypto, groups: seq<Group>)
    requires WellGrouped(groups)
    ensures AllFit(crypto, groups) <==> BatchesFit(crypto, Flatten(groups))
  {
    hide EnvelopeFits, Flatten, Stable, Strictly;
    if BatchesFit(crypto, Flatten(groups)) {
      forall i | 0 <= i < |groups| ensures GroupFits(crypto, groups[i]) {
        var first := Expand(groups[i])[0];
        MemberOfGroup(groups, i, first);
      }
    }
    if AllFit(crypto, groups) {
      forall e | e in Flatten(groups) && e.batch.Some?
        ensures EnvelopeFits(crypto, e.record, e.ctx, Envelope(e.batch.value.version, e.batch.value.envelope)) {
        var i := GroupOf(groups, e);
        MemberFits(crypto, groups[i], e);
      }
    }
  }

  lemma MemberIsBatch(g: Group, e: ScannedAnchor)
    requires g.base.batch == None && (g.envelope.Some? ==> g.base.record.BatchHeader?)
    requires e in Expand(g) && e.batch.Some?
    ensures e.record.BatchHeader? && Reread(e) == e
  {
    BatchReread(e);
  }

  /** Batch members re-read as themselves, so whether they fit survives a re-read. */
  lemma BatchesFitReread(crypto: Crypto, groups: seq<Group>)
    requires WellGrouped(groups)
    ensures BatchesFit(crypto, RereadAll(Flatten(groups))) <==> BatchesFit(crypto, Flatten(groups))
  {
    hide EnvelopeFits, Flatten, Expand, Strictly, FromBytes, ToBytes;
    var a := Flatten(groups);
    var b := RereadAll(a);
    forall i | 0 <= i < |a| ensures a[i].batch == b[i].batch && (a[i].batch.Some? ==> a[i] == b[i]) {
      if a[i].batch.Some? {
        var k := GroupOf(groups, a[i]);
        MemberIsBatch(groups[k], a[i]);
      }
    }
    assert forall e | e in a && e.batch.Some? :: e in b;
    assert forall e | e in b && e.batch.Some? :: e in a;
  }

  // -- when re-reading changes an answer ---------------------------------------------------------------------------

  ghost predicate StrictPlaces(entries: seq<Entry>) {
    forall i, j | 0 <= i < j < |entries| :: Strictly(entries[i].location, entries[j].location)
  }

  /** In lists of the same distinct places, the same places pass exactly when each passes in both or in neither. */
  lemma {:induction false} SamePassIff(a: seq<Entry>, b: seq<Entry>, p: Entry -> bool)
    requires |a| == |b| && StrictPlaces(a) && forall i | 0 <= i < |a| :: a[i].location == b[i].location
    ensures EntryLocations(Filter(a, p)) == EntryLocations(Filter(b, p)) <==> forall i | 0 <= i < |a| :: p(a[i]) == p(b[i])
  {
    hide Filter, Strictly, EntryLocations;
    if a == [] {
      FilterAll(a, p);
      FilterAll(b, p);
    } else {
      SamePassIff(a[1..], b[1..], p);
      assert forall i | 0 < i < |a| :: a[i] == a[1..][i - 1] && b[i] == b[1..][i - 1];
      PassHead(a, p);
      PassHead(b, p);
      NotAmong(a[0], a[1..], p);
      NotAmong(b[0], b[1..], p);
      HeadsDiffer(a[0].location, EntryLocations(Filter(a[1..], p)), EntryLocations(Filter(b[1..], p)), p(a[0]), p(b[0]));
    }
  }

  lemma HeadsDiffer(x: AnchorLocation, a: seq<AnchorLocation>, b: seq<AnchorLocation>, inA: bool, inB: bool)
    requires x !in a && x !in b
    ensures (if inA then [x] else []) + a == (if inB then [x] else []) + b <==> inA == inB && a == b
  {
    assert [] + a == a && [] + b == b;
    if inA && inB {
      assert ([x] + a)[1..] == a && ([x] + b)[1..] == b;
    } else if inA {
      assert ([x] + a)[0] == x;
    } else if inB {
      assert ([x] + b)[0] == x;
    }
  }

  lemma PassHead(a: seq<Entry>, p: Entry -> bool)
    requires a != []
    ensures EntryLocations(Filter(a, p))
         == (if p(a[0]) then [a[0].location] else []) + EntryLocations(Filter(a[1..], p))
  {
    hide Filter;
    FilterHead(a, p);
  }

  lemma NotAmong(first: Entry, rest: seq<Entry>, p: Entry -> bool)
    requires forall i | 0 <= i < |rest| :: Strictly(first.location, rest[i].location)
    ensures first.location !in EntryLocations(Filter(rest, p))
  {
    hide Filter, Strictly;
    forall e | e in Filter(rest, p) ensures Strictly(first.location, e.location) {
    }
    NotMyPlace(first, Filter(rest, p));
  }

  lemma NotMyPlace(first: Entry, rest: seq<Entry>)
    requires forall e | e in rest :: Strictly(first.location, e.location)
    ensures first.location !in EntryLocations(rest)
  {
    assert forall i | 0 <= i < |rest| :: rest[i] in rest;
  }

  /** A transaction's entry matches alike before and after a re-read exactly when all its candidates bind alike. */
  lemma GroupAlikeIff(crypto: Crypto, g: Group, rawNf: Hash)
    requires g.base.batch == None && g.base.location != MEMPOOL
    requires g.envelope.Some? ==> g.base.record.BatchHeader?
    ensures MatchesMined(crypto, rawNf)(Loaded(RereadGroup(g))) == MatchesMined(crypto, rawNf)(Loaded(g)) <==>
              BindsAlike(crypto, Expand(g), rawNf)
  {
    hide FromBytes, ToBytes, WellFormed, EnvelopeOccurrence;
    if g.envelope.Some? {
      BatchReread(g.base);
      forall e | e in Expand(g) ensures Reread(e) == e {
        BatchReread(e);
      }
    } else {
      assert g.base in Expand(g);
    }
  }

  lemma {:induction false} AlikeByGroup(crypto: Crypto, groups: seq<Group>, rawNf: Hash)
    ensures BindsAlike(crypto, Flatten(groups), rawNf)
       <==> forall i | 0 <= i < |groups| :: BindsAlike(crypto, Expand(groups[i]), rawNf)
  {
    hide Expand, Reread, Binds;
    if groups != [] {
      AlikeByGroup(crypto, groups[1..], rawNf);
      assert forall i | 0 < i < |groups| :: groups[i] == groups[1..][i - 1];
      assert forall e :: e in Flatten(groups) <==> e in Expand(groups[0]) || e in Flatten(groups[1..]);
    }
  }

  /** Re-reading the groups leaves the locations found for a nullifier alone exactly when it binds them all alike. */
  lemma RereadKeepsAnswersIff(crypto: Crypto, groups: seq<Group>, rawNf: Hash)
    requires WellGrouped(groups)
    requires forall i | 0 <= i < |groups| :: groups[i].base.location != MEMPOOL
    ensures (SnapshotOccurrences(crypto, AllLoaded(RereadGroups(groups)), rawNf)
             == SnapshotOccurrences(crypto, AllLoaded(groups), rawNf)) <==> BindsAlike(crypto, Flatten(groups), rawNf)
  {
    hide Expand, Flatten, Filter, MatchesMined, Strictly, BindsAlike;
    var a, b, p := AllLoaded(RereadGroups(groups)), AllLoaded(groups), MatchesMined(crypto, rawNf);
    RereadGrouped(groups);
    assert StrictPlaces(a);
    SamePassIff(a, b, p);
    AlikeByGroup(crypto, groups, rawNf);
    MatchedAlikeIff(crypto, groups, rawNf);
  }

  lemma MatchedAlikeIff(crypto: Crypto, groups: seq<Group>, rawNf: Hash)
    requires WellGrouped(groups)
    requires forall i | 0 <= i < |groups| :: groups[i].base.location != MEMPOOL
    ensures forall i | 0 <= i < |groups| ::
              MatchesMined(crypto, rawNf)(AllLoaded(RereadGroups(groups))[i])
              == MatchesMined(crypto, rawNf)(AllLoaded(groups)[i])
              <==> BindsAlike(crypto, Expand(groups[i]), rawNf)
  {
    hide Expand, MatchesMined, Strictly, BindsAlike, RereadGroup, Loaded;
    forall i | 0 <= i < |groups| {
      GroupAlikeIff(crypto, groups[i], rawNf);
    }
  }

  // -- the export of a reachable index -------------------------------------------------------------------------------

  /** Restarts age a list of transactions into a list of transactions. */
  lemma {:induction false} AgedGroups(groups: seq<Group>, a: seq<ScannedAnchor>, restarted: bool) returns (r: seq<Group>)
    requires WellGrouped(groups) && Aged(a, Flatten(groups), restarted)
    ensures Flatten(r) == a && |r| == |groups|
    ensures forall i | 0 <= i < |r| :: r[i] == groups[i] || r[i] == RereadGroup(groups[i])
  {
    hide Expand, Strictly, Reread;
    if groups == [] {
      r := [];
    } else {
      var g, n := groups[0], |Expand(groups[0])|;
      assert Flatten(groups)[..n] == Expand(g) && Flatten(groups)[n..] == Flatten(groups[1..]);
      AgedSlice(a, Flatten(groups), restarted, n);
      var rest := AgedGroups(groups[1..], a[n..], restarted);
      AgedGroup(g, a[..n], restarted);
      var here := if a[..n] == Expand(g) then g else RereadGroup(g);
      r := [here] + rest;
      assert r[1..] == rest && a == a[..n] + a[n..];
    }
  }

  lemma AgedSlice(a: seq<ScannedAnchor>, b: seq<ScannedAnchor>, restarted: bool, n: nat)
    requires Aged(a, b, restarted) && n <= |a|
    ensures Aged(a[..n], b[..n], restarted) && Aged(a[n..], b[n..], restarted)
  {
    hide Reread;
  }

  lemma AgedGroup(g: Group, a: seq<ScannedAnchor>, restarted: bool)
    requires Aged(a, Expand(g), restarted)
    requires g.envelope.Some? ==> g.base.record.BatchHeader?
    ensures a == Expand(g) || a == Expand(RereadGroup(g))
  {
    hide FromBytes, ToBytes;
    if g.envelope.Some? {
      forall i | 0 <= i < |a| ensures a[i] == Expand(g)[i] {
        BatchReread(Expand(g)[i]);
      }
      assert a == Expand(g);
    } else {
      assert a == [a[0]];
    }
  }

  /** A reachable index is a list of mined transactions. */
  lemma ReachableGroups(crypto: Crypto, sip: Gcs.SipHash, world: World, s: IndexState) returns (groups: seq<Group>)
    requires Reachable(crypto, sip, world, s)
    ensures Flatten(groups) == s.occurrences && WellGrouped(groups)
    ensures forall i | 0 <= i < |groups| :: groups[i].base.location != MEMPOOL
  {
    hide Flatten, Indexed, Strictly, Expand, FromBytes, ToBytes, Aged;
    NoGroups();
    groups := [];
    if s != FRESH {
      var hashes, restarted :| ReflectsAged(crypto, sip, world, s, hashes, restarted);
      var t := Original(crypto, sip, world, s, hashes);
      var plain: seq<Group> := [];
      if t.syncedTip >= t.fromHeight {
        plain := IndexGroups(crypto, sip, world, hashes, t.fromHeight, t.syncedTip + 1);
      }
      groups := AgedGroups(plain, s.occurrences, restarted);
      forall i | 0 <= i < |plain| ensures plain[i].base.location != MEMPOOL {
        assert AnchorLocation(t.fromHeight, 0).AtMost(plain[i].base.location);
      }
      RereadGrouped(plain);
      StillGrouped(plain, groups);
    }
  }

  lemma StillGrouped(plain: seq<Group>, groups: seq<Group>)
    requires WellGrouped(plain) && |groups| == |plain|
    requires forall i | 0 <= i < |groups| :: groups[i] == plain[i] || groups[i] == RereadGroup(plain[i])
    ensures WellGrouped(groups)
    ensures forall i | 0 <= i < |groups| :: groups[i].base.location == plain[i].base.location
  {
    hide Strictly, FromBytes, ToBytes;
    RereadGrouped(plain);
    assert forall i | 0 <= i < |plain| :: RereadGroups(plain)[i] == RereadGroup(plain[i]);
  }

  /**
   * What a restart costs: the occurrences of a nullifier survive it exactly if it binds
   * no record only before or only after a re-read.
   */
  lemma RestartKeepsAnswersIff(crypto: Crypto, sip: Gcs.SipHash, world: World, s: IndexState, rawNf: Hash)
    requires Reachable(crypto, sip, world, s)
    ensures (IndexOccurrences(crypto, Reload(s).occurrences, rawNf) == IndexOccurrences(crypto, s.occurrences, rawNf))
            <==> NoneBindsOnce(crypto, s.occurrences, rawNf)
  {
    hide Reachable, Flatten, SnapshotOccurrences, IndexOccurrences, SnapshotFirst, IndexFirst, RereadAll, BindsAlike,
         NoneBindsOnce,
         RereadGroups, AllLoaded;
    var groups := ReachableGroups(crypto, sip, world, s);
    RereadGrouped(groups);
    FlattenReread(groups);
    GroupsAgree(crypto, RereadGroups(groups), rawNf);
    GroupsAgree(crypto, groups, rawNf);
    RereadKeepsAnswersIff(crypto, groups, rawNf);
    ReachableScannable(crypto, sip, world, s);
    AlikeIff(crypto, s.occurrences, rawNf);
  }

  /**
   * Export preserves answers: the snapshot of a reachable index loads exactly when
   * every envelope in it fits its header, and then for every nullifier, batch members
   * included, it gives the occurrences and the first occurrence of the index with its
   * records re-read. Those are the index's own exactly for the nullifiers that bind none
   * of its records only before or only after a re-read.
   */
  lemma ExportPreservesAnswers(crypto: Crypto, sip: Gcs.SipHash, world: World, s: IndexState)
    requires Reachable(crypto, sip, world, s)
    ensures FromSnapshot(crypto, Export(s.occurrences)).Some? <==> BatchesFit(crypto, s.occurrences)
    ensures FromSnapshot(crypto, Export(s.occurrences)).Some? ==>
              var chain := FromSnapshot(crypto, Export(s.occurrences)).value;
              forall rawNf ::
                && SnapshotOccurrences(crypto, chain, rawNf) == IndexOccurrences(crypto, RereadAll(s.occurrences), rawNf)
                && SnapshotFirst(crypto, chain, rawNf) == IndexFirst(crypto, RereadAll(s.occurrences), rawNf)
                && (SnapshotOccurrences(crypto, chain, rawNf) == IndexOccurrences(crypto, s.occurrences, rawNf)
                    <==> NoneBindsOnce(crypto, s.occurrences, rawNf))
  {
    hide Reachable, Flatten, Expand, AllFit, Export, FromSnapshot, SnapshotOccurrences, IndexOccurrences, RereadAll,
         SnapshotFirst, IndexFirst, BatchesFit, BindsAlike, NoneBindsOnce, RereadGroups, AllLoaded;
    var groups := ReachableGroups(crypto, sip, world, s);
    ExportIsGroups(groups);
    LoadedOrder(crypto, groups);
    RereadGrouped(groups);
    GroupsFitIff(crypto, RereadGroups(groups));
    FlattenReread(groups);
    BatchesFitReread(crypto, groups);
    ReachableScannable(crypto, sip, world, s);
    forall rawNf
      ensures SnapshotOccurrences(crypto, AllLoaded(RereadGroups(groups)), rawNf)
           == IndexOccurrences(crypto, RereadAll(s.occurrences), rawNf)
      ensures SnapshotFirst(crypto, AllLoaded(RereadGroups(groups)), rawNf)
           == IndexFirst(crypto, RereadAll(s.occurrences), rawNf)
      ensures (SnapshotOccurrences(crypto, AllLoaded(RereadGroups(groups)), rawNf)
               == IndexOccurrences(crypto, s.occurrences, rawNf)) <==> NoneBindsOnce(crypto, s.occurrences, rawNf) {
      GroupsAgree(crypto, RereadGroups(groups), rawNf);
      GroupsAgree(crypto, groups, rawNf);
      RereadKeepsAnswersIff(crypto, groups, rawNf);
      AlikeIff(crypto, s.occurrences, rawNf);
    }
  }

  /** An index in which every record re-reads as itself is exported exactly. */
  lemma StableExportIsExact(crypto: Crypto, sip: Gcs.SipHash, world: World, s: IndexState)
    requires Reachable(crypto, sip, world, s) && AllStable(s.occurrences)
    ensures FromSnapshot(crypto, Export(s.occurrences)).Some? ==>
              var chain := FromSnapshot(crypto, Export(s.occurrences)).value;
              forall rawNf ::
                && SnapshotOccurrences(crypto, chain, rawNf) == IndexOccurrences(crypto, s.occurrences, rawNf)
                && SnapshotFirst(crypto, chain, rawNf) == IndexFirst(crypto, s.occurrences, rawNf)
  {
    hide Reachable, Export, FromSnapshot, SnapshotOccurrences, IndexOccurrences, SnapshotFirst, IndexFirst;
    ExportPreservesAnswers(crypto, sip, world, s);
    StableReread(s.occurrences);
  }

  lemma NoGroups()
    ensures Flatten([]) == [] && WellGrouped([])
  {
  }
}
