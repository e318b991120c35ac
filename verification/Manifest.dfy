/**
 * The deterministic manifest of a co-funded batch, its fee split, and its fee
 * replacements (`crates/opencsv-bitcoin/src/batch_v2.rs`).
 */
module Manifests {
  import opened Wrappers
  import opened Wire
  import opened Sorting
  import opened Block
  import opened Anchors
  import opened BatchWire

  const TX_VERSION: i32 := 2
  const INPUT_SEQUENCE: u32 := 0xffff_fffd

  datatype Manifest = Manifest(
    batchId: Hash, epoch: u32, feerate: u32, maxWeight: u32, minerFee: u64, totalCharge: u64,
    charges: seq<u64>, commitments: seq<Commitment>, tx: Transaction)

  // -- order and distinctness ---------------------------------------------------------------

  /** The canonical order: by serialized fee outpoint. */
  predicate ByOutpoint(a: Commitment, b: Commitment) {
    LexLe(OutPointBytes(a.feeOutpoint), OutPointBytes(b.feeOutpoint))
  }

  function Canonical(cs: seq<Commitment>): seq<Commitment> {
    Sort(cs, ByOutpoint)
  }

  predicate Differ(lib: Library, a: Commitment, b: Commitment) {
    && CommitmentId(lib, a) != CommitmentId(lib, b)
    && a.operationId != b.operationId
    && a.feeOutpoint != b.feeOutpoint
    && a.payload != b.payload
    && a.changeScript != b.changeScript
  }

  ghost predicate NoRepeats(lib: Library, cs: seq<Commitment>) {
    forall i, j | 0 <= i < j < |cs| :: Differ(lib, cs[i], cs[j])
  }

  /** `reject_duplicates`: five sets, one pass. */
  method RejectDuplicates(lib: Library, cs: seq<Commitment>) returns (ok: bool)
    ensures ok <==> NoRepeats(lib, cs)
  {
    hide CommitmentId;
    var ids: set<Hash>, operations: set<Hash>, outpoints: set<OutPoint> := {}, {}, {};
    var payloads: set<Payload>, changes: set<Bytes> := {}, {};
    for k := 0 to |cs|
      invariant NoRepeats(lib, cs[..k])
      invariant ids == set i | 0 <= i < k :: CommitmentId(lib, cs[i])
      invariant operations == set i | 0 <= i < k :: cs[i].operationId
      invariant outpoints == set i | 0 <= i < k :: cs[i].feeOutpoint
      invariant payloads == set i | 0 <= i < k :: cs[i].payload
      invariant changes == set i | 0 <= i < k :: cs[i].changeScript
    {
      var c := cs[k];
      if CommitmentId(lib, c) in ids || c.operationId in operations || c.feeOutpoint in outpoints
         || c.payload in payloads || c.changeScript in changes {
        return false;
      }
      ids, operations := ids + {CommitmentId(lib, c)}, operations + {c.operationId};
      outpoints, payloads := outpoints + {c.feeOutpoint}, payloads + {c.payload};
      changes := changes + {c.changeScript};
    }
    assert cs[..|cs|] == cs;
    ok := true;
  }

  lemma OutpointOrder()
    ensures TotalPreorder(ByOutpoint)
  {
    forall a, b ensures ByOutpoint(a, b) || ByOutpoint(b, a) {
      LexTotal(OutPointBytes(a.feeOutpoint), OutPointBytes(b.feeOutpoint));
    }
    forall a, b, c | ByOutpoint(a, b) && ByOutpoint(b, c) ensures ByOutpoint(a, c) {
      LexTransitive(OutPointBytes(a.feeOutpoint), OutPointBytes(b.feeOutpoint), OutPointBytes(c.feeOutpoint));
    }
  }

  lemma DistinctIsAntisymmetric(lib: Library, cs: seq<Commitment>)
    requires NoRepeats(lib, cs)
    ensures AntisymmetricOn(ByOutpoint, cs)
  {
    hide CommitmentId;
    forall x, y | x in cs && y in cs && ByOutpoint(x, y) && ByOutpoint(y, x) ensures x == y {
      LexTotal(OutPointBytes(x.feeOutpoint), OutPointBytes(y.feeOutpoint));
      OutPointBytesInjective(x.feeOutpoint, y.feeOutpoint);
      var i :| 0 <= i < |cs| && cs[i] == x;
      var j :| 0 <= j < |cs| && cs[j] == y;
      assert i < j ==> Differ(lib, cs[i], cs[j]);
      assert j < i ==> Differ(lib, cs[j], cs[i]);
    }
  }

  /** Distinct commitments have one canonical order, whatever order they came in. */
  lemma CanonicalIgnoresOrder(lib: Library, a: seq<Commitment>, b: seq<Commitment>)
    requires multiset(a) == multiset(b) && NoRepeats(lib, Canonical(a))
    ensures Canonical(a) == Canonical(b)
  {
    hide Sort, ByOutpoint, CommitmentId;
    OutpointOrder();
    SortIsSorted(a, ByOutpoint);
    SortIsSorted(b, ByOutpoint);
    DistinctIsAntisymmetric(lib, Canonical(a));
    SortedUnique(Canonical(a), Canonical(b), ByOutpoint);
  }

  lemma CanonicalKeepsAll(cs: seq<Commitment>)
    ensures multiset(Canonical(cs)) == multiset(cs) && |Canonical(cs)| == |cs|
  {
    SortKeepsAll(cs, ByOutpoint);
  }

  lemma CanonicalTwice(lib: Library, cs: seq<Commitment>)
    requires NoRepeats(lib, Canonical(cs))
    ensures Canonical(Canonical(cs)) == Canonical(cs)
  {
    hide Sort, ByOutpoint, CommitmentId;
    CanonicalKeepsAll(cs);
    CanonicalIgnoresOrder(lib, cs, Canonical(cs));
  }

  // -- fees ---------------------------------------------------------------------------------------

  function MaxWeight(n: nat): nat {
    968 + 423 * n
  }

  function VirtualBytes(n: nat): nat {
    (MaxWeight(n) + 3) / 4
  }

  /** None of the source's checked operations can overflow. */
  lemma FeesFit(feerate: u32, n: nat)
    requires 1 <= n <= MAX_BATCH_V2_PARTICIPANTS
    ensures MaxWeight(n) < 0x1_0000_0000
    ensures feerate * VirtualBytes(n) + MARKER_DUST_SATS < 0x1_0000_0000_0000_0000
    ensures VirtualBytes(n) >= 2 * n + 200
  {
    ScaledBound(feerate, VirtualBytes(n), 0x1_0000_0000, 10_000);
  }

  lemma ScaledBound(a: nat, b: nat, x: nat, y: nat)
    requires a <= x && b <= y
    ensures a * b <= x * y
  {
  }

  function MinerFee(feerate: u32, n: nat): (fee: u64)
    requires 1 <= n <= MAX_BATCH_V2_PARTICIPANTS
  {
    FeesFit(feerate, n);
    feerate * VirtualBytes(n)
  }

  function TotalCharge(feerate: u32, n: nat): (total: u64)
    requires 1 <= n <= MAX_BATCH_V2_PARTICIPANTS
  {
    FeesFit(feerate, n);
    MinerFee(feerate, n) + MARKER_DUST_SATS
  }

  /** Participant `i` of `n` pays the floor share, the first ones one satoshi more. */
  function Charge(total: u64, n: nat, i: nat): (c: nat)
    requires n > 0
    ensures total / n <= c <= total / n + 1
  {
    total / n + if i < total % n then 1 else 0
  }

  function Sum(s: seq<nat>): nat {
    if s == [] then 0 else Sum(s[..|s| - 1]) + s[|s| - 1]
  }

  lemma {:induction false} ChargesSumTo(q: nat, r: nat, charges: seq<nat>, k: nat)
    requires k <= |charges| && forall i | 0 <= i < |charges| :: charges[i] == q + if i < r then 1 else 0
    ensures Sum(charges[..k]) == k * q + if k < r then k else r
    decreases k
  {
    if k > 0 {
      assert charges[..k][..k - 1] == charges[..k - 1];
      ChargesSumTo(q, r, charges, k - 1);
      OneMore(k, q);
    }
  }

  lemma OneMore(k: nat, q: nat)
    requires k > 0
    ensures k * q == (k - 1) * q + q
  {
  }

  lemma Shares(total: nat, n: nat)
    requires n > 0
    ensures n * (total / n) + total % n == total && total % n < n
  {
  }

  // -- the transaction --------------------------------------------------------------------------------

  function Repeat(b: byte, n: nat): (s: Bytes)
    ensures |s| == n
  {
    seq(n, i => b)
  }

  /** `stock_witness_script`: key, CHECKSIGVERIFY, one DROP per payload and one for the magic, TRUE. */
  function StockScript(owner: Bytes, n: nat): (s: Bytes)
    requires |owner| == 33
    ensures |s| == n + 37
  {
    [0x21] + owner + [0xad] + Repeat(0x75, n + 1) + [0x51]
  }

  function StockSpk(lib: Library, p: Proposal): (s: Buffer)
    ensures |s| == 34
  {
    var h: Bytes := lib.crypto.sha256(StockScript(p.stockOwner, p.count));
    [0x00, 0x20] + h
  }

  function Context(lib: Library, p: Proposal): Hash {
    FundingCtx(lib.crypto, p.stockOutpoint)
  }

  function Payloads(cs: seq<Commitment>): (r: seq<Payload>)
    ensures |r| == |cs|
  {
    seq(|cs|, i requires 0 <= i < |cs| => cs[i].payload)
  }

  function HeaderScript(lib: Library, p: Proposal, cs: seq<Commitment>): (s: Buffer)
    requires |cs| < 256
    ensures |s| == 66
  {
    var record: Bytes := ToBytes(BatchHeader(|cs|, lib.crypto.commit(V2, Payloads(cs), Context(lib, p))));
    [0x6a, 0x40] + record
  }

  function Marker(p: Proposal): (s: Buffer)
    ensures |s| == 34
  {
    if p.version == LEGACY_VERSION then LegacyMarkerSpk() else MarkerSpk()
  }

  function UnsignedInput(o: OutPoint): TxIn {
    TxIn(o, [], INPUT_SEQUENCE)
  }

  function Inputs(p: Proposal, cs: seq<Commitment>): (r: seq<TxIn>)
    ensures |r| == |cs| + 1
  {
    [UnsignedInput(p.stockOutpoint)] + seq(|cs|, i requires 0 <= i < |cs| => UnsignedInput(cs[i].feeOutpoint))
  }

  /** The protocol's own outputs: header, marker, renewed stock. */
  function ProtocolOutputs(lib: Library, p: Proposal, cs: seq<Commitment>): (r: seq<TxOut>)
    requires |cs| < 256
    ensures |r| == 3
  {
    [TxOut(0, HeaderScript(lib, p, cs)), TxOut(MARKER_DUST_SATS, Marker(p)), TxOut(p.stockValue, StockSpk(lib, p))]
  }

  /** Everyone can pay, within what they agreed to, and is left with standard change. */
  ghost predicate Affordable(cs: seq<Commitment>, total: u64) {
    forall i | 0 <= i < |cs| ::
      && Charge(total, |cs|, i) <= cs[i].maxCharge
      && cs[i].feeValue >= Charge(total, |cs|, i) + MIN_OUTPUT_SATS
  }

  function ChargeList(cs: seq<Commitment>, total: u64): (r: seq<u64>)
    requires Affordable(cs, total)
    ensures |r| == |cs| && forall i | 0 <= i < |cs| :: r[i] == Charge(total, |cs|, i)
  {
    seq(|cs|, i requires 0 <= i < |cs| => Charge(total, |cs|, i))
  }

  function ChangeOutputs(cs: seq<Commitment>, total: u64): (r: seq<TxOut>)
    requires Affordable(cs, total) && forall i | 0 <= i < |cs| :: IsP2wpkh(cs[i].changeScript)
    ensures |r| == |cs|
    ensures forall i | 0 <= i < |cs| ::
              r[i].amount == cs[i].feeValue - Charge(total, |cs|, i) && r[i].scriptPubkey == cs[i].changeScript
  {
    seq(|cs|, i requires 0 <= i < |cs| =>
      assert IsP2wpkh(cs[i].changeScript);
      TxOut(cs[i].feeValue - Charge(total, |cs|, i), cs[i].changeScript))
  }

  /** What `build_at` asks of its arguments, `cs` being in canonical order. */
  ghost predicate Buildable(lib: Library, p: Proposal, cs: seq<Commitment>, feerate: u32) {
    && ValidProposal(lib, p) && |cs| == p.count && p.target <= feerate <= p.ceiling
    && (forall c | c in cs :: ValidCommitment(lib, p, c))
    && NoRepeats(lib, cs)
    && Affordable(cs, TotalCharge(feerate, |cs|))
  }

  /** The manifest of commitments already in canonical order. */
  ghost function Assemble(lib: Library, p: Proposal, cs: seq<Commitment>, epoch: u32, feerate: u32): Manifest
    requires Buildable(lib, p, cs, feerate)
  {
    var total := TotalCharge(feerate, |cs|);
    FeesFit(feerate, |cs|);
    ChangesAreStandard(lib, p, cs);
    Manifest(BatchId(lib, p), epoch, feerate, MaxWeight(|cs|), MinerFee(feerate, |cs|), total, ChargeList(cs, total), cs,
             Transaction(TX_VERSION, Inputs(p, cs), ProtocolOutputs(lib, p, cs) + ChangeOutputs(cs, total), 0, []))
  }

  ghost function Build(lib: Library, p: Proposal, cs: seq<Commitment>, epoch: u32, feerate: u32): Option<Manifest> {
    if Buildable(lib, p, Canonical(cs), feerate) then Some(Assemble(lib, p, Canonical(cs), epoch, feerate)) else None
  }

  // -- building ----------------------------------------------------------------------------------------

  /** The charging loop of `build_at_with_marker`. */
  method SplitCharges(cs: seq<Commitment>, total: u64) returns (r: Option<(seq<u64>, seq<u64>)>)
    requires cs != []
    ensures r.Some? <==> Affordable(cs, total)
    ensures r.Some? ==>
              && r.value.0 == ChargeList(cs, total) && |r.value.1| == |cs|
              && forall i | 0 <= i < |cs| :: r.value.1[i] == cs[i].feeValue - Charge(total, |cs|, i)
  {
    var n := |cs|;
    var charges: seq<u64>, changes: seq<u64> := [], [];
    for i := 0 to n
      invariant |charges| == |changes| == i
      invariant forall k | 0 <= k < i ::
                  && charges[k] == Charge(total, n, k) <= cs[k].maxCharge
                  && changes[k] == cs[k].feeValue - charges[k] >= MIN_OUTPUT_SATS
    {
      var charge := Charge(total, n, i);
      if charge > cs[i].maxCharge {
        return None;
      }
      if cs[i].feeValue < charge || cs[i].feeValue - charge < MIN_OUTPUT_SATS {
        return None;
      }
      charges, changes := charges + [charge], changes + [cs[i].feeValue - charge];
    }
    r := Some((charges, changes));
  }

  /** `check_layout` */
  predicate CheckLayout(lib: Library, p: Proposal, m: Manifest) {
    && m.batchId == BatchId(lib, p)
    && m.tx.version == TX_VERSION && m.tx.lockTime == 0
    && |m.tx.inputs| == |m.commitments| + 1 && |m.tx.outputs| == |m.commitments| + 3
    && forall i | 0 <= i < |m.tx.inputs| :: m.tx.inputs[i].sequence == INPUT_SEQUENCE && m.tx.inputs[i].scriptSig == []
  }

  /** `build_at`; the closing layout check never fails. */
  method BuildAt(lib: Library, p: Proposal, cs: seq<Commitment>, epoch: u32, feerate: u32) returns (r: Option<Manifest>)
    ensures r == Build(lib, p, cs, epoch, feerate)
  {
    hide ValidProposal, ValidCommitment, NoRepeats, Canonical, BatchId, Context, HeaderScript, StockSpk, Marker, Charge;
    CanonicalKeepsAll(cs);
    SameMembers(cs, Canonical(cs));
    if !ValidProposal(lib, p) || |cs| != p.count || feerate < p.target || feerate > p.ceiling {
      return None;
    }
    if exists c | c in cs :: !ValidCommitment(lib, p, c) {
      return None;
    }
    var sorted := Canonical(cs);
    var distinct := RejectDuplicates(lib, sorted);
    if !distinct {
      return None;
    }
    CountInRange(lib, p);
    var total := TotalCharge(feerate, |sorted|);
    var split := SplitCharges(sorted, total);
    if split.None? {
      return None;
    }
    assert Buildable(lib, p, sorted, feerate);
    ChangesAreStandard(lib, p, sorted);
    var changes := split.value.1;
    var outputs := ProtocolOutputs(lib, p, sorted)
                   + seq(|sorted|, i requires 0 <= i < |sorted| => TxOut(changes[i], sorted[i].changeScript));
    assert outputs == ProtocolOutputs(lib, p, sorted) + ChangeOutputs(sorted, total);
    FeesFit(feerate, |sorted|);
    var m := Manifest(BatchId(lib, p), epoch, feerate, MaxWeight(|sorted|), MinerFee(feerate, |sorted|), total,
                      split.value.0, sorted, Transaction(TX_VERSION, Inputs(p, sorted), outputs, 0, []));
    r := if CheckLayout(lib, p, m) then Some(m) else None;
  }

  lemma CountInRange(lib: Library, p: Proposal)
    requires ValidProposal(lib, p)
    ensures 1 <= p.count <= MAX_BATCH_V2_PARTICIPANTS
  {
  }

  lemma ChangesAreStandard(lib: Library, p: Proposal, cs: seq<Commitment>)
    requires forall c | c in cs :: ValidCommitment(lib, p, c)
    ensures forall i | 0 <= i < |cs| :: IsP2wpkh(cs[i].changeScript)
  {
    forall i | 0 <= i < |cs| ensures IsP2wpkh(cs[i].changeScript) {
      assert cs[i] in cs;
    }
  }

  lemma SameMembers(a: seq<Commitment>, b: seq<Commitment>)
    requires multiset(a) == multiset(b)
    ensures forall c :: c in a <==> c in b
  {
    forall c ensures c in a <==> c in b {
      assert c in multiset(a) <==> c in multiset(b);
    }
  }

  // -- what the manifest promises ---------------------------------------------------------------------------

  /** The manifest is a function of the set of commitments: any order builds the same one, or none does. */
  lemma ManifestIgnoresOrder(lib: Library, p: Proposal, a: seq<Commitment>, b: seq<Commitment>, epoch: u32, feerate: u32)
    requires multiset(a) == multiset(b)
    ensures Build(lib, p, a, epoch, feerate) == Build(lib, p, b, epoch, feerate)
  {
    hide Canonical, NoRepeats, Affordable, Assemble, ValidCommitment, ValidProposal;
    if Buildable(lib, p, Canonical(a), feerate) {
      CanonicalIgnoresOrder(lib, a, b);
    }
    if Buildable(lib, p, Canonical(b), feerate) {
      CanonicalIgnoresOrder(lib, b, a);
    }
  }

  /** `validate`: rebuild from the manifest's own commitments and compare. */
  ghost predicate Valid(lib: Library, p: Proposal, m: Manifest) {
    Build(lib, p, m.commitments, m.epoch, m.feerate) == Some(m)
  }

  /** `validate` */
  method Validate(lib: Library, p: Proposal, m: Manifest) returns (ok: bool)
    ensures ok <==> Valid(lib, p, m)
  {
    var expected := BuildAt(lib, p, m.commitments, m.epoch, m.feerate);
    ok := expected == Some(m);
  }

  /** Validation accepts exactly what building can produce. */
  lemma ValidIffBuilt(lib: Library, p: Proposal, m: Manifest)
    ensures Valid(lib, p, m) <==> exists cs :: Build(lib, p, cs, m.epoch, m.feerate) == Some(m)
  {
    hide Canonical, NoRepeats, Affordable, ValidCommitment, ValidProposal, Inputs, ProtocolOutputs;
    if cs :| Build(lib, p, cs, m.epoch, m.feerate) == Some(m) {
      BuiltIsValid(lib, p, cs, m.epoch, m.feerate);
    }
  }

  lemma BuiltIsValid(lib: Library, p: Proposal, cs: seq<Commitment>, epoch: u32, feerate: u32)
    requires Build(lib, p, cs, epoch, feerate).Some?
    ensures var m := Build(lib, p, cs, epoch, feerate).value;
            Valid(lib, p, m) && m.commitments == Canonical(cs) && m.epoch == epoch && m.feerate == feerate
  {
    hide Canonical, NoRepeats, Affordable, ValidCommitment, ValidProposal, Inputs, ProtocolOutputs;
    CanonicalTwice(lib, cs);
  }

  function Amounts(outputs: seq<TxOut>): (r: seq<nat>)
    ensures |r| == |outputs|
  {
    seq(|outputs|, i requires 0 <= i < |outputs| => outputs[i].amount)
  }

  function FeeValues(cs: seq<Commitment>): (r: seq<nat>)
    ensures |r| == |cs|
  {
    seq(|cs|, i requires 0 <= i < |cs| => cs[i].feeValue)
  }

  lemma {:induction false} SumConcat(a: seq<nat>, b: seq<nat>)
    ensures Sum(a + b) == Sum(a) + Sum(b)
    decreases |b|
  {
    if b == [] {
      assert a + b == a;
    } else {
      assert (a + b)[..|a + b| - 1] == a + b[..|b| - 1];
      SumConcat(a, b[..|b| - 1]);
    }
  }

  lemma {:induction false} SumDifference(a: seq<nat>, b: seq<nat>, c: seq<nat>)
    requires |a| == |b| == |c| && forall i | 0 <= i < |a| :: c[i] + b[i] == a[i]
    ensures Sum(c) + Sum(b) == Sum(a)
    decreases |a|
  {
    if a != [] {
      var n := |a| - 1;
      SumDifference(a[..n], b[..n], c[..n]);
    }
  }

  lemma AssembledCharges(lib: Library, p: Proposal, cs: seq<Commitment>, epoch: u32, feerate: u32)
    requires Buildable(lib, p, cs, feerate)
    ensures var m := Assemble(lib, p, cs, epoch, feerate);
            && Sum(m.charges) == m.minerFee + MARKER_DUST_SATS == m.totalCharge
            && |m.charges| == |cs|
            && (forall i, j | 0 <= i < |cs| && 0 <= j < |cs| :: m.charges[i] <= m.charges[j] + 1)
            && (forall i, j | 0 <= i < j < |cs| :: m.charges[i] >= m.charges[j])
  {
    hide NoRepeats, ValidCommitment, Inputs, ProtocolOutputs, ChangeOutputs;
    var total, n := TotalCharge(feerate, |cs|), |cs|;
    var charges: seq<nat> := ChargeList(cs, total);
    Shares(total, n);
    ChargesSumTo(total / n, total % n, charges, n);
    assert charges[..n] == charges;
  }

  /**
   * The split is exact and fair, nobody pays more than agreed or keeps less than a
   * standard change output, and the transaction pays the miners exactly the fee.
   */
  lemma FeesAreExact(lib: Library, p: Proposal, m: Manifest)
    requires Valid(lib, p, m)
    ensures var n := |m.commitments|;
            && |m.charges| == n && |m.tx.outputs| == n + 3
            && Sum(m.charges) == m.minerFee + MARKER_DUST_SATS == m.totalCharge
            && (forall i, j | 0 <= i < n && 0 <= j < n :: m.charges[i] <= m.charges[j] + 1)
            && (forall i | 0 <= i < n ::
                  && m.charges[i] <= m.commitments[i].maxCharge
                  && m.tx.outputs[i + 3].amount + m.charges[i] == m.commitments[i].feeValue
                  && m.tx.outputs[i + 3].amount >= MIN_OUTPUT_SATS)
            && p.stockValue + Sum(FeeValues(m.commitments)) == Sum(Amounts(m.tx.outputs)) + m.minerFee
  {
    hide Valid, Assemble, Buildable, Sum, Amounts, FeeValues;
    ValidShape(lib, p, m);
    AssembledCharges(lib, p, m.commitments, m.epoch, m.feerate);
    AssembledChanges(lib, p, m.commitments, m.epoch, m.feerate);
    AssembledBalance(lib, p, m.commitments, m.epoch, m.feerate);
  }

  lemma ValidShape(lib: Library, p: Proposal, m: Manifest)
    requires Valid(lib, p, m)
    ensures Buildable(lib, p, m.commitments, m.feerate) && Canonical(m.commitments) == m.commitments
    ensures m == Assemble(lib, p, m.commitments, m.epoch, m.feerate)
  {
    hide Buildable, Canonical, BatchId, Inputs, ProtocolOutputs;
  }

  lemma AssembledChanges(lib: Library, p: Proposal, cs: seq<Commitment>, epoch: u32, feerate: u32)
    requires Buildable(lib, p, cs, feerate)
    ensures var m := Assemble(lib, p, cs, epoch, feerate);
            && |m.tx.outputs| == |cs| + 3 && |m.charges| == |cs|
            && forall i | 0 <= i < |cs| ::
                 && m.charges[i] <= cs[i].maxCharge
                 && m.tx.outputs[i + 3].amount + m.charges[i] == cs[i].feeValue
                 && m.tx.outputs[i + 3].amount >= MIN_OUTPUT_SATS
  {
    hide NoRepeats, ValidCommitment, ValidProposal, Inputs, HeaderScript, StockSpk, Marker, Charge, BatchId, TotalCharge,
         MinerFee, MaxWeight, ProtocolOutputs;
    ChangesAreStandard(lib, p, cs);
    var m := Assemble(lib, p, cs, epoch, feerate);
    var changes := ChangeOutputs(cs, m.totalCharge);
    forall i | 0 <= i < |cs| ensures m.tx.outputs[i + 3] == changes[i] {
    }
  }

  lemma AssembledBalance(lib: Library, p: Proposal, cs: seq<Commitment>, epoch: u32, feerate: u32)
    requires Buildable(lib, p, cs, feerate)
    ensures var m := Assemble(lib, p, cs, epoch, feerate);
            p.stockValue + Sum(FeeValues(cs)) == Sum(Amounts(m.tx.outputs)) + m.minerFee
  {
    hide NoRepeats, ValidCommitment, ValidProposal, Inputs, HeaderScript, StockSpk, Marker, Charge, BatchId, Sum;
    var m := Assemble(lib, p, cs, epoch, feerate);
    AssembledCharges(lib, p, cs, epoch, feerate);
    ChangesAreStandard(lib, p, cs);
    var changes := Amounts(ChangeOutputs(cs, m.totalCharge));
    SumDifference(FeeValues(cs), m.charges, changes);
    var head: seq<nat> := [0, MARKER_DUST_SATS, p.stockValue];
    assert Amounts(m.tx.outputs) == head + changes;
    SumConcat(head, changes);
    ThreeSum(0, MARKER_DUST_SATS, p.stockValue);
  }

  lemma ThreeSum(a: nat, b: nat, c: nat)
    ensures Sum([a, b, c]) == a + b + c
  {
    assert [a, b, c][..2] == [a, b] && [a, b][..1] == [a] && [a][..0] == [];
    assert Sum([a]) == a;
    assert Sum([a, b]) == a + b;
  }

  /** The closing layout check of `build_at` is implied by what comes before it. */
  lemma BuiltPassesLayout(lib: Library, p: Proposal, m: Manifest)
    requires Valid(lib, p, m)
    ensures CheckLayout(lib, p, m)
  {
    hide NoRepeats, ValidCommitment, ValidProposal, Canonical, HeaderScript, StockSpk, Marker, Affordable;
  }
}
