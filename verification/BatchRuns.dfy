/**
 * Fee replacements of a co-funded batch, and the reservation of a fee input
 * (`Manifest::replacement` and `ReservationPhase` of
 * `crates/opencsv-bitcoin/src/batch_v2.rs`).
 */
module BatchRuns {
  import opened Wrappers
  import opened Wire
  import opened Block
  import opened BatchWire
  import opened Manifests

  const LAST_EPOCH: u32 := 0xffff_ffff

  function ChangeScripts(m: Manifest): (r: seq<Buffer>)
    requires |m.tx.outputs| >= 3
    ensures |r| == |m.tx.outputs| - 3
  {
    seq(|m.tx.outputs| - 3, i requires 0 <= i < |m.tx.outputs| - 3 => m.tx.outputs[i + 3].scriptPubkey)
  }

  /** What a replacement may not touch: inputs, the protocol's outputs, where change goes. */
  predicate SameInvariants(a: Manifest, b: Manifest) {
    && |a.tx.outputs| >= 3 && |b.tx.outputs| >= 3
    && a.tx.inputs == b.tx.inputs
    && a.tx.outputs[..3] == b.tx.outputs[..3]
    && ChangeScripts(a) == ChangeScripts(b)
  }

  /** `replacement` */
  ghost function Replacement(lib: Library, p: Proposal, m: Manifest, feerate: u32): Option<Manifest> {
    if feerate <= m.feerate || p.version != VERSION || m.epoch == LAST_EPOCH then None
    else
      var next :- Build(lib, p, m.commitments, m.epoch + 1, feerate);
      if SameInvariants(m, next) then Some(next) else None
  }

  method Replace(lib: Library, p: Proposal, m: Manifest, feerate: u32) returns (r: Option<Manifest>)
    ensures r == Replacement(lib, p, m, feerate)
  {
    hide Build, SameInvariants;
    if feerate <= m.feerate || p.version != VERSION || m.epoch == LAST_EPOCH {
      return None;
    }
    var next :- BuildAt(lib, p, m.commitments, m.epoch + 1, feerate);
    r := if SameInvariants(m, next) then Some(next) else None;
  }

  lemma Rebuilt(lib: Library, p: Proposal, m: Manifest, epoch: u32, feerate: u32)
    requires Valid(lib, p, m) && Build(lib, p, m.commitments, epoch, feerate).Some?
    ensures var next := Build(lib, p, m.commitments, epoch, feerate).value;
            && Valid(lib, p, next) && next.commitments == m.commitments
            && next.epoch == epoch && next.feerate == feerate
            && SameInvariants(m, next)
  {
    hide Canonical, Affordable, NoRepeats, ValidProposal, ValidCommitment, Inputs, ProtocolOutputs, BatchId, TotalCharge,
         MinerFee, MaxWeight;
    ValidShape(lib, p, m);
    BuiltIsValid(lib, p, m.commitments, epoch, feerate);
    var next := Build(lib, p, m.commitments, epoch, feerate).value;
    ValidShape(lib, p, next);
    var cs := m.commitments;
    ChangesAreStandard(lib, p, cs);
    forall i | 0 <= i < |cs| ensures ChangeScripts(m)[i] == cs[i].changeScript == ChangeScripts(next)[i] {
    }
  }

  /** The invariant guard of `replacement` can never fire on a valid manifest. */
  lemma GuardNeverFires(lib: Library, p: Proposal, m: Manifest, feerate: u32)
    requires Valid(lib, p, m)
    ensures Replacement(lib, p, m, feerate)
         == if feerate <= m.feerate || p.version != VERSION || m.epoch == LAST_EPOCH then None
            else Build(lib, p, m.commitments, m.epoch + 1, feerate)
  {
    hide Build, SameInvariants, Valid;
    if m.epoch != LAST_EPOCH && Build(lib, p, m.commitments, m.epoch + 1, feerate).Some? {
      Rebuilt(lib, p, m, m.epoch + 1, feerate);
    }
  }

  lemma ChargeRises(total: u64, more: u64, n: nat, i: nat)
    requires 0 < n && more >= total + 2 * n
    ensures Charge(more, n, i) > Charge(total, n, i)
  {
    hide Charge;
    Shares(total, n);
    Shares(more, n);
    SharesRise(total / n, total % n, more / n, more % n, n);
  }

  lemma SharesRise(q: nat, r: nat, q': nat, r': nat, n: nat)
    requires n > 0 && r < n && r' < n && n * q' + r' >= n * q + r + 2 * n
    ensures q' >= q + 2
  {
    Scaled(n, q', q + 1);
    assert n * (q + 1) == n * q + n;
  }

  lemma Scaled(n: nat, a: nat, b: nat)
    ensures a <= b ==> n * a <= n * b
  {
  }

  lemma FeeRises(a: u32, b: u32, n: nat)
    requires 1 <= n <= 64 && a < b
    ensures TotalCharge(b, n) >= TotalCharge(a, n) + 2 * n && MinerFee(b, n) > MinerFee(a, n)
  {
    FeesFit(a, n);
    Scaled(VirtualBytes(n), a + 1, b);
    assert VirtualBytes(n) * (a + 1) == VirtualBytes(n) * a + VirtualBytes(n);
  }

  /** What one replacement does to a valid manifest. */
  ghost predicate Raises(a: Manifest, b: Manifest) {
    && b.commitments == a.commitments && SameInvariants(a, b)
    && b.epoch == a.epoch + 1 && b.feerate > a.feerate && b.minerFee > a.minerFee
    && |a.charges| == |b.charges| && forall i | 0 <= i < |a.charges| :: b.charges[i] > a.charges[i]
  }

  /** One replacement keeps the manifest valid and its invariants, and raises every charge. */
  lemma ReplacementRaises(lib: Library, p: Proposal, m: Manifest, feerate: u32)
    requires Valid(lib, p, m) && Replacement(lib, p, m, feerate).Some?
    ensures var next := Replacement(lib, p, m, feerate).value;
            Valid(lib, p, next) && Raises(m, next)
  {
    hide Build, SameInvariants, Valid, Buildable, Charge, TotalCharge, MinerFee;
    Rebuilt(lib, p, m, m.epoch + 1, feerate);
    var next := Replacement(lib, p, m, feerate).value;
    ValidShape(lib, p, m);
    ValidShape(lib, p, next);
    BuildableCount(lib, p, m.commitments, m.feerate);
    var n := |m.commitments|;
    FeeRises(m.feerate, feerate, n);
    forall i | 0 <= i < n ensures next.charges[i] > m.charges[i] {
      ChargeRises(m.totalCharge, next.totalCharge, n, i);
    }
  }

  lemma BuildableCount(lib: Library, p: Proposal, cs: seq<Commitment>, feerate: u32)
    requires Buildable(lib, p, cs, feerate)
    ensures 1 <= |cs| <= 64 && feerate <= p.ceiling
  {
  }

  /** A run of replacements; `None` if one is refused. */
  ghost function ReplaceAll(lib: Library, p: Proposal, m: Manifest, feerates: seq<u32>): Option<Manifest>
    decreases |feerates|
  {
    if feerates == [] then Some(m)
    else
      var last := |feerates| - 1;
      var before :- ReplaceAll(lib, p, m, feerates[..last]);
      Replacement(lib, p, before, feerates[last])
  }

  /**
   * Along any run the inputs, the protocol's outputs and the change scripts stay
   * fixed, every participant's charge rises with every step, and the run is no
   * longer than the proposal's feerate range.
   */
  lemma {:induction false} ReplacementRun(lib: Library, p: Proposal, m: Manifest, feerates: seq<u32>)
    requires Valid(lib, p, m) && ReplaceAll(lib, p, m, feerates).Some?
    ensures var end := ReplaceAll(lib, p, m, feerates).value;
            && Valid(lib, p, end) && end.commitments == m.commitments && SameInvariants(m, end)
            && end.epoch == m.epoch + |feerates|
            && end.minerFee >= m.minerFee + |feerates|
            && end.feerate >= m.feerate + |feerates|
            && |feerates| <= p.ceiling - m.feerate
            && |end.charges| == |m.charges| == |m.commitments|
            && forall i | 0 <= i < |m.charges| ::
                 m.charges[i] + |feerates| <= end.charges[i] <= m.commitments[i].maxCharge
    decreases |feerates|
  {
    hide Valid, Replacement, SameInvariants;
    if feerates == [] {
      Reflexive(lib, p, m);
      FeesAreExact(lib, p, m);
      Ceiling(lib, p, m);
    } else {
      var last := |feerates| - 1;
      var before := ReplaceAll(lib, p, m, feerates[..last]).value;
      ReplacementRun(lib, p, m, feerates[..last]);
      ReplacementRaises(lib, p, before, feerates[last]);
      var end := ReplaceAll(lib, p, m, feerates).value;
      InvariantsCompose(m, before, end);
      FeesAreExact(lib, p, end);
      Ceiling(lib, p, end);
    }
  }

  lemma Ceiling(lib: Library, p: Proposal, m: Manifest)
    requires Valid(lib, p, m)
    ensures m.feerate <= p.ceiling
  {
    hide Valid, Buildable;
    ValidShape(lib, p, m);
    BuildableCount(lib, p, m.commitments, m.feerate);
  }

  lemma Reflexive(lib: Library, p: Proposal, m: Manifest)
    requires Valid(lib, p, m)
    ensures SameInvariants(m, m)
  {
    hide Valid;
    FeesAreExact(lib, p, m);
  }

  lemma InvariantsCompose(a: Manifest, b: Manifest, c: Manifest)
    requires SameInvariants(a, b) && SameInvariants(b, c)
    ensures SameInvariants(a, c)
  {
  }

  // -- reservations --------------------------------------------------------------------------------

  datatype Phase = CommittedUnsigned | SignatureReleased | Confirmed | InvalidatedOnChain | ReleasedBeforeSignature

  datatype Act = ReleaseSignature | TimeoutAbort | Confirm | Invalidate

  /** One transition; `None` is a refusal. */
  function Move(phase: Phase, act: Act): Option<Phase> {
    match act
    case ReleaseSignature =>
      if phase in {CommittedUnsigned, SignatureReleased} then Some(SignatureReleased) else None
    case TimeoutAbort =>
      if phase == CommittedUnsigned then Some(ReleasedBeforeSignature)
      else if phase == SignatureReleased then None
      else Some(phase)
    case Confirm => Some(Confirmed)
    case Invalidate => Some(InvalidatedOnChain)
  }

  predicate Releasable(phase: Phase) {
    phase in {Confirmed, InvalidatedOnChain, ReleasedBeforeSignature}
  }

  /** A refused act leaves the phase alone. */
  function MoveAll(phase: Phase, acts: seq<Act>): Phase {
    if acts == [] then phase
    else
      var before := MoveAll(phase, acts[..|acts| - 1]);
      match Move(before, acts[|acts| - 1])
      case None => before
      case Some(next) => next
  }

  /**
   * Once a signature is out, no timeout frees the input: it stays reserved until the
   * chain has spoken.
   */
  lemma {:induction false} OnlyTheChainFrees(acts: seq<Act>, k: nat, end: nat)
    requires k <= end <= |acts| && MoveAll(CommittedUnsigned, acts[..k]) == SignatureReleased
    ensures MoveAll(CommittedUnsigned, acts[..end]) != ReleasedBeforeSignature
    ensures Releasable(MoveAll(CommittedUnsigned, acts[..end])) ==> exists i | k <= i < end :: acts[i] in {Confirm, Invalidate}
    decreases end
  {
    if k < end {
      OnlyTheChainFrees(acts, k, end - 1);
      assert acts[..end][..end - 1] == acts[..end - 1];
    }
  }
}
