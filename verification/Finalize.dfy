/**
 * Assembling the signed batch from detached shares, and the weight bound the fee
 * was computed from (`crates/opencsv-bitcoin/src/batch_v2.rs`).
 */
module Finalization {
  import opened Wrappers
  import opened Wire
  import opened Block
  import opened Anchors
  import opened BatchWire
  import opened Manifests
  import opened ManifestWire

  const MAX_SIGNATURE := 73

  // -- weight -------------------------------------------------------------------------------

  function StackBytes(stack: seq<Buffer>): Bytes {
    CompactSize(Count(stack)) + EncodeMany(stack, VarBytes)
  }

  /** The BIP144 encoding of a transaction with witnesses. */
  function SegwitBytes(tx: Transaction): Bytes {
    I32Bytes(tx.version) + [0, 1] + CompactSize(Count(tx.inputs)) + EncodeMany(tx.inputs, InputBytes)
    + CompactSize(Count(tx.outputs)) + EncodeMany(tx.outputs, OutputBytes) + EncodeMany(tx.witnesses, StackBytes)
    + LE(tx.lockTime, 4)
  }

  /** Weight units: three times the stripped size plus the full size. */
  function Weight(tx: Transaction): nat {
    3 * |LegacyBytes(Stripped(tx))| + |SegwitBytes(tx)|
  }

  function PayloadItems(payloads: seq<Payload>): (r: seq<Buffer>)
    ensures |r| == |payloads| && forall i | 0 <= i < |r| :: |r[i]| == 24
  {
    seq(|payloads|, i requires 0 <= i < |payloads| => payloads[i])
  }

  /** Input 0: the v2 envelope, the stock signature, the stock script. */
  function StockStack(p: Proposal, m: Manifest, signature: Buffer): (r: seq<Buffer>)
    ensures |r| == |m.commitments| + 3
  {
    [OCS2()] + PayloadItems(Payloads(m.commitments)) + [signature, StockScript(p.stockOwner, p.count)]
  }

  function ParticipantStack(c: Commitment, signature: Buffer): seq<Buffer> {
    [signature, c.feeKey]
  }

  function Stacks(p: Proposal, m: Manifest, stock: Buffer, signatures: seq<Buffer>): (r: seq<seq<Buffer>>)
    requires |signatures| == |m.commitments|
    ensures |r| == |m.commitments| + 1
  {
    [StockStack(p, m, stock)]
    + seq(|signatures|, i requires 0 <= i < |signatures| => ParticipantStack(m.commitments[i], signatures[i]))
  }

  function Signed(p: Proposal, m: Manifest, stock: Buffer, signatures: seq<Buffer>): Transaction
    requires |signatures| == |m.commitments|
  {
    m.tx.(witnesses := Stacks(p, m, stock, signatures))
  }

  function SumLengths(signatures: seq<Buffer>): nat {
    if signatures == [] then 0 else |signatures[0]| + SumLengths(signatures[1..])
  }

  lemma PairStackLength(a: Buffer, b: Buffer)
    requires |a| < 0xfd && |b| < 0xfd
    ensures |StackBytes([a, b])| == 3 + |a| + |b|
  {
    hide VarBytes;
    var both: seq<Buffer>, second: seq<Buffer>, none: seq<Buffer> := [a, b], [b], [];
    assert both[1..] == second && second[1..] == none;
    assert EncodeMany(second, VarBytes) == VarBytes(b) + EncodeMany(none, VarBytes);
    assert EncodeMany(both, VarBytes) == VarBytes(a) + EncodeMany(second, VarBytes);
    ItemLength(a);
    ItemLength(b);
  }

  lemma ItemLength(b: Buffer)
    requires |b| < 0xfd
    ensures |VarBytes(b)| == 1 + |b|
  {
  }

  lemma StockStackLength(p: Proposal, m: Manifest, signature: Buffer)
    requires |m.commitments| == p.count <= 64 && |signature| < 0xfd
    ensures |StackBytes(StockStack(p, m, signature))| == 45 + 26 * p.count + |signature|
  {
    hide VarBytes;
    var script := StockScript(p.stockOwner, p.count);
    var items := PayloadItems(Payloads(m.commitments));
    var tail: seq<Buffer>, magic: seq<Buffer>, none: seq<Buffer> := [signature, script], [OCS2()], [];
    forall i | 0 <= i < |items| ensures |VarBytes(items[i])| == 25 {
      ItemLength(items[i]);
    }
    ManyLength(items, VarBytes, 25);
    PairStackLength(signature, script);
    ItemLength(OCS2());
    EncodeConcat(magic, items, VarBytes);
    EncodeConcat(magic + items, tail, VarBytes);
    assert magic[1..] == none;
    assert EncodeMany(magic, VarBytes) == VarBytes(OCS2()) + EncodeMany(none, VarBytes);
    assert StockStack(p, m, signature) == magic + items + tail;
  }

  lemma {:induction false} ParticipantStacksLength(cs: seq<Commitment>, signatures: seq<Buffer>, stacks: seq<seq<Buffer>>)
    requires |cs| == |signatures| == |stacks|
    requires forall i | 0 <= i < |cs| :: |signatures[i]| <= MAX_SIGNATURE && stacks[i] == ParticipantStack(cs[i], signatures[i])
    ensures |EncodeMany(stacks, StackBytes)| == 36 * |cs| + SumLengths(signatures)
  {
    hide StackBytes;
    if cs != [] {
      PairStackLength(signatures[0], cs[0].feeKey);
      ParticipantStacksLength(cs[1..], signatures[1..], stacks[1..]);
    }
  }

  lemma {:induction false} LengthsBound(signatures: seq<Buffer>)
    requires forall i | 0 <= i < |signatures| :: |signatures[i]| <= MAX_SIGNATURE
    ensures SumLengths(signatures) <= MAX_SIGNATURE * |signatures|
    ensures SumLengths(signatures) == MAX_SIGNATURE * |signatures| <==>
              forall i | 0 <= i < |signatures| :: |signatures[i]| == MAX_SIGNATURE
  {
    if signatures != [] {
      LengthsBound(signatures[1..]);
      if SumLengths(signatures) == MAX_SIGNATURE * |signatures| {
        forall i | 0 <= i < |signatures| ensures |signatures[i]| == MAX_SIGNATURE {
          assert i > 0 ==> signatures[i] == signatures[1..][i - 1];
        }
      }
    }
  }

  /** The exact weight of the signed transaction, from its serialization. */
  lemma SignedWeight(lib: Library, p: Proposal, m: Manifest, stock: Buffer, signatures: seq<Buffer>)
    requires Valid(lib, p, m) && |signatures| == |m.commitments| && |stock| <= MAX_SIGNATURE
    requires forall i | 0 <= i < |signatures| :: |signatures[i]| <= MAX_SIGNATURE
    ensures Weight(Signed(p, m, stock, signatures)) == 895 + 350 * |m.commitments| + |stock| + SumLengths(signatures)
  {
    hide Valid, EncodeMany, LE, StockStack, ParticipantStack, StackBytes, Buildable;
    UnsignedLength(lib, p, m);
    ValidShape(lib, p, m);
    BuildableParts(lib, p, m.commitments, m.feerate);
    var tx := Signed(p, m, stock, signatures);
    var rest := tx.witnesses[1..];
    StockStackLength(p, m, stock);
    ParticipantStacksLength(m.commitments, signatures, rest);
    assert tx.witnesses == [StockStack(p, m, stock)] + rest;
    FirstStack(StockStack(p, m, stock), rest);
    WitnessCost(tx, m.tx);
  }

  lemma FirstStack(first: seq<Buffer>, rest: seq<seq<Buffer>>)
    ensures |EncodeMany([first] + rest, StackBytes)| == |StackBytes(first)| + |EncodeMany(rest, StackBytes)|
  {
    hide StackBytes;
    assert ([first] + rest)[1..] == rest;
  }

  lemma WitnessCost(tx: Transaction, bare: Transaction)
    requires Stripped(tx) == bare
    ensures |SegwitBytes(tx)| == |LegacyBytes(bare)| + 2 + |EncodeMany(tx.witnesses, StackBytes)|
  {
    hide EncodeMany, LE, StackBytes, CompactSize;
  }

  /** `968 + 423 n` bounds every signed batch, tightly: reached exactly when every signature takes 73 bytes. */
  lemma WeightBound(lib: Library, p: Proposal, m: Manifest, stock: Buffer, signatures: seq<Buffer>)
    requires Valid(lib, p, m) && |signatures| == |m.commitments| && |stock| <= MAX_SIGNATURE
    requires forall i | 0 <= i < |signatures| :: |signatures[i]| <= MAX_SIGNATURE
    ensures var w := Weight(Signed(p, m, stock, signatures));
            && w <= m.maxWeight == 968 + 423 * |m.commitments|
            && (w == m.maxWeight <==>
                  |stock| == MAX_SIGNATURE && forall i | 0 <= i < |signatures| :: |signatures[i]| == MAX_SIGNATURE)
  {
    hide Valid, Weight, Buildable;
    SignedWeight(lib, p, m, stock, signatures);
    LengthsBound(signatures);
    ValidShape(lib, p, m);
  }

  // -- signatures -------------------------------------------------------------------------------

  predicate StockSigned(lib: Library, p: Proposal, m: Manifest, signature: Bytes) {
    && AllLowS(lib, signature)
    && lib.verify(signature, p.stockOwner,
                  lib.sighash(m.tx, 0, StockScript(p.stockOwner, p.count), p.stockValue))
  }

  predicate ParticipantSigned(lib: Library, m: Manifest, i: nat, signature: Bytes)
    requires i < |m.commitments|
  {
    && AllLowS(lib, signature)
    && lib.verify(signature, m.commitments[i].feeKey,
                  lib.sighash(m.tx, i + 1, m.commitments[i].feeScript, m.commitments[i].feeValue))
  }

  ghost predicate AllSigned(lib: Library, p: Proposal, m: Manifest, stock: Bytes, signatures: seq<Bytes>) {
    && |signatures| == |m.commitments|
    && StockSigned(lib, p, m, stock)
    && forall i | 0 <= i < |signatures| :: ParticipantSigned(lib, m, i, signatures[i])
  }

  /** Serialized signatures are at most 73 bytes. */
  predicate Short(s: Bytes) {
    |s| <= MAX_SIGNATURE
  }

  /** `finalize`; on short signatures its weight check can never fail. */
  method Finalize(lib: Library, p: Proposal, m: Manifest, stock: Buffer, signatures: seq<Buffer>)
    returns (r: Option<Transaction>)
    requires Short(stock) && forall i | 0 <= i < |signatures| :: Short(signatures[i])
    ensures r.Some? <==> Valid(lib, p, m) && AllSigned(lib, p, m, stock, signatures)
    ensures r.Some? ==> r.value == Signed(p, m, stock, signatures)
  {
    hide Valid, StockSigned, ParticipantSigned, Weight, Stacks;
    var valid := Validate(lib, p, m);
    if !valid || |signatures| != |m.commitments| || !StockSigned(lib, p, m, stock) {
      return None;
    }
    for i := 0 to |signatures|
      invariant forall k | 0 <= k < i :: ParticipantSigned(lib, m, k, signatures[k])
    {
      if !ParticipantSigned(lib, m, i, signatures[i]) {
        return None;
      }
    }
    var tx := Signed(p, m, stock, signatures);
    WeightBound(lib, p, m, stock, signatures);
    r := if Weight(tx) > m.maxWeight then None else Some(tx);
  }

  // -- shares -----------------------------------------------------------------------------------------

  /** `verify_signature_share`, on a valid manifest. */
  predicate ShareVerifies(lib: Library, p: Proposal, m: Manifest, s: Share) {
    && s.manifestId == ManifestId(lib, m)
    && if s.inputIndex == 0 then s.signer == p.stockOwner && StockSigned(lib, p, m, s.signature)
       else
         && s.inputIndex - 1 < |m.commitments|
         && s.signer == m.commitments[s.inputIndex - 1].feeKey
         && ParticipantSigned(lib, m, s.inputIndex - 1, s.signature)
  }

  ghost predicate AllVerify(lib: Library, p: Proposal, m: Manifest, shares: seq<Share>) {
    forall s | s in shares :: ShareVerifies(lib, p, m, s)
  }

  /** No input has two different signatures. */
  ghost predicate NoConflict(shares: seq<Share>) {
    forall a, b | a in shares && b in shares && a.inputIndex == b.inputIndex :: a.signature == b.signature
  }

  ghost predicate Covers(shares: seq<Share>, index: nat, signature: Bytes) {
    exists s :: s in shares && s.inputIndex == index && s.signature == signature
  }

  ghost predicate Present(shares: seq<Share>, index: nat) {
    exists s :: s in shares && s.inputIndex == index
  }

  ghost predicate Complete(shares: seq<Share>, n: nat) {
    forall i | 0 <= i <= n :: Present(shares, i)
  }

  /** The collected signatures by input: exactly those some share carries. */
  ghost predicate Collected(shares: seq<Share>, ordered: seq<Option<Bytes>>) {
    forall i | 0 <= i < |ordered| ::
      && (ordered[i].Some? ==> Covers(shares, i, ordered[i].value))
      && (ordered[i].None? ==> !Present(shares, i))
  }

  /** The collecting loop of `finalize_shares`. */
  method Collect(lib: Library, p: Proposal, m: Manifest, shares: seq<Share>) returns (r: Option<seq<Option<Bytes>>>)
    requires Valid(lib, p, m)
    ensures r.Some? <==> AllVerify(lib, p, m, shares) && NoConflict(shares)
    ensures r.Some? ==> |r.value| == |m.commitments| + 1 && Collected(shares, r.value)
  {
    hide Valid, ManifestId, StockSigned, ParticipantSigned;
    var ordered: seq<Option<Bytes>> := seq(|m.commitments| + 1, i => None);
    for k := 0 to |shares|
      invariant |ordered| == |m.commitments| + 1
      invariant AllVerify(lib, p, m, shares[..k]) && NoConflict(shares[..k]) && Collected(shares[..k], ordered)
    {
      var s := shares[k];
      assert shares[..k + 1] == shares[..k] + [s] && s in shares;
      if !ShareVerifies(lib, p, m, s) {
        return None;
      }
      var index := s.inputIndex;
      if ordered[index].Some? && ordered[index].value != s.signature {
        ConflictFound(shares, k, ordered[index].value);
        return None;
      }
      CollectOne(shares[..k], ordered, s);
      ordered := ordered[index := Some(s.signature)];
    }
    assert shares[..|shares|] == shares;
    r := Some(ordered);
  }

  lemma ConflictFound(shares: seq<Share>, k: nat, other: Bytes)
    requires k < |shares| && Covers(shares[..k], shares[k].inputIndex, other) && other != shares[k].signature
    ensures !NoConflict(shares)
  {
    var s :| s in shares[..k] && s.inputIndex == shares[k].inputIndex && s.signature == other;
    assert s in shares && shares[k] in shares;
  }

  lemma CollectOne(shares: seq<Share>, ordered: seq<Option<Bytes>>, s: Share)
    requires Collected(shares, ordered) && NoConflict(shares) && s.inputIndex < |ordered|
    requires ordered[s.inputIndex].Some? ==> ordered[s.inputIndex].value == s.signature
    ensures NoConflict(shares + [s])
    ensures Collected(shares + [s], ordered[s.inputIndex := Some(s.signature)])
  {
    var more := shares + [s];
    var index := s.inputIndex;
    forall a | a in more && a.inputIndex == index ensures a.signature == s.signature {
      if a in shares {
        var b :| b in shares && b.inputIndex == index && b.signature == ordered[index].value;
        assert a.signature == b.signature;
      }
    }
    forall i | 0 <= i < |ordered| && ordered[i].Some? ensures Covers(more, i, ordered[i].value) {
      var b :| b in shares && b.inputIndex == i && b.signature == ordered[i].value;
      assert b in more;
    }
    assert s in more && Covers(more, index, s.signature);
  }

  /** Everything a set of shares needs to make the transaction. */
  ghost predicate Sufficient(lib: Library, p: Proposal, m: Manifest, shares: seq<Share>) {
    && Valid(lib, p, m) && AllVerify(lib, p, m, shares) && NoConflict(shares) && Complete(shares, |m.commitments|)
  }

  /** `tx` carries, input by input, the signatures of the shares. */
  ghost predicate CarriesShares(p: Proposal, m: Manifest, shares: seq<Share>, tx: Transaction) {
    exists stock: Buffer, signatures: seq<Buffer> ::
      && |signatures| == |m.commitments| && tx == Signed(p, m, stock, signatures)
      && Covers(shares, 0, stock) && forall i | 0 <= i < |signatures| :: Covers(shares, i + 1, signatures[i])
  }

  /** `finalize_shares` */
  method FinalizeShares(lib: Library, p: Proposal, m: Manifest, shares: seq<Share>) returns (r: Option<Transaction>)
    requires forall s | s in shares :: Short(s.signature)
    ensures r.Some? <==> Sufficient(lib, p, m, shares)
    ensures r.Some? ==> CarriesShares(p, m, shares, r.value)
  {
    hide Valid, ManifestId, StockSigned, ParticipantSigned, Signed;
    var valid := Validate(lib, p, m);
    if !valid {
      return None;
    }
    var ordered :- Collect(lib, p, m, shares);
    if exists i | 0 <= i < |ordered| :: ordered[i].None? {
      return None;
    }
    AllShort(shares, ordered);
    var stock: Buffer := ordered[0].value;
    var signatures: seq<Buffer> := seq(|ordered| - 1, i requires 0 <= i < |ordered| - 1 => ordered[i + 1].value);
    AllCollected(lib, p, m, shares, ordered, signatures);
    r := Finalize(lib, p, m, stock, signatures);
  }

  lemma AllShort(shares: seq<Share>, ordered: seq<Option<Bytes>>)
    requires Collected(shares, ordered) && forall s | s in shares :: Short(s.signature)
    ensures forall i | 0 <= i < |ordered| && ordered[i].Some? :: Short(ordered[i].value)
  {
    forall i | 0 <= i < |ordered| && ordered[i].Some? ensures Short(ordered[i].value) {
      var s :| s in shares && s.inputIndex == i && s.signature == ordered[i].value;
    }
  }

  lemma AllCollected(lib: Library, p: Proposal, m: Manifest, shares: seq<Share>, ordered: seq<Option<Bytes>>,
                     signatures: seq<Bytes>)
    requires |ordered| == |m.commitments| + 1 && Collected(shares, ordered) && AllVerify(lib, p, m, shares)
    requires forall i | 0 <= i < |ordered| :: ordered[i].Some?
    requires |signatures| == |m.commitments| && forall i | 0 <= i < |signatures| :: signatures[i] == ordered[i + 1].value
    ensures Complete(shares, |m.commitments|)
    ensures AllSigned(lib, p, m, ordered[0].value, signatures)
    ensures forall i | 0 <= i < |signatures| :: Covers(shares, i + 1, signatures[i])
  {
    hide ManifestId, StockSigned, ParticipantSigned;
    forall i | 0 <= i <= |m.commitments| ensures Present(shares, i) {
      assert ordered[i].Some?;
    }
    assert StockSigned(lib, p, m, ordered[0].value) by {
      var s :| s in shares && s.inputIndex == 0 && s.signature == ordered[0].value;
      assert ShareVerifies(lib, p, m, s);
    }
    forall i | 0 <= i < |signatures|
      ensures ParticipantSigned(lib, m, i, signatures[i]) && Covers(shares, i + 1, signatures[i]) {
      assert ordered[i + 1].Some?;
      var s :| s in shares && s.inputIndex == i + 1 && s.signature == signatures[i];
      assert ShareVerifies(lib, p, m, s);
    }
  }

  /**
   * The outcome depends only on the set of shares: order and repetition change
   * neither whether the batch finalizes nor the transaction it gives.
   */
  lemma SharesAreASet(lib: Library, p: Proposal, m: Manifest, a: seq<Share>, b: seq<Share>)
    requires forall s :: s in a <==> s in b
    ensures Sufficient(lib, p, m, a) <==> Sufficient(lib, p, m, b)
    ensures Sufficient(lib, p, m, a) ==>
              forall x, y | CarriesShares(p, m, a, x) && CarriesShares(p, m, b, y) :: x == y
  {
    hide Valid, ShareVerifies, Signed;
    forall i ensures Present(a, i) <==> Present(b, i) {
    }
    if Sufficient(lib, p, m, a) {
      forall x, y | CarriesShares(p, m, a, x) && CarriesShares(p, m, b, y) ensures x == y {
        OneTransaction(p, m, a, b, x, y);
      }
    }
  }

  lemma OneTransaction(p: Proposal, m: Manifest, a: seq<Share>, b: seq<Share>, x: Transaction, y: Transaction)
    requires (forall s :: s in a <==> s in b) && NoConflict(a)
    requires CarriesShares(p, m, a, x) && CarriesShares(p, m, b, y)
    ensures x == y
  {
    hide Signed;
    var stock: Buffer, signatures: seq<Buffer> :|
      && |signatures| == |m.commitments| && x == Signed(p, m, stock, signatures)
      && Covers(a, 0, stock) && forall i | 0 <= i < |signatures| :: Covers(a, i + 1, signatures[i]);
    var stock': Buffer, signatures': seq<Buffer> :|
      && |signatures'| == |m.commitments| && y == Signed(p, m, stock', signatures')
      && Covers(b, 0, stock') && forall i | 0 <= i < |signatures'| :: Covers(b, i + 1, signatures'[i]);
    forall i | 0 <= i < |signatures| ensures signatures[i] == signatures'[i] {
      assert Covers(a, i + 1, signatures[i]) && Covers(b, i + 1, signatures'[i]);
    }
    assert signatures == signatures';
  }
}
