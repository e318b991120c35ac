/**
 * The two halves of the protocol meet: what the batching code signs and what solo
 * replacement keeps, as the chain scanners read it.
 */
module BatchScans {
  import opened Wrappers
  import opened Wire
  import opened Block
  import opened Anchors
  import opened BatchWire
  import opened Manifests
  import opened ManifestWire
  import opened Finalization
  import Replacements
  import FullScan
  import ScanIndexes

  /** A bare OP_RETURN push of a record reads back as that record. */
  lemma HeaderReadsBack(lib: Library, p: Proposal, cs: seq<Commitment>)
    requires |cs| < 256
    ensures OpReturnPayload(HeaderScript(lib, p, cs)).Some?
    ensures FromBytes(OpReturnPayload(HeaderScript(lib, p, cs)).value)
         == BatchHeader(|cs|, lib.crypto.commit(V2, Payloads(cs), Context(lib, p)))
  {
    hide ToBytes, FromBytes;
    var r := BatchHeader(|cs|, lib.crypto.commit(V2, Payloads(cs), Context(lib, p)));
    var record: Bytes := ToBytes(r);
    BatchStable(r.count, r.batchCommit);
    assert HeaderScript(lib, p, cs)[2..] == record;
  }

  /** The signed input-0 stack is a version-2 envelope of the participants' payloads. */
  lemma StackReadsBack(p: Proposal, m: Manifest, signature: Buffer)
    requires 1 <= |m.commitments| == p.count <= 64 && 0 < |signature| <= MAX_SIGNATURE
    ensures DecodeWitness(StockStack(p, m, signature)) == Some(Envelope(V2, Payloads(m.commitments)))
  {
    var stack := StockStack(p, m, signature);
    var n := |stack|;
    var items := PayloadItems(Payloads(m.commitments));
    assert stack[0] == OCS2() && OCS2()[3] != OCSV()[3];
    assert stack[1..n - 2] == items;
    assert stack[n - 2] == signature && stack[n - 1] == StockScript(p.stockOwner, p.count);
    assert AsPayloads(items) == Payloads(m.commitments);
  }

  lemma SignedParts(lib: Library, p: Proposal, m: Manifest, stock: Buffer, signatures: seq<Buffer>)
    requires Valid(lib, p, m) && |signatures| == |m.commitments|
    ensures var tx := Signed(p, m, stock, signatures);
            && 1 <= |m.commitments| == p.count <= 64
            && |tx.inputs| == |m.commitments| + 1 && tx.inputs[0].prev == p.stockOutpoint
            && |tx.outputs| == |m.commitments| + 3
            && tx.outputs[0].scriptPubkey == HeaderScript(lib, p, m.commitments)
            && tx.outputs[1].scriptPubkey == Marker(p)
            && tx.witnesses != [] && tx.witnesses[0] == StockStack(p, m, stock)
            && NoRepeats(lib, m.commitments)
  {
    hide Valid, Buildable, HeaderScript, StockSpk, Marker, NoRepeats, StockStack;
    ValidShape(lib, p, m);
    BuildableParts(lib, p, m.commitments, m.feerate);
    ValidIsDistinct(lib, p, m);
  }

  /**
   * A signed batch is scanned as one candidate per participant, and each
   * participant's nullifier is found by its own candidate and by no other.
   */
  lemma SignedBatchIsFound(lib: Library, p: Proposal, m: Manifest, stock: Buffer, signatures: seq<Buffer>, height: nat,
                           position: nat, i: nat, rawNf: Hash)
    requires Valid(lib, p, m) && |signatures| == |m.commitments| && 0 < |stock| <= MAX_SIGNATURE
    requires i < |m.commitments| && m.commitments[i].payload == lib.crypto.bind(rawNf, Context(lib, p))
    ensures var found := TransactionCandidates(lib.crypto, Signed(p, m, stock, signatures), height, position);
            && |found| == |m.commitments|
            && forall j | 0 <= j < |found| ::
                 && found[j].location == AnchorLocation(height, position) && found[j].ctx == Context(lib, p)
                 && (Binds(lib.crypto, found[j], rawNf) <==> j == i)
  {
    hide Valid, HeaderScript, StockStack, Marker, NoRepeats, FromBytes, Txid, FundingCtx, DecodeWitness, OpReturnPayload, Binds,
         Signed;
    SignedParts(lib, p, m, stock, signatures);
    HeaderReadsBack(lib, p, m.commitments);
    StackReadsBack(p, m, stock);
    var tx := Signed(p, m, stock, signatures);
    var e := Envelope(V2, Payloads(m.commitments));
    var record := BatchHeader(|m.commitments|, lib.crypto.commit(V2, e.payloads, Context(lib, p)));
    var base := ScannedAnchor(AnchorLocation(height, position), Txid(lib.crypto.sha256d, tx), record, Context(lib, p), None);
    assert FirstPayload(tx.outputs) == OpReturnPayload(tx.outputs[0].scriptPubkey);
    assert TransactionCandidates(lib.crypto, tx, height, position) == ExpandBatch(base, e);
    OneMemberBinds(lib.crypto, base, e, rawNf);
    forall j | 0 <= j < |e.payloads|
      ensures e.payloads[j] == e.payloads[i] && e.payloads[i] !in e.payloads[..j] <==> j == i {
      OnlyPosition(lib, m.commitments, i, j);
    }
  }

  lemma OnlyPosition(lib: Library, cs: seq<Commitment>, i: nat, j: nat)
    requires NoRepeats(lib, cs) && i < |cs| && j < |cs|
    ensures Payloads(cs)[j] == Payloads(cs)[i] && Payloads(cs)[i] !in Payloads(cs)[..j] <==> j == i
  {
    hide CommitmentId;
    assert i < j ==> Differ(lib, cs[i], cs[j]);
    assert j < i ==> Differ(lib, cs[j], cs[i]);
    forall k | 0 <= k < i ensures Payloads(cs)[k] != Payloads(cs)[i] {
      assert Differ(lib, cs[k], cs[i]);
    }
  }

  /** A block that carries a signed batch shows its marker to the filters. */
  lemma SignedBatchIsMarked(lib: Library, p: Proposal, m: Manifest, stock: Buffer, signatures: seq<Buffer>,
                            world: FullScan.World, hash: Hash)
    requires Valid(lib, p, m) && |signatures| == |m.commitments|
    requires Signed(p, m, stock, signatures) in world.blockOf(hash).txs
    ensures ScanIndexes.AnchorsMarked(lib.crypto, world, hash)
  {
    hide Valid, HeaderScript, StockStack, NoRepeats, MarkerSpk, LegacyMarkerSpk, Signed, Candidates;
    SignedParts(lib, p, m, stock, signatures);
    var tx := Signed(p, m, stock, signatures);
    assert tx.outputs[1] in tx.outputs;
  }

  lemma SoloPayload(script: Bytes)
    requires |script| == 66 && script[..2] == [0x6a, 0x40]
    ensures OpReturnPayload(script) == Some(script[2..])
  {
    assert script[0] == script[..2][0] && script[1] == script[..2][1];
  }

  /**
   * A fee replacement of a solo anchor shows the scanners the same record in the same
   * context: it binds exactly the nullifiers the original did.
   */
  lemma ReplacementShowsSameRecord(crypto: Crypto, dust: Replacements.DustLimit, original: Transaction, next: Transaction,
                                   height: nat, position: nat, rawNf: Hash)
    requires Replacements.Accepted(dust, original, next)
    requires !IsCoinbase(original) && !IsCoinbase(next)
    requires !FromBytes(original.outputs[0].scriptPubkey[2..]).BatchHeader?
    ensures var a := TransactionCandidates(crypto, original, height, position);
            var b := TransactionCandidates(crypto, next, height, position);
            && |a| == |b| == 1 && b[0] == a[0].(txid := Txid(crypto.sha256d, next))
            && Binds(crypto, a[0], rawNf) == Binds(crypto, b[0], rawNf)
  {
    hide FromBytes, Txid, FundingCtx, OpReturnPayload, MarkerSpk, IsCoinbase;
    SoloPayload(original.outputs[0].scriptPubkey);
    assert original.outputs[..2][0] == original.outputs[0] && next.outputs[..2][0] == next.outputs[0];
    assert original.inputs[0] == next.inputs[0];
  }
}
