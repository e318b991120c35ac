/**
 * Anchor records and batch envelopes as the scanners read them
 * (`crates/opencsv-core/src/anchor.rs`, `crates/opencsv-core/src/batch.rs`, the
 * candidate rule of `crates/opencsv-cbf/src/fullscan.rs`). The hashes are the
 * fields of `Crypto`.
 */
module Anchors {
  import opened Wrappers
  import opened Wire
  import opened Block

  const TAG_MINT := 1
  const TAG_REDEEM := 4
  const TAG_BATCH := 5
  const MAX_BATCH_V2_PARTICIPANTS := 64
  const MAX_WITNESS_ITEM := 80

  /** The marker outputs that make anchor-bearing blocks visible to BIP158 filters. */
  function MarkerSpk(): (s: Buffer)
    ensures |s| == 34
  {
    [0x00, 0x20, 0x18, 0x9f, 0x40, 0x03, 0x4b, 0xe7, 0xa1, 0x99, 0xf1, 0xfa, 0x98, 0x91, 0x66, 0x8e,
     0xe3] + [0xab, 0x60, 0x49, 0xf8, 0x2d, 0x38, 0xc6, 0x8b, 0xe7, 0x0f, 0x59, 0x6e, 0xab, 0x2e, 0x18, 0x57, 0xb7]
  }

  function LegacyMarkerSpk(): (s: Buffer)
    ensures |s| == 34
  {
    [0x00, 0x20, 0x4a, 0xe8, 0x15, 0x72, 0xf0, 0x6e, 0x1b, 0x88, 0xfd, 0x5c, 0xed, 0x7a, 0x1a, 0x00,
     0x09] + [0x45, 0x43, 0x2e, 0x83, 0xe1, 0x55, 0x1e, 0x6f, 0x72, 0x1e, 0xe9, 0xc0, 0x0b, 0x8c, 0xc3, 0x32, 0x60]
  }

  /** A digest cut to 24 bytes. */
  type Payload = p: Bytes | |p| == 24 witness seq(24, i => 0)
  type Record64 = r: Bytes | |r| == 64 witness seq(64, i => 0)

  datatype AnchorRecord =
    | Mint(assetId: Payload, amount: u64, mintCommit: Payload)
    | Xfer(first: Payload, second: Payload)
    | XferCompressed(nullifierCommit: Payload)
    | BatchHeader(count: byte, batchCommit: Payload)
    | Redeem(redeemed: Payload, burned: u64, payload: Payload)

  datatype BatchVersion = V1 | V2

  /** The uninterpreted hashes. */
  datatype Crypto = Crypto(
    sha256: HashFn,
    sha256d: HashFn,
    bind: (Hash, Hash) -> Payload,
    commit: (BatchVersion, seq<Payload>, Hash) -> Payload)

  function Zeros(n: nat): (z: Bytes)
    ensures |z| == n && forall i | 0 <= i < n :: z[i] == 0
  {
    seq(n, i => 0)
  }

  predicate AllZero(s: Bytes) {
    forall i | 0 <= i < |s| :: s[i] == 0
  }

  function AmountOf(s: Bytes): u64
    requires |s| == 8
  {
    FromLEBound(s);
    Widths();
    FromLE(s)
  }

  function ToBytes(r: AnchorRecord): Record64 {
    match r
    case Mint(id, amount, commit) => [TAG_MINT] + id + LE(amount, 8) + commit + Zeros(7)
    case BatchHeader(count, commit) => [TAG_BATCH, count] + commit + Zeros(38)
    case Redeem(id, amount, payload) => [TAG_REDEEM] + id + LE(amount, 8) + payload + Zeros(7)
    case Xfer(first, second) => first + second + Zeros(16)
    case XferCompressed(commit) => commit + Zeros(40)
  }

  function FromBytes(b: Record64): AnchorRecord {
    if b[0] == TAG_MINT && AllZero(b[57..]) then Mint(b[1..25], AmountOf(b[25..33]), b[33..57])
    else if b[0] == TAG_REDEEM && AllZero(b[57..]) then Redeem(b[1..25], AmountOf(b[25..33]), b[33..57])
    else if b[0] == TAG_BATCH && AllZero(b[26..]) then BatchHeader(b[1], b[2..26])
    else Xfer(b[0..24], b[24..48])
  }

  /** Writing a record and reading it back gives the same record. */
  predicate Stable(r: AnchorRecord) {
    FromBytes(ToBytes(r)) == r
  }

  /**
   * A parsed payload survives the write and re-read exactly unless the padding
   * that disqualified it as a tagged record is lost in writing.
   */
  lemma ParsedStableIff(b: Record64)
    ensures Stable(FromBytes(b)) <==>
              && !(b[0] in {TAG_MINT, TAG_REDEEM} && !AllZero(b[57..]))
              && !(b[0] == TAG_BATCH && AllZero(b[26..48]) && !AllZero(b[48..]))
  {
    hide ToBytes, AllZero, AmountOf;
    match FromBytes(b)
    case Mint(id, amount, commit) => MintStable(id, amount, commit);
    case Redeem(id, amount, payload) => RedeemStable(id, amount, payload);
    case BatchHeader(count, commit) =>
      BatchStable(count, commit);
      assert b[26..] == b[26..48] + b[48..];
      AllZeroConcat(b[26..48], b[48..]);
    case Xfer(first, second) =>
      XferStable(first, second);
      assert first + second == b[..48];
      assert b[26..48] == (first + second)[26..];
      assert b[26..] == b[26..48] + b[48..];
      AllZeroConcat(b[26..48], b[48..]);
    case XferCompressed(_) =>
      assert false;
  }

  /** For instance a payload tagged as a mint whose last byte is set. */
  lemma UnstableExample()
    ensures var b: Record64 := [TAG_MINT] + Zeros(62) + [1];
            FromBytes(b) == Xfer(b[0..24], b[24..48]) && !Stable(FromBytes(b))
  {
    var b: Record64 := [TAG_MINT] + Zeros(62) + [1];
    assert b[57..][6] == 1;
    ParsedStableIff(b);
  }

  lemma MintStable(id: Payload, amount: u64, commit: Payload)
    ensures Stable(Mint(id, amount, commit))
  {
    hide LE, FromLE, AllZero;
    LEThenFromLEAt8(amount);
    TaggedPieces([TAG_MINT], id, LE(amount, 8), commit, Zeros(7));
  }

  lemma RedeemStable(id: Payload, amount: u64, payload: Payload)
    ensures Stable(Redeem(id, amount, payload))
  {
    hide LE, FromLE, AllZero;
    LEThenFromLEAt8(amount);
    TaggedPieces([TAG_REDEEM], id, LE(amount, 8), payload, Zeros(7));
  }

  lemma TaggedPieces(tag: Bytes, id: Bytes, amount: Bytes, payload: Bytes, pad: Bytes)
    requires |tag| == 1 && |id| == 24 && |amount| == 8 && |payload| == 24 && |pad| == 7
    ensures var w := tag + id + amount + payload + pad;
            w[0] == tag[0] && w[1..25] == id && w[25..33] == amount && w[33..57] == payload && w[57..] == pad
    ensures AllZero(Zeros(7))
  {
  }

  lemma BatchStable(count: byte, commit: Payload)
    ensures Stable(BatchHeader(count, commit))
  {
    var w := ToBytes(BatchHeader(count, commit));
    assert w[2..26] == commit && w[26..] == Zeros(38);
  }

  /** A written transfer reads back as one unless its first payload starts like a tagged record. */
  lemma XferStable(first: Payload, second: Payload)
    ensures Stable(Xfer(first, second)) <==>
              first[0] !in {TAG_MINT, TAG_REDEEM} && !(first[0] == TAG_BATCH && AllZero((first + second)[26..]))
  {
    var w := ToBytes(Xfer(first, second));
    assert w[0..24] == first && w[24..48] == second && w[57..] == Zeros(7);
    assert w[26..] == (first + second)[26..] + Zeros(16);
    AllZeroConcat((first + second)[26..], Zeros(16));
  }

  lemma AllZeroConcat(a: Bytes, b: Bytes)
    ensures AllZero(a + b) <==> AllZero(a) && AllZero(b)
  {
    if AllZero(a + b) {
      forall i | 0 <= i < |a| ensures a[i] == 0 {
        assert (a + b)[i] == a[i];
      }
      forall i | 0 <= i < |b| ensures b[i] == 0 {
        assert (a + b)[|a| + i] == b[i];
      }
    }
  }

  /**
   * The other way round: a payload is written back byte for byte exactly unless it was
   * read as a transfer with more behind it.
   */
  lemma WrittenAsReadIff(b: Record64)
    ensures ToBytes(FromBytes(b)) == b <==> (FromBytes(b).Xfer? ==> AllZero(b[48..]))
  {
    hide LE, FromLE;
    var w := ToBytes(FromBytes(b));
    match FromBytes(b)
    case Mint(id, amount, payload) =>
      AmountWritten(b[25..33]);
      assert b == b[..1] + b[1..25] + b[25..33] + b[33..57] + b[57..];
    case Redeem(id, amount, payload) =>
      AmountWritten(b[25..33]);
      assert b == b[..1] + b[1..25] + b[25..33] + b[33..57] + b[57..];
    case BatchHeader(count, payload) =>
      assert b == b[..2] + b[2..26] + b[26..];
    case Xfer(first, second) =>
      assert b == b[0..24] + b[24..48] + b[48..];
      assert w[48..] == Zeros(16);
    case XferCompressed(_) =>
      assert false;
  }

  lemma AmountWritten(s: Bytes)
    requires |s| == 8
    ensures LE(AmountOf(s), 8) == s
  {
    FromLEThenLE(s);
  }

  /** What has been written once is written the same way ever after. */
  lemma WrittenOnce(r: AnchorRecord)
    ensures ToBytes(FromBytes(ToBytes(r))) == ToBytes(r)
  {
    hide AmountOf, FromLE, LE;
    var w := ToBytes(r);
    WrittenAsReadIff(w);
    match r
    case Mint(id, amount, payload) => MintStable(id, amount, payload);
    case Redeem(id, amount, payload) => RedeemStable(id, amount, payload);
    case BatchHeader(count, payload) => BatchStable(count, payload);
    case Xfer(first, second) => assert w[48..] == Zeros(16);
    case XferCompressed(payload) => assert w[24..] == Zeros(40) && w[48..] == w[24..][24..];
  }

  lemma LEThenFromLEAt8(amount: u64)
    ensures FromLE(LE(amount, 8)) == amount
  {
    Widths();
    LEThenFromLE(amount, 8);
  }

  // -- occurrences --------------------------------------------------------------

  /** Does a payload slot of the record bind `rawNf`? */
  predicate WellFormed(crypto: Crypto, r: AnchorRecord, ctx: Hash, rawNf: Hash) {
    var bound := crypto.bind(rawNf, ctx);
    match r
    case Mint(_, _, _) => false
    case BatchHeader(_, _) => false
    case Xfer(first, second) => first == bound || second == bound
    case XferCompressed(commit) => commit == bound
    case Redeem(_, _, payload) => payload == bound
  }

  function FirstPosition(envelope: seq<Payload>, p: Payload): (r: Option<nat>)
    ensures r.Some? ==> r.value < |envelope| && envelope[r.value] == p && p !in envelope[..r.value]
    ensures r.None? <==> p !in envelope
  {
    if envelope == [] then None
    else if envelope[0] == p then Some(0)
    else
      match FirstPosition(envelope[1..], p)
      case None => assert envelope == [envelope[0]] + envelope[1..]; None
      case Some(i) =>
        assert envelope[..i + 1] == [envelope[0]] + envelope[1..][..i];
        Some(i + 1)
  }

  /** `versioned_envelope_occurrence`. The header counts in one byte, so the index fits the source's 32 bits. */
  function EnvelopeOccurrence(crypto: Crypto, version: BatchVersion, r: AnchorRecord, envelope: seq<Payload>,
                              ctx: Hash, rawNf: Hash): Option<nat>
  {
    if !r.BatchHeader? || |envelope| != r.count || crypto.commit(version, envelope, ctx) != r.batchCommit then None
    else FirstPosition(envelope, crypto.bind(rawNf, ctx))
  }

  function OCSV(): Bytes { [0x4f, 0x43, 0x53, 0x56] }

  function OCS2(): Bytes { [0x4f, 0x43, 0x53, 0x32] }

  datatype Envelope = Envelope(version: BatchVersion, payloads: seq<Payload>)

  predicate AllPayloads(items: seq<Bytes>) {
    forall i | 0 <= i < |items| :: |items[i]| == 24
  }

  function AsPayloads(items: seq<Bytes>): (r: seq<Payload>)
    requires AllPayloads(items)
    ensures |r| == |items|
  {
    seq(|items|, i requires 0 <= i < |items| => items[i])
  }

  /** `witness_envelope_decode`: the magic item picks the version, with no fallback. */
  function DecodeWitness(stack: seq<Bytes>): (r: Option<Envelope>)
    ensures r.Some? ==> r.value.payloads != []
  {
    var n := |stack|;
    if n == 0 then None
    else if stack[0] == OCSV() then
      if n < 3 || !AllPayloads(stack[1..n - 1]) then None
      else Some(Envelope(V1, AsPayloads(stack[1..n - 1])))
    else if stack[0] == OCS2() then
      if n < 4 || n > MAX_BATCH_V2_PARTICIPANTS + 3 then None
      else if stack[n - 2] == [] || |stack[n - 2]| > MAX_WITNESS_ITEM || stack[n - 1] == []
              || !AllPayloads(stack[1..n - 2]) then None
      else Some(Envelope(V2, AsPayloads(stack[1..n - 2])))
    else None
  }

  // -- candidates in a block --------------------------------------------------------

  datatype AnchorLocation = AnchorLocation(height: nat, position: nat) {
    /** Chain order: by height, then by position. */
    predicate AtMost(other: AnchorLocation) {
      height < other.height || (height == other.height && position <= other.position)
    }
  }

  datatype BatchCandidate = BatchCandidate(version: BatchVersion, index: nat, envelope: seq<Payload>)

  datatype ScannedAnchor = ScannedAnchor(
    location: AnchorLocation, txid: Hash, record: AnchorRecord, ctx: Hash, batch: Option<BatchCandidate>)

  /** `ScannedAnchor::binds` */
  predicate Binds(crypto: Crypto, e: ScannedAnchor, rawNf: Hash) {
    match e.batch
    case None => WellFormed(crypto, e.record, e.ctx, rawNf)
    case Some(b) => EnvelopeOccurrence(crypto, b.version, e.record, b.envelope, e.ctx, rawNf) == Some(b.index)
  }

  function FundingCtx(crypto: Crypto, prev: OutPoint): Hash {
    var txid: Bytes := prev.txid;
    crypto.sha256(txid + LE(prev.vout, 4))
  }

  /** The first 64-byte OP_RETURN payload among the outputs. */
  function FirstPayload(outputs: seq<TxOut>): Option<Record64> {
    if outputs == [] then None
    else
      match OpReturnPayload(outputs[0].scriptPubkey)
      case Some(p) => Some(p)
      case None => FirstPayload(outputs[1..])
  }

  function WitnessEnvelope(tx: Transaction): Option<Envelope> {
    if tx.witnesses == [] then None else DecodeWitness(tx.witnesses[0])
  }

  function TransactionCandidates(crypto: Crypto, tx: Transaction, height: nat, position: nat): seq<ScannedAnchor> {
    if IsCoinbase(tx) || tx.inputs == [] then []
    else
      match FirstPayload(tx.outputs)
      case None => []
      case Some(payload) =>
        var base := ScannedAnchor(AnchorLocation(height, position), Txid(crypto.sha256d, tx), FromBytes(payload),
                                  FundingCtx(crypto, tx.inputs[0].prev), None);
        if !base.record.BatchHeader? then [base]
        else
          match WitnessEnvelope(tx)
          case None => [base]
          case Some(e) => ExpandBatch(base, e)
  }

  /** One candidate per payload of the envelope. */
  function ExpandBatch(base: ScannedAnchor, e: Envelope): (r: seq<ScannedAnchor>)
    ensures |r| == |e.payloads|
    ensures forall i | 0 <= i < |r| :: r[i] == base.(batch := Some(BatchCandidate(e.version, i, e.payloads)))
  {
    seq(|e.payloads|, i requires 0 <= i < |e.payloads| =>
      base.(batch := Some(BatchCandidate(e.version, i, e.payloads))))
  }

  /** `anchors_in_block`, from transaction `position` on. */
  function CandidatesFrom(crypto: Crypto, txs: seq<Transaction>, height: nat, position: nat): seq<ScannedAnchor>
    requires position <= |txs|
    decreases |txs| - position
  {
    if position == |txs| then []
    else TransactionCandidates(crypto, txs[position], height, position)
         + CandidatesFrom(crypto, txs, height, position + 1)
  }

  function Candidates(crypto: Crypto, block: Block, height: nat): seq<ScannedAnchor> {
    CandidatesFrom(crypto, block.txs, height, 0)
  }

  method AnchorsInBlock(crypto: Crypto, block: Block, height: nat) returns (entries: seq<ScannedAnchor>)
    ensures entries == Candidates(crypto, block, height)
  {
    hide TransactionCandidates;
    entries := [];
    for position := 0 to |block.txs|
      invariant Candidates(crypto, block, height) == entries + CandidatesFrom(crypto, block.txs, height, position)
    {
      var found := CandidatesOfTransaction(crypto, block.txs[position], height, position);
      Regroup(entries, found, CandidatesFrom(crypto, block.txs, height, position + 1));
      entries := entries + found;
    }
    assert entries + [] == entries;
  }

  lemma Regroup<T>(a: seq<T>, b: seq<T>, c: seq<T>)
    ensures a + (b + c) == a + b + c
  {
  }

  /** The inner loop: outputs up to the first payload, then one entry or one per batch member. */
  method CandidatesOfTransaction(crypto: Crypto, tx: Transaction, height: nat, position: nat)
    returns (entries: seq<ScannedAnchor>)
    ensures entries == TransactionCandidates(crypto, tx, height, position)
  {
    hide FromBytes, Txid, FundingCtx, OpReturnPayload, DecodeWitness, ExpandBatch;
    entries := [];
    if IsCoinbase(tx) || tx.inputs == [] {
      return;
    }
    var ctx := FundingCtx(crypto, tx.inputs[0].prev);
    for i := 0 to |tx.outputs|
      invariant FirstPayload(tx.outputs) == FirstPayload(tx.outputs[i..])
    {
      assert tx.outputs[i..][0] == tx.outputs[i] && tx.outputs[i..][1..] == tx.outputs[i + 1..];
      var payload := OpReturnPayload(tx.outputs[i].scriptPubkey);
      if payload.Some? {
        var base := ScannedAnchor(AnchorLocation(height, position), Txid(crypto.sha256d, tx), FromBytes(payload.value),
                                  ctx, None);
        if base.record.BatchHeader? && WitnessEnvelope(tx).Some? {
          return ExpandBatch(base, WitnessEnvelope(tx).value);
        }
        return [base];
      }
    }
  }

  /** What every candidate of a block at `height` looks like. */
  ghost predicate Scanned(e: ScannedAnchor, height: nat) {
    && e.location.height == height
    && (exists b: Record64 :: e.record == FromBytes(b))
    && (e.batch.Some? ==> e.record.BatchHeader? && e.batch.value.index < |e.batch.value.envelope|)
  }

  ghost predicate InOrder(entries: seq<ScannedAnchor>) {
    forall i, j | 0 <= i < j < |entries| :: entries[i].location.AtMost(entries[j].location)
  }

  lemma {:induction false} CandidatesShape(crypto: Crypto, txs: seq<Transaction>, height: nat, position: nat)
    requires position <= |txs|
    ensures var r := CandidatesFrom(crypto, txs, height, position);
            && InOrder(r)
            && forall e | e in r :: Scanned(e, height) && e.location.height == height && position <= e.location.position < |txs|
    decreases |txs| - position
  {
    hide TransactionCandidates, Scanned;
    if position < |txs| {
      CandidatesShape(crypto, txs, height, position + 1);
      var here := TransactionCandidates(crypto, txs[position], height, position);
      TransactionCandidatesShape(crypto, txs[position], height, position);
      var rest := CandidatesFrom(crypto, txs, height, position + 1);
      OrderedConcat(here, rest);
    }
  }

  lemma OrderedConcat(a: seq<ScannedAnchor>, b: seq<ScannedAnchor>)
    requires InOrder(a) && InOrder(b)
    requires forall x, y :: x in a && y in b ==> x.location.AtMost(y.location)
    ensures InOrder(a + b)
  {
    var c := a + b;
    forall i, j | 0 <= i < j < |c| ensures c[i].location.AtMost(c[j].location) {
      assert i < |a| <= j ==> c[i] in a && c[j] in b;
    }
  }

  lemma TransactionCandidatesShape(crypto: Crypto, tx: Transaction, height: nat, position: nat)
    ensures InOrder(TransactionCandidates(crypto, tx, height, position))
    ensures forall e | e in TransactionCandidates(crypto, tx, height, position) ::
              Scanned(e, height) && e.location == AnchorLocation(height, position)
  {
    hide FromBytes;
  }

  /**
   * A batch member binds the nullifier whose payload sits at its own index, and
   * only when the header commits to the whole envelope: at most one of the
   * entries one batch expands to binds any given nullifier.
   */
  lemma OneMemberBinds(crypto: Crypto, base: ScannedAnchor, e: Envelope, rawNf: Hash)
    requires base.record.BatchHeader?
    ensures var r := ExpandBatch(base, e);
            forall i | 0 <= i < |r| ::
              Binds(crypto, r[i], rawNf) <==>
                && |e.payloads| == base.record.count
                && crypto.commit(e.version, e.payloads, base.ctx) == base.record.batchCommit
                && e.payloads[i] == crypto.bind(rawNf, base.ctx)
                && crypto.bind(rawNf, base.ctx) !in e.payloads[..i]
  {
    var r := ExpandBatch(base, e);
    var bound := crypto.bind(rawNf, base.ctx);
    forall i | 0 <= i < |r|
      ensures Binds(crypto, r[i], rawNf) <==>
                && |e.payloads| == base.record.count
                && crypto.commit(e.version, e.payloads, base.ctx) == base.record.batchCommit
                && e.payloads[i] == bound && bound !in e.payloads[..i] {
      FirstPositionIs(e.payloads, bound, i);
    }
  }

  lemma {:induction false} FirstPositionIs(envelope: seq<Payload>, p: Payload, i: nat)
    requires i < |envelope|
    ensures FirstPosition(envelope, p) == Some(i) <==> envelope[i] == p && p !in envelope[..i]
  {
    if i > 0 {
      FirstPositionIs(envelope[1..], p, i - 1);
      assert envelope[..i] == [envelope[0]] + envelope[1..][..i - 1];
    }
  }
}
