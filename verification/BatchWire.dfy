/**
 * Messages of the co-funded batching protocol
 * (`crates/opencsv-bitcoin/src/batch_v2.rs`): framing, the bounds-checked reader,
 * and the canonical codecs of proposals, commitments and signature shares.
 */
module BatchWire {
  import opened Wrappers
  import opened Wire
  import opened Block
  import opened Anchors

  const LEGACY_VERSION := 2
  const VERSION := 3
  const MIN_OUTPUT_SATS := 546
  const MARKER_DUST_SATS := 546
  const PROPOSAL_KIND: byte := 1
  const COMMITMENT_KIND: byte := 2
  const MANIFEST_KIND: byte := 3
  const SIGNATURE_KIND: byte := 4

  /** A compressed public key. */
  type Key = k: Bytes | |k| == 33 witness seq(33, i => 0)
  type Hash20 = h: Bytes | |h| == 20 witness seq(20, i => 0)

  /** Curve arithmetic and hashing, uninterpreted. */
  datatype Library = Library(
    crypto: Crypto,
    hash160: Bytes -> Hash20,
    isKey: Bytes -> bool,
    signature: Bytes -> Option<Bytes>,
    lowS: Bytes -> bool,
    verify: (Bytes, Bytes, Hash) -> bool,
    sighash: (Transaction, nat, Bytes, u64) -> Hash)

  /** "OpenCSV/batch-v2/" */
  function DomainPrefix(): Bytes {
    [0x4f, 0x70, 0x65, 0x6e, 0x43, 0x53, 0x56, 0x2f, 0x62, 0x61, 0x74, 0x63, 0x68, 0x2d, 0x76, 0x32, 0x2f]
  }

  /** `domain_hash`, given the domain's last word. */
  function DomainHash(lib: Library, word: Bytes, body: Bytes): Hash {
    lib.crypto.sha256(DomainPrefix() + word + [0] + body)
  }

  function ProposalWord(): Bytes { [0x70, 0x72, 0x6f, 0x70, 0x6f, 0x73, 0x61, 0x6c] }

  function CommitmentWord(): Bytes { [0x63, 0x6f, 0x6d, 0x6d, 0x69, 0x74, 0x6d, 0x65, 0x6e, 0x74] }

  function ManifestWord(): Bytes { [0x6d, 0x61, 0x6e, 0x69, 0x66, 0x65, 0x73, 0x74] }

  // -- framing -----------------------------------------------------------------------------

  /** "OCSVB2\0\0" */
  function MessageMagic(): (m: Bytes)
    ensures |m| == 8
  {
    [0x4f, 0x43, 0x53, 0x56, 0x42, 0x32, 0, 0]
  }

  function WireMessage(kind: byte, body: Bytes): Bytes {
    MessageMagic() + ([kind] + (LE(|body| % 0x1_0000_0000, 4) + body))
  }

  function WireBody(wire: Bytes, kind: byte): Option<Bytes> {
    if |wire| < 13 || wire[..8] != MessageMagic() || wire[8] != kind then None
    else if FromLE(wire[9..13]) != |wire| - 13 then None
    else Some(wire[13..])
  }

  /** A message opens exactly to the body it frames. */
  lemma WireBodyIff(wire: Bytes, kind: byte, body: Bytes)
    requires |body| < 0x1_0000_0000
    ensures WireBody(wire, kind) == Some(body) <==> wire == WireMessage(kind, body)
  {
    hide LE, FromLE, MessageMagic;
    Widths();
    if WireBody(wire, kind) == Some(body) {
      FromLEThenLE(wire[9..13]);
      FramePieces(wire[..8], wire[8], wire[9..13], body);
      assert wire == wire[..8] + ([wire[8]] + (wire[9..13] + wire[13..]));
    }
    if wire == WireMessage(kind, body) {
      LEThenFromLE(|body|, 4);
      FramePieces(MessageMagic(), kind, LE(|body|, 4), body);
    }
  }

  lemma FramePieces(magic: Bytes, kind: byte, length: Bytes, body: Bytes)
    requires |magic| == 8 && |length| == 4
    ensures var w := magic + ([kind] + (length + body));
            |w| == 13 + |body| && w[..8] == magic && w[8] == kind && w[9..13] == length && w[13..] == body
  {
  }

  // -- reading ---------------------------------------------------------------------------------

  function ParseByte(s: Bytes): Option<Read<byte>> {
    if s == [] then None else Some(Read(s[0], s[1..]))
  }

  function ParseU16(s: Bytes): Option<Read<u16>> {
    if |s| < 2 then None
    else
      FromLEBound(s[..2]);
      Widths();
      Some(Read(FromLE(s[..2]), s[2..]))
  }

  function ParseArray32(s: Bytes): Option<Read<Hash>> {
    if |s| < 32 then None else Some(Read(s[..32], s[32..]))
  }

  function ParsePayload(s: Bytes): Option<Read<Payload>> {
    if |s| < 24 then None else Some(Read(s[..24], s[24..]))
  }

  function OutPointBytes(o: OutPoint): (r: Bytes)
    ensures |r| == 36
  {
    var txid: Bytes := o.txid;
    txid + LE(o.vout, 4)
  }

  function ParseOutPoint(s: Bytes): Option<Read<OutPoint>> {
    var Read(txid, s1) :- ParseArray32(s);
    var Read(vout, s2) :- ParseU32(s1);
    Some(Read(OutPoint(txid, vout), s2))
  }

  function ParseKey(lib: Library, s: Bytes): Option<Read<Key>> {
    if |s| < 33 || !lib.isKey(s[..33]) then None else Some(Read(s[..33], s[33..]))
  }

  function ScriptBytes(script: Bytes): Bytes {
    LE(|script| % 0x1_0000, 2) + script
  }

  function ParseScript(s: Bytes): (r: Option<Read<Bytes>>)
    ensures r.Some? ==> |r.value.value| < 0x1_0000
  {
    var Read(n, s1) :- ParseU16(s);
    TakeBytes(s1, n)
  }

  lemma U16RoundTrip(n: u16, rest: Bytes)
    ensures ParseU16(LE(n, 2) + rest) == Some(Read(n, rest))
  {
    Widths();
    LEThenFromLE(n, 2);
    assert (LE(n, 2) + rest)[..2] == LE(n, 2) && (LE(n, 2) + rest)[2..] == rest;
  }

  lemma ArrayRoundTrip(h: Hash, rest: Bytes)
    ensures var b: Bytes := h; ParseArray32(b + rest) == Some(Read(h, rest))
  {
    var b: Bytes := h;
    assert (b + rest)[..32] == b && (b + rest)[32..] == rest;
  }

  lemma PayloadRoundTrip(p: Payload, rest: Bytes)
    ensures var b: Bytes := p; ParsePayload(b + rest) == Some(Read(p, rest))
  {
    var b: Bytes := p;
    assert (b + rest)[..24] == b && (b + rest)[24..] == rest;
  }

  lemma OutPointRoundTrip(o: OutPoint, rest: Bytes)
    ensures ParseOutPoint(OutPointBytes(o) + rest) == Some(Read(o, rest))
  {
    var txid: Bytes := o.txid;
    assert OutPointBytes(o) + rest == txid + (LE(o.vout, 4) + rest);
    ArrayRoundTrip(o.txid, LE(o.vout, 4) + rest);
    U32RoundTrip(o.vout, rest);
  }

  lemma OutPointBytesInjective(a: OutPoint, b: OutPoint)
    requires OutPointBytes(a) == OutPointBytes(b)
    ensures a == b
  {
    OutPointRoundTrip(a, []);
    OutPointRoundTrip(b, []);
  }

  lemma KeyRoundTrip(lib: Library, k: Key, rest: Bytes)
    requires lib.isKey(k)
    ensures var b: Bytes := k; ParseKey(lib, b + rest) == Some(Read(k, rest))
  {
    var b: Bytes := k;
    assert (b + rest)[..33] == b && (b + rest)[33..] == rest;
  }

  lemma ScriptRoundTrip(script: Bytes, rest: Bytes)
    requires |script| < 0x1_0000
    ensures ParseScript(ScriptBytes(script) + rest) == Some(Read(script, rest))
  {
    assert ScriptBytes(script) + rest == LE(|script|, 2) + (script + rest);
    U16RoundTrip(|script|, script + rest);
    assert (script + rest)[..|script|] == script && (script + rest)[|script|..] == rest;
  }

  lemma ByteRoundTrip(b: byte, rest: Bytes)
    ensures ParseByte([b] + rest) == Some(Read(b, rest))
  {
    assert ([b] + rest)[1..] == rest;
  }

  /** `Reader`: a position that only moves forward over fixed bytes. */
  class Reader {
    const bytes: Bytes
    var position: nat

    ghost predicate Valid()
      reads this
    {
      position <= |bytes|
    }

    ghost function Rest(): Bytes
      reads this
      requires Valid()
    {
      bytes[position..]
    }

    constructor (bytes: Bytes)
      ensures Valid() && Rest() == bytes && this.bytes == bytes
    {
      this.bytes := bytes;
      position := 0;
    }

    method Take(n: nat) returns (r: Option<Bytes>)
      requires Valid()
      modifies this`position
      ensures Valid()
      ensures match TakeBytes(old(Rest()), n)
              case None => r == None && position == old(position)
              case Some(Read(v, rest)) => r == Some(v) && Rest() == rest
    {
      if |bytes| - position < n {
        return None;
      }
      r := Some(bytes[position..position + n]);
      position := position + n;
      assert bytes[old(position)..][..n] == bytes[old(position)..position];
      assert bytes[old(position)..][n..] == bytes[position..];
    }

    method U8() returns (r: Option<byte>)
      requires Valid()
      modifies this`position
      ensures Valid()
      ensures match ParseByte(old(Rest()))
              case None => r == None
              case Some(Read(v, rest)) => r == Some(v) && Rest() == rest
    {
      var raw :- Take(1);
      r := Some(raw[0]);
    }

    method U16() returns (r: Option<u16>)
      requires Valid()
      modifies this`position
      ensures Valid()
      ensures match ParseU16(old(Rest()))
              case None => r == None
              case Some(Read(v, rest)) => r == Some(v) && Rest() == rest
    {
      var raw :- Take(2);
      FromLEBound(raw);
      Widths();
      r := Some(FromLE(raw));
    }

    method U32() returns (r: Option<u32>)
      requires Valid()
      modifies this`position
      ensures Valid()
      ensures match ParseU32(old(Rest()))
              case None => r == None
              case Some(Read(v, rest)) => r == Some(v) && Rest() == rest
    {
      var raw :- Take(4);
      FromLEBound(raw);
      Widths();
      r := Some(FromLE(raw));
    }

    method U64() returns (r: Option<u64>)
      requires Valid()
      modifies this`position
      ensures Valid()
      ensures match ParseU64(old(Rest()))
              case None => r == None
              case Some(Read(v, rest)) => r == Some(v) && Rest() == rest
    {
      var raw :- Take(8);
      FromLEBound(raw);
      Widths();
      r := Some(FromLE(raw));
    }

    method Array32() returns (r: Option<Hash>)
      requires Valid()
      modifies this`position
      ensures Valid()
      ensures match ParseArray32(old(Rest()))
              case None => r == None
              case Some(Read(v, rest)) => r == Some(v) && Rest() == rest
    {
      r := Take(32);
    }

    method Payload24() returns (r: Option<Payload>)
      requires Valid()
      modifies this`position
      ensures Valid()
      ensures match ParsePayload(old(Rest()))
              case None => r == None
              case Some(Read(v, rest)) => r == Some(v) && Rest() == rest
    {
      r := Take(24);
    }

    method ReadOutPoint() returns (r: Option<OutPoint>)
      requires Valid()
      modifies this`position
      ensures Valid()
      ensures match ParseOutPoint(old(Rest()))
              case None => r == None
              case Some(Read(v, rest)) => r == Some(v) && Rest() == rest
    {
      var txid :- Array32();
      var vout :- U32();
      r := Some(OutPoint(txid, vout));
    }

    method PublicKey(lib: Library) returns (r: Option<Key>)
      requires Valid()
      modifies this`position
      ensures Valid()
      ensures match ParseKey(lib, old(Rest()))
              case None => r == None
              case Some(Read(v, rest)) => r == Some(v) && Rest() == rest
    {
      var raw :- Take(33);
      r := if lib.isKey(raw) then Some(raw) else None;
    }

    method Script() returns (r: Option<Bytes>)
      requires Valid()
      modifies this`position
      ensures Valid()
      ensures match ParseScript(old(Rest()))
              case None => r == None
              case Some(Read(v, rest)) => r == Some(v) && Rest() == rest
    {
      var n :- U16();
      r := Take(n);
    }

    function Finished(): (b: bool)
      reads this
      requires Valid()
      ensures b <==> Rest() == []
    {
      position == |bytes|
    }
  }

  // -- proposals ----------------------------------------------------------------------------------

  datatype Proposal = Proposal(
    version: u16, chainId: Hash, stockOutpoint: OutPoint, stockValue: u64, stockOwner: Key, count: byte,
    nonce: Hash, observedTip: u32, expiry: u32, target: u32, ceiling: u32)

  predicate IsNull(o: OutPoint) {
    o.txid == ZeroHash() && o.vout == 0xffff_ffff
  }

  /** `Proposal::validate`; the key is a key by construction. */
  predicate ValidProposal(lib: Library, p: Proposal) {
    && p.version in {LEGACY_VERSION, VERSION}
    && 1 <= p.count <= MAX_BATCH_V2_PARTICIPANTS
    && p.chainId != ZeroHash()
    && !IsNull(p.stockOutpoint) && p.stockValue >= MIN_OUTPUT_SATS
    && p.expiry > p.observedTip
    && p.target != 0 && p.ceiling >= p.target
    && lib.isKey(p.stockOwner)
  }

  function ProposalBody(p: Proposal): (s: Bytes)
    ensures |s| == 160
  {
    var chainId: Bytes, owner: Bytes, nonce: Bytes := p.chainId, p.stockOwner, p.nonce;
    LE(p.version, 2) + (chainId + (OutPointBytes(p.stockOutpoint) + (LE(p.stockValue, 8) + (owner + ([p.count]
    + (nonce + (LE(p.observedTip, 4) + (LE(p.expiry, 4) + (LE(p.target, 4) + (LE(p.ceiling, 4) + []))))))))))
  }

  function BatchId(lib: Library, p: Proposal): Hash {
    DomainHash(lib, ProposalWord(), ProposalBody(p))
  }

  function ProposalWire(p: Proposal): Bytes {
    WireMessage(PROPOSAL_KIND, ProposalBody(p))
  }

  function ParseProposal(lib: Library, body: Bytes): Option<Read<Proposal>> {
    var Read(version, s1) :- ParseU16(body);
    var Read(chainId, s2) :- ParseArray32(s1);
    var Read(stock, s3) :- ParseOutPoint(s2);
    var Read(amount, s4) :- ParseU64(s3);
    var Read(owner, s5) :- ParseKey(lib, s4);
    var Read(count, s6) :- ParseByte(s5);
    var Read(nonce, s7) :- ParseArray32(s6);
    var Read(tip, s8) :- ParseU32(s7);
    var Read(expiry, s9) :- ParseU32(s8);
    var Read(target, s10) :- ParseU32(s9);
    var Read(ceiling, s11) :- ParseU32(s10);
    Some(Read(Proposal(version, chainId, stock, amount, owner, count, nonce, tip, expiry, target, ceiling), s11))
  }

  function DecodeProposal(lib: Library, wire: Bytes): Option<Proposal> {
    var body :- WireBody(wire, PROPOSAL_KIND);
    var Read(p, rest) :- ParseProposal(lib, body);
    if rest == [] && ValidProposal(lib, p) && wire == ProposalWire(p) then Some(p) else None
  }

  /** `Proposal::from_wire` */
  method ProposalFromWire(lib: Library, wire: Bytes) returns (r: Option<Proposal>)
    ensures r == DecodeProposal(lib, wire)
  {
    hide ParseProposal, ProposalBody, WireMessage, WireBody, ValidProposal;
    var body :- WireBody(wire, PROPOSAL_KIND);
    var reader := new Reader(body);
    var p :- ReadProposal(lib, reader);
    r := if reader.Finished() && ValidProposal(lib, p) && wire == ProposalWire(p) then Some(p) else None;
  }

  method ReadProposal(lib: Library, reader: Reader) returns (r: Option<Proposal>)
    requires reader.Valid()
    modifies reader`position
    ensures reader.Valid()
    ensures match ParseProposal(lib, old(reader.Rest()))
            case None => r == None
            case Some(Read(v, rest)) => r == Some(v) && reader.Rest() == rest
  {
    hide ParseU16, ParseArray32, ParseOutPoint, ParseU64, ParseKey, ParseByte, ParseU32;
    var version :- reader.U16();
    var chainId :- reader.Array32();
    var stock :- reader.ReadOutPoint();
    var amount :- reader.U64();
    var owner :- reader.PublicKey(lib);
    var count :- reader.U8();
    var nonce :- reader.Array32();
    var tip :- reader.U32();
    var expiry :- reader.U32();
    var target :- reader.U32();
    var ceiling :- reader.U32();
    r := Some(Proposal(version, chainId, stock, amount, owner, count, nonce, tip, expiry, target, ceiling));
  }

  lemma ProposalParses(lib: Library, p: Proposal)
    requires lib.isKey(p.stockOwner)
    ensures ParseProposal(lib, ProposalBody(p)) == Some(Read(p, []))
  {
    hide ParseU16, ParseArray32, ParseOutPoint, ParseU64, ParseKey, ParseByte, ParseU32, LE, OutPointBytes;
    var nonce: Bytes, owner: Bytes := p.nonce, p.stockOwner;
    var s10 := LE(p.ceiling, 4) + [];
    var s9 := LE(p.target, 4) + s10;
    var s8 := LE(p.expiry, 4) + s9;
    var s7 := LE(p.observedTip, 4) + s8;
    var s6 := nonce + s7;
    var s5 := [p.count] + s6;
    var s4 := owner + s5;
    var s3 := LE(p.stockValue, 8) + s4;
    var s2 := OutPointBytes(p.stockOutpoint) + s3;
    var chainId: Bytes := p.chainId;
    U16RoundTrip(p.version, chainId + s2);
    ArrayRoundTrip(p.chainId, s2);
    OutPointRoundTrip(p.stockOutpoint, s3);
    U64RoundTrip(p.stockValue, s4);
    KeyRoundTrip(lib, p.stockOwner, s5);
    ByteRoundTrip(p.count, s6);
    ArrayRoundTrip(p.nonce, s7);
    U32RoundTrip(p.observedTip, s8);
    U32RoundTrip(p.expiry, s9);
    U32RoundTrip(p.target, s10);
    U32RoundTrip(p.ceiling, []);
  }

  /** The codec is a bijection between valid proposals and accepted messages. */
  lemma ProposalCodec(lib: Library, wire: Bytes, p: Proposal)
    ensures DecodeProposal(lib, wire) == Some(p) <==> ValidProposal(lib, p) && wire == ProposalWire(p)
  {
    hide WireMessage, WireBody, ParseProposal, ProposalBody;
    if ValidProposal(lib, p) && wire == ProposalWire(p) {
      WireBodyIff(wire, PROPOSAL_KIND, ProposalBody(p));
      ProposalParses(lib, p);
    }
  }

  // -- commitments -------------------------------------------------------------------------------------

  datatype Commitment = Commitment(
    batchId: Hash, operationId: Hash, nonce: Hash, payload: Payload, feeOutpoint: OutPoint, feeValue: u64,
    feeScript: Bytes, feeKey: Key, changeScript: Bytes, maxCharge: u64)

  function P2wpkh(lib: Library, key: Bytes): (s: Bytes)
    ensures |s| == 22
  {
    var h: Bytes := lib.hash160(key);
    [0x00, 0x14] + h
  }

  predicate IsP2wpkh(script: Bytes) {
    |script| == 22 && script[0] == 0x00 && script[1] == 0x14
  }

  /** `ParticipantCommitment::validate` */
  predicate ValidCommitment(lib: Library, p: Proposal, c: Commitment) {
    && c.batchId == BatchId(lib, p)
    && !IsNull(c.feeOutpoint) && c.maxCharge != 0
    && c.feeOutpoint != p.stockOutpoint
    && c.feeScript == P2wpkh(lib, c.feeKey)
    && IsP2wpkh(c.changeScript)
  }

  function CommitmentBody(c: Commitment): Bytes {
    var batchId: Bytes, operationId: Bytes, nonce: Bytes := c.batchId, c.operationId, c.nonce;
    var payload: Bytes, key: Bytes := c.payload, c.feeKey;
    batchId + (operationId + (nonce + (payload + (OutPointBytes(c.feeOutpoint) + (LE(c.feeValue, 8) + (key
    + (ScriptBytes(c.feeScript) + (ScriptBytes(c.changeScript) + (LE(c.maxCharge, 8) + [])))))))))
  }

  function CommitmentId(lib: Library, c: Commitment): Hash {
    DomainHash(lib, CommitmentWord(), CommitmentBody(c))
  }

  function CommitmentWire(c: Commitment): Bytes {
    WireMessage(COMMITMENT_KIND, CommitmentBody(c))
  }

  function ParseCommitment(lib: Library, body: Bytes): Option<Read<Commitment>> {
    var Read(batchId, s1) :- ParseArray32(body);
    var Read(operationId, s2) :- ParseArray32(s1);
    var Read(nonce, s3) :- ParseArray32(s2);
    var Read(payload, s4) :- ParsePayload(s3);
    var Read(outpoint, s5) :- ParseOutPoint(s4);
    var Read(amount, s6) :- ParseU64(s5);
    var Read(key, s7) :- ParseKey(lib, s6);
    var Read(feeScript, s8) :- ParseScript(s7);
    var Read(changeScript, s9) :- ParseScript(s8);
    var Read(maxCharge, s10) :- ParseU64(s9);
    Some(Read(Commitment(batchId, operationId, nonce, payload, outpoint, amount, feeScript, key, changeScript, maxCharge),
              s10))
  }

  function DecodeCommitment(lib: Library, p: Proposal, wire: Bytes): Option<Commitment> {
    var body :- WireBody(wire, COMMITMENT_KIND);
    var Read(c, rest) :- ParseCommitment(lib, body);
    if rest == [] && ValidCommitment(lib, p, c) && wire == CommitmentWire(c) then Some(c) else None
  }

  /** `ParticipantCommitment::from_wire` */
  method CommitmentFromWire(lib: Library, p: Proposal, wire: Bytes) returns (r: Option<Commitment>)
    ensures r == DecodeCommitment(lib, p, wire)
  {
    hide ParseCommitment, CommitmentBody, WireMessage, WireBody, ValidCommitment;
    var body :- WireBody(wire, COMMITMENT_KIND);
    var reader := new Reader(body);
    var c :- ReadCommitment(lib, reader);
    r := if reader.Finished() && ValidCommitment(lib, p, c) && wire == CommitmentWire(c) then Some(c) else None;
  }

  method ReadCommitment(lib: Library, reader: Reader) returns (r: Option<Commitment>)
    requires reader.Valid()
    modifies reader`position
    ensures reader.Valid()
    ensures match ParseCommitment(lib, old(reader.Rest()))
            case None => r == None
            case Some(Read(v, rest)) => r == Some(v) && reader.Rest() == rest
  {
    hide ParseArray32, ParsePayload, ParseOutPoint, ParseU64, ParseKey, ParseScript;
    var batchId :- reader.Array32();
    var operationId :- reader.Array32();
    var nonce :- reader.Array32();
    var payload :- reader.Payload24();
    var outpoint :- reader.ReadOutPoint();
    var amount :- reader.U64();
    var key :- reader.PublicKey(lib);
    var feeScript :- reader.Script();
    var changeScript :- reader.Script();
    var maxCharge :- reader.U64();
    r := Some(Commitment(batchId, operationId, nonce, payload, outpoint, amount, feeScript, key, changeScript, maxCharge));
  }

  lemma CommitmentParses(lib: Library, c: Commitment)
    requires lib.isKey(c.feeKey) && |c.feeScript| < 0x1_0000 && |c.changeScript| < 0x1_0000
    ensures ParseCommitment(lib, CommitmentBody(c)) == Some(Read(c, []))
  {
    hide ParseArray32, ParsePayload, ParseOutPoint, ParseU64, ParseKey, ParseScript, LE, OutPointBytes, ScriptBytes;
    var operationId: Bytes, nonce: Bytes := c.operationId, c.nonce;
    var payload: Bytes, key: Bytes := c.payload, c.feeKey;
    var s9 := LE(c.maxCharge, 8) + [];
    var s8 := ScriptBytes(c.changeScript) + s9;
    var s7 := ScriptBytes(c.feeScript) + s8;
    var s6 := key + s7;
    var s5 := LE(c.feeValue, 8) + s6;
    var s4 := OutPointBytes(c.feeOutpoint) + s5;
    var s3 := payload + s4;
    var s2 := nonce + s3;
    ArrayRoundTrip(c.batchId, operationId + s2);
    ArrayRoundTrip(c.operationId, s2);
    ArrayRoundTrip(c.nonce, s3);
    PayloadRoundTrip(c.payload, s4);
    OutPointRoundTrip(c.feeOutpoint, s5);
    U64RoundTrip(c.feeValue, s6);
    KeyRoundTrip(lib, c.feeKey, s7);
    ScriptRoundTrip(c.feeScript, s8);
    ScriptRoundTrip(c.changeScript, s9);
    U64RoundTrip(c.maxCharge, []);
  }

  lemma CommitmentLength(c: Commitment)
    requires |c.feeScript| == 22 && |c.changeScript| == 22
    ensures |CommitmentBody(c)| == 253
  {
  }

  /** The codec is a bijection between valid commitments and accepted messages. */
  lemma CommitmentCodec(lib: Library, p: Proposal, wire: Bytes, c: Commitment)
    requires lib.isKey(c.feeKey)
    ensures DecodeCommitment(lib, p, wire) == Some(c) <==> ValidCommitment(lib, p, c) && wire == CommitmentWire(c)
  {
    hide WireMessage, WireBody, ParseCommitment, CommitmentBody, BatchId;
    if ValidCommitment(lib, p, c) && wire == CommitmentWire(c) {
      CommitmentLength(c);
      WireBodyIff(wire, COMMITMENT_KIND, CommitmentBody(c));
      CommitmentParses(lib, c);
    }
  }

  // -- signature shares --------------------------------------------------------------------------------------

  const SIGHASH_ALL: byte := 1

  /** A signature is its canonical serialization: DER and the sighash byte. */
  datatype Share = Share(manifestId: Hash, inputIndex: u16, signer: Key, signature: Bytes)

  /** `require_all` */
  predicate AllLowS(lib: Library, signature: Bytes) {
    signature != [] && signature[|signature| - 1] == SIGHASH_ALL && lib.lowS(signature)
  }

  predicate ValidShare(lib: Library, s: Share) {
    && lib.isKey(s.signer) && AllLowS(lib, s.signature)
    && lib.signature(s.signature) == Some(s.signature) && |s.signature| <= 73
  }

  function ShareBody(s: Share): Bytes {
    var id: Bytes, key: Bytes := s.manifestId, s.signer;
    id + (LE(s.inputIndex, 2) + (key + (ScriptBytes(s.signature) + [])))
  }

  function ShareWire(s: Share): Bytes {
    WireMessage(SIGNATURE_KIND, ShareBody(s))
  }

  function ParseShare(lib: Library, body: Bytes): Option<Read<Share>> {
    var Read(id, s1) :- ParseArray32(body);
    var Read(index, s2) :- ParseU16(s1);
    var Read(key, s3) :- ParseKey(lib, s2);
    var Read(n, s4) :- ParseU16(s3);
    if n > 73 then None
    else
      var Read(raw, s5) :- TakeBytes(s4, n);
      var signature :- lib.signature(raw);
      Some(Read(Share(id, index, key, signature), s5))
  }

  function DecodeShare(lib: Library, wire: Bytes): Option<Share> {
    var body :- WireBody(wire, SIGNATURE_KIND);
    var Read(s, rest) :- ParseShare(lib, body);
    if rest == [] && AllLowS(lib, s.signature) && wire == ShareWire(s) then Some(s) else None
  }

  /** `SignatureShare::from_wire` */
  method ShareFromWire(lib: Library, wire: Bytes) returns (r: Option<Share>)
    ensures r == DecodeShare(lib, wire)
  {
    hide ParseShare, ShareBody, WireMessage, WireBody, AllLowS;
    var body :- WireBody(wire, SIGNATURE_KIND);
    var reader := new Reader(body);
    var s :- ReadShare(lib, reader);
    r := if reader.Finished() && AllLowS(lib, s.signature) && wire == ShareWire(s) then Some(s) else None;
  }

  method ReadShare(lib: Library, reader: Reader) returns (r: Option<Share>)
    requires reader.Valid()
    modifies reader`position
    ensures reader.Valid()
    ensures match ParseShare(lib, old(reader.Rest()))
            case None => r == None
            case Some(Read(v, rest)) => r == Some(v) && reader.Rest() == rest
  {
    hide ParseArray32, ParseU16, ParseKey;
    var id :- reader.Array32();
    var index :- reader.U16();
    var key :- reader.PublicKey(lib);
    var n :- reader.U16();
    if n > 73 {
      return None;
    }
    var raw :- reader.Take(n);
    var signature :- lib.signature(raw);
    r := Some(Share(id, index, key, signature));
  }

  lemma ShareParses(lib: Library, s: Share)
    requires ValidShare(lib, s)
    ensures ParseShare(lib, ShareBody(s)) == Some(Read(s, [])) && |ShareBody(s)| <= 142
  {
    hide ParseArray32, ParseU16, ParseKey, LE;
    var key: Bytes := s.signer;
    var s4 := s.signature + [];
    var s3 := LE(|s.signature|, 2) + s4;
    var s2 := key + s3;
    assert ScriptBytes(s.signature) + [] == s3;
    ArrayRoundTrip(s.manifestId, LE(s.inputIndex, 2) + s2);
    U16RoundTrip(s.inputIndex, s2);
    KeyRoundTrip(lib, s.signer, s3);
    U16RoundTrip(|s.signature|, s4);
    assert s4[..|s.signature|] == s.signature && s4[|s.signature|..] == [];
  }

  /** What a parsed share spells: the bytes of its own fields. */
  lemma ShareSpelled(lib: Library, body: Bytes)
    requires ParseShare(lib, body).Some?
    requires ParseShare(lib, body).value.rest == [] && body == ShareBody(ParseShare(lib, body).value.value)
    ensures var s := ParseShare(lib, body).value.value;
            lib.isKey(s.signer) && lib.signature(s.signature) == Some(s.signature) && |s.signature| <= 73
  {
    hide LE;
    var Read(s, _) := ParseShare(lib, body).value;
    Widths();
    var n := FromLE(body[67..69]);
    assert body[32..][2..][33..][..2] == body[67..69];
    assert body[32..][2..][33..][2..] == body[69..];
    assert |body| == 69 + n == 69 + |s.signature|;
    assert body[69..][..n] == body[69..] == s.signature;
  }

  /** The codec is a bijection between valid shares and accepted messages. */
  lemma ShareCodec(lib: Library, wire: Bytes, s: Share)
    ensures DecodeShare(lib, wire) == Some(s) <==> ValidShare(lib, s) && wire == ShareWire(s)
  {
    hide WireMessage, WireBody, ParseShare, ShareBody, AllLowS;
    if ValidShare(lib, s) && wire == ShareWire(s) {
      ShareParses(lib, s);
      WireBodyIff(wire, SIGNATURE_KIND, ShareBody(s));
    }
    if DecodeShare(lib, wire) == Some(s) {
      var body := WireBody(wire, SIGNATURE_KIND).value;
      BodyIsShort(wire, SIGNATURE_KIND);
      WireBodyIff(wire, SIGNATURE_KIND, body);
      SameBody(SIGNATURE_KIND, body, ShareBody(s));
      ShareSpelled(lib, body);
    }
  }

  lemma BodyIsShort(wire: Bytes, kind: byte)
    requires WireBody(wire, kind).Some?
    ensures |WireBody(wire, kind).value| < 0x1_0000_0000
  {
    FromLEBound(wire[9..13]);
    Widths();
  }

  lemma SameBody(kind: byte, a: Bytes, b: Bytes)
    requires WireMessage(kind, a) == WireMessage(kind, b)
    ensures a == b
  {
    assert WireMessage(kind, a)[13..] == a && WireMessage(kind, b)[13..] == b;
  }
}
