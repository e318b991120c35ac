/** The manifest's canonical message (`crates/opencsv-bitcoin/src/batch_v2.rs`). */
module ManifestWire {
  import opened Wrappers
  import opened Wire
  import opened Sorting
  import opened Block
  import opened Anchors
  import opened BatchWire
  import opened Manifests

  function IdBytes(h: Hash): (s: Bytes)
    ensures |s| == 32
  {
    h
  }

  function U64Bytes(n: u64): (s: Bytes)
    ensures |s| == 8
  {
    LE(n, 8)
  }

  function CommitmentIds(lib: Library, cs: seq<Commitment>): (r: seq<Hash>)
    ensures |r| == |cs|
  {
    seq(|cs|, i requires 0 <= i < |cs| => CommitmentId(lib, cs[i]))
  }

  /** Everything after the commitment identifiers. */
  function TailBytes(m: Manifest): Bytes {
    var tx := LegacyBytes(m.tx);
    LE(m.maxWeight, 4) + (LE(m.feerate, 4) + (LE(m.minerFee, 8) + (LE(m.totalCharge, 8)
    + (EncodeMany(m.charges, U64Bytes) + (LE(|tx| % 0x1_0000_0000, 4) + (tx + []))))))
  }

  function ManifestBody(lib: Library, m: Manifest): Bytes {
    IdBytes(m.batchId) + (LE(m.epoch, 4) + ([|m.commitments| % 256]
    + (EncodeMany(CommitmentIds(lib, m.commitments), IdBytes) + TailBytes(m))))
  }

  function ManifestId(lib: Library, m: Manifest): Hash {
    DomainHash(lib, ManifestWord(), ManifestBody(lib, m))
  }

  function ManifestMessage(lib: Library, m: Manifest): Bytes {
    WireMessage(MANIFEST_KIND, ManifestBody(lib, m))
  }

  // -- lengths ------------------------------------------------------------------------------

  lemma {:induction false} ManyLength<T>(xs: seq<T>, enc: T -> Bytes, width: nat)
    requires forall i | 0 <= i < |xs| :: |enc(xs[i])| == width
    ensures |EncodeMany(xs, enc)| == width * |xs|
  {
    if xs != [] {
      forall i | 0 <= i < |xs[1..]| ensures |enc(xs[1..][i])| == width {
        assert xs[1..][i] == xs[i + 1];
      }
      ManyLength(xs[1..], enc, width);
      OneMoreItem(width, |xs|);
    }
  }

  lemma OneMoreItem(width: nat, n: nat)
    requires n > 0
    ensures width + width * (n - 1) == width * n
  {
  }

  lemma {:induction false} EncodeConcat<T>(a: seq<T>, b: seq<T>, enc: T -> Bytes)
    ensures EncodeMany(a + b, enc) == EncodeMany(a, enc) + EncodeMany(b, enc)
  {
    if a == [] {
      assert a + b == b;
    } else {
      assert (a + b)[1..] == a[1..] + b;
      EncodeConcat(a[1..], b, enc);
    }
  }

  lemma ThreeOutputs(a: TxOut, b: TxOut, c: TxOut)
    ensures EncodeMany([a, b, c], OutputBytes) == OutputBytes(a) + (OutputBytes(b) + OutputBytes(c))
  {
    hide OutputBytes;
    assert [a, b, c][1..] == [b, c] && [b, c][1..] == [c] && [c][1..] == [];
    assert EncodeMany([c], OutputBytes) == OutputBytes(c) + [];
    assert EncodeMany([b, c], OutputBytes) == OutputBytes(b) + EncodeMany([c], OutputBytes);
  }

  lemma OutputLength(o: TxOut)
    requires |o.scriptPubkey| < 0xfd
    ensures |OutputBytes(o)| == 9 + |o.scriptPubkey|
  {
    hide LE;
  }

  lemma InputsLength(p: Proposal, cs: seq<Commitment>)
    ensures |EncodeMany(Inputs(p, cs), InputBytes)| == 41 * (|cs| + 1)
  {
    hide InputBytes;
    var ins := Inputs(p, cs);
    forall i | 0 <= i < |ins| ensures |InputBytes(ins[i])| == 41 {
      UnsignedInputLength(if i == 0 then p.stockOutpoint else cs[i - 1].feeOutpoint);
    }
    ManyLength(ins, InputBytes, 41);
  }

  lemma UnsignedInputLength(o: OutPoint)
    ensures |InputBytes(UnsignedInput(o))| == 41
  {
    hide LE;
    assert |VarBytes([])| == 1;
  }

  lemma OutputsLength(lib: Library, p: Proposal, cs: seq<Commitment>, feerate: u32)
    requires Buildable(lib, p, cs, feerate)
    ensures var total := TotalCharge(feerate, |cs|);
            (forall i | 0 <= i < |cs| :: IsP2wpkh(cs[i].changeScript))
            && |EncodeMany(ProtocolOutputs(lib, p, cs) + ChangeOutputs(cs, total), OutputBytes)| == 161 + 31 * |cs|
  {
    hide Buildable, HeaderScript, StockSpk, Marker, OutputBytes, Affordable, Charge, TotalCharge;
    BuildableParts(lib, p, cs, feerate);
    ChangesAreStandard(lib, p, cs);
    var a, b, c := TxOut(0, HeaderScript(lib, p, cs)), TxOut(MARKER_DUST_SATS, Marker(p)), TxOut(p.stockValue, StockSpk(lib, p));
    ThreeOutputs(a, b, c);
    OutputLength(a);
    OutputLength(b);
    OutputLength(c);
    var changes := ChangeOutputs(cs, TotalCharge(feerate, |cs|));
    forall i | 0 <= i < |changes| ensures |OutputBytes(changes[i])| == 31 {
      OutputLength(changes[i]);
    }
    ManyLength(changes, OutputBytes, 31);
    EncodeConcat(ProtocolOutputs(lib, p, cs), changes, OutputBytes);
  }

  lemma BuildableParts(lib: Library, p: Proposal, cs: seq<Commitment>, feerate: u32)
    requires Buildable(lib, p, cs, feerate)
    ensures 1 <= |cs| <= 64 && |cs| == p.count
    ensures forall c | c in cs :: ValidCommitment(lib, p, c)
    ensures Affordable(cs, TotalCharge(feerate, |cs|))
  {
    hide Affordable, ValidCommitment, NoRepeats, TotalCharge;
  }

  /** The unsigned transaction of `n` participants is `212 + 72 n` bytes long. */
  lemma UnsignedLength(lib: Library, p: Proposal, m: Manifest)
    requires Valid(lib, p, m)
    ensures var n := |m.commitments|;
            && 1 <= n <= 64
            && m.tx.witnesses == [] && |m.tx.inputs| == n + 1 && |m.tx.outputs| == n + 3
            && |LegacyBytes(m.tx)| == 212 + 72 * n
  {
    hide Valid, Buildable, EncodeMany, LE, ChangeOutputs, ProtocolOutputs, TotalCharge, MinerFee, BatchId, ChargeList;
    ValidShape(lib, p, m);
    BuildableParts(lib, p, m.commitments, m.feerate);
    InputsLength(p, m.commitments);
    OutputsLength(lib, p, m.commitments, m.feerate);
  }

  // -- reading ------------------------------------------------------------------------------------

  datatype Head = Head(batchId: Hash, epoch: u32, count: byte)

  datatype Tail = Tail(maxWeight: u32, feerate: u32, minerFee: u64, totalCharge: u64, charges: seq<u64>, tx: Transaction)

  function ParseHead(s: Bytes): Option<Read<Head>> {
    var Read(batchId, s1) :- ParseArray32(s);
    var Read(epoch, s2) :- ParseU32(s1);
    var Read(count, s3) :- ParseByte(s2);
    Some(Read(Head(batchId, epoch, count), s3))
  }

  /** The transaction bytes must parse, to the end, to something they canonically spell. */
  function ParseUnsigned(s: Bytes): Option<Read<Transaction>> {
    var Read(n, s1) :- ParseU32(s);
    var Read(raw, s2) :- TakeBytes(s1, n);
    var Read(tx, extra) :- ParseTx(raw);
    if extra != [] || LegacyBytes(tx) != raw then None else Some(Read(tx, s2))
  }

  function ParseTail(s: Bytes, count: nat): Option<Read<Tail>> {
    var Read(maxWeight, s1) :- ParseU32(s);
    var Read(feerate, s2) :- ParseU32(s1);
    var Read(minerFee, s3) :- ParseU64(s2);
    var Read(totalCharge, s4) :- ParseU64(s3);
    var Read(charges, s5) :- ParseMany(s4, count, ParseU64);
    var Read(tx, s6) :- ParseUnsigned(s5);
    Some(Read(Tail(maxWeight, feerate, minerFee, totalCharge, charges, tx), s6))
  }

  datatype Parts = Parts(head: Head, ids: seq<Hash>, tail: Tail)

  /** The whole body, for `n` participants. */
  function ParseParts(body: Bytes, n: nat): Option<Read<Parts>> {
    var Read(head, s1) :- ParseHead(body);
    if head.count != n then None
    else
      var Read(ids, s2) :- ParseMany(s1, n, ParseArray32);
      var Read(tail, rest) :- ParseTail(s2, n);
      Some(Read(Parts(head, ids, tail), rest))
  }

  /** The manifest the message claims, with the given commitments in canonical order. */
  function Claimed(lib: Library, p: Proposal, cs: seq<Commitment>, wire: Bytes): Option<Manifest> {
    var body :- WireBody(wire, MANIFEST_KIND);
    var Read(parts, rest) :- ParseParts(body, p.count);
    if |cs| != p.count || rest != [] || CommitmentIds(lib, Canonical(cs)) != parts.ids then None
    else
      var tail := parts.tail;
      Some(Manifest(parts.head.batchId, parts.head.epoch, tail.feerate, tail.maxWeight, tail.minerFee, tail.totalCharge,
                    tail.charges, Canonical(cs), tail.tx))
  }

  /** The manifest a message spells, given the source commitments. */
  ghost function DecodeManifest(lib: Library, p: Proposal, cs: seq<Commitment>, wire: Bytes): Option<Manifest> {
    var m :- Claimed(lib, p, cs, wire);
    if NoRepeats(lib, m.commitments) && Valid(lib, p, m) && wire == ManifestMessage(lib, m) then Some(m) else None
  }

  // -- the decoder as it runs ---------------------------------------------------------------------

  method ReadIds(reader: Reader, n: nat) returns (r: Option<seq<Hash>>)
    requires reader.Valid()
    modifies reader`position
    ensures reader.Valid()
    ensures match ParseMany(old(reader.Rest()), n, ParseArray32)
            case None => r == None
            case Some(Read(v, rest)) => r == Some(v) && reader.Rest() == rest
  {
    hide ParseArray32;
    ghost var goal := ParseMany(reader.Rest(), n, ParseArray32);
    ContinueEmpty(goal);
    var ids: seq<Hash> := [];
    for i := 0 to n
      invariant reader.Valid()
      invariant goal == Continue(ids, ParseMany(reader.Rest(), n - i, ParseArray32))
    {
      ghost var s := reader.Rest();
      var id :- reader.Array32();
      ContinueStep(ids, s, n - i, ParseArray32);
      ids := ids + [id];
    }
    assert ids + [] == ids;
    r := Some(ids);
  }

  method ReadCharges(reader: Reader, n: nat) returns (r: Option<seq<u64>>)
    requires reader.Valid()
    modifies reader`position
    ensures reader.Valid()
    ensures match ParseMany(old(reader.Rest()), n, ParseU64)
            case None => r == None
            case Some(Read(v, rest)) => r == Some(v) && reader.Rest() == rest
  {
    hide ParseU64;
    ghost var goal := ParseMany(reader.Rest(), n, ParseU64);
    ContinueEmpty(goal);
    var charges: seq<u64> := [];
    for i := 0 to n
      invariant reader.Valid()
      invariant goal == Continue(charges, ParseMany(reader.Rest(), n - i, ParseU64))
    {
      ghost var s := reader.Rest();
      var charge :- reader.U64();
      ContinueStep(charges, s, n - i, ParseU64);
      charges := charges + [charge];
    }
    assert charges + [] == charges;
    r := Some(charges);
  }

  method ReadHead(reader: Reader) returns (r: Option<Head>)
    requires reader.Valid()
    modifies reader`position
    ensures reader.Valid()
    ensures match ParseHead(old(reader.Rest()))
            case None => r == None
            case Some(Read(v, rest)) => r == Some(v) && reader.Rest() == rest
  {
    hide ParseArray32, ParseU32, ParseByte;
    var batchId :- reader.Array32();
    var epoch :- reader.U32();
    var count :- reader.U8();
    r := Some(Head(batchId, epoch, count));
  }

  method ReadTail(reader: Reader, count: nat) returns (r: Option<Tail>)
    requires reader.Valid()
    modifies reader`position
    ensures reader.Valid()
    ensures match ParseTail(old(reader.Rest()), count)
            case None => r == None
            case Some(Read(v, rest)) => r == Some(v) && reader.Rest() == rest
  {
    hide ParseU32, ParseU64, ParseMany, ParseTx, LegacyBytes;
    var maxWeight :- reader.U32();
    var feerate :- reader.U32();
    var minerFee :- reader.U64();
    var totalCharge :- reader.U64();
    var charges :- ReadCharges(reader, count);
    var length :- reader.U32();
    var raw :- reader.Take(length);
    var parsed :- ParseTx(raw);
    if parsed.rest != [] || LegacyBytes(parsed.value) != raw {
      return None;
    }
    r := Some(Tail(maxWeight, feerate, minerFee, totalCharge, charges, parsed.value));
  }

  /** `Manifest::from_wire` */
  method ManifestFromWire(lib: Library, p: Proposal, cs: seq<Commitment>, wire: Bytes) returns (r: Option<Manifest>)
    ensures r == DecodeManifest(lib, p, cs, wire)
  {
    hide Claimed, NoRepeats, Valid, ManifestMessage;
    var m :- ReadClaimed(lib, p, cs, wire);
    var distinct := RejectDuplicates(lib, m.commitments);
    if !distinct {
      return None;
    }
    var valid := Validate(lib, p, m);
    r := if valid && wire == ManifestMessage(lib, m) then Some(m) else None;
  }

  method ReadClaimed(lib: Library, p: Proposal, cs: seq<Commitment>, wire: Bytes) returns (r: Option<Manifest>)
    ensures r == Claimed(lib, p, cs, wire)
  {
    hide WireBody, ParseParts, Canonical, CommitmentIds;
    var body :- WireBody(wire, MANIFEST_KIND);
    if |cs| != p.count {
      return None;
    }
    var reader := new Reader(body);
    var parts :- ReadParts(reader, p.count);
    if !reader.Finished() || CommitmentIds(lib, Canonical(cs)) != parts.ids {
      return None;
    }
    var tail := parts.tail;
    r := Some(Manifest(parts.head.batchId, parts.head.epoch, tail.feerate, tail.maxWeight, tail.minerFee,
                       tail.totalCharge, tail.charges, Canonical(cs), tail.tx));
  }

  method ReadParts(reader: Reader, n: nat) returns (r: Option<Parts>)
    requires reader.Valid()
    modifies reader`position
    ensures reader.Valid()
    ensures match ParseParts(old(reader.Rest()), n)
            case None => r == None
            case Some(Read(v, rest)) => r == Some(v) && reader.Rest() == rest
  {
    hide ParseHead, ParseTail, ParseMany;
    var head :- ReadHead(reader);
    if head.count != n {
      return None;
    }
    var ids :- ReadIds(reader, n);
    var tail :- ReadTail(reader, n);
    r := Some(Parts(head, ids, tail));
  }

  lemma HeadRoundTrip(batchId: Hash, epoch: u32, count: byte, rest: Bytes)
    ensures ParseHead(IdBytes(batchId) + (LE(epoch, 4) + ([count] + rest))) == Some(Read(Head(batchId, epoch, count), rest))
  {
    hide ParseArray32, ParseU32, ParseByte, LE;
    ArrayRoundTrip(batchId, LE(epoch, 4) + ([count] + rest));
    U32RoundTrip(epoch, [count] + rest);
    ByteRoundTrip(count, rest);
  }

  lemma IdsRoundTrip(ids: seq<Hash>, rest: Bytes)
    ensures ParseMany(EncodeMany(ids, IdBytes) + rest, |ids|, ParseArray32) == Some(Read(ids, rest))
  {
    forall x, r ensures ParseArray32(IdBytes(x) + r) == Some(Read(x, r)) {
      ArrayRoundTrip(x, r);
    }
    ManyRoundTrip(ids, rest, IdBytes, ParseArray32);
  }

  lemma ChargesRoundTrip(charges: seq<u64>, rest: Bytes)
    ensures ParseMany(EncodeMany(charges, U64Bytes) + rest, |charges|, ParseU64) == Some(Read(charges, rest))
  {
    forall x: u64, r: Bytes ensures ParseU64(U64Bytes(x) + r) == Some(Read(x, r)) {
      U64RoundTrip(x, r);
    }
    ManyRoundTrip(charges, rest, U64Bytes, ParseU64);
  }

  lemma UnsignedRoundTrip(tx: Transaction)
    requires 1 <= |tx.inputs| <= 252 && |tx.outputs| <= MAX_COUNT && tx.witnesses == []
    requires |LegacyBytes(tx)| < 0x1_0000_0000
    ensures ParseUnsigned(LE(|LegacyBytes(tx)|, 4) + (LegacyBytes(tx) + [])) == Some(Read(tx, []))
  {
    hide ParseU32, ParseTx, LegacyBytes, LE;
    var raw := LegacyBytes(tx);
    U32RoundTrip(|raw|, raw + []);
    assert (raw + [])[..|raw|] == raw && (raw + [])[|raw|..] == [];
    ParsesBack(tx, []);
    assert raw + [] == raw;
  }

  lemma TailRoundTrip(m: Manifest)
    requires 1 <= |m.tx.inputs| <= 252 && |m.tx.outputs| <= MAX_COUNT && m.tx.witnesses == []
    requires |LegacyBytes(m.tx)| < 0x1_0000_0000
    ensures ParseTail(TailBytes(m), |m.charges|)
         == Some(Read(Tail(m.maxWeight, m.feerate, m.minerFee, m.totalCharge, m.charges, m.tx), []))
  {
    hide ParseU32, ParseU64, ParseMany, EncodeMany, ParseUnsigned, LegacyBytes, LE;
    var tx := LegacyBytes(m.tx);
    var s5 := LE(|tx|, 4) + (tx + []);
    var s4 := EncodeMany(m.charges, U64Bytes) + s5;
    var s3 := LE(m.totalCharge, 8) + s4;
    var s2 := LE(m.minerFee, 8) + s3;
    U32RoundTrip(m.maxWeight, LE(m.feerate, 4) + s2);
    U32RoundTrip(m.feerate, s2);
    U64RoundTrip(m.minerFee, s3);
    U64RoundTrip(m.totalCharge, s4);
    ChargesRoundTrip(m.charges, s5);
    UnsignedRoundTrip(m.tx);
  }

  lemma BodyLength(lib: Library, p: Proposal, m: Manifest)
    requires Valid(lib, p, m)
    ensures |ManifestBody(lib, m)| < 0x1_0000_0000 && |m.charges| == |m.commitments|
  {
    hide Valid, EncodeMany, LegacyBytes, CommitmentId, LE;
    UnsignedLength(lib, p, m);
    FeesAreExact(lib, p, m);
    ManyLength(CommitmentIds(lib, m.commitments), IdBytes, 32);
    ManyLength(m.charges, U64Bytes, 8);
  }

  lemma ClaimsItself(lib: Library, p: Proposal, m: Manifest, cs: seq<Commitment>)
    requires Valid(lib, p, m) && m.commitments == Canonical(cs)
    ensures Claimed(lib, p, cs, ManifestMessage(lib, m)) == Some(m)
  {
    hide Valid, EncodeMany, LegacyBytes, CommitmentId, LE, ParseHead, ParseTail, ParseMany, WireMessage, WireBody,
         TailBytes, Canonical, Buildable;
    UnsignedLength(lib, p, m);
    BodyLength(lib, p, m);
    ValidShape(lib, p, m);
    BuildableParts(lib, p, m.commitments, m.feerate);
    CanonicalKeepsAll(cs);
    WireBodyIff(ManifestMessage(lib, m), MANIFEST_KIND, ManifestBody(lib, m));
    var ids := CommitmentIds(lib, m.commitments);
    HeadRoundTrip(m.batchId, m.epoch, |m.commitments|, EncodeMany(ids, IdBytes) + TailBytes(m));
    IdsRoundTrip(ids, TailBytes(m));
    TailRoundTrip(m);
  }

  /**
   * The codec accepts exactly the canonical message of a valid manifest, together
   * with its commitments in any order.
   */
  lemma ManifestCodec(lib: Library, p: Proposal, cs: seq<Commitment>, wire: Bytes, m: Manifest)
    ensures DecodeManifest(lib, p, cs, wire) == Some(m) <==>
              Valid(lib, p, m) && m.commitments == Canonical(cs) && wire == ManifestMessage(lib, m)
  {
    hide ManifestMessage, WireBody, ParseParts, Canonical, NoRepeats, Valid, CommitmentIds;
    if Valid(lib, p, m) && m.commitments == Canonical(cs) && wire == ManifestMessage(lib, m) {
      ClaimsItself(lib, p, m, cs);
      ValidIsDistinct(lib, p, m);
    }
  }

  lemma ValidIsDistinct(lib: Library, p: Proposal, m: Manifest)
    requires Valid(lib, p, m)
    ensures NoRepeats(lib, m.commitments)
  {
    hide Canonical, NoRepeats, Affordable, ValidProposal, ValidCommitment, Assemble;
    ValidShape(lib, p, m);
  }

  // -- from a pool ---------------------------------------------------------------------------------

  function FindById(lib: Library, pool: seq<Commitment>, id: Hash): (r: Option<Commitment>)
    ensures r.Some? ==> r.value in pool && CommitmentId(lib, r.value) == id
    ensures r.None? ==> forall c | c in pool :: CommitmentId(lib, c) != id
  {
    if pool == [] then None
    else if CommitmentId(lib, pool[0]) == id then Some(pool[0])
    else FindById(lib, pool[1..], id)
  }

  /** The selected commitments, identifier by identifier; a repeated or missing one fails. */
  function Select(lib: Library, pool: seq<Commitment>, ids: seq<Hash>, seen: set<Hash>): Option<seq<Commitment>>
    decreases |ids|
  {
    if ids == [] then Some([])
    else if ids[0] in seen then None
    else
      var c :- FindById(lib, pool, ids[0]);
      var rest :- Select(lib, pool, ids[1..], seen + {ids[0]});
      Some([c] + rest)
  }

  /** The manifest a message names, its commitments looked up by identifier. */
  ghost function DecodeFromPool(lib: Library, p: Proposal, pool: seq<Commitment>, wire: Bytes): Option<Manifest> {
    var body :- WireBody(wire, MANIFEST_KIND);
    var Read(head, s1) :- ParseHead(body);
    if head.batchId != BatchId(lib, p) || head.count != p.count then None
    else
      var Read(ids, _) :- ParseMany(s1, head.count, ParseArray32);
      var selected :- Select(lib, pool, ids, {});
      DecodeManifest(lib, p, selected, wire)
  }

  /** `Manifest::from_wire_pool` */
  method ManifestFromWirePool(lib: Library, p: Proposal, pool: seq<Commitment>, wire: Bytes) returns (r: Option<Manifest>)
    ensures r == DecodeFromPool(lib, p, pool, wire)
  {
    hide WireBody, ParseHead, ParseMany, DecodeManifest, BatchId, Select;
    var body :- WireBody(wire, MANIFEST_KIND);
    var reader := new Reader(body);
    var head :- ReadHead(reader);
    if head.batchId != BatchId(lib, p) || head.count != p.count {
      return None;
    }
    var ids :- ReadIds(reader, head.count);
    var selected :- SelectCommitments(lib, pool, ids);
    r := ManifestFromWire(lib, p, selected, wire);
  }

  ghost function Chosen(done: seq<Commitment>, pending: Option<seq<Commitment>>): Option<seq<Commitment>> {
    if pending.None? then None else Some(done + pending.value)
  }

  lemma ChosenNothing(pending: Option<seq<Commitment>>)
    ensures Chosen([], pending) == pending
  {
    if pending.Some? {
      assert [] + pending.value == pending.value;
    }
  }

  lemma ChosenMore(done: seq<Commitment>, c: Commitment, pending: Option<seq<Commitment>>)
    ensures Chosen(done, if pending.None? then None else Some([c] + pending.value)) == Chosen(done + [c], pending)
  {
    if pending.Some? {
      assert done + ([c] + pending.value) == done + [c] + pending.value;
    }
  }

  /** The selection loop, one identifier at a time. */
  method SelectCommitments(lib: Library, pool: seq<Commitment>, ids: seq<Hash>) returns (r: Option<seq<Commitment>>)
    ensures r == Select(lib, pool, ids, {})
  {
    hide FindById;
    var selected: seq<Commitment>, seen: set<Hash> := [], {};
    ghost var goal := Select(lib, pool, ids, {});
    ChosenNothing(goal);
    for i := 0 to |ids|
      invariant goal == Chosen(selected, Select(lib, pool, ids[i..], seen))
    {
      if ids[i] in seen {
        return None;
      }
      var c :- FindById(lib, pool, ids[i]);
      assert ids[i..][1..] == ids[i + 1..];
      ChosenMore(selected, c, Select(lib, pool, ids[i + 1..], seen + {ids[i]}));
      selected, seen := selected + [c], seen + {ids[i]};
    }
    assert selected + [] == selected;
    r := Some(selected);
  }

  lemma {:induction false} SelectFromPool(lib: Library, pool: seq<Commitment>, ids: seq<Hash>, seen: set<Hash>)
    requires Select(lib, pool, ids, seen).Some?
    ensures forall c | c in Select(lib, pool, ids, seen).value :: c in pool
  {
    hide FindById;
    if ids != [] {
      SelectFromPool(lib, pool, ids[1..], seen + {ids[0]});
    }
  }

  /** Entries of the pool with one identifier are one commitment. */
  ghost predicate IdsDistinguish(lib: Library, pool: seq<Commitment>) {
    forall a, b | a in pool && b in pool && CommitmentId(lib, a) == CommitmentId(lib, b) :: a == b
  }

  lemma {:induction false} SelectsAll(lib: Library, pool: seq<Commitment>, cs: seq<Commitment>, seen: set<Hash>)
    requires IdsDistinguish(lib, pool) && NoRepeats(lib, cs)
    requires forall c | c in cs :: c in pool && CommitmentId(lib, c) !in seen
    ensures Select(lib, pool, CommitmentIds(lib, cs), seen) == Some(cs)
    decreases |cs|
  {
    hide CommitmentId;
    if cs != [] {
      var ids := CommitmentIds(lib, cs);
      assert cs[0] in cs;
      forall c | c in cs[1..] ensures c in pool && CommitmentId(lib, c) !in seen + {ids[0]} {
        var i :| 0 <= i < |cs[1..]| && cs[1..][i] == c;
        assert Differ(lib, cs[0], cs[i + 1]);
      }
      assert ids[1..] == CommitmentIds(lib, cs[1..]);
      assert NoRepeats(lib, cs[1..]);
      var found := FindById(lib, pool, ids[0]);
      assert found == Some(cs[0]);
      assert cs == [cs[0]] + cs[1..];
      SelectsAll(lib, pool, cs[1..], seen + {ids[0]});
    }
  }

  /**
   * A manifest is rebuilt from any pool that contains its commitments, in any order
   * and among anything else, and from no other.
   */
  lemma PoolCodec(lib: Library, p: Proposal, pool: seq<Commitment>, wire: Bytes, m: Manifest)
    requires IdsDistinguish(lib, pool)
    ensures DecodeFromPool(lib, p, pool, wire) == Some(m) <==>
              Valid(lib, p, m) && wire == ManifestMessage(lib, m) && forall c | c in m.commitments :: c in pool
  {
    hide Valid, ManifestMessage, Canonical, IdsDistinguish, CommitmentIds, ParseHead, ParseMany, WireBody, Select,
         DecodeManifest, BatchId;
    if DecodeFromPool(lib, p, pool, wire) == Some(m) {
      var head := ParseHead(WireBody(wire, MANIFEST_KIND).value).value;
      var ids := ParseMany(head.rest, head.value.count, ParseArray32).value.value;
      var selected := Select(lib, pool, ids, {}).value;
      ManifestCodec(lib, p, selected, wire, m);
      SelectFromPool(lib, pool, ids, {});
      CanonicalKeepsAll(selected);
      SameMembers(m.commitments, selected);
    }
    if Valid(lib, p, m) && wire == ManifestMessage(lib, m) && forall c | c in m.commitments :: c in pool {
      PoolServes(lib, p, pool, m);
    }
  }

  lemma PoolServes(lib: Library, p: Proposal, pool: seq<Commitment>, m: Manifest)
    requires IdsDistinguish(lib, pool) && Valid(lib, p, m) && forall c | c in m.commitments :: c in pool
    ensures DecodeFromPool(lib, p, pool, ManifestMessage(lib, m)) == Some(m)
  {
    hide Valid, Canonical, IdsDistinguish, ParseHead, ParseMany, WireBody, Select, WireMessage, EncodeMany, TailBytes,
         DecodeManifest, BatchId, Buildable, LE;
    var wire := ManifestMessage(lib, m);
    BodyLength(lib, p, m);
    ValidShape(lib, p, m);
    BuildableParts(lib, p, m.commitments, m.feerate);
    ValidIsDistinct(lib, p, m);
    WireBodyIff(wire, MANIFEST_KIND, ManifestBody(lib, m));
    var ids := CommitmentIds(lib, m.commitments);
    HeadRoundTrip(m.batchId, m.epoch, |m.commitments|, EncodeMany(ids, IdBytes) + TailBytes(m));
    IdsRoundTrip(ids, TailBytes(m));
    SelectsAll(lib, pool, m.commitments, {});
    ManifestCodec(lib, p, m.commitments, wire, m);
  }
}
