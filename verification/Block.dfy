/**
 * Blocks and transactions (`crates/opencsv-cbf/src/block.rs`): the wire codec,
 * merkle roots and the BIP158 element set. SHA256d is the parameter `sha256d`.
 */
module Block {
  import opened Wrappers
  import opened Wire

  const MAX_COUNT := 1_000_000
  const MAX_WITNESS_ITEMS := 1000

  type HashFn = Bytes -> Hash

  datatype BlockHeader = BlockHeader(
    version: i32, prevBlock: Hash, merkleRoot: Hash, time: u32, bits: u32, nonce: u32)

  datatype OutPoint = OutPoint(txid: Hash, vout: u32)

  datatype TxIn = TxIn(prev: OutPoint, scriptSig: Buffer, sequence: u32)

  datatype TxOut = TxOut(amount: u64, scriptPubkey: Buffer)

  datatype Transaction = Transaction(
    version: i32, inputs: seq<TxIn>, outputs: seq<TxOut>, lockTime: u32, witnesses: seq<seq<Buffer>>)

  datatype Block = Block(header: BlockHeader, txs: seq<Transaction>)

  /** Vectors that exist in memory have machine-word lengths. */
  ghost predicate InMemory(tx: Transaction) {
    |tx.inputs| < 0x1_0000_0000_0000_0000 && |tx.outputs| < 0x1_0000_0000_0000_0000
  }

  function HeaderBytes(h: BlockHeader): (s: Bytes)
    ensures |s| == 80
  {
    I32Bytes(h.version) + h.prevBlock + h.merkleRoot + LE(h.time, 4) + LE(h.bits, 4) + LE(h.nonce, 4)
  }

  /** The 80-byte encoding determines the header. */
  lemma HeaderBytesInjective(a: BlockHeader, b: BlockHeader)
    requires HeaderBytes(a) == HeaderBytes(b)
    ensures a == b
  {
    var s := HeaderBytes(a);
    assert s[0..4] == I32Bytes(a.version) && s[0..4] == I32Bytes(b.version);
    assert s[4..36] == a.prevBlock && s[4..36] == b.prevBlock;
    assert s[36..68] == a.merkleRoot && s[36..68] == b.merkleRoot;
    assert s[68..72] == LE(a.time, 4) && s[68..72] == LE(b.time, 4);
    assert s[72..76] == LE(a.bits, 4) && s[72..76] == LE(b.bits, 4);
    assert s[76..80] == LE(a.nonce, 4) && s[76..80] == LE(b.nonce, 4);
    I32RoundTrip(a.version, []);
    I32RoundTrip(b.version, []);
    U32RoundTrip(a.time, []);
    U32RoundTrip(b.time, []);
    U32RoundTrip(a.bits, []);
    U32RoundTrip(b.bits, []);
    U32RoundTrip(a.nonce, []);
    U32RoundTrip(b.nonce, []);
  }

  function HeaderHash(sha256d: HashFn, h: BlockHeader): Hash {
    sha256d(HeaderBytes(h))
  }

  // -- transactions --------------------------------------------------------

  function InputBytes(i: TxIn): Bytes {
    i.prev.txid + LE(i.prev.vout, 4) + VarBytes(i.scriptSig) + LE(i.sequence, 4)
  }

  function ParseInput(s: Bytes): Option<Read<TxIn>> {
    var Read(txid, s1) :- TakeBytes(s, 32);
    var Read(vout, s2) :- ParseU32(s1);
    var Read(script, s3) :- ParseVarBytes(s2);
    var Read(sequence, s4) :- ParseU32(s3);
    Some(Read(TxIn(OutPoint(txid, vout), script, sequence), s4))
  }

  function OutputBytes(o: TxOut): Bytes {
    LE(o.amount, 8) + VarBytes(o.scriptPubkey)
  }

  function ParseOutput(s: Bytes): Option<Read<TxOut>> {
    var Read(amount, s1) :- ParseU64(s);
    var Read(script, s2) :- ParseVarBytes(s1);
    Some(Read(TxOut(amount, script), s2))
  }

  function ParseStack(s: Bytes): Option<Read<seq<Buffer>>> {
    var Read(n, s1) :- ParseVarint(s);
    if n > MAX_WITNESS_ITEMS then None else ParseMany(s1, n, ParseVarBytes)
  }

  /** `len() as u64` */
  function Count<T>(s: seq<T>): u64 {
    |s| % 0x1_0000_0000_0000_0000
  }

  /** The legacy encoding, which transaction ids commit to. */
  function LegacyBytes(tx: Transaction): Bytes {
    I32Bytes(tx.version) + (CompactSize(Count(tx.inputs)) + (EncodeMany(tx.inputs, InputBytes)
    + (CompactSize(Count(tx.outputs)) + (EncodeMany(tx.outputs, OutputBytes) + LE(tx.lockTime, 4)))))
  }

  /** The branch on the byte after the version: segwit marker and flag, or the input count itself. */
  datatype Framing = Framing(segwit: bool, inputCount: nat)

  function ParseFraming(s: Bytes): Option<Read<Framing>> {
    var Read(first, s1) :- TakeBytes(s, 1);
    if first[0] != 0 then Some(Read(Framing(false, first[0]), s1))
    else
      var Read(flag, s2) :- TakeBytes(s1, 1);
      if flag[0] != 1 then None
      else
        var Read(n, s3) :- ParseVarint(s2);
        Some(Read(Framing(true, n), s3))
  }

  function ParseOutputs(s: Bytes): Option<Read<seq<TxOut>>> {
    var Read(n, s1) :- ParseVarint(s);
    if n > MAX_COUNT then None else ParseMany(s1, n, ParseOutput)
  }

  function ParseTx(s: Bytes): Option<Read<Transaction>> {
    var Read(version, s1) :- ParseI32(s);
    var Read(framing, s2) :- ParseFraming(s1);
    if framing.inputCount > MAX_COUNT then None
    else
      var Read(inputs, s3) :- ParseMany(s2, framing.inputCount, ParseInput);
      var Read(outputs, s4) :- ParseOutputs(s3);
      var Read(witnesses, s5) :- ParseMany(s4, if framing.segwit then framing.inputCount else 0, ParseStack);
      var Read(lockTime, s6) :- ParseU32(s5);
      Some(Read(Transaction(version, inputs, outputs, lockTime, witnesses), s6))
  }

  lemma InputRoundTrip(i: TxIn, r: Bytes)
    ensures ParseInput(InputBytes(i) + r) == Some(Read(i, r))
  {
    var s3 := LE(i.sequence, 4) + r;
    var s2 := VarBytes(i.scriptSig) + s3;
    var s1 := LE(i.prev.vout, 4) + s2;
    FourPieces(i.prev.txid, LE(i.prev.vout, 4), VarBytes(i.scriptSig), LE(i.sequence, 4), r);
    assert (i.prev.txid + s1)[..32] == i.prev.txid && (i.prev.txid + s1)[32..] == s1;
    U32RoundTrip(i.prev.vout, s2);
    VarBytesRoundTrip(i.scriptSig, s3);
    U32RoundTrip(i.sequence, r);
  }

  lemma InputCanonical(s: Bytes)
    requires ParseInput(s).Some?
    ensures s == InputBytes(ParseInput(s).value.value) + ParseInput(s).value.rest
  {
    var Read(txid, s1) := TakeBytes(s, 32).value;
    var Read(vout, s2) := ParseU32(s1).value;
    var Read(script, s3) := ParseVarBytes(s2).value;
    var Read(sequence, s4) := ParseU32(s3).value;
    assert s1 == LE(vout, 4) + s2 by {
      UintCanonical(s1, 4);
    }
    assert s2 == VarBytes(script) + s3 by {
      VarBytesCanonical(s2);
    }
    assert s3 == LE(sequence, 4) + s4 by {
      UintCanonical(s3, 4);
    }
    FourPieces(txid, LE(vout, 4), VarBytes(script), LE(sequence, 4), s4);
  }

  lemma FourPieces(a: Bytes, b: Bytes, c: Bytes, d: Bytes, r: Bytes)
    ensures a + (b + (c + (d + r))) == a + b + c + d + r
  {
  }

  lemma OutputRoundTrip(o: TxOut, r: Bytes)
    ensures ParseOutput(OutputBytes(o) + r) == Some(Read(o, r))
  {
    assert OutputBytes(o) + r == LE(o.amount, 8) + (VarBytes(o.scriptPubkey) + r);
    U64RoundTrip(o.amount, VarBytes(o.scriptPubkey) + r);
    VarBytesRoundTrip(o.scriptPubkey, r);
  }

  lemma OutputCanonical(s: Bytes)
    requires ParseOutput(s).Some?
    ensures s == OutputBytes(ParseOutput(s).value.value) + ParseOutput(s).value.rest
  {
    UintCanonical(s, 8);
    VarBytesCanonical(s[8..]);
  }

  lemma ManyInputs(xs: seq<TxIn>, rest: Bytes)
    ensures ParseMany(EncodeMany(xs, InputBytes) + rest, |xs|, ParseInput) == Some(Read(xs, rest))
  {
    forall x, r ensures ParseInput(InputBytes(x) + r) == Some(Read(x, r)) {
      InputRoundTrip(x, r);
    }
    ManyRoundTrip(xs, rest, InputBytes, ParseInput);
  }

  lemma ManyOutputs(xs: seq<TxOut>, rest: Bytes)
    ensures ParseMany(EncodeMany(xs, OutputBytes) + rest, |xs|, ParseOutput) == Some(Read(xs, rest))
  {
    forall x, r ensures ParseOutput(OutputBytes(x) + r) == Some(Read(x, r)) {
      OutputRoundTrip(x, r);
    }
    ManyRoundTrip(xs, rest, OutputBytes, ParseOutput);
  }

  /** What the legacy encoding commits to: everything but the witnesses. */
  function Stripped(tx: Transaction): Transaction {
    tx.(witnesses := [])
  }

  /** Reads a legacy encoding whose input count is a full CompactSize, unbounded. */
  ghost function ReadLegacy(s: Bytes): Option<Transaction> {
    var Read(version, s1) :- ParseI32(s);
    var Read(n, s2) :- ParseVarint(s1);
    var Read(inputs, s3) :- ParseMany(s2, n, ParseInput);
    var Read(m, s4) :- ParseVarint(s3);
    var Read(outputs, s5) :- ParseMany(s4, m, ParseOutput);
    var Read(lockTime, s6) :- ParseU32(s5);
    Some(Transaction(version, inputs, outputs, lockTime, []))
  }

  lemma LegacyFields(tx: Transaction)
    requires InMemory(tx)
    ensures ReadLegacy(LegacyBytes(tx)) == Some(Stripped(tx))
  {
    hide ParseI32, ParseVarint, ParseInput, ParseOutput, ParseU32, ParseMany;
    var s5 := LE(tx.lockTime, 4) + [];
    var s4 := EncodeMany(tx.outputs, OutputBytes) + s5;
    var s3 := CompactSize(|tx.outputs|) + s4;
    var s2 := EncodeMany(tx.inputs, InputBytes) + s3;
    var s1 := CompactSize(|tx.inputs|) + s2;
    LegacyPieces(tx, []);
    assert LegacyBytes(tx) == LegacyBytes(tx) + [];
    I32RoundTrip(tx.version, s1);
    VarintRoundTrip(|tx.inputs|, s2);
    ManyInputs(tx.inputs, s3);
    VarintRoundTrip(|tx.outputs|, s4);
    ManyOutputs(tx.outputs, s5);
    U32RoundTrip(tx.lockTime, []);
  }

  /** Equal legacy encodings come from transactions that differ at most in witnesses. */
  lemma LegacyBytesInjective(a: Transaction, b: Transaction)
    requires InMemory(a) && InMemory(b) && LegacyBytes(a) == LegacyBytes(b)
    ensures Stripped(a) == Stripped(b)
  {
    LegacyFields(a);
    LegacyFields(b);
  }

  /** The legacy encoding and what follows it, bracketed the way the parser eats it. */
  lemma LegacyPieces(tx: Transaction, rest: Bytes)
    requires InMemory(tx)
    ensures LegacyBytes(tx) + rest
         == I32Bytes(tx.version) + (CompactSize(|tx.inputs|) + (EncodeMany(tx.inputs, InputBytes)
            + (CompactSize(|tx.outputs|) + (EncodeMany(tx.outputs, OutputBytes) + (LE(tx.lockTime, 4) + rest)))))
  {
    hide EncodeMany, CompactSize, LE, I32Bytes;
    SevenPieces(I32Bytes(tx.version), CompactSize(|tx.inputs|), EncodeMany(tx.inputs, InputBytes),
                CompactSize(|tx.outputs|), EncodeMany(tx.outputs, OutputBytes), LE(tx.lockTime, 4), rest);
  }

  lemma SevenPieces(a: Bytes, b: Bytes, c: Bytes, d: Bytes, e: Bytes, f: Bytes, r: Bytes)
    ensures a + (b + (c + (d + (e + f)))) + r == a + (b + (c + (d + (e + (f + r)))))
  {
    assert e + f + r == e + (f + r);
    assert d + (e + f) + r == d + (e + (f + r));
    assert c + (d + (e + f)) + r == c + (d + (e + (f + r)));
    assert b + (c + (d + (e + f))) + r == b + (c + (d + (e + (f + r))));
  }

  lemma ParsesBack(tx: Transaction, rest: Bytes)
    requires 1 <= |tx.inputs| <= 252 && |tx.outputs| <= MAX_COUNT && tx.witnesses == []
    ensures ParseTx(LegacyBytes(tx) + rest) == Some(Read(tx, rest))
  {
    var s5 := LE(tx.lockTime, 4) + rest;
    var s4 := EncodeMany(tx.outputs, OutputBytes) + s5;
    var s3 := CompactSize(|tx.outputs|) + s4;
    var s2 := EncodeMany(tx.inputs, InputBytes) + s3;
    var s1 := CompactSize(|tx.inputs|) + s2;
    LegacyPieces(tx, rest);
    I32RoundTrip(tx.version, s1);
    assert s1[..1] == [|tx.inputs|] && s1[1..] == s2;
    assert ParseFraming(s1) == Some(Read(Framing(false, |tx.inputs|), s2));
    ManyInputs(tx.inputs, s3);
    VarintRoundTrip(|tx.outputs|, s4);
    ManyOutputs(tx.outputs, s5);
    U32RoundTrip(tx.lockTime, rest);
  }

  /** Every accepted transaction is spelled by its own fields: how many bytes the parser consumed. */
  lemma ParseTxLength(s: Bytes)
    requires ParseTx(s).Some? && |s| >= 5
    ensures |ParseTx(s).value.value.outputs| <= MAX_COUNT
    ensures var Read(tx, rest) := ParseTx(s).value;
            var core := |EncodeMany(tx.inputs, InputBytes)| + |CompactSize(|tx.outputs|)|
                        + |EncodeMany(tx.outputs, OutputBytes)| + |rest|;
            && |tx.witnesses| == (if s[4] != 0 then 0 else |tx.inputs|)
            && (s[4] != 0 ==> |tx.inputs| == s[4] && |s| == 9 + core)
            && (s[4] == 0 && tx.inputs == [] ==> |s| == 11 + core)
  {
    hide ParseMany, EncodeMany, ParseInput, ParseOutput, ParseStack, CompactSize;
    var s1 := s[4..];
    var Read(framing, s2) := ParseFraming(s1).value;
    assert s1[0] == s[4];
    if s[4] == 0 {
      VarintCanonical(s1[1..][1..]);
    }
    forall t | ParseInput(t).Some?
      ensures t == InputBytes(ParseInput(t).value.value) + ParseInput(t).value.rest {
      InputCanonical(t);
    }
    ManyCanonical(s2, framing.inputCount, InputBytes, ParseInput);
    var Read(inputs, s3) := ParseMany(s2, framing.inputCount, ParseInput).value;
    VarintCanonical(s3);
    var Read(outputCount, s3') := ParseVarint(s3).value;
    forall t | ParseOutput(t).Some?
      ensures t == OutputBytes(ParseOutput(t).value.value) + ParseOutput(t).value.rest {
      OutputCanonical(t);
    }
    ManyCanonical(s3', outputCount, OutputBytes, ParseOutput);
    var Read(outputs, s4) := ParseOutputs(s3).value;
    var k := if framing.segwit then framing.inputCount else 0;
    ManyCount(s4, k, ParseStack);
    assert k == 0 ==> ParseMany(s4, k, ParseStack) == Some(Read([], s4)) by {
      NoneLeft(s4, ParseStack);
    }
  }

  lemma NoneLeft<T>(s: Bytes, item: Bytes -> Option<Read<T>>)
    ensures ParseMany(s, 0, item) == Some(Read([], s))
  {
  }

  lemma {:induction false} ManyCount<T>(s: Bytes, n: nat, item: Bytes -> Option<Read<T>>)
    requires ParseMany(s, n, item).Some?
    ensures |ParseMany(s, n, item).value.value| == n
    decreases n
  {
    if n > 0 {
      ManyCount(item(s).value.rest, n - 1, item);
    }
  }

  /**
   * Parsing undoes the legacy encoding exactly for 1 to 252 inputs. With none,
   * the count byte reads as the segwit marker; from 253 on, the CompactSize
   * prefix byte is taken for the count.
   */
  lemma ParseInvertsLegacyExactly(tx: Transaction, rest: Bytes)
    requires InMemory(tx)
    ensures ParseTx(LegacyBytes(tx) + rest) == Some(Read(tx, rest))
       <==> 1 <= |tx.inputs| <= 252 && |tx.outputs| <= MAX_COUNT && tx.witnesses == []
  {
    hide ParseTx, EncodeMany, LegacyBytes;
    var s := LegacyBytes(tx) + rest;
    LegacyLength(tx, rest);
    if 1 <= |tx.inputs| <= 252 && |tx.outputs| <= MAX_COUNT && tx.witnesses == [] {
      ParsesBack(tx, rest);
    } else if ParseTx(s) == Some(Read(tx, rest)) {
      ParseTxLength(s);
    }
  }

  /** For instance, a transaction with no inputs does not read back. */
  lemma NoInputsExample(rest: Bytes)
    ensures var tx := Transaction(2, [], [], 0, []);
            ParseTx(LegacyBytes(tx) + rest) != Some(Read(tx, rest))
  {
    hide ParseTx, LegacyBytes;
    ParseInvertsLegacyExactly(Transaction(2, [], [], 0, []), rest);
  }

  lemma LegacyLength(tx: Transaction, rest: Bytes)
    requires InMemory(tx)
    ensures var s := LegacyBytes(tx) + rest;
            && |s| == 8 + |CompactSize(|tx.inputs|)| + |EncodeMany(tx.inputs, InputBytes)|
                      + |CompactSize(|tx.outputs|)| + |EncodeMany(tx.outputs, OutputBytes)| + |rest|
            && s[4] == CompactSize(|tx.inputs|)[0]
  {
    hide EncodeMany, CompactSize;
  }

  // -- the parser as the source runs it -------------------------------------

  /** What a half-read vector still owes: the items read so far, then the rest of the parse. */
  ghost function Continue<T>(done: seq<T>, pending: Option<Read<seq<T>>>): Option<Read<seq<T>>> {
    match pending
    case None => None
    case Some(Read(xs, rest)) => Some(Read(done + xs, rest))
  }

  method ReadInput(cursor: Cursor) returns (r: Option<TxIn>)
    requires cursor.Valid()
    modifies cursor`pos
    ensures cursor.Valid()
    ensures match ParseInput(old(cursor.Rest()))
            case None => r == None
            case Some(Read(v, rest)) => r == Some(v) && cursor.Rest() == rest
  {
    var txid :- cursor.ReadBytes(32);
    var vout :- cursor.ReadU32();
    var script :- cursor.ReadVarBytes();
    var sequence :- cursor.ReadU32();
    r := Some(TxIn(OutPoint(txid, vout), script, sequence));
  }

  method ReadOutput(cursor: Cursor) returns (r: Option<TxOut>)
    requires cursor.Valid()
    modifies cursor`pos
    ensures cursor.Valid()
    ensures match ParseOutput(old(cursor.Rest()))
            case None => r == None
            case Some(Read(v, rest)) => r == Some(v) && cursor.Rest() == rest
  {
    var amount :- cursor.ReadU64();
    var script :- cursor.ReadVarBytes();
    r := Some(TxOut(amount, script));
  }

  method ReadStack(cursor: Cursor) returns (r: Option<seq<Buffer>>)
    requires cursor.Valid()
    modifies cursor`pos
    ensures cursor.Valid()
    ensures match ParseStack(old(cursor.Rest()))
            case None => r == None
            case Some(Read(v, rest)) => r == Some(v) && cursor.Rest() == rest
  {
    hide ParseMany;
    var n :- cursor.ReadVarint();
    if n > MAX_WITNESS_ITEMS {
      return None;
    }
    r := ReadItems(cursor, n);
  }

  method ReadItems(cursor: Cursor, n: nat) returns (r: Option<seq<Buffer>>)
    requires cursor.Valid()
    modifies cursor`pos
    ensures cursor.Valid()
    ensures match ParseMany(old(cursor.Rest()), n, ParseVarBytes)
            case None => r == None
            case Some(Read(v, rest)) => r == Some(v) && cursor.Rest() == rest
  {
    hide ParseVarBytes;
    ghost var goal := ParseMany(cursor.Rest(), n, ParseVarBytes);
    ContinueEmpty(goal);
    var stack: seq<Buffer> := [];
    for i := 0 to n
      invariant cursor.Valid()
      invariant goal == Continue(stack, ParseMany(cursor.Rest(), n - i, ParseVarBytes))
    {
      ghost var s := cursor.Rest();
      var item :- cursor.ReadVarBytes();
      ContinueStep(stack, s, n - i, ParseVarBytes);
      stack := stack + [item];
    }
    assert stack + [] == stack;
    r := Some(stack);
  }

  lemma ContinueEmpty<T>(pending: Option<Read<seq<T>>>)
    ensures Continue([], pending) == pending
  {
    if pending.Some? {
      assert [] + pending.value.value == pending.value.value;
    }
  }

  lemma ContinueStep<T>(done: seq<T>, s: Bytes, n: nat, item: Bytes -> Option<Read<T>>)
    requires n > 0 && item(s).Some?
    ensures Continue(done, ParseMany(s, n, item))
         == Continue(done + [item(s).value.value], ParseMany(item(s).value.rest, n - 1, item))
  {
    var Read(x, s1) := item(s).value;
    var pending := ParseMany(s1, n - 1, item);
    if pending.Some? {
      assert done + ([x] + pending.value.value) == done + [x] + pending.value.value;
    }
  }

  method ReadInputs(cursor: Cursor, n: nat) returns (r: Option<seq<TxIn>>)
    requires cursor.Valid()
    modifies cursor`pos
    ensures cursor.Valid()
    ensures match ParseMany(old(cursor.Rest()), n, ParseInput)
            case None => r == None
            case Some(Read(v, rest)) => r == Some(v) && cursor.Rest() == rest
  {
    hide ParseInput;
    ghost var goal := ParseMany(cursor.Rest(), n, ParseInput);
    ContinueEmpty(goal);
    var inputs: seq<TxIn> := [];
    for i := 0 to n
      invariant cursor.Valid()
      invariant goal == Continue(inputs, ParseMany(cursor.Rest(), n - i, ParseInput))
    {
      ghost var s := cursor.Rest();
      var input :- ReadInput(cursor);
      ContinueStep(inputs, s, n - i, ParseInput);
      inputs := inputs + [input];
    }
    assert inputs + [] == inputs;
    r := Some(inputs);
  }

  method ReadOutputs(cursor: Cursor) returns (r: Option<seq<TxOut>>)
    requires cursor.Valid()
    modifies cursor`pos
    ensures cursor.Valid()
    ensures match ParseOutputs(old(cursor.Rest()))
            case None => r == None
            case Some(Read(v, rest)) => r == Some(v) && cursor.Rest() == rest
  {
    hide ParseMany;
    var n :- cursor.ReadVarint();
    if n > MAX_COUNT {
      return None;
    }
    r := ReadOutputItems(cursor, n);
  }

  method ReadOutputItems(cursor: Cursor, n: nat) returns (r: Option<seq<TxOut>>)
    requires cursor.Valid()
    modifies cursor`pos
    ensures cursor.Valid()
    ensures match ParseMany(old(cursor.Rest()), n, ParseOutput)
            case None => r == None
            case Some(Read(v, rest)) => r == Some(v) && cursor.Rest() == rest
  {
    hide ParseOutput;
    ghost var goal := ParseMany(cursor.Rest(), n, ParseOutput);
    ContinueEmpty(goal);
    var outputs: seq<TxOut> := [];
    for i := 0 to n
      invariant cursor.Valid()
      invariant goal == Continue(outputs, ParseMany(cursor.Rest(), n - i, ParseOutput))
    {
      ghost var s := cursor.Rest();
      var output :- ReadOutput(cursor);
      ContinueStep(outputs, s, n - i, ParseOutput);
      outputs := outputs + [output];
    }
    assert outputs + [] == outputs;
    r := Some(outputs);
  }

  method ReadFraming(cursor: Cursor) returns (r: Option<Framing>)
    requires cursor.Valid()
    modifies cursor`pos
    ensures cursor.Valid()
    ensures match ParseFraming(old(cursor.Rest()))
            case None => r == None
            case Some(Read(v, rest)) => r == Some(v) && cursor.Rest() == rest
  {
    var first :- cursor.ReadBytes(1);
    if first[0] != 0 {
      return Some(Framing(false, first[0]));
    }
    var flag :- cursor.ReadBytes(1);
    if flag[0] != 1 {
      return None;
    }
    var n :- cursor.ReadVarint();
    r := Some(Framing(true, n));
  }

  /** `Transaction::parse` on the shared cursor. */
  method ReadTransaction(cursor: Cursor) returns (r: Option<Transaction>)
    requires cursor.Valid()
    modifies cursor`pos
    ensures cursor.Valid()
    ensures match ParseTx(old(cursor.Rest()))
            case None => r == None
            case Some(Read(v, rest)) => r == Some(v) && cursor.Rest() == rest
  {
    hide ParseI32, ParseFraming, ParseOutputs, ParseU32;
    var version :- cursor.ReadI32();
    var framing :- ReadFraming(cursor);
    if framing.inputCount > MAX_COUNT {
      return None;
    }
    var inputs :- ReadInputs(cursor, framing.inputCount);
    var outputs :- ReadOutputs(cursor);
    var k := if framing.segwit then framing.inputCount else 0;
    var witnesses :- ReadWitnesses(cursor, k);
    var lockTime :- cursor.ReadU32();
    r := Some(Transaction(version, inputs, outputs, lockTime, witnesses));
  }

  method ReadWitnesses(cursor: Cursor, n: nat) returns (r: Option<seq<seq<Buffer>>>)
    requires cursor.Valid()
    modifies cursor`pos
    ensures cursor.Valid()
    ensures match ParseMany(old(cursor.Rest()), n, ParseStack)
            case None => r == None
            case Some(Read(v, rest)) => r == Some(v) && cursor.Rest() == rest
  {
    hide ParseStack;
    ghost var goal := ParseMany(cursor.Rest(), n, ParseStack);
    ContinueEmpty(goal);
    var witnesses: seq<seq<Buffer>> := [];
    for i := 0 to n
      invariant cursor.Valid()
      invariant goal == Continue(witnesses, ParseMany(cursor.Rest(), n - i, ParseStack))
    {
      ghost var s := cursor.Rest();
      var stack :- ReadStack(cursor);
      ContinueStep(witnesses, s, n - i, ParseStack);
      witnesses := witnesses + [stack];
    }
    assert witnesses + [] == witnesses;
    r := Some(witnesses);
  }

  function Txid(sha256d: HashFn, tx: Transaction): Hash {
    sha256d(LegacyBytes(tx))
  }

  function Txids(sha256d: HashFn, txs: seq<Transaction>): (r: seq<Hash>)
    ensures |r| == |txs|
  {
    seq(|txs|, i requires 0 <= i < |txs| => Txid(sha256d, txs[i]))
  }

  function ZeroHash(): Hash {
    seq(32, i => 0)
  }

  predicate IsCoinbase(tx: Transaction) {
    |tx.inputs| == 1 && tx.inputs[0].prev.txid == ZeroHash() && tx.inputs[0].prev.vout == 0xffff_ffff
  }

  // -- merkle roots ----------------------------------------------------------

  /** The 64-byte preimages of one level: neighbours joined, an odd last one with itself. */
  function Join(left: Hash, right: Hash): (data: Bytes)
    ensures |data| == 64 && data[..32] == left && data[32..] == right
  {
    var data: Bytes := left;
    data + right
  }

  function PairData(level: seq<Hash>): (r: seq<Bytes>)
    ensures |r| == (|level| + 1) / 2
  {
    if level == [] then []
    else if |level| == 1 then [Join(level[0], level[0])]
    else [Join(level[0], level[1])] + PairData(level[2..])
  }

  function NextLevel(sha256d: HashFn, level: seq<Hash>): (r: seq<Hash>)
    ensures |r| == (|level| + 1) / 2
  {
    HashEach(sha256d, PairData(level))
  }

  function HashEach(hash: HashFn, data: seq<Bytes>): (r: seq<Hash>)
    ensures |r| == |data|
  {
    seq(|data|, i requires 0 <= i < |data| => hash(data[i]))
  }

  function MerkleRoot(sha256d: HashFn, leaves: seq<Hash>): Hash
    requires leaves != []
    decreases |leaves|
  {
    if |leaves| == 1 then leaves[0] else MerkleRoot(sha256d, NextLevel(sha256d, leaves))
  }

  method ComputeMerkleRoot(sha256d: HashFn, leaves: seq<Hash>) returns (root: Hash)
    requires leaves != []
    ensures root == MerkleRoot(sha256d, leaves)
  {
    var level := leaves;
    while |level| > 1
      invariant level != [] && MerkleRoot(sha256d, level) == MerkleRoot(sha256d, leaves)
      decreases |level|
    {
      level := ComputeNextLevel(sha256d, level);
    }
    root := level[0];
  }

  method ComputeNextLevel(sha256d: HashFn, level: seq<Hash>) returns (next: seq<Hash>)
    ensures next == NextLevel(sha256d, level)
  {
    next := [];
    var rest := level;
    while rest != []
      invariant NextLevel(sha256d, level) == next + NextLevel(sha256d, rest)
      decreases |rest|
    {
      var left, right := rest[0], rest[if |rest| > 1 then 1 else 0];
      NextLevelStep(sha256d, rest);
      next := next + [sha256d(Join(left, right))];
      rest := if |rest| > 1 then rest[2..] else [];
    }
    assert NextLevel(sha256d, []) == [];
  }

  lemma NextLevelStep(sha256d: HashFn, level: seq<Hash>)
    requires level != []
    ensures NextLevel(sha256d, level)
         == [sha256d(Join(level[0], level[if |level| > 1 then 1 else 0]))]
            + NextLevel(sha256d, if |level| > 1 then level[2..] else [])
  {
  }

  /** Every preimage hashed on the way to the root. */
  ghost function MerklePreimages(sha256d: HashFn, leaves: seq<Hash>): set<Bytes>
    requires leaves != []
    decreases |leaves|
  {
    if |leaves| == 1 then {}
    else (set d | d in PairData(leaves)) + MerklePreimages(sha256d, NextLevel(sha256d, leaves))
  }

  /** No two different preimages, one from each side, hash alike. */
  ghost predicate NoCollision(hash: HashFn, a: set<Bytes>, b: set<Bytes>) {
    forall x, y :: x in a && y in b && hash(x) == hash(y) ==> x == y
  }

  lemma {:induction false} PairDataInjective(a: seq<Hash>, b: seq<Hash>)
    requires |a| == |b| && PairData(a) == PairData(b)
    ensures a == b
  {
    if |a| == 1 {
      assert PairData(a)[0] == PairData(b)[0];
    } else if |a| > 1 {
      assert PairData(a)[0] == PairData(b)[0];
      assert PairData(a)[1..] == PairData(a[2..]) && PairData(b)[1..] == PairData(b[2..]);
      PairDataInjective(a[2..], b[2..]);
      assert a == [a[0], a[1]] + a[2..] && b == [b[0], b[1]] + b[2..];
    }
  }

  /** The root commits to the leaves at every size, odd levels included. */
  lemma {:induction false} MerkleBinding(sha256d: HashFn, a: seq<Hash>, b: seq<Hash>)
    requires a != [] && |a| == |b|
    requires MerkleRoot(sha256d, a) == MerkleRoot(sha256d, b)
    requires NoCollision(sha256d, MerklePreimages(sha256d, a), MerklePreimages(sha256d, b))
    ensures a == b
    decreases |a|
  {
    if |a| > 1 {
      var nextA, nextB := NextLevel(sha256d, a), NextLevel(sha256d, b);
      MerkleBinding(sha256d, nextA, nextB);
      forall i | 0 <= i < |nextA| ensures PairData(a)[i] == PairData(b)[i] {
        assert nextA[i] == sha256d(PairData(a)[i]) && nextB[i] == sha256d(PairData(b)[i]);
      }
      PairDataInjective(a, b);
    }
  }

  lemma {:induction false} OddPairData(level: seq<Hash>)
    requires |level| % 2 == 1
    ensures PairData(level + [level[|level| - 1]]) == PairData(level)
  {
    var longer := level + [level[|level| - 1]];
    if |level| > 1 {
      assert longer[2..] == level[2..] + [level[2..][|level[2..]| - 1]];
      OddPairData(level[2..]);
    }
  }

  /**
   * Why equal lengths are asked for: whatever the hash, repeating the last leaf of
   * an odd list leaves the root alone.
   */
  lemma OddDuplicateSameRoot(sha256d: HashFn, leaves: seq<Hash>)
    requires |leaves| % 2 == 1 && |leaves| > 1
    ensures MerkleRoot(sha256d, leaves + [leaves[|leaves| - 1]]) == MerkleRoot(sha256d, leaves)
  {
    OddPairData(leaves);
  }

  /**
   * A merkle root pins every transaction of a block down to its witnesses,
   * which no transaction id commits to.
   */
  lemma RootPinsTransactions(sha256d: HashFn, a: seq<Transaction>, b: seq<Transaction>)
    requires a != [] && |a| == |b|
    requires forall tx :: tx in a || tx in b ==> InMemory(tx)
    requires MerkleRoot(sha256d, Txids(sha256d, a)) == MerkleRoot(sha256d, Txids(sha256d, b))
    requires NoCollision(sha256d, MerklePreimages(sha256d, Txids(sha256d, a)),
                         MerklePreimages(sha256d, Txids(sha256d, b)))
    requires NoCollision(sha256d, set tx | tx in a :: LegacyBytes(tx), set tx | tx in b :: LegacyBytes(tx))
    ensures forall i | 0 <= i < |a| :: Stripped(a[i]) == Stripped(b[i])
  {
    MerkleBinding(sha256d, Txids(sha256d, a), Txids(sha256d, b));
    forall i | 0 <= i < |a| ensures Stripped(a[i]) == Stripped(b[i]) {
      assert Txids(sha256d, a)[i] == Txids(sha256d, b)[i];
      assert a[i] in a && b[i] in b;
      LegacyBytesInjective(a[i], b[i]);
    }
  }

  // -- filter elements ---------------------------------------------------------

  predicate Filterable(script: Buffer) {
    script != [] && script[0] != 0x6a
  }

  function OutputScripts(outputs: seq<TxOut>): (r: seq<Bytes>)
    ensures forall s :: s in r <==> exists o :: o in outputs && s == o.scriptPubkey && Filterable(s)
  {
    if outputs == [] then []
    else
      assert outputs == [outputs[0]] + outputs[1..];
      var rest := OutputScripts(outputs[1..]);
      if Filterable(outputs[0].scriptPubkey) then [outputs[0].scriptPubkey] + rest else rest
  }

  function NonEmpty(scripts: seq<Buffer>): (r: seq<Bytes>)
    ensures forall s :: s in r <==> s in scripts && s != []
  {
    if scripts == [] then []
    else
      assert scripts == [scripts[0]] + scripts[1..];
      (if scripts[0] == [] then [] else [scripts[0]]) + NonEmpty(scripts[1..])
  }

  /** `basic_filter_elements`; the coinbase, first in its block, spends nothing. */
  function FilterElements(txs: seq<Transaction>, prevouts: seq<Buffer>, first: bool): Option<seq<Bytes>> {
    if txs == [] then if prevouts == [] then Some([]) else None
    else
      var k := if first then 0 else |txs[0].inputs|;
      if |prevouts| < k then None
      else
        var rest :- FilterElements(txs[1..], prevouts[k..], false);
        Some(OutputScripts(txs[0].outputs) + NonEmpty(prevouts[..k]) + rest)
  }

  method BasicFilterElements(txs: seq<Transaction>, prevouts: seq<Buffer>) returns (r: Option<seq<Bytes>>)
    ensures r == FilterElements(txs, prevouts, true)
  {
    var elements: seq<Bytes> := [];
    var next := 0;
    ghost var goal := FilterElements(txs, prevouts, true);
    PrependNothing(goal);
    assert txs[0..] == txs && prevouts[0..] == prevouts;
    for i := 0 to |txs|
      invariant next <= |prevouts|
      invariant goal == Prepend(elements, FilterElements(txs[i..], prevouts[next..], i == 0))
    {
      var k := if i > 0 then |txs[i].inputs| else 0;
      ghost var left := prevouts[next..];
      var spent := SpentScripts(prevouts, next, k);
      if spent.None? {
        return None;
      }
      var added := OutputScripts(txs[i].outputs) + spent.value;
      assert txs[i..][0] == txs[i] && txs[i..][1..] == txs[i + 1..];
      PrependAppends(elements, added, FilterElements(txs[i + 1..], left[k..], false));
      elements := elements + added;
      next := next + k;
      assert left[k..] == prevouts[next..];
    }
    assert txs[|txs|..] == [];
    assert elements + [] == elements;
    r := if next < |prevouts| then None else Some(elements);
  }

  /** The inner loop: the next `k` prevout scripts, without the empty ones. */
  method SpentScripts(prevouts: seq<Buffer>, from: nat, k: nat) returns (r: Option<seq<Bytes>>)
    requires from <= |prevouts|
    ensures r == if |prevouts[from..]| < k then None else Some(NonEmpty(prevouts[from..][..k]))
  {
    var scripts: seq<Bytes> := [];
    for j := 0 to k
      invariant from + j <= |prevouts| && scripts == NonEmpty(prevouts[from..][..j])
    {
      if from + j == |prevouts| {
        return None;
      }
      var script := prevouts[from + j];
      NonEmptyAppends(prevouts[from..][..j], script);
      assert prevouts[from..][..j + 1] == prevouts[from..][..j] + [script];
      if script != [] {
        scripts := scripts + [script];
      }
    }
    r := Some(scripts);
  }

  ghost function Prepend(head: seq<Bytes>, tail: Option<seq<Bytes>>): Option<seq<Bytes>> {
    match tail
    case None => None
    case Some(t) => Some(head + t)
  }

  lemma PrependNothing(tail: Option<seq<Bytes>>)
    ensures Prepend([], tail) == tail
  {
    if tail.Some? {
      assert [] + tail.value == tail.value;
    }
  }

  lemma PrependAppends(a: seq<Bytes>, b: seq<Bytes>, tail: Option<seq<Bytes>>)
    ensures Prepend(a, Prepend(b, tail)) == Prepend(a + b, tail)
  {
    if tail.Some? {
      assert a + (b + tail.value) == a + b + tail.value;
    }
  }

  lemma {:induction false} NonEmptyAppends(scripts: seq<Buffer>, script: Buffer)
    ensures NonEmpty(scripts + [script]) == NonEmpty(scripts) + if script == [] then [] else [script]
  {
    if scripts != [] {
      assert (scripts + [script])[1..] == scripts[1..] + [script];
      NonEmptyAppends(scripts[1..], script);
    } else {
      assert scripts + [script] == [script] && [script][1..] == [];
    }
  }

  /** Every script a wallet can watch is an element: created outputs and spent ones alike. */
  lemma {:induction false} ElementsCover(txs: seq<Transaction>, prevouts: seq<Buffer>, first: bool)
    requires FilterElements(txs, prevouts, first).Some?
    ensures var elements := FilterElements(txs, prevouts, first).value;
            forall s :: s in elements <==>
              ((exists tx, o :: tx in txs && o in tx.outputs && s == o.scriptPubkey && Filterable(s))
               || (s in prevouts && s != []))
  {
    var elements := FilterElements(txs, prevouts, first).value;
    if txs != [] {
      var k := if first then 0 else |txs[0].inputs|;
      ElementsCover(txs[1..], prevouts[k..], false);
      assert prevouts == prevouts[..k] + prevouts[k..];
      assert txs == [txs[0]] + txs[1..];
    }
  }

  // -- OP_RETURN payloads -------------------------------------------------------

  /** The 64-byte payload of `6a` and one direct, PUSHDATA1 or PUSHDATA2 push. */
  function OpReturnPayload(script: Bytes): (r: Option<Bytes>)
    ensures r.Some? ==> |r.value| == 64 && script != [] && script[0] == 0x6a
  {
    if |script| < 2 || script[0] != 0x6a then None
    else
      var data :=
        if script[1] == 0x40 then script[2..]
        else if |script| >= 3 && script[1..3] == [0x4c, 0x40] then script[3..]
        else if |script| >= 4 && script[1..4] == [0x4d, 0x40, 0x00] then script[4..]
        else [];
      if |data| == 64 then Some(data) else None
  }
}
