/**
 * The scan index on disk (`persist`, `verified_body` and `decode_body` of
 * `crates/opencsv-cbf/src/scan.rs`). SHA-256 of the text is the parameter `sha`.
 */
module IndexFile {
  import opened Wrappers
  import opened Wire
  import opened Block
  import opened Consensus
  import opened Anchors
  import opened FullScan
  import opened ScanIndexes
  import opened Restarts
  import opened ScanRuns
  import opened Text

  const MAGIC := "opencsv-cbf-scan-index-v3"
  const U64_LIMIT := 0x1_0000_0000_0000_0000
  const U32_LIMIT := 0x1_0000_0000

  type TextHash = string -> Hash

  function Name(network: Network): string {
    match network
    case Mainnet => "mainnet"
    case Signet => "signet"
    case Regtest => "regtest"
  }

  function ParseName(name: string): Option<Network> {
    if name == "signet" then Some(Signet)
    else if name == "mainnet" || name == "main" then Some(Mainnet)
    else if name == "regtest" then Some(Regtest)
    else None
  }

  // -- writing ---------------------------------------------------------------------------

  function Reversed(s: Bytes): (r: Bytes)
    ensures |r| == |s|
  {
    seq(|s|, i requires 0 <= i < |s| => s[|s| - 1 - i])
  }

  /** `hash_to_display` */
  function Display(hash: Hash): string {
    ToHex(Reversed(hash))
  }

  function Flatten(envelope: seq<Payload>): (r: Bytes)
    ensures |r| == 24 * |envelope|
  {
    if envelope == [] then []
    else
      var head: Bytes := envelope[0];
      head + Flatten(envelope[1..])
  }

  function BatchWords(batch: Option<BatchCandidate>): seq<string> {
    match batch
    case None => []
    case Some(b) => [if b.version.V1? then "batch1" else "batch2", Decimal(b.index), ToHex(Flatten(b.envelope))]
  }

  function OccurrenceWords(e: ScannedAnchor): seq<string> {
    ["occurrence", Decimal(e.location.height), Decimal(e.location.position), Display(e.txid), ToHex(e.ctx),
     ToHex(ToBytes(e.record))] + BatchWords(e.batch)
  }

  function BlockWords(height: nat, hash: Hash): seq<string> {
    ["block", Decimal(height), Display(hash)]
  }

  function HeadLines(network: Network, s: IndexState): seq<seq<string>> {
    [["network", Name(network)], ["from", Decimal(s.fromHeight)], ["tip", Decimal(s.syncedTip)]]
  }

  function BlockLines(hashes: seq<Hash>, from: nat): (r: seq<seq<string>>)
    ensures |r| == |hashes|
  {
    seq(|hashes|, i requires 0 <= i < |hashes| => BlockWords(from + i, hashes[i]))
  }

  function OccurrenceLines(entries: seq<ScannedAnchor>): (r: seq<seq<string>>)
    ensures |r| == |entries|
  {
    seq(|entries|, i requires 0 <= i < |entries| => OccurrenceWords(entries[i]))
  }

  /** The words of every line after the first. */
  function AllLines(network: Network, s: IndexState): seq<seq<string>> {
    HeadLines(network, s) + BlockLines(s.chainHashes, s.fromHeight) + OccurrenceLines(s.occurrences)
  }

  function Rendered(lines: seq<seq<string>>): (r: seq<string>)
    ensures |r| == |lines|
  {
    seq(|lines|, i requires 0 <= i < |lines| => Unwords(lines[i]))
  }

  function Body(network: Network, s: IndexState): string {
    MAGIC + "\n" + Unlines(Rendered(AllLines(network, s)))
  }

  function FileText(sha: TextHash, body: string): string {
    body + "checksum " + ToHex(sha(body)) + "\n"
  }

  method Persist(sha: TextHash, network: Network, s: IndexState) returns (text: string)
    ensures text == FileText(sha, Body(network, s))
  {
    hide Decimal, Unwords, Name, OccurrenceWords, BlockWords;
    var body := MAGIC + "\n" + Unlines(Rendered(HeadLines(network, s)));
    var blocks := BlockLines(s.chainHashes, s.fromHeight);
    assert HeadLines(network, s) + blocks[..0] == HeadLines(network, s);
    for i := 0 to |s.chainHashes|
      invariant body == MAGIC + "\n" + Unlines(Rendered(HeadLines(network, s) + blocks[..i]))
    {
      AddLine(HeadLines(network, s) + blocks[..i], blocks[i]);
      assert HeadLines(network, s) + blocks[..i] + [blocks[i]] == HeadLines(network, s) + blocks[..i + 1];
      body := body + Unwords(BlockWords(s.fromHeight + i, s.chainHashes[i])) + "\n";
    }
    var head := HeadLines(network, s) + blocks;
    assert blocks[..|blocks|] == blocks;
    var entries := OccurrenceLines(s.occurrences);
    assert head + entries[..0] == head;
    for i := 0 to |s.occurrences|
      invariant body == MAGIC + "\n" + Unlines(Rendered(head + entries[..i]))
    {
      AddLine(head + entries[..i], entries[i]);
      assert head + entries[..i] + [entries[i]] == head + entries[..i + 1];
      body := body + Unwords(OccurrenceWords(s.occurrences[i])) + "\n";
    }
    assert entries[..|entries|] == entries;
    text := FileText(sha, body);
  }

  lemma AddLine(lines: seq<seq<string>>, words: seq<string>)
    ensures Unlines(Rendered(lines + [words])) == Unlines(Rendered(lines)) + Unwords(words) + "\n"
  {
    hide Unwords;
    assert Rendered(lines + [words]) == Rendered(lines) + [Unwords(words)];
    UnlinesConcat(Rendered(lines), [Unwords(words)]);
    assert [Unwords(words)][1..] == [];
  }

  // -- checking the sum --------------------------------------------------------------------

  function LastNewline(s: string): (r: Option<nat>)
    ensures r.Some? ==> r.value < |s| && s[r.value] == '\n' && forall i | r.value < i < |s| :: s[i] != '\n'
    ensures r.None? ==> forall i | 0 <= i < |s| :: s[i] != '\n'
  {
    if s == [] then None
    else if s[|s| - 1] == '\n' then Some(|s| - 1)
    else LastNewline(s[..|s| - 1])
  }

  /** `verified_body` */
  function VerifiedBody(sha: TextHash, text: string): Option<string> {
    if text == [] || text[|text| - 1] != '\n' then None
    else
      var inner := text[..|text| - 1];
      var k :- LastNewline(inner);
      var last := inner[k + 1..];
      if !("checksum " <= last) then None
      else
        var expected :- FromHex(last[9..]);
        if expected == sha(inner[..k + 1]) then Some(inner[..k + 1]) else None
  }

  /** The check accepts exactly the body followed by a line spelling its hash. */
  lemma VerifiedBodyIff(sha: TextHash, text: string, body: string)
    requires body != [] && body[|body| - 1] == '\n'
    ensures VerifiedBody(sha, text) == Some(body) <==>
              exists c :: text == body + "checksum " + c + "\n" && '\n' !in c && FromHex(c) == Some(sha(body))
  {
    hide FromHex, VerifiedBody;
    if VerifiedBody(sha, text) == Some(body) {
      var c := SumLine(sha, text);
    }
    if c :| text == body + "checksum " + c + "\n" && '\n' !in c && FromHex(c) == Some(sha(body)) {
      SumAccepted(sha, body, c);
    }
  }

  /** The hex on the last line of an accepted text. */
  lemma SumLine(sha: TextHash, text: string) returns (c: string)
    requires VerifiedBody(sha, text).Some?
    ensures var body := VerifiedBody(sha, text).value;
            text == body + "checksum " + c + "\n" && '\n' !in c && FromHex(c) == Some(sha(body))
  {
    hide FromHex;
    var inner := text[..|text| - 1];
    var k := LastNewline(inner).value;
    var body, last := inner[..k + 1], inner[k + 1..];
    c := last[9..];
    assert last == "checksum " + c;
    assert text == inner + "\n" && inner == body + last;
    assert body + last + "\n" == body + "checksum " + c + "\n";
  }

  lemma SumAccepted(sha: TextHash, body: string, c: string)
    requires body != [] && body[|body| - 1] == '\n' && '\n' !in c && FromHex(c) == Some(sha(body))
    ensures VerifiedBody(sha, body + "checksum " + c + "\n") == Some(body)
  {
    hide FromHex;
    hide LastNewline;
    var last := "checksum " + c;
    var inner := body + last;
    SumPieces(body, "checksum ", c);
    assert '\n' !in "checksum ";
    assert '\n' !in last;
    LastNewlineIs(inner, |body| - 1);
  }

  lemma SumPieces(body: string, tag: string, c: string)
    ensures var text, last := body + tag + c + "\n", tag + c;
            && text[..|text| - 1] == body + last
            && (body + last)[..|body|] == body && (body + last)[|body|..] == last && last[|tag|..] == c && tag <= last
  {
    var text, last := body + tag + c + "\n", tag + c;
    assert text == body + last + "\n";
  }

  lemma {:induction false} LastNewlineIs(s: string, k: nat)
    requires k < |s| && s[k] == '\n' && forall i | k < i < |s| :: s[i] != '\n'
    ensures LastNewline(s) == Some(k)
  {
    if s[|s| - 1] != '\n' {
      LastNewlineIs(s[..|s| - 1], k);
    }
  }

  // -- reading ---------------------------------------------------------------------------------

  datatype Loaded = Loaded(
    sawNetwork: bool, from: Option<nat>, tip: Option<nat>, blocks: seq<(nat, Hash)>, occurrences: seq<ScannedAnchor>)

  const NOTHING: Loaded := Loaded(false, None, None, [], [])

  function ParseHash(s: string): Option<Hash> {
    var b :- FromHex(s);
    if |b| != 32 then None else Some(b)
  }

  function ParseDisplay(s: string): Option<Hash> {
    var h :- ParseHash(s);
    Some(Reversed(h))
  }

  function Chunks(b: Bytes): (r: seq<Payload>)
    requires |b| % 24 == 0
    decreases |b|
  {
    if b == [] then [] else [b[..24]] + Chunks(b[24..])
  }

  function ParseBatch(rest: seq<string>): Option<Option<BatchCandidate>> {
    if rest == [] then Some(None)
    else if |rest| != 3 || rest[0] !in ["batch", "batch1", "batch2"] then None
    else
      var envelope :- FromHex(rest[2]);
      if |envelope| % 24 != 0 then None
      else
        var index :- ParseNumber(rest[1], U32_LIMIT);
        Some(Some(BatchCandidate(if rest[0] == "batch2" then V2 else V1, index, Chunks(envelope))))
  }

  function ParseOccurrence(words: seq<string>): Option<ScannedAnchor>
    requires |words| >= 6
  {
    var txid :- ParseDisplay(words[3]);
    var batch :- ParseBatch(words[6..]);
    var height :- ParseNumber(words[1], U64_LIMIT);
    var position :- ParseNumber(words[2], U32_LIMIT);
    var record :- FromHex(words[5]);
    if |record| != 64 then None
    else
      var ctx :- ParseHash(words[4]);
      Some(ScannedAnchor(AnchorLocation(height, position), txid, FromBytes(record), ctx, batch))
  }

  /** One line after the first. */
  function ReadLine(p: Loaded, words: seq<string>, network: Network): Option<Loaded> {
    if |words| == 2 && words[0] == "network" then
      if p.sawNetwork || ParseName(words[1]) != Some(network) then None else Some(p.(sawNetwork := true))
    else if |words| == 2 && words[0] == "from" && p.from.None? then
      Some(p.(from := ParseNumber(words[1], U64_LIMIT)))
    else if |words| == 2 && words[0] == "tip" && p.tip.None? then
      Some(p.(tip := ParseNumber(words[1], U64_LIMIT)))
    else if |words| == 3 && words[0] == "block" then
      var height :- ParseNumber(words[1], U64_LIMIT);
      var hash :- ParseDisplay(words[2]);
      Some(p.(blocks := p.blocks + [(height, hash)]))
    else if |words| >= 6 && words[0] == "occurrence" then
      var e :- ParseOccurrence(words);
      Some(p.(occurrences := p.occurrences + [e]))
    else None
  }

  function ReadLines(p: Loaded, lines: seq<string>, network: Network): Option<Loaded>
    decreases |lines|
  {
    if lines == [] then Some(p)
    else
      var next :- ReadLine(p, Words(lines[0]), network);
      ReadLines(next, lines[1..], network)
  }

  function HashesOf(blocks: seq<(nat, Hash)>): (r: seq<Hash>)
    ensures |r| == |blocks|
  {
    seq(|blocks|, i requires 0 <= i < |blocks| => blocks[i].1)
  }

  /** The checks after the last line. */
  predicate Consistent(p: Loaded) {
    && p.sawNetwork && p.from.Some? && p.tip.Some?
    && var from, tip := p.from.value, p.tip.value;
       var before := if from == 0 then 0 else from - 1;
       && tip >= before
       && !(tip > 0 && from == 0)
       && (forall e | e in p.occurrences :: from <= e.location.height <= tip)
       && (forall i | 0 <= i < |p.occurrences| - 1 :: p.occurrences[i].location.AtMost(p.occurrences[i + 1].location))
       && |p.blocks| == tip - before
       && (forall i | 0 <= i < |p.blocks| :: from + i == p.blocks[i].0)
  }

  function Finish(p: Loaded): Option<IndexState> {
    if Consistent(p) then Some(IndexState(p.from.value, p.tip.value, HashesOf(p.blocks), p.occurrences)) else None
  }

  /** `decode_body` */
  function DecodeBody(body: string, network: Network): Option<IndexState> {
    var lines := Lines(body);
    if lines == [] || Trim(lines[0]) != MAGIC then None
    else
      var p :- ReadLines(NOTHING, lines[1..], network);
      Finish(p)
  }

  /** The reading loop. */
  method Decode(body: string, network: Network) returns (r: Option<IndexState>)
    ensures r == DecodeBody(body, network)
  {
    hide ReadLine, Finish, Words, Lines;
    var lines := Lines(body);
    if lines == [] || Trim(lines[0]) != MAGIC {
      return None;
    }
    var p := NOTHING;
    for i := 1 to |lines|
      invariant ReadLines(NOTHING, lines[1..], network) == ReadLines(p, lines[i..], network)
    {
      assert lines[i..][0] == lines[i] && lines[i..][1..] == lines[i + 1..];
      p :- ReadLine(p, Words(lines[i]), network);
    }
    assert lines[|lines|..] == [];
    r := Finish(p);
  }

  /** `load`: the file's text to the cache; `None` asks for a rebuild. */
  function LoadText(sha: TextHash, text: string, network: Network): Option<IndexState> {
    var body :- VerifiedBody(sha, text);
    DecodeBody(body, network)
  }

  // -- the round trip ------------------------------------------------------------------------------

  /** The cache fits the machine integers the file is read into. */
  ghost predicate Sized(s: IndexState) {
    && s.syncedTip < U64_LIMIT - 1
    && forall e | e in s.occurrences ::
         && e.location.position < U32_LIMIT
         && (e.batch.Some? ==> e.batch.value.index < U32_LIMIT)
  }

  /** What saving relies on; every reachable cache has it. */
  ghost predicate Writable(s: IndexState) {
    && 1 <= s.fromHeight <= s.syncedTip + 1
    && |s.chainHashes| == s.syncedTip + 1 - s.fromHeight
    && InOrder(s.occurrences)
    && forall e | e in s.occurrences ::
         && s.fromHeight <= e.location.height <= s.syncedTip
         && (e.batch.Some? ==> e.batch.value.envelope != [])
  }

  /** Whatever restarts it went through, a cache that is a scan of some chain can be saved. */
  lemma ReflectsIsWritable(crypto: Crypto, sip: Gcs.SipHash, world: World, s: IndexState, hashes: seq<Hash>,
                           restarted: bool)
    requires ReflectsAged(crypto, sip, world, s, hashes, restarted)
    ensures Writable(s)
  {
    hide Indexed, Scanned, InOrder, Reread;
    var t := Original(crypto, sip, world, s, hashes);
    if s.syncedTip >= s.fromHeight {
      IndexedShape(crypto, sip, world, hashes, s.fromHeight, s.syncedTip + 1);
    }
    NothingInOrder();
    AgedShape(s, t, restarted);
    forall e | e in s.occurrences
      ensures s.fromHeight <= e.location.height <= s.syncedTip && (e.batch.Some? ==> e.batch.value.envelope != []) {
      var i :| 0 <= i < |s.occurrences| && s.occurrences[i] == e;
      assert t.occurrences[i] in t.occurrences;
      ScannedBatch(t.occurrences[i], t.occurrences[i].location.height);
    }
  }

  lemma ScannedBatch(e: ScannedAnchor, height: nat)
    requires Scanned(e, height)
    ensures e.batch.Some? ==> e.batch.value.envelope != []
  {
  }

  lemma AgedShape(s: IndexState, t: IndexState, restarted: bool)
    requires AgedState(s, t, restarted) && InOrder(t.occurrences)
    ensures InOrder(s.occurrences) && |s.occurrences| == |t.occurrences|
    ensures forall i | 0 <= i < |s.occurrences| ::
              s.occurrences[i].location == t.occurrences[i].location && s.occurrences[i].batch == t.occurrences[i].batch
  {
    hide FromBytes, ToBytes;
  }

  lemma ReverseTwice(s: Bytes)
    ensures Reversed(Reversed(s)) == s
  {
  }

  lemma DisplayRoundTrip(hash: Hash)
    ensures ParseDisplay(Display(hash)) == Some(hash) && IsWord(Display(hash))
  {
    HexRoundTrip(Reversed(hash));
    HexIsWord(Reversed(hash));
    ReverseTwice(hash);
  }

  lemma {:induction false} ChunksRoundTrip(envelope: seq<Payload>)
    ensures Chunks(Flatten(envelope)) == envelope
  {
    if envelope != [] {
      var head: Bytes := envelope[0];
      assert Flatten(envelope)[..24] == head && Flatten(envelope)[24..] == Flatten(envelope[1..]);
      ChunksRoundTrip(envelope[1..]);
      assert envelope == [envelope[0]] + envelope[1..];
    }
  }

  lemma BatchRoundTrip(batch: Option<BatchCandidate>)
    requires batch.Some? ==> batch.value.index < U32_LIMIT && batch.value.envelope != []
    ensures ParseBatch(BatchWords(batch)) == Some(batch)
    ensures forall w | w in BatchWords(batch) :: IsWord(w)
  {
    hide FromHex, ToHex, Chunks, Flatten, Decimal, ParseNumber;
    if batch.Some? {
      var b := batch.value;
      DecimalRoundTrip(b.index, U32_LIMIT);
      HexRoundTrip(Flatten(b.envelope));
      HexIsWord(Flatten(b.envelope));
      ChunksRoundTrip(b.envelope);
      assert IsWord("batch1") && IsWord("batch2");
    }
  }

  lemma OccurrenceRoundTrip(e: ScannedAnchor)
    requires e.location.height < U64_LIMIT && e.location.position < U32_LIMIT
    requires e.batch.Some? ==> e.batch.value.index < U32_LIMIT && e.batch.value.envelope != []
    ensures ParseOccurrence(OccurrenceWords(e)) == Some(Reread(e))
    ensures forall w | w in OccurrenceWords(e) :: IsWord(w)
  {
    hide FromHex, ToHex, Decimal, ParseNumber, FromBytes, ToBytes, ParseBatch, BatchWords, Display, ParseDisplay;
    DecimalRoundTrip(e.location.height, U64_LIMIT);
    DecimalRoundTrip(e.location.position, U32_LIMIT);
    DisplayRoundTrip(e.txid);
    HexRoundTrip(e.ctx);
    HexIsWord(e.ctx);
    HexRoundTrip(ToBytes(e.record));
    HexIsWord(ToBytes(e.record));
    BatchRoundTrip(e.batch);
    assert OccurrenceWords(e)[6..] == BatchWords(e.batch);
    assert IsWord("occurrence");
  }

  lemma BlockRoundTrip(p: Loaded, height: nat, hash: Hash, network: Network)
    requires height < U64_LIMIT
    ensures ReadLine(p, BlockWords(height, hash), network) == Some(p.(blocks := p.blocks + [(height, hash)]))
    ensures forall w | w in BlockWords(height, hash) :: IsWord(w)
  {
    hide Decimal, ParseNumber, Display, ParseDisplay, ParseOccurrence;
    DecimalRoundTrip(height, U64_LIMIT);
    DisplayRoundTrip(hash);
    assert IsWord("block");
  }

  lemma OccurrenceLineRoundTrip(p: Loaded, e: ScannedAnchor, network: Network)
    requires e.location.height < U64_LIMIT && e.location.position < U32_LIMIT
    requires e.batch.Some? ==> e.batch.value.index < U32_LIMIT && e.batch.value.envelope != []
    ensures ReadLine(p, OccurrenceWords(e), network) == Some(p.(occurrences := p.occurrences + [Reread(e)]))
  {
    hide ParseOccurrence, Reread, BatchWords, Decimal, Display, ToHex;
    OccurrenceRoundTrip(e);
  }

  /** Reading lines that were written word by word. */
  function ReadWords(p: Loaded, lines: seq<seq<string>>, network: Network): Option<Loaded>
    decreases |lines|
  {
    if lines == [] then Some(p)
    else
      var next :- ReadLine(p, lines[0], network);
      ReadWords(next, lines[1..], network)
  }

  ghost predicate AllWords(lines: seq<seq<string>>) {
    forall l, w :: l in lines && w in l ==> IsWord(w)
  }

  lemma {:induction false} ReadsRendered(p: Loaded, lines: seq<seq<string>>, network: Network)
    requires AllWords(lines)
    ensures ReadLines(p, Rendered(lines), network) == ReadWords(p, lines, network)
    decreases |lines|
  {
    hide ReadLine, Words, Unwords;
    if lines != [] {
      assert lines[0] in lines;
      WordsRoundTrip(lines[0]);
      assert Rendered(lines)[1..] == Rendered(lines[1..]);
      var next := ReadLine(p, lines[0], network);
      if next.Some? {
        ReadsRendered(next.value, lines[1..], network);
      }
    }
  }

  lemma {:induction false} ReadsConcat(p: Loaded, a: seq<seq<string>>, b: seq<seq<string>>, network: Network)
    requires ReadWords(p, a, network).Some?
    ensures ReadWords(p, a + b, network) == ReadWords(ReadWords(p, a, network).value, b, network)
    decreases |a|
  {
    hide ReadLine;
    if a == [] {
      assert a + b == b;
    } else {
      assert (a + b)[1..] == a[1..] + b;
      ReadsConcat(ReadLine(p, a[0], network).value, a[1..], b, network);
    }
  }

  function Numbered(hashes: seq<Hash>, from: nat): (r: seq<(nat, Hash)>)
    ensures |r| == |hashes|
  {
    seq(|hashes|, i requires 0 <= i < |hashes| => (from + i, hashes[i]))
  }

  lemma {:induction false} ReadsBlocks(p: Loaded, hashes: seq<Hash>, from: nat, network: Network)
    requires from + |hashes| <= U64_LIMIT
    ensures ReadWords(p, BlockLines(hashes, from), network) == Some(p.(blocks := p.blocks + Numbered(hashes, from)))
    ensures AllWords(BlockLines(hashes, from))
    decreases |hashes|
  {
    hide ReadLine, BlockWords;
    if hashes == [] {
      assert p.blocks + [] == p.blocks;
    } else {
      BlockRoundTrip(p, from, hashes[0], network);
      var next := p.(blocks := p.blocks + [(from, hashes[0])]);
      ReadsBlocks(next, hashes[1..], from + 1, network);
      var lines := BlockLines(hashes, from);
      assert lines[1..] == BlockLines(hashes[1..], from + 1);
      assert lines == [BlockWords(from, hashes[0])] + lines[1..];
      assert Numbered(hashes, from) == [(from, hashes[0])] + Numbered(hashes[1..], from + 1);
      assert next.blocks + Numbered(hashes[1..], from + 1) == p.blocks + Numbered(hashes, from);
    }
  }

  ghost predicate Fits(e: ScannedAnchor) {
    && e.location.height < U64_LIMIT && e.location.position < U32_LIMIT
    && (e.batch.Some? ==> e.batch.value.index < U32_LIMIT && e.batch.value.envelope != [])
  }

  lemma {:induction false} ReadsOccurrences(p: Loaded, entries: seq<ScannedAnchor>, network: Network)
    requires forall e | e in entries :: Fits(e)
    ensures ReadWords(p, OccurrenceLines(entries), network)
         == Some(p.(occurrences := p.occurrences + RereadAll(entries)))
    ensures AllWords(OccurrenceLines(entries))
    decreases |entries|
  {
    hide ReadLine, OccurrenceWords, RereadAll, ReadWords, AllWords, Reread, IsWord;
    NoneReread();
    NoLines(p, network);
    if entries == [] {
      assert p.occurrences + [] == p.occurrences;
    } else {
      assert entries[0] in entries;
      OccurrenceLineRoundTrip(p, entries[0], network);
      OccurrenceRoundTrip(entries[0]);
      var next := p.(occurrences := p.occurrences + [Reread(entries[0])]);
      ReadsOccurrences(next, entries[1..], network);
      assert OccurrenceLines(entries) == [OccurrenceWords(entries[0])] + OccurrenceLines(entries[1..]);
      ReadStep(p, OccurrenceWords(entries[0]), OccurrenceLines(entries[1..]), network, next);
      OneReread(entries);
      assert next.occurrences + RereadAll(entries[1..]) == p.occurrences + RereadAll(entries);
    }
  }

  lemma NoLines(p: Loaded, network: Network)
    ensures ReadWords(p, [], network) == Some(p) && AllWords([])
  {
  }

  lemma ReadStep(p: Loaded, line: seq<string>, rest: seq<seq<string>>, network: Network, next: Loaded)
    requires ReadLine(p, line, network) == Some(next)
    ensures ReadWords(p, [line] + rest, network) == ReadWords(next, rest, network)
    ensures (forall w | w in line :: IsWord(w)) && AllWords(rest) ==> AllWords([line] + rest)
  {
    hide ReadLine, IsWord;
    assert ([line] + rest)[1..] == rest;
  }

  lemma NoneReread()
    ensures RereadAll([]) == []
  {
  }

  lemma OneReread(entries: seq<ScannedAnchor>)
    requires entries != []
    ensures RereadAll(entries) == [Reread(entries[0])] + RereadAll(entries[1..])
  {
    hide Reread;
  }

  lemma ReadsHead(s: IndexState, written: Network, network: Network)
    requires s.fromHeight < U64_LIMIT && s.syncedTip < U64_LIMIT
    ensures ReadWords(NOTHING, HeadLines(written, s), network)
         == if written == network then Some(Loaded(true, Some(s.fromHeight), Some(s.syncedTip), [], [])) else None
    ensures AllWords(HeadLines(written, s))
  {
    hide Decimal, ParseNumber, ParseDisplay, ParseOccurrence;
    DecimalRoundTrip(s.fromHeight, U64_LIMIT);
    DecimalRoundTrip(s.syncedTip, U64_LIMIT);
    assert IsWord("network") && IsWord("from") && IsWord("tip");
    assert IsWord("mainnet") && IsWord("signet") && IsWord("regtest");
    var lines := HeadLines(written, s);
    var p1 := ReadLine(NOTHING, lines[0], network);
    assert p1 == if written == network then Some(NOTHING.(sawNetwork := true)) else None;
    if written == network {
      var p2 := p1.value.(from := Some(s.fromHeight));
      var p3 := p2.(tip := Some(s.syncedTip));
      assert ReadLine(p1.value, lines[1], network) == Some(p2);
      assert ReadLine(p2, lines[2], network) == Some(p3);
      assert lines[1..][0] == lines[1] && lines[1..][1..][0] == lines[2] && lines[1..][1..][1..] == [];
      assert ReadWords(p2, lines[1..][1..], network) == ReadWords(p3, [], network);
    }
  }

  lemma ReadsEverything(s: IndexState, written: Network, network: Network)
    requires Writable(s) && Sized(s)
    ensures ReadWords(NOTHING, AllLines(written, s), network)
         == if written == network then
              Some(Loaded(true, Some(s.fromHeight), Some(s.syncedTip), Numbered(s.chainHashes, s.fromHeight),
                          RereadAll(s.occurrences)))
            else None
    ensures AllWords(AllLines(written, s))
  {
    hide HeadLines, BlockLines, OccurrenceLines, InOrder, ReadWords, AllWords, RereadAll, Numbered;
    var head, blocks, entries := HeadLines(written, s), BlockLines(s.chainHashes, s.fromHeight), OccurrenceLines(s.occurrences);
    ReadsHead(s, written, network);
    forall e | e in s.occurrences ensures Fits(e) {
    }
    assert AllLines(written, s) == head + (blocks + entries);
    var p1 := Loaded(true, Some(s.fromHeight), Some(s.syncedTip), [], []);
    ReadsBlocks(p1, s.chainHashes, s.fromHeight, network);
    var p2 := p1.(blocks := [] + Numbered(s.chainHashes, s.fromHeight));
    ReadsOccurrences(p2, s.occurrences, network);
    AllWordsConcat(blocks, entries);
    AllWordsConcat(head, blocks + entries);
    if written == network {
      ReadsConcat(p1, blocks, entries, network);
      ReadsConcat(NOTHING, head, blocks + entries, network);
      assert [] + Numbered(s.chainHashes, s.fromHeight) == Numbered(s.chainHashes, s.fromHeight);
      assert [] + RereadAll(s.occurrences) == RereadAll(s.occurrences);
    } else {
      FailsEarly(NOTHING, head, blocks + entries, network);
    }
  }

  lemma AllWordsConcat(a: seq<seq<string>>, b: seq<seq<string>>)
    requires AllWords(a) && AllWords(b)
    ensures AllWords(a + b)
  {
    hide IsWord;
  }

  lemma {:induction false} FailsEarly(p: Loaded, a: seq<seq<string>>, b: seq<seq<string>>, network: Network)
    requires ReadWords(p, a, network).None?
    ensures ReadWords(p, a + b, network).None?
    decreases |a|
  {
    hide ReadLine;
    if a != [] {
      assert (a + b)[1..] == a[1..] + b;
      var next := ReadLine(p, a[0], network);
      if next.Some? {
        FailsEarly(next.value, a[1..], b, network);
      }
    }
  }

  /** The final checks pass on everything that was saved. */
  lemma SavedIsConsistent(s: IndexState, p: Loaded)
    requires Writable(s)
    requires p == Loaded(true, Some(s.fromHeight), Some(s.syncedTip), Numbered(s.chainHashes, s.fromHeight),
                         RereadAll(s.occurrences))
    ensures Consistent(p)
    ensures HashesOf(p.blocks) == s.chainHashes
  {
    hide Reread;
    forall e | e in p.occurrences ensures s.fromHeight <= e.location.height <= s.syncedTip {
      var i :| 0 <= i < |p.occurrences| && p.occurrences[i] == e;
      SameLocation(s.occurrences[i]);
      assert s.occurrences[i] in s.occurrences;
    }
    forall i | 0 <= i < |p.occurrences| - 1 ensures p.occurrences[i].location.AtMost(p.occurrences[i + 1].location) {
      SameLocation(s.occurrences[i]);
      SameLocation(s.occurrences[i + 1]);
    }
  }

  lemma SameLocation(e: ScannedAnchor)
    ensures Reread(e).location == e.location
  {
  }

  /**
   * Loading what was saved gives the cache with every record re-read; on another
   * network it asks for a rebuild.
   */
  lemma SaveThenLoad(sha: TextHash, s: IndexState, written: Network, network: Network)
    requires Writable(s) && Sized(s)
    ensures LoadText(sha, FileText(sha, Body(written, s)), network)
         == if written == network then Some(Reload(s)) else None
  {
    hide AllLines, Numbered, Consistent, ReadWords, ReadLines, Unlines, Unwords, Lines, VerifiedBody, FromHex, ToHex;
    var body := Body(written, s);
    BodyEnds(written, s);
    HexRoundTrip(sha(body));
    NoNewlineInHex(sha(body));
    SumAccepted(sha, body, ToHex(sha(body)));
    BodyLines(written, s);
    ReadsEverything(s, written, network);
    ReadsRendered(NOTHING, AllLines(written, s), network);
    if written == network {
      SavedIsConsistent(s, ReadWords(NOTHING, AllLines(written, s), network).value);
    }
  }

  lemma NoNewlineInHex(h: Hash)
    ensures '\n' !in ToHex(h)
  {
    HexIsWord(h);
  }

  lemma {:induction false} UnlinesEnds(ls: seq<string>)
    ensures Unlines(ls) == [] || Unlines(ls)[|Unlines(ls)| - 1] == '\n'
  {
    if ls != [] {
      UnlinesEnds(ls[1..]);
    }
  }

  lemma BodyEnds(network: Network, s: IndexState)
    ensures Body(network, s) != [] && Body(network, s)[|Body(network, s)| - 1] == '\n'
  {
    UnlinesEnds(Rendered(AllLines(network, s)));
  }

  lemma MagicLine()
    ensures IsLine(MAGIC) && Trim(MAGIC) == MAGIC
  {
    hide Trim;
    NothingToTrim(MAGIC);
  }

  lemma BodyLines(network: Network, s: IndexState)
    requires Writable(s) && Sized(s)
    ensures var lines := Lines(Body(network, s));
            && lines == [MAGIC] + Rendered(AllLines(network, s))
            && Trim(MAGIC) == MAGIC
  {
    hide AllLines, Unwords, IsWord, IsLine, Trim, Lines;
    ReadsEverything(s, network, network);
    var rendered := Rendered(AllLines(network, s));
    forall l | l in rendered ensures IsLine(l) {
      var i :| 0 <= i < |rendered| && rendered[i] == l;
      assert AllLines(network, s)[i] in AllLines(network, s);
      WordsMakeALine(AllLines(network, s)[i]);
    }
    MagicLine();
    LinesRoundTrip([MAGIC] + rendered);
    assert ([MAGIC] + rendered)[1..] == rendered;
  }

  /**
   * A restart gives back the cache exactly when all its records re-read as
   * themselves; this is where `ScanRuns.Step` takes its restart from.
   */
  lemma RestartKeepsCacheIff(sha: TextHash, s: IndexState, network: Network)
    requires Writable(s) && Sized(s)
    ensures LoadText(sha, FileText(sha, Body(network, s)), network) == Some(s) <==> AllStable(s.occurrences)
  {
    hide LoadText, FileText, Body, AllStable, Reload;
    SaveThenLoad(sha, s, network, network);
    ReloadIsIdentityIff(s);
  }
}
