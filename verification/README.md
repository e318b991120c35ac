# OpenCSV light client, batching and wallet: a verified model

This project models the parts of the OpenCSV stack in which answers depend on
several components agreeing, and proves what those components promise together:

- **Compact-filter light client** (`crates/opencsv-cbf`). The Golomb-coded filter
  codec at bit level, 256-bit proof-of-work arithmetic over four limbs, the header
  chain that follows any peer through any reorganisation, the filter-header chain with
  its tail-only re-attestation, the persistent scan index with its text file, the
  brute-force scan it replaces, and outpoint verification.
- **Co-funded batching** (`crates/opencsv-bitcoin`). The canonical messages, the
  manifest built from an unordered set of commitments, the fee split, fee
  replacements, share assembly, the weight bound, and the solo replacement rule.
- **In-memory wallet** (`ffi/src/wallet.rs`). Deterministic coin selection and the coin
  and pending-transaction state machine.
- **Snapshot export** (`ffi/src/scan.rs`, `ffi/src/snapshot.rs`).

## How to read it

One module per component. What the program computes by expressions is a function;
what it does step by step is a method or a class, proved equal to a function of its
inputs and old state; the theorems are lemmas about those functions.

| files | content |
|---|---|
| `Wrappers`, `Wire`, `Sorting`, `Lists`, `Text` | byte cursor, CompactSize, sorting, filtering, hex, decimal, words and lines |
| `Bits`, `Gcs` | bits, Golomb-Rice codes, filters |
| `Block` | transactions, merkle roots, filter elements |
| `U256`, `Pow`, `Compact`, `Consensus`, `HeaderChain` | 256-bit arithmetic, compact targets, difficulty rules, the header chain |
| `FilterHeaders` | the filter-header chain |
| `Anchor`, `FullScan`, `ScanIndex`, `ScanAnswers`, `Restarts`, `ScanRuns`, `IndexFile` | anchor records, both scanners, the index and its answers, what a restart does to it, every run, its file |
| `Outpoint` | outpoint verification |
| `BatchWire`, `Manifest`, `ManifestWire`, `BatchRuns`, `Finalize`, `Replacement`, `BatchScan` | the batching protocol, and what the scanners see of it |
| `CoinSelection`, `Wallet`, `WalletRuns`, `WalletBalance` | the wallet |
| `Snapshot` | export and load |

Conventions:

- Hashes, signatures, the recursive prover and the consignment verifier are function-valued
  parameters. Nothing is assumed about them except where a lemma says so. A
  "collision-free" hypothesis always ranges over the preimages that occur in the two
  objects compared, never over all strings.
- A peer is an arbitrary function or an arbitrary list of replies. `Faithful` and
  `HonestFilter` are hypotheses of the lemmas that need them.
- `Option` stands for the source's `Result`: which error is reported is not modelled.
- `Bytes` are sequences of numbers below 256; integers carry the source's widths in
  their types, and wrap-around is written out where the source can reach it.

## Findings

Places where the code does less than a first reading of its documentation suggests. Each
has the exact condition under which it does hold.

- **Records that do not survive a save.** `AnchorRecord::from_bytes` followed by
  `to_bytes` loses the bytes that kept a payload from being read as a tagged record.
  `Anchors.ParsedStableIff` gives the exact set of payloads concerned,
  `Anchors.UnstableExample` one of them. A transfer scanned from such a payload binds its
  nullifier until the index is saved and loaded, and nothing afterwards
  (`Restarts.RestartForgetsOccurrence`). A restart keeps the cache exactly when every
  record re-reads as itself (`IndexFile.RestartKeepsCacheIff`). A nullifier binds a record
  only before or only after a re-read exactly when the record is a transfer whose bytes
  look tagged, and either one of its payloads is the bound one or, tagged as a
  redemption, the payload its shifted fields leave is, but not both
  (`Restarts.BindsOnceIff`). The occurrences of a nullifier survive a restart exactly when
  no record is of that kind (`Snapshots.RestartKeepsAnswersIff`), and the same condition
  decides whether an exported snapshot answers as the index does
  (`Snapshots.ExportPreservesAnswers`). Whatever the records, runs keep lineage and tip
  exactly and records up to that re-reading (`ScanRuns.EverySyncIsScanFromScratch`).
- **Transactions that do not parse back.** `Transaction::parse` takes the count byte of a
  legacy transaction as the whole input count. It undoes `serialize_legacy` exactly for
  1 to 252 inputs, at most a million outputs and no witnesses
  (`Block.ParseInvertsLegacyExactly`; `Block.NoInputsExample`).
- **Witnesses are not committed.** `get_block` falls back to witness-free blocks, and the
  merkle root does not change when witnesses are withheld: solo records are pinned by the
  header (`ScanAnswers.HeaderPinsSoloCandidates`), batch members are not
  (`ScanAnswers.WithheldWitnessesPass`). All blocks that pass for one header show the same
  candidates exactly when none of its transactions carries a batch header
  (`ScanAnswers.CandidatesPinnedIff`, `ScanAnswers.HeaderPinsCandidates`).
- **No most-work rule.** A header sync follows any fork off a block it knows. It lowers the
  work of our chain exactly when the served headers bring less than they drop
  (`HeaderChains.SyncChanges`, for one header `HeaderChains.AbsorbLowersIff`); an honest
  peer does so exactly when its chain has less work and it answers at all
  (`HeaderChains.HonestPeerLowersIff`).
- **Work fits its accumulator only for targets of at least 2^128**; the `u128` sum wraps
  below (`Pow.WorkExactIff`).
- **One misfitting batch envelope makes the whole snapshot unloadable**; it loads exactly
  when every envelope fits its header (`Snapshots.ExportPreservesAnswers`).
- **Outputs whose script is empty or starts with OP_RETURN are invisible to the outpoint
  walk**: short of a range-hash collision it reports them as not found where they are
  unspent (`Outpoints.UnfilterableIsInvisible`); for every other script the walk is exact
  (`Outpoints.FilteredIsFull`).

## Model

| member | source | states |
|---|---|---|
| Wire.VarintRoundTrip | crates/opencsv-cbf/src/wire.rs:77-128 | reading a written CompactSize gives the number and leaves the rest, for every 64-bit number |
| Wire.VarintCanonical | crates/opencsv-cbf/src/wire.rs:77-104 | every accepted CompactSize is the shortest spelling of its number |
| Wire.VarBytesRoundTrip | crates/opencsv-cbf/src/wire.rs:106-133 | a written byte vector reads back and leaves the rest |
| Wire.VarBytesCanonical | crates/opencsv-cbf/src/wire.rs:106-112 | an accepted byte vector is spelled by its own encoding |
| Wire.Cursor.ReadVarint | crates/opencsv-cbf/src/wire.rs:77-104 | the moving cursor consumes exactly one CompactSize, or fails |
| Wire.Cursor.ReadVarBytes | crates/opencsv-cbf/src/wire.rs:106-112 | the moving cursor consumes exactly one length-prefixed vector, or fails |
| Wire.Cursor.ReadI32 | crates/opencsv-cbf/src/wire.rs:62-65 | the moving cursor consumes four bytes as a two's-complement number |
| Gcs.BitWriter.PushBit | crates/opencsv-cbf/src/gcs.rs:68-82 | one more bit after those written, whatever the alignment |
| Gcs.BitWriter.Write | crates/opencsv-cbf/src/gcs.rs:68-82 | appends the low bits of a number, highest first |
| Gcs.BitWriter.GolombRiceEncode | crates/opencsv-cbf/src/gcs.rs:84-91 | appends the Golomb-Rice code word |
| Gcs.BitReader.ReadBits | crates/opencsv-cbf/src/gcs.rs:105-122 | reads a number from the next bits, failing at the end of the data |
| Gcs.BitReader.GolombRiceDecode | crates/opencsv-cbf/src/gcs.rs:124-135 | reads one code word with its capped quotient |
| Gcs.GolombRoundTrip | crates/opencsv-cbf/src/gcs.rs:84-135 | decoding undoes encoding exactly when the quotient respects the decoder's cap |
| Gcs.Encode | crates/opencsv-cbf/src/gcs.rs:141-163 | the output is the serialized filter of the sorted, deduplicated, hashed elements |
| Gcs.FilterBytesUnique | crates/opencsv-cbf/src/gcs.rs:141-163 | that description names one byte string |
| Gcs.OrderedSetIsASet | crates/opencsv-cbf/src/gcs.rs:141-147 | order and repetition of the elements do not change the filter |
| Gcs.DecodeAllExact | crates/opencsv-cbf/src/gcs.rs:196-208 | decoding an encoded stream gives the sorted values back, exactly when no gap exceeds the cap |
| Gcs.ComputeMatches | crates/opencsv-cbf/src/gcs.rs:213-235 | the query loop computes the membership function |
| Gcs.ScanExact | crates/opencsv-cbf/src/gcs.rs:213-235 | the early exit never changes the answer |
| Gcs.FilterExact | crates/opencsv-cbf/src/gcs.rs:141-235 | a readable query is true exactly when the item's range hash is that of an element; the exact condition under which it errors |
| Gcs.BasicFilterExact | crates/opencsv-cbf/src/gcs.rs:25-47 | with the basic parameters no query errs, there are no false negatives, and false positives are exactly range-hash collisions |
| Block.HeaderBytesInjective | crates/opencsv-cbf/src/block.rs:45-59 | the 80-byte encoding determines the header |
| Block.LegacyBytesInjective | crates/opencsv-cbf/src/block.rs:181-204 | equal legacy encodings differ at most in witnesses |
| Block.ParseInvertsLegacyExactly | crates/opencsv-cbf/src/block.rs:113-198 | parsing undoes the legacy encoding exactly for 1 to 252 inputs, bounded outputs and no witnesses |
| Block.NoInputsExample | crates/opencsv-cbf/src/block.rs:113-198 | a transaction without inputs does not read back |
| Block.ReadTransaction | crates/opencsv-cbf/src/block.rs:113-178 | the parser on the shared cursor, branch by branch |
| Block.ComputeMerkleRoot | crates/opencsv-cbf/src/block.rs:284-299 | the level loop computes the recursive root |
| Block.MerkleBinding | crates/opencsv-cbf/src/block.rs:284-299 | equal-length lists with one root are equal at every size, odd levels included |
| Block.OddDuplicateSameRoot | crates/opencsv-cbf/src/block.rs:284-299 | why equal lengths are needed: repeating an odd last leaf keeps the root |
| Block.RootPinsTransactions | crates/opencsv-cbf/src/block.rs:202-246 | a root pins every transaction of a block up to witnesses |
| Block.BasicFilterElements | crates/opencsv-cbf/src/block.rs:252-279 | the loop over outputs and prevouts computes the element list or rejects the prevout count |
| Block.ElementsCover | crates/opencsv-cbf/src/block.rs:252-279 | the elements are exactly the non-empty, non-OP_RETURN created scripts and the non-empty spent ones |
| U256Arithmetic.U256Ge | crates/opencsv-cbf/src/network.rs:166-173 | limb comparison is comparison of the numbers |
| U256Arithmetic.U256MulU64 | crates/opencsv-cbf/src/network.rs:189-201 | the 512-bit product is exact |
| U256Arithmetic.U512DivU64 | crates/opencsv-cbf/src/network.rs:204-218 | the quotient is exact, cut to 256 bits |
| U256Arithmetic.U256AddOne | crates/opencsv-cbf/src/network.rs:221-230 | successor modulo 2^256 |
| U256Arithmetic.U256Sub | crates/opencsv-cbf/src/network.rs:233-245 | difference modulo 2^256 and its borrow |
| Pow.WorkFromTarget | crates/opencsv-cbf/src/network.rs:250-276 | returns the low 128 bits of floor(2^256/(target+1)); for targets below 2^255 no step's subtraction borrows |
| Pow.DivideBit | crates/opencsv-cbf/src/network.rs:250-276 | one step keeps dividend, quotient and remainder in balance, and borrows exactly when its shift passes 256 bits |
| Pow.WorkExactIff | crates/opencsv-cbf/src/network.rs:250-276 | the accumulator holds the exact work exactly for targets of at least 2^128; work is never zero |
| Pow.WorkAntitone | crates/opencsv-cbf/src/network.rs:250-276 | a harder target is never less work |
| Compact.FromCompact | crates/opencsv-cbf/src/network.rs:106-134 | the byte-placing loop computes the expansion, with the same sign and overflow refusals |
| Compact.ToCompact | crates/opencsv-cbf/src/network.rs:137-163 | the byte-length loop computes the compact form |
| Compact.ExpandCompact | crates/opencsv-cbf/src/network.rs:106-163 | every 256-bit target has a compact form that expands, to its truncation |
| Compact.TruncationLoss | crates/opencsv-cbf/src/network.rs:106-163 | truncation only drops bytes below the top ones and never grows the target |
| Compact.TruncationIdempotent | crates/opencsv-cbf/src/network.rs:106-163 | truncating twice is truncating once |
| Compact.TruncationMonotone | crates/opencsv-cbf/src/network.rs:106-163 | truncation preserves order |
| Consensus.NextWorkRequired | crates/opencsv-cbf/src/network.rs:290-321 | at a retarget height, the compact form of the clamped, limited scaling; otherwise the previous bits |
| Consensus.NetworksSupported | crates/opencsv-cbf/src/network.rs:43-98 | mainnet, signet and regtest satisfy what the bounds ask of the parameters, and their limits are what the compact forms stand for |
| Consensus.RetargetBounds | crates/opencsv-cbf/src/network.rs:290-321 | the scaling never overflows; the result is at most the limit and four times the previous target, and at least a quarter of it or the limit |
| Consensus.ComputeRequiredBits | crates/opencsv-cbf/src/network.rs:327-350 | the walk back over minimum-difficulty blocks computes the required bits |
| Consensus.LastRegularIsLast | crates/opencsv-cbf/src/network.rs:327-350 | the block found is the last regular one of its period |
| Consensus.ValidateHeader | crates/opencsv-cbf/src/network.rs:354-406 | a header is accepted exactly when it links, has the required bits, a target within the limit, a hash within the target and a time past the median |
| HeaderChains.HeaderChain.AppendValidated | crates/opencsv-cbf/src/chain.rs:74-94 | appends exactly the acceptable headers and keeps the three vectors consistent, on errors too |
| HeaderChains.HeaderChain.AbsorbHeader | crates/opencsv-cbf/src/chain.rs:151-167 | one served header extends, forks off a known ancestor, or is ignored |
| HeaderChains.HeaderChain.Sync | crates/opencsv-cbf/src/chain.rs:129-171 | for any replies whatever the chain stays valid; the resulting chain and error exit as a function of the replies |
| HeaderChains.HeaderChain.Locator | crates/opencsv-cbf/src/chain.rs:175-192 | falling heights, the tip and its ten predecessors first, genesis last |
| HeaderChains.HeaderChain.CommonPrefixLen | crates/opencsv-cbf/src/chain.rs:117-123 | the longest common run of hashes |
| HeaderChains.CommonPrefixIsShared | crates/opencsv-cbf/src/chain.rs:117-123 | a common run of hashes is a common run of headers |
| HeaderChains.EqualHashEqualPast | crates/opencsv-cbf/src/scan.rs:237-241 | one equal hash at a height makes everything below equal |
| HeaderChains.ValidIsLinked | crates/opencsv-cbf/src/chain.rs:74-94 | a valid chain is linked and starts at genesis |
| HeaderChains.WorkMonotone | crates/opencsv-cbf/src/chain.rs:17-20 | total work strictly increases along a valid chain |
| HeaderChains.ChainworkIsExact | crates/opencsv-cbf/src/chain.rs:17-20 | below 2^128 the stored work is the exact, strictly increasing prefix sum |
| HeaderChains.SameTipSameChain | crates/opencsv-cbf/src/client.rs:304-331 | two valid chains with equal tip height and hash are identical |
| HeaderChains.AgreeOnTip | crates/opencsv-cbf/src/client.rs:304-331 | the cross-peer tip comparison succeeds exactly on identical chains |
| HeaderChains.FollowsHonestPeer | crates/opencsv-cbf/src/chain.rs:129-171 | a peer answering each request with headers from a shared block on, until it has none, is followed to its tip, page by page and across any reorganisation |
| HeaderChains.AbsorbLowersIff | crates/opencsv-cbf/src/chain.rs:151-167 | one served header lowers our work exactly when it forks off below the tip and brings less than it drops |
| HeaderChains.SyncChanges | crates/opencsv-cbf/src/chain.rs:129-171 | any replies leave the work found plus what the served headers brought less what they dropped |
| HeaderChains.HonestPeerLowersIff | crates/opencsv-cbf/src/chain.rs:129-171 | an honest peer lowers our work exactly when it serves a chain with less |
| FilterHeaders.AdvanceFilterHeader | crates/opencsv-cbf/src/chain.rs:409-414 | the loop folds the filter hashes in order |
| FilterHeaders.FilterHeaderChain.FetchRange | crates/opencsv-cbf/src/chain.rs:315-360 | the paged loop fetches, checks and concatenates the pages |
| FilterHeaders.PagesMatchOneShot | crates/opencsv-cbf/src/chain.rs:321-360 | every page of a successful fetch was checked against the one-shot fold of everything below it |
| FilterHeaders.AdvanceBinding | crates/opencsv-cbf/src/chain.rs:286-294 | a filter header pins every filter hash below it |
| FilterHeaders.FilterHeaderChain.ReattestTail | crates/opencsv-cbf/src/chain.rs:371-395 | what re-attestation checks, for every window and cache length |
| FilterHeaders.ReattestPinsCache | crates/opencsv-cbf/src/chain.rs:362-395 | success against one filter-hash chain makes the whole cache that chain's prefix |
| FilterHeaders.ReattestExact | crates/opencsv-cbf/src/chain.rs:362-395 | against a peer serving a chain it succeeds exactly on that chain's prefixes |
| FilterHeaders.FilterHeaderChain.SyncFilters | crates/opencsv-cbf/src/client.rs:329-407 | succeeds exactly when some peer completes and all that do bring the same hashes; the cache is cut to the shared part, and extended only on success |
| FilterHeaders.BroughtIsPinned | crates/opencsv-cbf/src/client.rs:340-365 | one completed peer that speaks for one chain makes everything held and fetched that chain's |
| FilterHeaders.HonestPeerBrings | crates/opencsv-cbf/src/client.rs:340-365 | a peer that serves a chain of which we hold a part completes with the rest |
| FilterHeaders.SyncFollowsReorg | crates/opencsv-cbf/src/client.rs:329-407 | from the old chain's filter hashes, a peer serving the new chain's brings exactly what is missing, across any reorganisation |
| Anchors.ParsedStableIff | crates/opencsv-core/src/anchor.rs:263-340 | exactly which payloads re-read as the same record after being written |
| Anchors.UnstableExample | crates/opencsv-core/src/anchor.rs:263-340 | one payload that does not |
| Anchors.WrittenAsReadIff | crates/opencsv-core/src/anchor.rs:263-340 | exactly which payloads are written back byte for byte |
| Anchors.AnchorsInBlock | crates/opencsv-cbf/src/fullscan.rs:46-112 | the loops over transactions and outputs find the candidates, one per batch payload |
| Anchors.CandidatesShape | crates/opencsv-cbf/src/fullscan.rs:46-112 | candidates come in chain order, at the block's height |
| Anchors.OneMemberBinds | crates/opencsv-cbf/src/fullscan.rs:148-161 | a nullifier binds at most one member of a batch, and only under a matching commitment |
| FullScan.Scan | crates/opencsv-cbf/src/fullscan.rs:178-221 | accepts exactly the bounded windows whose blocks all check out, and returns all their candidates |
| FullScan.Earliest | crates/opencsv-cbf/src/fullscan.rs:225-238 | an entry at or before every other |
| ScanIndexes.HonestVerdict | crates/opencsv-cbf/src/client.rs:517-527 | an honest filter always decodes and shows every created, filterable script |
| ScanIndexes.AnchorsAreFound | crates/opencsv-cbf/src/scan.rs:216-230 | an honest filter never hides a block whose anchors come with a marker |
| ScanIndexes.ScanIndex.ReconcileChainView | crates/opencsv-cbf/src/scan.rs:242-280 | the walk back to the common ancestor and the cut |
| ScanIndexes.ScanIndex.ScanSync | crates/opencsv-cbf/src/scan.rs:200-235 | the loop as a function of cache, client and birth height, error exits included |
| ScanIndexes.ReconcileReflects | crates/opencsv-cbf/src/scan.rs:237-280 | after any reorganisation or shrinking the cut cache is a scan of the new chain |
| ScanIndexes.SyncIsScanFromScratch | crates/opencsv-cbf/src/scan.rs:200-280 | a sync always leaves a scan from scratch up to its tip, and on success of the whole chain |
| Restarts.ReloadIsIdentityIff | crates/opencsv-cbf/src/scan.rs:121-183 | re-reading records leaves the cache alone exactly when all are stable |
| Restarts.RestartForgetsOccurrence | crates/opencsv-cbf/src/scan.rs:121-183 | a family of scanned transfers that bind nothing after a restart |
| Restarts.BindsOnceIff | crates/opencsv-cbf/src/scan.rs:121-183 | exactly which records, by their own bytes, a nullifier binds only before or only after a re-read |
| Restarts.AgedSync | crates/opencsv-cbf/src/scan.rs:200-280 | a sync does to a cache aged by restarts what it does to the original |
| Restarts.AgedMeans | crates/opencsv-cbf/src/scan.rs:121-183 | an aged cache loads as the original does, and is the original without restarts or unstable records |
| Restarts.AgedCheck | crates/opencsv-cbf/src/scan.rs:284-295 | an aged cache answers as the original for every nullifier that binds the window's records alike |
| ScanRuns.EveryStateExplained | crates/opencsv-cbf/src/scan.rs:121-280 | over every run of syncs, failures and restarts, memory and disk hold scans from scratch of chains that were shown, aged at most by restarts |
| ScanRuns.EveryStateReachable | crates/opencsv-cbf/src/scan.rs:121-280 | what every run leaves in memory and on disk is what the export and the saved file are proved for |
| ScanRuns.EverySyncIsScanFromScratch | crates/opencsv-cbf/src/scan.rs:121-280 | over every run, a successful sync leaves the scan from scratch of its chain: lineage and tip exactly, each record as scanned or as re-read, all exactly if nothing was restarted or unstable |
| ScanRuns.EveryCheckIsFullScan | crates/opencsv-cbf/src/scan.rs:121-295 | over every run, the local check after a sync is the brute-force answer over every covered honest window, after restarts for nullifiers that bind none of its records only before or only after a re-read |
| ScanAnswers.IndexedIsFilteredScan | crates/opencsv-cbf/src/scan.rs:211-235 | with no assumption on markers the index is the full scan less the blocks whose filters show none |
| ScanAnswers.IndexIsFullScanIff | crates/opencsv-cbf/src/scan.rs:211-235 | the index is the full scan exactly when no unmarked block carries an anchor |
| ScanAnswers.CheckIsFullScan | crates/opencsv-cbf/src/scan.rs:284-295 | with honest filters and marked anchors the local check is the brute-force answer over every covered window |
| ScanAnswers.CheckIsSound | crates/opencsv-cbf/src/scan.rs:284-295 | without markers a local answer is still a real occurrence, at or after the first |
| ScanIndexes.ScanIndex.ScanCheck | crates/opencsv-cbf/src/scan.rs:284-295 | nothing exactly when no cached record of the window binds, otherwise place and context of a binding record before no other |
| ScanAnswers.HonestSyncSucceeds | crates/opencsv-cbf/src/scan.rs:200-235 | a sync against honest filters and available blocks succeeds from any reachable cache |
| ScanAnswers.HeaderPinsSoloCandidates | crates/opencsv-cbf/src/peer.rs:228-253 | blocks served under one header agree on every solo candidate |
| ScanAnswers.HeaderPinsCandidates | crates/opencsv-cbf/src/peer.rs:228-253 | blocks served under one header that carry no batch header agree on every candidate |
| ScanAnswers.CandidatesPinnedIff | crates/opencsv-cbf/src/peer.rs:228-253 | all versions of a block that differ in witnesses have its transaction ids, and show the same candidates exactly when no transaction carries a batch header |
| ScanAnswers.WithheldWitnessesPass | crates/opencsv-cbf/src/peer.rs:228-253 | a block served without witnesses passes the root check and shows no batch member |
| IndexFile.Persist | crates/opencsv-cbf/src/scan.rs:145-183 | the text written, line by line |
| IndexFile.VerifiedBodyIff | crates/opencsv-cbf/src/scan.rs:328-336 | the checksum accepts exactly a body followed by a line spelling its hash, blanks around the hex allowed |
| IndexFile.Decode | crates/opencsv-cbf/src/scan.rs:338-447 | the line loop computes the decoding |
| IndexFile.SaveThenLoad | crates/opencsv-cbf/src/scan.rs:145-447 | loading what was saved gives the cache with records re-read; another network asks for a rebuild |
| IndexFile.ReflectsIsWritable | crates/opencsv-cbf/src/scan.rs:145-183 | every reachable cache, restarts included, satisfies what saving relies on |
| IndexFile.RestartKeepsCacheIff | crates/opencsv-cbf/src/scan.rs:121-183 | a restart gives the cache back exactly when all its records are stable |
| Text.HexRoundTrip | crates/opencsv-cbf/src/hash.rs:14-34 | decoding hex, trimmed as the source does, undoes encoding it |
| Outpoints.InspectOutpointBlock | crates/opencsv-cbf/src/client.rs:151-188 | the block loop with its in-out creation height |
| Outpoints.InspectContinuesIff | crates/opencsv-cbf/src/client.rs:151-188 | a block passes exactly when it neither spends the outpoint nor contradicts its output |
| Outpoints.VerifyOutpointUnspent | crates/opencsv-cbf/src/client.rs:551-639 | the filter-driven walk, its range checks and its verdicts |
| Outpoints.FilteredIsFull | crates/opencsv-cbf/src/client.rs:539-639 | skipping blocks by honest filters gives the verdict of inspecting every block |
| Outpoints.UnspentMeans | crates/opencsv-cbf/src/client.rs:151-188 | unspent exactly when created in range with the expected output and spent by nothing in range |
| Outpoints.UnfilterableVerdict | crates/opencsv-cbf/src/block.rs:252-279 | an honest filter answers no to a script it must leave out |
| Outpoints.UnfilterableIsInvisible | crates/opencsv-cbf/src/client.rs:551-639 | with honest filters and no range-hash collision the walk reports an unspent output with an empty or OP_RETURN script as not found, wherever it was created |
| BatchWire.WireBodyIff | crates/opencsv-bitcoin/src/batch_v2.rs:1487-1517 | a message opens exactly to the body it frames |
| BatchWire.Reader.Take | crates/opencsv-bitcoin/src/batch_v2.rs:1539-1554 | the bounds-checked reader consumes exactly the bytes asked for, or fails in place |
| BatchWire.ProposalFromWire | crates/opencsv-bitcoin/src/batch_v2.rs:296-332 | the decoder field by field |
| BatchWire.ProposalCodec | crates/opencsv-bitcoin/src/batch_v2.rs:286-332 | a message decodes to a proposal exactly when the proposal is valid and spells it |
| BatchWire.CommitmentFromWire | crates/opencsv-bitcoin/src/batch_v2.rs:526-557 | the decoder field by field |
| BatchWire.CommitmentCodec | crates/opencsv-bitcoin/src/batch_v2.rs:516-557 | a message decodes to a commitment exactly when the commitment is valid and spells it |
| BatchWire.ShareFromWire | crates/opencsv-bitcoin/src/batch_v2.rs:1650-1674 | the decoder field by field |
| BatchWire.ShareCodec | crates/opencsv-bitcoin/src/batch_v2.rs:1638-1674 | a message decodes to a share exactly when the share is canonical, low-S, ALL and spells it |
| Manifests.RejectDuplicates | crates/opencsv-bitcoin/src/batch_v2.rs:1341-1361 | accepts exactly pairwise different identifiers, operations, outpoints, payloads and change scripts |
| Manifests.SplitCharges | crates/opencsv-bitcoin/src/batch_v2.rs:732-763 | succeeds exactly when everyone can pay within their maximum and keep standard change |
| Manifests.BuildAt | crates/opencsv-bitcoin/src/batch_v2.rs:681-818 | the manifest as a function of its arguments; the closing layout check never fails |
| Manifests.BuiltPassesLayout | crates/opencsv-bitcoin/src/batch_v2.rs:1269-1287 | every valid manifest has the canonical framing |
| Manifests.FeesFit | crates/opencsv-bitcoin/src/batch_v2.rs:716-731 | none of the checked operations can overflow |
| Manifests.ManifestIgnoresOrder | crates/opencsv-bitcoin/src/batch_v2.rs:681-818 | every permutation of the commitments builds the identical manifest, or none builds |
| Manifests.FeesAreExact | crates/opencsv-bitcoin/src/batch_v2.rs:728-763 | charges sum to fee plus marker, differ by at most one, respect maxima, leave standard change; inputs minus outputs is the fee |
| Manifests.ValidIffBuilt | crates/opencsv-bitcoin/src/batch_v2.rs:1253-1267 | validation accepts exactly what building can produce |
| ManifestWire.ManifestFromWire | crates/opencsv-bitcoin/src/batch_v2.rs:831-901 | the decoder over the moving reader |
| ManifestWire.ManifestCodec | crates/opencsv-bitcoin/src/batch_v2.rs:826-901 | a message decodes with given commitments exactly when it spells the valid manifest of them, in any order |
| ManifestWire.ManifestFromWirePool | crates/opencsv-bitcoin/src/batch_v2.rs:908-946 | the selection loop and the decoder |
| ManifestWire.PoolCodec | crates/opencsv-bitcoin/src/batch_v2.rs:903-946 | a manifest is rebuilt from any pool containing its commitments, among anything else, and from no other |
| ManifestWire.UnsignedLength | crates/opencsv-bitcoin/src/batch_v2.rs:772-806 | the unsigned transaction is 212 + 72 n bytes long |
| BatchRuns.GuardNeverFires | crates/opencsv-bitcoin/src/batch_v2.rs:1201-1250 | the invariant guard of a replacement cannot fire on a valid manifest |
| BatchRuns.ReplacementRaises | crates/opencsv-bitcoin/src/batch_v2.rs:1201-1250 | a replacement is valid, keeps the protected parts and raises the fee and every charge |
| BatchRuns.ReplacementRun | crates/opencsv-bitcoin/src/batch_v2.rs:1201-1250 | along any run the protected parts stay fixed, every charge rises each time, and the run is bounded by the feerate range |
| BatchRuns.OnlyTheChainFrees | crates/opencsv-bitcoin/src/batch_v2.rs:126-206 | after a signature is out, no sequence of acts frees the input before the chain does |
| Finalization.WeightBound | crates/opencsv-bitcoin/src/batch_v2.rs:1328-1339 | every signed batch weighs at most 968 + 423 n, reached exactly when every signature takes 73 bytes |
| Finalization.Finalize | crates/opencsv-bitcoin/src/batch_v2.rs:1077-1115 | succeeds exactly on a valid manifest with verifying signatures; the weight check never fails |
| Finalization.FinalizeShares | crates/opencsv-bitcoin/src/batch_v2.rs:1160-1198 | succeeds exactly when all shares verify, none conflict and every input has one |
| Finalization.SharesAreASet | crates/opencsv-bitcoin/src/batch_v2.rs:1157-1198 | order and repetition of shares change neither success nor the transaction |
| BatchScans.SignedBatchIsFound | crates/opencsv-cbf/src/fullscan.rs:46-161 | a signed batch is scanned as one candidate per participant, and each nullifier is bound by its own candidate only |
| BatchScans.SignedBatchIsMarked | crates/opencsv-bitcoin/src/batch_v2.rs:786-798 | a block with a signed batch carries a marker the filters show |
| BatchScans.ReplacementShowsSameRecord | crates/opencsv-bitcoin/src/replacement.rs:68-80 | a solo replacement shows the scanners the same record in the same context |
| Replacements.Validate | crates/opencsv-bitcoin/src/replacement.rs:81-171 | accepts exactly the protected replacements and reports the increment |
| Replacements.AcceptedCompose | crates/opencsv-bitcoin/src/replacement.rs:81-148 | acceptance is transitive and increments add up |
| Replacements.RunsAreBounded | crates/opencsv-bitcoin/src/replacement.rs:81-148 | a run is bounded by the original change above dust |
| Replacements.FeeRises | crates/opencsv-bitcoin/src/replacement.rs:70-80 | whatever the coins are worth, the miner fee rises by at least the increment |
| CoinSelection.SelectInputs | ffi/src/wallet.rs:1446-1510 | the least spend by change, count and identifiers; fails exactly when no one- or two-coin spend exists |
| CoinSelection.LeastSpendUnique | ffi/src/wallet.rs:786-791 | the choice does not depend on the order the coins are stored in |
| Wallets.MemWallet.ProveTransferAmount | ffi/src/wallet.rs:792-805 | selects the least spend, splits off the change, and reserves it under a new number |
| Wallets.MemWallet.ProveTransfer | ffi/src/wallet.rs:664-783 | succeeds exactly on one or two different held coins, unspent or frozen, owned, of one asset and worth the amounts, if the prover agrees; leaves one pending transaction that spends them and pays the recipient |
| Wallets.TransferIffAllowed | ffi/src/wallet.rs:664-783 | the same conditions for the transfer function, in both directions |
| Wallets.MemWallet.Finalize | ffi/src/wallet.rs:912-979 | marks the inputs spent and credits the outputs that come back |
| Wallets.MemWallet.VerifyWithProvenance | ffi/src/wallet.rs:1140-1220 | a refused consignment changes nothing; of an accepted one the coins up to the first without an opening are stored over what the wallet has, each with the place of its first opening |
| Wallets.MemWallet.FreezeUnconfirmedAnchor | ffi/src/wallet.rs:1346-1355 | freezes exactly the unspent coins of the anchor |
| Wallets.MemWallet.MarkConfirmedSpentNullifiers | ffi/src/wallet.rs:1285-1306 | marks exactly the owned unspent coins whose nullifiers are confirmed and returns their identifiers in order |
| Wallets.MemWallet.MarkSpent | ffi/src/wallet.rs:1357-1363 | marks the named coins up to the first unknown one |
| Wallets.MemWallet.CancelPending | ffi/src/wallet.rs:1097-1102 | drops the named pending transaction and nothing else, telling whether there was one |
| WalletRuns.StepEvolves | ffi/src/wallet.rs:912-1363 | one operation keeps identifiers unique and changes coins only as allowed; only the coins a settled verification redelivers thaw |
| WalletRuns.RunEvolves | ffi/src/wallet.rs:912-1363 | over every run spent is final, a frozen coin returns only if a settled verification redelivered that coin, settled stays settled |
| WalletRuns.SelectedNeverOverlap | ffi/src/wallet.rs:1446-1476 | over every run no two pending transactions created by selection share an input |
| WalletBalance.FinalizeLowersByPayment | ffi/src/wallet.rs:912-979 | finalizing a payment with unspent inputs and new change lowers its asset's balance by exactly the amount sent away |
| WalletBalance.PaymentLowersByAmount | ffi/src/wallet.rs:792-979 | the same for select, prove and finalize together |
| WalletBalance.LaterPaymentLowersByAmount | ffi/src/wallet.rs:792-979 | over every run, a payment selected at one point and finalized at any later one lowers the balance by exactly its amount, if its inputs are still unspent and its change is new |
| Snapshots.SnapshotEntries | ffi/src/scan.rs:417-446 | the deduplicating loop |
| Snapshots.LoadSnapshot | ffi/src/snapshot.rs:96-152 | the parsing loop and its envelope check |
| Snapshots.ExportIsGroups | ffi/src/scan.rs:417-446 | the export has one entry per transaction, in chain order |
| Snapshots.ExportPreservesAnswers | ffi/src/snapshot.rs:217-298 | the export of any reachable index loads exactly when every envelope fits, and answers as the index re-read; these are the index's own answers exactly for nullifiers that bind none of its records only before or only after a re-read |
| Snapshots.StableExportIsExact | ffi/src/snapshot.rs:217-298 | with only stable records all answers are the index's |
| Snapshots.RestartKeepsAnswersIff | crates/opencsv-cbf/src/scan.rs:532-540 | a restart keeps the occurrences of a nullifier exactly when it binds no record only before or only after a re-read |

## Left out

- Sockets, handshakes, threads and timeouts; a peer is a function or a list of replies.
- SHA-256, SipHash, Poseidon, ECDSA, sighash computation, the recursive prover and `accept()` are uninterpreted parameters.
- RPC and Esplora backends, the anchor server, the account layer and the C ABI.
- JSON and base64: exported snapshots and pending transactions are values, so a pending transaction that arrives from an export is any value.
- Which error is reported, and in which order several applicable checks fail.
- `Block::parse` and the witness half of the transaction serializer; only the legacy encoding is committed to by transaction ids.
- A served block with no transactions makes `merkle_root` panic; the model refuses it like any other bad block.
- Golomb parameters above 31 bits, where the recombination of quotient and remainder would leave 64 bits.
- The rebuildable header and filter-hash caches on disk; only the scan index file is modelled.
- `verify_anchor`, the batched readiness receipts and the bandwidth counters of the light client.
- rust-bitcoin's transaction decoder inside `Manifest::from_wire` is modelled by the repository's own parser; the two can only differ on bytes the following re-encoding check refuses.
- Non-ASCII text in the index file; the model's white space is blank, tab, line feed and carriage return.
- Coins are looked up by their full identifier; the wallet's prefix search and its ambiguity error are not modelled, nor the display names of assets, nor issuance.
- `balance` sums are unbounded numbers; the source's `u64` sum could overflow.
- Wallets.MemWallet.VerifyWithProvenance: does not model the pinning of the asset's genesis or the credits reported for display.
- Wall-clock time, randomness and file-system atomicity; fresh randomness is a parameter, a saved file is the old or the new text.
