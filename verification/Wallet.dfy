/**
 * The in-memory wallet (`ffi/src/wallet.rs`): coins, pending transactions, and what
 * every sequence of operations keeps. Proof construction and the verification
 * of received consignments are parameters.
 */
module Wallets {
  import opened Wrappers
  import opened Wire
  import opened Lists
  import opened Sorting
  import opened CoinSelection

  /** A proved transaction not yet finalized. */
  datatype Pending = Pending(
    openings: seq<Coin>, nullifiers: seq<Hash>, proof: Bytes, spentIds: seq<Hash>, dependencies: seq<Hash>)

  datatype Proof = Proof(nullifiers: seq<Hash>, bytes: Bytes)

  /** The prover; `None` is a refusal. */
  type Prover = (seq<StoredCoin>, seq<Coin>) -> Option<Proof>

  /** Where a transaction was anchored; a mempool location leaves its outputs unconfirmed. */
  datatype Anchor = Anchor(txid: Hash, mempool: bool)

  datatype Wallet = Wallet(keys: seq<Hash>, coins: seq<StoredCoin>, pending: map<nat, Pending>, next: nat)

  const EMPTY: Wallet := Wallet([], [], map[], 1)

  // -- looking up and replacing coins ---------------------------------------------------------

  /** The first coin with the identifier. */
  function Find(scheme: Scheme, coins: seq<StoredCoin>, id: Hash): (r: Option<nat>)
    ensures r.Some? ==> r.value < |coins| && Id(scheme, coins[r.value]) == id
    ensures r.None? ==> forall i | 0 <= i < |coins| :: Id(scheme, coins[i]) != id
  {
    if coins == [] then None
    else if Id(scheme, coins[0]) == id then Some(0)
    else
      match Find(scheme, coins[1..], id)
      case None =>
        assert forall i | 0 < i < |coins| :: coins[i] == coins[1..][i - 1];
        None
      case Some(i) => Some(i + 1)
  }

  function SetStatus(scheme: Scheme, coins: seq<StoredCoin>, id: Hash, status: Status): (r: seq<StoredCoin>)
    ensures |r| == |coins|
  {
    match Find(scheme, coins, id)
    case None => coins
    case Some(i) => coins[i := coins[i].(status := status)]
  }

  function MarkAll(scheme: Scheme, coins: seq<StoredCoin>, ids: seq<Hash>): (r: seq<StoredCoin>)
    ensures |r| == |coins|
    decreases |ids|
  {
    if ids == [] then coins else MarkAll(scheme, SetStatus(scheme, coins, ids[0], Spent), ids[1..])
  }

  /** Store a coin over the one with its identifier, or at the end. */
  function Store(scheme: Scheme, coins: seq<StoredCoin>, c: StoredCoin): seq<StoredCoin> {
    match Find(scheme, coins, Id(scheme, c))
    case None => coins + [c]
    case Some(i) => coins[i := c]
  }

  // -- crediting --------------------------------------------------------------------------------

  /** A replay keeps the status, and a settled coin stays settled. */
  function Credited(scheme: Scheme, coins: seq<StoredCoin>, c: StoredCoin): StoredCoin {
    match Find(scheme, coins, Id(scheme, c))
    case None => c
    case Some(i) => c.(status := coins[i].status, parent := if coins[i].parent.None? then None else c.parent)
  }

  /** The same for a received coin; a settled replay thaws a frozen one. */
  function Received(scheme: Scheme, coins: seq<StoredCoin>, c: StoredCoin): StoredCoin {
    match Find(scheme, coins, Id(scheme, c))
    case None => c
    case Some(i) =>
      c.(status := if c.parent.None? && coins[i].status == Frozen then Unspent else coins[i].status,
         parent := if coins[i].parent.None? then None else c.parent)
  }

  function CreditAll(scheme: Scheme, coins: seq<StoredCoin>, incoming: seq<StoredCoin>): seq<StoredCoin>
    decreases |incoming|
  {
    if incoming == [] then coins
    else CreditAll(scheme, Store(scheme, coins, Credited(scheme, coins, incoming[0])), incoming[1..])
  }

  function ReceiveAll(scheme: Scheme, coins: seq<StoredCoin>, incoming: seq<StoredCoin>): seq<StoredCoin>
    decreases |incoming|
  {
    if incoming == [] then coins
    else ReceiveAll(scheme, Store(scheme, coins, Received(scheme, coins, incoming[0])), incoming[1..])
  }

  /** The outputs that come back to this wallet, from output `k` on. */
  function LocalOutputs(scheme: Scheme, keys: seq<Hash>, p: Pending, parent: Option<Hash>, k: nat): seq<StoredCoin>
    requires k <= |p.openings|
    decreases |p.openings| - k
  {
    if k == |p.openings| then []
    else
      (if Owned(scheme, keys, p.openings[k].owner) then [StoredCoin(p.openings[k], Unspent, p.proof, k, parent)] else [])
      + LocalOutputs(scheme, keys, p, parent, k + 1)
  }

  lemma LocalOutputsStep(scheme: Scheme, keys: seq<Hash>, p: Pending, parent: Option<Hash>, k: nat)
    requires k < |p.openings|
    ensures LocalOutputs(scheme, keys, p, parent, k)
         == (if Owned(scheme, keys, p.openings[k].owner) then [StoredCoin(p.openings[k], Unspent, p.proof, k, parent)]
             else [])
            + LocalOutputs(scheme, keys, p, parent, k + 1)
  {
    hide Owned;
  }

  lemma LocalOutputsDone(scheme: Scheme, keys: seq<Hash>, p: Pending, parent: Option<Hash>)
    ensures LocalOutputs(scheme, keys, p, parent, |p.openings|) == []
  {
  }

  // -- operations on the whole wallet ----------------------------------------------------------------

  /** `finalize` */
  function Finalized(scheme: Scheme, w: Wallet, id: nat, anchor: Anchor): Option<Wallet> {
    if id !in w.pending then None
    else
      var p := w.pending[id];
      var parent := if anchor.mempool then Some(anchor.txid) else None;
      Some(w.(pending := w.pending - {id},
              coins := CreditAll(scheme, MarkAll(scheme, w.coins, p.spentIds),
                                 LocalOutputs(scheme, w.keys, p, parent, 0))))
  }

  /** An output an accepted consignment credits. */
  datatype AcceptedCoin = AcceptedCoin(coin: Coin, selector: nat)

  function Incoming(accepted: seq<AcceptedCoin>, proof: Bytes, parent: Option<Hash>): (r: seq<StoredCoin>)
    ensures |r| == |accepted|
  {
    seq(|accepted|, i requires 0 <= i < |accepted| =>
      StoredCoin(accepted[i].coin, Unspent, proof, accepted[i].selector, parent))
  }

  /** The part of a consignment the wallet stores. */
  datatype Consignment = Consignment(openings: seq<Coin>, proof: Bytes)

  /** `accept`: the coins of a consignment that pay one of the keys, or a refusal. */
  type Acceptor = (Consignment, seq<Hash>) -> Option<seq<Coin>>

  datatype Verification = Refused | Failed | Accepted

  /** The first opening of a coin. */
  function OpeningOf(openings: seq<Coin>, c: Coin): (r: Option<nat>)
    ensures r.Some? ==> r.value < |openings| && openings[r.value] == c && c !in openings[..r.value]
    ensures r.None? <==> c !in openings
  {
    if openings == [] then None
    else
      assert openings == [openings[0]] + openings[1..];
      if openings[0] == c then Some(0)
      else
        match OpeningOf(openings[1..], c)
        case None => None
        case Some(i) =>
          assert openings[..i + 1] == [openings[0]] + openings[1..][..i];
          Some(i + 1)
  }

  /** The coins up to the first without an opening, each with the place of its first. */
  function Located(openings: seq<Coin>, coins: seq<Coin>): (r: seq<AcceptedCoin>)
    ensures |r| <= |coins| && forall i | 0 <= i < |r| ::
              r[i].coin == coins[i] && r[i].selector < |openings| && openings[r[i].selector] == coins[i]
              && coins[i] !in openings[..r[i].selector]
    ensures |r| < |coins| ==> coins[|r|] !in openings
  {
    if coins == [] || OpeningOf(openings, coins[0]).None? then []
    else
      assert coins == [coins[0]] + coins[1..];
      [AcceptedCoin(coins[0], OpeningOf(openings, coins[0]).value)] + Located(openings, coins[1..])
  }

  /** `verify_with_provenance`, once the consignment is accepted. */
  function Verified(scheme: Scheme, w: Wallet, accepted: seq<AcceptedCoin>, proof: Bytes, parent: Option<Hash>): Wallet {
    w.(coins := ReceiveAll(scheme, w.coins, Incoming(accepted, proof, parent)))
  }

  ghost function ReceiveLocated(scheme: Scheme, coins: seq<StoredCoin>, c: Consignment, arriving: seq<Coin>,
                                parent: Option<Hash>): seq<StoredCoin> {
    ReceiveAll(scheme, coins, Incoming(Located(c.openings, arriving), c.proof, parent))
  }

  ghost predicate AllOpened(openings: seq<Coin>, coins: seq<Coin>) {
    forall c | c in coins :: c in openings
  }

  lemma OpenedStep(openings: seq<Coin>, coins: seq<Coin>)
    requires coins != []
    ensures AllOpened(openings, coins) <==> OpeningOf(openings, coins[0]).Some? && AllOpened(openings, coins[1..])
  {
    hide OpeningOf;
    assert coins == [coins[0]] + coins[1..];
  }

  lemma NothingLocated(scheme: Scheme, coins: seq<StoredCoin>, c: Consignment, parent: Option<Hash>)
    ensures ReceiveLocated(scheme, coins, c, [], parent) == coins && AllOpened(c.openings, [])
  {
  }

  lemma LocatedStep(scheme: Scheme, coins: seq<StoredCoin>, c: Consignment, arriving: seq<Coin>, parent: Option<Hash>)
    requires arriving != []
    ensures OpeningOf(c.openings, arriving[0]).None? ==>
              ReceiveLocated(scheme, coins, c, arriving, parent) == coins && Located(c.openings, arriving) == []
    ensures OpeningOf(c.openings, arriving[0]).Some? ==>
              var stored := StoredCoin(arriving[0], Unspent, c.proof, OpeningOf(c.openings, arriving[0]).value, parent);
              ReceiveLocated(scheme, coins, c, arriving, parent)
              == ReceiveLocated(scheme, Store(scheme, coins, Received(scheme, coins, stored)), c, arriving[1..], parent)
  {
    hide Store, Received, OpeningOf;
    if OpeningOf(c.openings, arriving[0]).Some? {
      var all, rest := Located(c.openings, arriving), Located(c.openings, arriving[1..]);
      assert Incoming(all, c.proof, parent)[1..] == Incoming(rest, c.proof, parent);
    }
  }

  /** `freeze_unconfirmed_anchor` */
  function Froze(w: Wallet, txid: Hash): Wallet {
    w.(coins := seq(|w.coins|, i requires 0 <= i < |w.coins| => FrozenBy(w.coins[i], txid)))
  }

  function FrozenBy(c: StoredCoin, txid: Hash): StoredCoin {
    if c.status == Unspent && c.parent == Some(txid) then c.(status := Frozen) else c
  }

  /** The first key of the owner. */
  function SecretFor(scheme: Scheme, keys: seq<Hash>, owner: Hash): (r: Option<Hash>)
    ensures r.Some? <==> Owned(scheme, keys, owner)
  {
    if keys == [] then None
    else if scheme.ownerOf(keys[0]) == owner then assert Owned(scheme, keys, owner); Some(keys[0])
    else
      assert forall k | 0 < k < |keys| :: keys[k] == keys[1..][k - 1];
      assert forall k | 0 <= k < |keys| - 1 :: keys[1..][k] == keys[k + 1];
      SecretFor(scheme, keys[1..], owner)
  }

  /** `mark_confirmed_spent_nullifiers` */
  function Reconciled(scheme: Scheme, w: Wallet, confirmed: set<Hash>): Wallet {
    w.(coins := seq(|w.coins|, i requires 0 <= i < |w.coins| => ReconciledCoin(scheme, w.keys, w.coins[i], confirmed)))
  }

  /** An unspent coin of ours whose nullifier is confirmed. */
  function SpentElsewhere(scheme: Scheme, keys: seq<Hash>, confirmed: set<Hash>): StoredCoin -> bool {
    (c: StoredCoin) =>
      var secret := SecretFor(scheme, keys, c.coin.owner);
      c.status == Unspent && secret.Some? && scheme.nullifier(c.coin, secret.value) in confirmed
  }

  function ReconciledCoin(scheme: Scheme, keys: seq<Hash>, c: StoredCoin, confirmed: set<Hash>): StoredCoin {
    if SpentElsewhere(scheme, keys, confirmed)(c) then c.(status := Spent) else c
  }

  /** Marking by identifier, coin by coin. */
  lemma {:induction false} MarkedByIds(scheme: Scheme, coins: seq<StoredCoin>, ids: seq<Hash>)
    requires UniqueIds(scheme, coins)
    ensures var r := MarkAll(scheme, coins, ids);
            forall i | 0 <= i < |coins| ::
              r[i] == if Id(scheme, coins[i]) in ids then coins[i].(status := Spent) else coins[i]
    decreases |ids|
  {
    if ids != [] {
      var next := SetStatus(scheme, coins, ids[0], Spent);
      MarkedByIds(scheme, next, ids[1..]);
      assert ids == [ids[0]] + ids[1..];
    }
  }

  /** Collecting the identifiers and then marking them reconciles exactly the coins meant. */
  lemma MarkCollected(scheme: Scheme, w: Wallet, confirmed: set<Hash>)
    requires UniqueIds(scheme, w.coins)
    ensures MarkAll(scheme, w.coins, Ids(scheme, Filter(w.coins, SpentElsewhere(scheme, w.keys, confirmed))))
         == Reconciled(scheme, w, confirmed).coins
  {
    hide MarkAll, SpentElsewhere;
    var p := SpentElsewhere(scheme, w.keys, confirmed);
    var spent := Filter(w.coins, p);
    MarkedByIds(scheme, w.coins, Ids(scheme, spent));
    forall i | 0 <= i < |w.coins| ensures Id(scheme, w.coins[i]) in Ids(scheme, spent) <==> p(w.coins[i]) {
      if p(w.coins[i]) {
        var j :| 0 <= j < |spent| && spent[j] == w.coins[i];
        assert Ids(scheme, spent)[j] == Id(scheme, w.coins[i]);
      }
      if Id(scheme, w.coins[i]) in Ids(scheme, spent) {
        var j :| 0 <= j < |spent| && Ids(scheme, spent)[j] == Id(scheme, w.coins[i]);
        assert spent[j] in w.coins;
        var k :| 0 <= k < |w.coins| && w.coins[k] == spent[j];
      }
    }
  }

  /** `mark_spent`, up to the first identifier the wallet does not hold. */
  function MarkedSpent(scheme: Scheme, w: Wallet, ids: seq<Hash>): Wallet
    decreases |ids|
  {
    if ids == [] || Find(scheme, w.coins, ids[0]).None? then w
    else MarkedSpent(scheme, w.(coins := SetStatus(scheme, w.coins, ids[0], Spent)), ids[1..])
  }

  /** Take up a pending transaction under the next number. */
  function Pushed(w: Wallet, p: Pending): Wallet {
    w.(pending := w.pending[w.next := p], next := w.next + 1)
  }

  // -- proving a transfer ----------------------------------------------------------------------------

  function Total(amounts: seq<u64>): Option<u64> {
    if amounts == [] then Some(0)
    else
      var rest :- Total(amounts[..|amounts| - 1]);
      var sum := rest + amounts[|amounts| - 1];
      if sum < U64_LIMIT then Some(sum) else None
  }

  function Amounts(coins: seq<StoredCoin>): (r: seq<u64>)
    ensures |r| == |coins|
  {
    seq(|coins|, i requires 0 <= i < |coins| => coins[i].coin.amount)
  }

  /** `outputs_with_change`: the payment, then change or a zero-value filler. */
  function Outputs(asset: Hash, to: Hash, changeOwner: Hash, amounts: seq<u64>, r0: Hash, r1: Hash): Option<seq<Coin>> {
    if |amounts| == 1 then Some([Coin(asset, amounts[0], to, r0), Coin(asset, 0, changeOwner, r1)])
    else if |amounts| == 2 then Some([Coin(asset, amounts[0], to, r0), Coin(asset, amounts[1], changeOwner, r1)])
    else None
  }

  function Lookup(scheme: Scheme, coins: seq<StoredCoin>, ids: seq<Hash>): (r: Option<seq<StoredCoin>>)
    ensures r.Some? ==> |r.value| == |ids|
    ensures r.Some? ==> forall i | 0 <= i < |ids| :: r.value[i] in coins && Id(scheme, r.value[i]) == ids[i]
  {
    if ids == [] then Some([])
    else
      var front :- Lookup(scheme, coins, ids[..|ids| - 1]);
      var last :- Find(scheme, coins, ids[|ids| - 1]);
      Some(front + [coins[last]])
  }

  function Ids(scheme: Scheme, coins: seq<StoredCoin>): (r: seq<Hash>)
    ensures |r| == |coins|
  {
    seq(|coins|, i requires 0 <= i < |coins| => Id(scheme, coins[i]))
  }

  /** The unconfirmed parents of the inputs, sorted and without repeats. */
  function Dependencies(inputs: seq<StoredCoin>): seq<Hash> {
    if inputs == [] then []
    else
      var rest := Dependencies(inputs[1..]);
      match inputs[0].parent
      case None => rest
      case Some(txid) => if txid in rest then rest else Insert(txid, rest, LexLe)
  }

  predicate InputsFit(scheme: Scheme, keys: seq<Hash>, inputs: seq<StoredCoin>)
    requires inputs != []
  {
    forall i | 0 <= i < |inputs| ::
      && inputs[i].status != Spent && Owned(scheme, keys, inputs[i].coin.owner)
      && inputs[i].coin.assetId == inputs[0].coin.assetId
  }

  predicate SameTotal(a: seq<u64>, b: seq<u64>) {
    Total(a).Some? && Total(a) == Total(b)
  }

  function NonZero(nullifiers: seq<Hash>): seq<Hash> {
    if nullifiers == [] then []
    else (if nullifiers[0] == seq(32, i => 0) then [] else [nullifiers[0]]) + NonZero(nullifiers[1..])
  }

  /** `prove_transfer`, of coins named in full; `r0` and `r1` are the outputs' randomness. */
  function Transfer(scheme: Scheme, prover: Prover, w: Wallet, ids: seq<Hash>, to: Hash, amounts: seq<u64>, r0: Hash,
                    r1: Hash): Option<Pending>
  {
    if !(1 <= |ids| <= 2) || (|ids| == 2 && ids[0] == ids[1]) then None
    else
      var inputs :- Lookup(scheme, w.coins, ids);
      if !InputsFit(scheme, w.keys, inputs) || !SameTotal(Amounts(inputs), amounts) || w.keys == [] then None
      else
        var asset := inputs[0].coin.assetId;
        var outputs :- Outputs(asset, to, scheme.ownerOf(w.keys[0]), amounts, r0, r1);
        var proof :- prover(inputs, outputs);
        if NonZero(proof.nullifiers) == [] then None
        else Some(Pending(outputs, NonZero(proof.nullifiers), proof.bytes, Ids(scheme, inputs), Dependencies(inputs)))
  }

  function SumOf(amounts: seq<nat>): nat {
    if amounts == [] then 0 else amounts[0] + SumOf(amounts[1..])
  }

  lemma TwoSum(a: nat, b: nat)
    ensures SumOf([a]) == a && SumOf([a, b]) == a + b
  {
    assert [a][1..] == [] && [a, b][1..] == [b] && [b][1..] == [];
    assert SumOf([b]) == b;
  }

  lemma TotalsAdd(amounts: seq<u64>)
    requires 1 <= |amounts| <= 2
    ensures Total(amounts) == if SumOf(amounts) < U64_LIMIT then Some(SumOf(amounts)) else None
  {
    TwoSum(amounts[0], if |amounts| == 2 then amounts[1] else 0);
    assert Total([]) == Some(0);
    assert amounts[..1] == [amounts[0]] && [amounts[0]][..0] == [];
    assert |amounts| == 1 ==> amounts == [amounts[0]];
    assert |amounts| == 2 ==> amounts == [amounts[0], amounts[1]] && amounts[..|amounts| - 1] == [amounts[0]];
    assert Total([amounts[0]]) == Some(amounts[0]);
  }

  /** The wallet's coins of these names. */
  ghost predicate Named(scheme: Scheme, coins: seq<StoredCoin>, ids: seq<Hash>, inputs: seq<StoredCoin>) {
    |inputs| == |ids| && forall i | 0 <= i < |ids| :: inputs[i] in coins && Id(scheme, inputs[i]) == ids[i]
  }

  /**
   * What a transfer takes: one or two different coins the wallet holds, none of them
   * spent, all of them its own and of one asset, worth exactly the one or two
   * amounts, in 64 bits; and a key for the change.
   */
  ghost predicate TransferAllowed(scheme: Scheme, w: Wallet, ids: seq<Hash>, amounts: seq<u64>) {
    && 1 <= |ids| <= 2 && (|ids| == 2 ==> ids[0] != ids[1]) && 1 <= |amounts| <= 2 && w.keys != []
    && exists inputs :: Named(scheme, w.coins, ids, inputs)
         && InputsFit(scheme, w.keys, inputs) && SumOf(Amounts(inputs)) == SumOf(amounts) < U64_LIMIT
  }

  /** A prover that proves everything it is asked to. */
  ghost predicate Willing(prover: Prover) {
    forall inputs, outputs :: prover(inputs, outputs).Some? && NonZero(prover(inputs, outputs).value.nullifiers) != []
  }

  /** A payment of the first amount to `to`, and what is left, if anything, back to ourselves. */
  ghost predicate PaysTo(scheme: Scheme, keys: seq<Hash>, p: Pending, to: Hash, amounts: seq<u64>) {
    && |p.openings| == 2 && 1 <= |amounts| <= 2
    && p.openings[0].owner == to && p.openings[0].amount == amounts[0]
    && Owned(scheme, keys, p.openings[1].owner) && p.openings[1].amount == (if |amounts| == 2 then amounts[1] else 0)
    && p.openings[0].assetId == p.openings[1].assetId
  }

  lemma {:induction false} LookupFinds(scheme: Scheme, coins: seq<StoredCoin>, ids: seq<Hash>, inputs: seq<StoredCoin>)
    requires UniqueIds(scheme, coins) && Named(scheme, coins, ids, inputs)
    ensures Lookup(scheme, coins, ids) == Some(inputs)
  {
    if ids != [] {
      var n := |ids| - 1;
      LookupFinds(scheme, coins, ids[..n], inputs[..n]);
      var k :| 0 <= k < |coins| && coins[k] == inputs[n];
      assert Find(scheme, coins, ids[n]).Some?;
      assert inputs == inputs[..n] + [inputs[n]];
    }
  }

  /** A transfer is made exactly when it is allowed and the prover does not refuse. */
  lemma TransferIffAllowed(scheme: Scheme, prover: Prover, w: Wallet, ids: seq<Hash>, to: Hash, amounts: seq<u64>,
                           r0: Hash, r1: Hash)
    ensures var r := Transfer(scheme, prover, w, ids, to, amounts, r0, r1);
            && (r.Some? ==> TransferAllowed(scheme, w, ids, amounts))
            && (UniqueIds(scheme, w.coins) && TransferAllowed(scheme, w, ids, amounts) && Willing(prover) ==> r.Some?)
            && (r.Some? ==> r.value.spentIds == ids && PaysTo(scheme, w.keys, r.value, to, amounts))
  {
    hide InputsFit, Lookup, NonZero, Total, SumOf;
    if Transfer(scheme, prover, w, ids, to, amounts, r0, r1).Some? {
      var inputs := Lookup(scheme, w.coins, ids).value;
      TotalsAdd(amounts);
      TotalsAdd(Amounts(inputs));
      assert Named(scheme, w.coins, ids, inputs);
      assert Ids(scheme, inputs) == ids;
    }
    if UniqueIds(scheme, w.coins) && TransferAllowed(scheme, w, ids, amounts) {
      var inputs :| Named(scheme, w.coins, ids, inputs) && InputsFit(scheme, w.keys, inputs)
                    && SumOf(Amounts(inputs)) == SumOf(amounts) < U64_LIMIT;
      LookupFinds(scheme, w.coins, ids, inputs);
      TotalsAdd(amounts);
      TotalsAdd(Amounts(inputs));
    }
  }

  function Reserved(w: Wallet): set<Hash> {
    set k, i | k in w.pending && 0 <= i < |w.pending[k].spentIds| :: w.pending[k].spentIds[i]
  }

  function PurseOf(scheme: Scheme, w: Wallet, asset: Hash): Purse {
    Purse(scheme, w.keys, w.coins, Reserved(w), asset)
  }

  function Payment(amount: u64, total: nat): seq<u64>
    requires amount <= total < U64_LIMIT
  {
    if total == amount then [amount] else [amount, total - amount]
  }

  class MemWallet {
    const scheme: Scheme
    var keys: seq<Hash>
    var coins: seq<StoredCoin>
    var pending: map<nat, Pending>
    var nextPending: nat

    function State(): Wallet
      reads this
    {
      Wallet(keys, coins, pending, nextPending)
    }

    constructor (scheme: Scheme)
      ensures State() == EMPTY && this.scheme == scheme
    {
      this.scheme := scheme;
      keys, coins, pending, nextPending := [], [], map[], 1;
    }

    method PushPending(p: Pending) returns (id: nat)
      modifies this
      ensures State() == Pushed(old(State()), p) && id == old(nextPending)
    {
      id := nextPending;
      nextPending := nextPending + 1;
      pending := pending[id := p];
    }

    /**
     * Succeeds exactly on an allowed transfer the prover does not refuse; adds one pending
     * transaction that spends those coins and pays `to`, and touches nothing else.
     */
    method ProveTransfer(prover: Prover, ids: seq<Hash>, to: Hash, amounts: seq<u64>, r0: Hash, r1: Hash)
      returns (r: Option<nat>)
      modifies this
      ensures r.Some? ==> TransferAllowed(scheme, old(State()), ids, amounts)
      ensures UniqueIds(scheme, old(coins)) && TransferAllowed(scheme, old(State()), ids, amounts) && Willing(prover) ==>
                r.Some?
      ensures r.None? ==> State() == old(State())
      ensures r.Some? ==>
                && r.value == old(nextPending) && r.value in pending
                && State() == Pushed(old(State()), pending[r.value])
                && pending[r.value].spentIds == ids && PaysTo(scheme, keys, pending[r.value], to, amounts)
      ensures match Transfer(scheme, prover, old(State()), ids, to, amounts, r0, r1)
              case None => r == None && State() == old(State())
              case Some(p) => r == Some(old(nextPending)) && State() == Pushed(old(State()), p)
    {
      hide Transfer, TransferAllowed, PaysTo, Willing;
      var p := Transfer(scheme, prover, State(), ids, to, amounts, r0, r1);
      TransferIffAllowed(scheme, prover, State(), ids, to, amounts, r0, r1);
      if p.None? {
        return None;
      }
      var id := PushPending(p.value);
      r := Some(id);
    }

    /** `prove_transfer_amount`: select, split off change, prove. */
    method ProveTransferAmount(prover: Prover, asset: Hash, to: Hash, amount: u64, r0: Hash, r1: Hash)
      returns (r: Option<nat>, ghost choice: Option<Choice>)
      requires UniqueIds(scheme, coins)
      modifies this
      ensures choice.None? ==>
                && r == None && State() == old(State())
                && (amount == 0 || forall c :: !IsSpend(old(PurseOf(scheme, State(), asset)), amount, c))
      ensures choice.Some? ==>
                && LeastSpend(old(PurseOf(scheme, State(), asset)), amount, choice.value)
                && amount <= choice.value.total < U64_LIMIT
                && match Transfer(scheme, prover, old(State()), choice.value.ids, to,
                                  Payment(amount, choice.value.total), r0, r1)
                   case None => r == None && State() == old(State())
                   case Some(p) => r == Some(old(nextPending)) && State() == Pushed(old(State()), p)
    {
      hide Transfer, LeastSpend, IsSpend;
      var chosen := SelectInputs(PurseOf(scheme, State(), asset), amount);
      choice := chosen;
      if chosen.None? {
        return None, chosen;
      }
      LeastIsSpend(PurseOf(scheme, State(), asset), amount, chosen.value);
      SpendTotals(PurseOf(scheme, State(), asset), amount, chosen.value);
      r := ProveTransfer(prover, chosen.value.ids, to, Payment(amount, chosen.value.total), r0, r1);
    }

    method Finalize(id: nat, anchor: Anchor) returns (ok: bool)
      modifies this
      ensures match Finalized(scheme, old(State()), id, anchor)
              case None => !ok && State() == old(State())
              case Some(w) => ok && State() == w
    {
      if id !in pending {
        return false;
      }
      var p := pending[id];
      pending := pending - {id};
      ghost var goal := MarkAll(scheme, coins, p.spentIds);
      for i := 0 to |p.spentIds|
        invariant goal == MarkAll(scheme, coins, p.spentIds[i..])
        invariant keys == old(keys) && pending == old(pending) - {id} && nextPending == old(nextPending)
      {
        assert p.spentIds[i..][0] == p.spentIds[i] && p.spentIds[i..][1..] == p.spentIds[i + 1..];
        var at := Find(scheme, coins, p.spentIds[i]);
        if at.Some? {
          coins := coins[at.value := coins[at.value].(status := Spent)];
        }
      }
      CreditLocalOutputs(p, if anchor.mempool then Some(anchor.txid) else None);
      ok := true;
    }

    method CreditLocalOutputs(p: Pending, parent: Option<Hash>)
      modifies this`coins
      ensures coins == CreditAll(scheme, old(coins), LocalOutputs(scheme, keys, p, parent, 0))
    {
      var local := CollectLocal(p, parent);
      ghost var goal := CreditAll(scheme, coins, local);
      for i := 0 to |local|
        invariant goal == CreditAll(scheme, coins, local[i..])
      {
        assert local[i..][0] == local[i] && local[i..][1..] == local[i + 1..];
        coins := Store(scheme, coins, Credited(scheme, coins, local[i]));
      }
    }

    method CollectLocal(p: Pending, parent: Option<Hash>) returns (local: seq<StoredCoin>)
      ensures local == LocalOutputs(scheme, keys, p, parent, 0)
    {
      hide Owned, LocalOutputs;
      local := [];
      for k := 0 to |p.openings|
        invariant LocalOutputs(scheme, keys, p, parent, 0) == local + LocalOutputs(scheme, keys, p, parent, k)
      {
        LocalOutputsStep(scheme, keys, p, parent, k);
        if Owned(scheme, keys, p.openings[k].owner) {
          local := local + [StoredCoin(p.openings[k], Unspent, p.proof, k, parent)];
        }
      }
      LocalOutputsDone(scheme, keys, p, parent);
      assert local + [] == local;
    }

    /** An accepted coin without an opening ends the loop; what was stored before it stays. */
    method VerifyWithProvenance(accept: Acceptor, c: Consignment, parent: Option<Hash>) returns (r: Verification)
      modifies this`coins
      ensures r.Refused? <==> accept(c, keys).None?
      ensures r.Refused? ==> State() == old(State())
      ensures !r.Refused? ==>
                && State() == Verified(scheme, old(State()), Located(c.openings, accept(c, keys).value), c.proof, parent)
                && (r.Accepted? <==> AllOpened(c.openings, accept(c, keys).value))
    {
      hide OpeningOf, Received, Store, ReceiveAll, Incoming, Located, AllOpened;
      var accepted := accept(c, keys);
      if accepted.None? {
        return Refused;
      }
      var arriving := accepted.value;
      ghost var goal := ReceiveLocated(scheme, coins, c, arriving, parent);
      for i := 0 to |arriving|
        invariant keys == old(keys)
        invariant goal == ReceiveLocated(scheme, coins, c, arriving[i..], parent)
        invariant AllOpened(c.openings, arriving) <==> AllOpened(c.openings, arriving[i..])
      {
        assert arriving[i..][0] == arriving[i] && arriving[i..][1..] == arriving[i + 1..];
        LocatedStep(scheme, coins, c, arriving[i..], parent);
        OpenedStep(c.openings, arriving[i..]);
        var selector := OpeningOf(c.openings, arriving[i]);
        if selector.None? {
          return Failed;
        }
        var stored := StoredCoin(arriving[i], Unspent, c.proof, selector.value, parent);
        coins := Store(scheme, coins, Received(scheme, coins, stored));
      }
      NothingLocated(scheme, coins, c, parent);
      r := Accepted;
    }

    method FreezeUnconfirmedAnchor(txid: Hash)
      modifies this`coins
      ensures State() == Froze(old(State()), txid)
    {
      for i := 0 to |coins|
        invariant |coins| == |old(coins)|
        invariant forall k | 0 <= k < i :: coins[k] == FrozenBy(old(coins)[k], txid)
        invariant forall k | i <= k < |coins| :: coins[k] == old(coins)[k]
      {
        coins := coins[i := FrozenBy(coins[i], txid)];
      }
      assert coins == Froze(old(State()), txid).coins;
    }

    /** Collect the identifiers, then mark them; they are the result. */
    method MarkConfirmedSpentNullifiers(confirmed: set<Hash>) returns (ids: seq<Hash>)
      modifies this`coins
      ensures State() == old(State()).(coins := MarkAll(scheme, old(coins), ids))
      ensures UniqueIds(scheme, old(coins)) ==> State() == Reconciled(scheme, old(State()), confirmed)
      ensures ids == Ids(scheme, Filter(old(coins), SpentElsewhere(scheme, keys, confirmed)))
    {
      hide SpentElsewhere;
      ids := Ids(scheme, Filter(coins, SpentElsewhere(scheme, keys, confirmed)));
      if UniqueIds(scheme, coins) {
        MarkCollected(scheme, State(), confirmed);
      }
      for i := 0 to |ids|
        invariant MarkAll(scheme, old(coins), ids) == MarkAll(scheme, coins, ids[i..])
      {
        assert ids[i..][0] == ids[i] && ids[i..][1..] == ids[i + 1..];
        var at := Find(scheme, coins, ids[i]);
        if at.Some? {
          coins := coins[at.value := coins[at.value].(status := Spent)];
        }
      }
    }

    method MarkSpent(ids: seq<Hash>) returns (ok: bool)
      modifies this`coins
      ensures State() == MarkedSpent(scheme, old(State()), ids)
      ensures ok <==> forall i | 0 <= i < |ids| :: Find(scheme, old(coins), ids[i]).Some?
    {
      ghost var goal := MarkedSpent(scheme, State(), ids);
      for i := 0 to |ids|
        invariant goal == MarkedSpent(scheme, State(), ids[i..])
        invariant SameIds(scheme, old(coins), coins)
        invariant forall k | 0 <= k < i :: Find(scheme, old(coins), ids[k]).Some?
      {
        assert ids[i..][0] == ids[i] && ids[i..][1..] == ids[i + 1..];
        SameFound(scheme, old(coins), coins, ids[i]);
        var at := Find(scheme, coins, ids[i]);
        if at.None? {
          return false;
        }
        coins := coins[at.value := coins[at.value].(status := Spent)];
      }
      ok := true;
    }

    method CancelPending(id: nat) returns (existed: bool)
      modifies this`pending
      ensures existed == (id in old(pending)) && State() == old(State()).(pending := old(pending) - {id})
    {
      existed := id in pending;
      pending := pending - {id};
    }
  }

  /** Position by position, the same identifiers. */
  ghost predicate SameIds(scheme: Scheme, a: seq<StoredCoin>, b: seq<StoredCoin>) {
    |a| == |b| && forall i | 0 <= i < |a| :: Id(scheme, a[i]) == Id(scheme, b[i])
  }

  lemma SameFound(scheme: Scheme, a: seq<StoredCoin>, b: seq<StoredCoin>, id: Hash)
    requires SameIds(scheme, a, b)
    ensures Find(scheme, a, id).Some? <==> Find(scheme, b, id).Some?
  {
  }

  lemma LeastIsSpend(purse: Purse, amount: nat, c: Choice)
    requires LeastSpend(purse, amount, c)
    ensures IsSpend(purse, amount, c)
  {
    hide IsSpend;
  }
}
