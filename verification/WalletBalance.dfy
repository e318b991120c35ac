/** What finalizing a selected payment does to the balance (`ffi/src/wallet.rs`). */
module WalletBalance {
  import opened Wrappers
  import opened Wire
  import opened CoinSelection
  import opened Wallets
  import opened WalletRuns

  /** What one coin contributes to the balance of an asset. */
  function Worth(c: StoredCoin, asset: Hash): nat {
    if c.status == Unspent && c.coin.assetId == asset then c.coin.amount else 0
  }

  /** `balance`, for one asset. */
  function Balance(coins: seq<StoredCoin>, asset: Hash): nat {
    if coins == [] then 0 else Balance(coins[..|coins| - 1], asset) + Worth(coins[|coins| - 1], asset)
  }

  lemma {:induction false} BalanceUpdate(coins: seq<StoredCoin>, i: nat, c: StoredCoin, asset: Hash)
    requires i < |coins|
    ensures Balance(coins[i := c], asset) + Worth(coins[i], asset) == Balance(coins, asset) + Worth(c, asset)
    decreases |coins|
  {
    var n := |coins| - 1;
    if i < n {
      assert coins[i := c][..n] == coins[..n][i := c];
      BalanceUpdate(coins[..n], i, c, asset);
    } else {
      assert coins[i := c][..n] == coins[..n];
    }
  }

  lemma BalanceAppend(coins: seq<StoredCoin>, c: StoredCoin, asset: Hash)
    ensures Balance(coins + [c], asset) == Balance(coins, asset) + Worth(c, asset)
  {
    assert (coins + [c])[..|coins|] == coins;
  }

  /** `id` names an unspent coin worth `amount` of `asset`. */
  ghost predicate Holds(scheme: Scheme, coins: seq<StoredCoin>, id: Hash, asset: Hash, amount: nat) {
    exists i | 0 <= i < |coins| ::
      Id(scheme, coins[i]) == id && coins[i].status == Unspent && coins[i].coin.assetId == asset && coins[i].coin.amount == amount
  }

  lemma FindUnique(scheme: Scheme, coins: seq<StoredCoin>, i: nat)
    requires UniqueIds(scheme, coins) && i < |coins|
    ensures Find(scheme, coins, Id(scheme, coins[i])) == Some(i)
  {
    var r := Find(scheme, coins, Id(scheme, coins[i]));
    assert r.Some?;
  }

  lemma SpendingLowers(scheme: Scheme, coins: seq<StoredCoin>, id: Hash, asset: Hash, amount: nat, any: Hash)
    requires UniqueIds(scheme, coins) && Holds(scheme, coins, id, asset, amount)
    ensures var r := SetStatus(scheme, coins, id, Spent);
            && UniqueIds(scheme, r)
            && Balance(r, any) + (if any == asset then amount else 0) == Balance(coins, any)
            && (forall x | 0 <= x < |coins| && Id(scheme, coins[x]) != id :: r[x] == coins[x])
  {
    hide Balance;
    var i :| 0 <= i < |coins| && Id(scheme, coins[i]) == id && coins[i].status == Unspent
             && coins[i].coin.assetId == asset && coins[i].coin.amount == amount;
    FindUnique(scheme, coins, i);
    BalanceUpdate(coins, i, coins[i].(status := Spent), any);
  }

  lemma StillHeld(scheme: Scheme, coins: seq<StoredCoin>, later: seq<StoredCoin>, id: Hash, other: Hash, asset: Hash,
                  amount: nat)
    requires |later| == |coins| && id != other && Holds(scheme, coins, id, asset, amount)
    requires forall x | 0 <= x < |coins| && Id(scheme, coins[x]) != other :: later[x] == coins[x]
    ensures Holds(scheme, later, id, asset, amount)
  {
    var i :| 0 <= i < |coins| && Id(scheme, coins[i]) == id && coins[i].status == Unspent
             && coins[i].coin.assetId == asset && coins[i].coin.amount == amount;
    assert later[i] == coins[i];
  }

  /** Marking distinct held coins spent takes exactly their value out of the balance. */
  lemma {:induction false} MarkingLowers(scheme: Scheme, coins: seq<StoredCoin>, ids: seq<Hash>, amounts: seq<nat>,
                                         asset: Hash, any: Hash)
    requires UniqueIds(scheme, coins) && |ids| == |amounts|
    requires forall i | 0 <= i < |ids| :: Holds(scheme, coins, ids[i], asset, amounts[i])
    requires forall i, j | 0 <= i < j < |ids| :: ids[i] != ids[j]
    ensures var r := MarkAll(scheme, coins, ids);
            Balance(r, any) + (if any == asset then SumOf(amounts) else 0) == Balance(coins, any)
    decreases |ids|
  {
    hide Balance, SetStatus, Holds;
    if ids != [] {
      SpendingLowers(scheme, coins, ids[0], asset, amounts[0], any);
      var next := SetStatus(scheme, coins, ids[0], Spent);
      forall i | 0 <= i < |ids[1..]| ensures Holds(scheme, next, ids[1..][i], asset, amounts[1..][i]) {
        StillHeld(scheme, coins, next, ids[i + 1], ids[0], asset, amounts[i + 1]);
      }
      MarkingLowers(scheme, next, ids[1..], amounts[1..], asset, any);
    }
  }

  /** A payment of `amount` whose inputs total `total`: recipient first, then change to ourselves. */
  ghost predicate PaysOut(scheme: Scheme, w: Wallet, p: Pending, asset: Hash, amount: nat, inputs: seq<nat>) {
    && |p.openings| == 2
    && p.openings[0].assetId == asset && p.openings[1].assetId == asset
    && p.openings[0].amount == amount && p.openings[1].amount + amount == SumOf(inputs)
    && Owned(scheme, w.keys, p.openings[1].owner)
    && |p.spentIds| == |inputs| && forall i, j | 0 <= i < j < |p.spentIds| :: p.spentIds[i] != p.spentIds[j]
  }

  function NatAmounts(inputs: seq<StoredCoin>): (r: seq<nat>)
    ensures |r| == |inputs| && forall i | 0 <= i < |r| :: r[i] == inputs[i].coin.amount
  {
    Amounts(inputs)
  }

  /** What a proved transfer of `total` with a payment of `amount` looks like when it is finalized. */
  lemma TransferPaysOut(scheme: Scheme, prover: Prover, w: Wallet, ids: seq<Hash>, to: Hash, amount: u64, total: nat,
                        r0: Hash, r1: Hash)
    requires amount <= total < U64_LIMIT
    requires Transfer(scheme, prover, w, ids, to, Payment(amount, total), r0, r1).Some?
    ensures Lookup(scheme, w.coins, ids).Some?
    ensures var p := Transfer(scheme, prover, w, ids, to, Payment(amount, total), r0, r1).value;
            var inputs := Lookup(scheme, w.coins, ids).value;
            && inputs != [] && PaysOut(scheme, w, p, inputs[0].coin.assetId, amount, NatAmounts(inputs))
            && p.openings[0].owner == to && p.spentIds == ids
  {
    hide Lookup;
    var inputs := Lookup(scheme, w.coins, ids).value;
    var amounts := Payment(amount, total);
    TransferSpends(scheme, prover, w, ids, to, amounts, r0, r1);
    TotalsAdd(amounts);
    TotalsAdd(Amounts(inputs));
    TwoSum(inputs[0].coin.amount, if |inputs| == 2 then inputs[1].coin.amount else 0);
    assert NatAmounts(inputs) == if |inputs| == 1 then [inputs[0].coin.amount]
                                 else [inputs[0].coin.amount, inputs[1].coin.amount];
    assert scheme.ownerOf(w.keys[0]) == Outputs(inputs[0].coin.assetId, to, scheme.ownerOf(w.keys[0]), amounts, r0, r1).value[1].owner;
  }

  lemma ChangeComesBack(scheme: Scheme, keys: seq<Hash>, p: Pending, parent: Option<Hash>)
    requires |p.openings| == 2 && !Owned(scheme, keys, p.openings[0].owner) && Owned(scheme, keys, p.openings[1].owner)
    ensures LocalOutputs(scheme, keys, p, parent, 0) == [StoredCoin(p.openings[1], Unspent, p.proof, 1, parent)]
  {
    hide Owned;
    assert LocalOutputs(scheme, keys, p, parent, 2) == [];
    assert LocalOutputs(scheme, keys, p, parent, 1)
        == [StoredCoin(p.openings[1], Unspent, p.proof, 1, parent)] + LocalOutputs(scheme, keys, p, parent, 2);
  }

  lemma CreditOne(scheme: Scheme, coins: seq<StoredCoin>, c: StoredCoin)
    requires forall i | 0 <= i < |coins| :: Id(scheme, coins[i]) != Id(scheme, c)
    ensures CreditAll(scheme, coins, [c]) == coins + [c]
  {
    assert Find(scheme, coins, Id(scheme, c)).None?;
    assert [c][1..] == [];
    assert CreditAll(scheme, coins + [c], []) == coins + [c];
  }

  lemma {:induction false} MarkKeepsIds(scheme: Scheme, coins: seq<StoredCoin>, ids: seq<Hash>)
    ensures var r := MarkAll(scheme, coins, ids);
            forall i | 0 <= i < |coins| :: Id(scheme, r[i]) == Id(scheme, coins[i])
    decreases |ids|
  {
    if ids != [] {
      MarkKeepsIds(scheme, SetStatus(scheme, coins, ids[0], Spent), ids[1..]);
    }
  }

  /**
   * Finalizing a payment whose inputs are still unspent and whose change is new to the
   * wallet lowers the balance of its asset by exactly the amount paid to someone
   * else, and leaves every other asset alone.
   */
  lemma FinalizeLowersByPayment(scheme: Scheme, w: Wallet, id: nat, anchor: Anchor, asset: Hash, amount: nat,
                                inputs: seq<nat>, any: Hash)
    requires UniqueIds(scheme, w.coins) && id in w.pending
    requires PaysOut(scheme, w, w.pending[id], asset, amount, inputs)
    requires !Owned(scheme, w.keys, w.pending[id].openings[0].owner)
    requires forall i | 0 <= i < |inputs| :: Holds(scheme, w.coins, w.pending[id].spentIds[i], asset, inputs[i])
    requires forall i | 0 <= i < |w.coins| :: Id(scheme, w.coins[i]) != scheme.commit(w.pending[id].openings[1])
    ensures Balance(Finalized(scheme, w, id, anchor).value.coins, any) + (if any == asset then amount else 0)
         == Balance(w.coins, any)
  {
    hide Balance, Holds, MarkAll, LocalOutputs, CreditAll, Owned;
    var p := w.pending[id];
    var parent := if anchor.mempool then Some(anchor.txid) else None;
    var marked := MarkAll(scheme, w.coins, p.spentIds);
    MarkingLowers(scheme, w.coins, p.spentIds, inputs, asset, any);
    MarkKeepsIds(scheme, w.coins, p.spentIds);
    ChangeComesBack(scheme, w.keys, p, parent);
    var change := StoredCoin(p.openings[1], Unspent, p.proof, 1, parent);
    CreditOne(scheme, marked, change);
    BalanceAppend(marked, change, any);
  }

  /** An action-level payment to a foreign owner, selected, proved and finalized at once. */
  lemma PaymentLowersByAmount(scheme: Scheme, prover: Prover, w: Wallet, act: Act, anchor: Anchor, any: Hash)
    requires UniqueIds(scheme, w.coins) && act.SelectAndProve? && Selected(scheme, prover, w, act).Some?
    requires !Owned(scheme, w.keys, act.to)
    requires var p := Selected(scheme, prover, w, act).value;
             |p.openings| == 2 ==>
               forall i | 0 <= i < |w.coins| :: Id(scheme, w.coins[i]) != scheme.commit(p.openings[1])
    ensures var after := Finalized(scheme, Apply(scheme, prover, w, act), w.next, anchor);
            && after.Some?
            && Balance(after.value.coins, any) + (if any == act.asset then act.amount else 0) == Balance(w.coins, any)
  {
    hide Balance, Finalized, Owned, Holds, Selected, UniqueIds;
    SelectedStart(scheme, prover, w, act);
    var inputs := SelectedHolds(scheme, prover, w, act);
    FinalizedSome(scheme, Apply(scheme, prover, w, act), w.next, anchor);
    FinalizeLowersByPayment(scheme, Apply(scheme, prover, w, act), w.next, anchor, act.asset, act.amount, inputs, any);
  }

  // -- over runs --------------------------------------------------------------------------------

  /** `id` is below the next number, and if it is still pending it is still `p`. */
  predicate Untouched(w: Wallet, id: nat, p: Pending) {
    id < w.next && (id in w.pending ==> w.pending[id] == p)
  }

  lemma StepUntouched(scheme: Scheme, prover: Prover, w: Wallet, act: Act, id: nat, p: Pending)
    requires Untouched(w, id, p)
    ensures var next := Apply(scheme, prover, w, act);
            Untouched(next, id, p) && w.keys <= next.keys
  {
    hide Selected, MarkAll, CreditAll, ReceiveAll, LocalOutputs, MarkedSpent;
    if act.MarkSpentIds? {
      PendingKept(scheme, w, act.ids);
      KeysKept(scheme, w, act.ids);
    }
  }

  lemma {:induction false} KeysKept(scheme: Scheme, w: Wallet, ids: seq<Hash>)
    ensures MarkedSpent(scheme, w, ids).keys == w.keys
    decreases |ids|
  {
    if ids != [] && Find(scheme, w.coins, ids[0]).Some? {
      KeysKept(scheme, w.(coins := SetStatus(scheme, w.coins, ids[0], Spent)), ids[1..]);
    }
  }

  /** Whatever happens next, a pending transaction stays as it was made until it is gone. */
  lemma {:induction false} RunUntouched(scheme: Scheme, prover: Prover, w: Wallet, acts: seq<Act>, id: nat, p: Pending)
    requires Untouched(w, id, p)
    ensures var end := Run(scheme, prover, w, acts);
            Untouched(end, id, p) && w.keys <= end.keys
    decreases |acts|
  {
    hide Apply, Untouched;
    if acts != [] {
      var n := |acts| - 1;
      RunUntouched(scheme, prover, w, acts[..n], id, p);
      StepUntouched(scheme, prover, Run(scheme, prover, w, acts[..n]), acts[n], id, p);
    }
  }

  lemma OwnedLater(scheme: Scheme, a: seq<Hash>, b: seq<Hash>, owner: Hash)
    requires Owned(scheme, a, owner) && a <= b
    ensures Owned(scheme, b, owner)
  {
    var k :| 0 <= k < |a| && scheme.ownerOf(a[k]) == owner;
    assert scheme.ownerOf(b[k]) == owner;
  }

  /** No two different coins of the lists have one identifier. */
  ghost predicate NoCoinCollision(scheme: Scheme, a: seq<StoredCoin>, b: seq<StoredCoin>) {
    forall x, y | x in a && y in b && Id(scheme, x) == Id(scheme, y) :: x.coin == y.coin
  }

  /** The coin of this name is unspent wherever it is held. */
  ghost predicate StillUnspent(scheme: Scheme, coins: seq<StoredCoin>, id: Hash) {
    forall c | c in coins && Id(scheme, c) == id :: c.status == Unspent
  }

  /** A coin held at one point of a run is held later, if it is unspent then. */
  lemma HeldLater(scheme: Scheme, a: seq<StoredCoin>, b: seq<StoredCoin>, thaw: set<Hash>, id: Hash, asset: Hash,
                  amount: nat)
    requires Evolves(scheme, a, b, thaw) && NoCoinCollision(scheme, a, b) && StillUnspent(scheme, b, id)
    requires Holds(scheme, a, id, asset, amount)
    ensures Holds(scheme, b, id, asset, amount)
  {
    var i :| 0 <= i < |a| && Id(scheme, a[i]) == id && a[i].status == Unspent
             && a[i].coin.assetId == asset && a[i].coin.amount == amount;
    assert a[i] in a && b[i] in b;
  }

  /**
   * A payment selected and proved at any point and finalized at any later one, other
   * operations in between: as long as its inputs are still unspent, its change is new
   * and its recipient is still not one of ours, the balance falls by exactly its amount.
   */
  lemma LaterPaymentLowersByAmount(scheme: Scheme, prover: Prover, w: Wallet, act: Act, acts: seq<Act>, anchor: Anchor,
                                   any: Hash)
    requires UniqueIds(scheme, w.coins) && act.SelectAndProve? && Selected(scheme, prover, w, act).Some?
    requires w.next in Run(scheme, prover, Apply(scheme, prover, w, act), acts).pending
    requires var end := Run(scheme, prover, Apply(scheme, prover, w, act), acts);
             var p := Selected(scheme, prover, w, act).value;
             && !Owned(scheme, end.keys, act.to) && NoCoinCollision(scheme, w.coins, end.coins)
             && (forall x | x in p.spentIds :: StillUnspent(scheme, end.coins, x))
             && (|p.openings| == 2 ==>
                   forall i | 0 <= i < |end.coins| :: Id(scheme, end.coins[i]) != scheme.commit(p.openings[1]))
    ensures var end := Run(scheme, prover, Apply(scheme, prover, w, act), acts);
            var after := Finalized(scheme, end, w.next, anchor);
            && after.Some?
            && Balance(after.value.coins, any) + (if any == act.asset then act.amount else 0) == Balance(end.coins, any)
  {
    hide Balance, Transfer, Finalized, Owned, AtMost, Sorting.LexLe, Holds, Run, Evolves, UniqueIds, IsSpend, LeastSpend,
         NoCoinCollision, StillUnspent, Lookup, Selected;
    var start := Apply(scheme, prover, w, act);
    var end := Run(scheme, prover, start, acts);
    var p := Selected(scheme, prover, w, act).value;
    SelectedStart(scheme, prover, w, act);
    RunEvolves(scheme, prover, start, acts);
    RunUntouched(scheme, prover, start, acts, w.next, p);
    var inputs := SelectedHolds(scheme, prover, w, act);
    OwnedLater(scheme, w.keys, end.keys, p.openings[1].owner);
    forall i | 0 <= i < |inputs| ensures Holds(scheme, end.coins, p.spentIds[i], act.asset, inputs[i]) {
      HeldLater(scheme, w.coins, end.coins, ThawedBy(scheme, acts), p.spentIds[i], act.asset, inputs[i]);
    }
    FinalizedSome(scheme, end, w.next, anchor);
    FinalizeLowersByPayment(scheme, end, w.next, anchor, act.asset, act.amount, inputs, any);
  }

  lemma SelectedStart(scheme: Scheme, prover: Prover, w: Wallet, act: Act)
    requires act.SelectAndProve? && Selected(scheme, prover, w, act).Some?
    ensures var start := Apply(scheme, prover, w, act);
            && start.coins == w.coins && start.keys == w.keys
            && Untouched(start, w.next, Selected(scheme, prover, w, act).value)
  {
    hide Selected;
  }

  /** What a selected payment promises at the time it is made. */
  lemma SelectedHolds(scheme: Scheme, prover: Prover, w: Wallet, act: Act) returns (inputs: seq<nat>)
    requires UniqueIds(scheme, w.coins) && act.SelectAndProve? && Selected(scheme, prover, w, act).Some?
    ensures var p := Selected(scheme, prover, w, act).value;
            && PaysOut(scheme, w, p, act.asset, act.amount, inputs) && p.openings[0].owner == act.to
            && forall i | 0 <= i < |inputs| :: Holds(scheme, w.coins, p.spentIds[i], act.asset, inputs[i])
  {
    hide Transfer, Owned, AtMost, Sorting.LexLe, Holds;
    var purse := PurseOf(scheme, w, act.asset);
    var c :| LeastSpend(purse, act.amount, c)
             && Selected(scheme, prover, w, act)
                == Transfer(scheme, prover, w, c.ids, act.to, Payment(act.amount, c.total), act.r0, act.r1);
    LeastIsSpend(purse, act.amount, c);
    SpendTotals(purse, act.amount, c);
    TransferPaysOut(scheme, prover, w, c.ids, act.to, act.amount, c.total, act.r0, act.r1);
    SpendHolds(scheme, w, act.asset, act.amount, c);
    inputs := NatAmounts(Lookup(scheme, w.coins, c.ids).value);
  }

  lemma FinalizedSome(scheme: Scheme, w: Wallet, id: nat, anchor: Anchor)
    ensures Finalized(scheme, w, id, anchor).Some? <==> id in w.pending
  {
  }

  /** The coins a spend names are found, unspent and of the asset. */
  lemma SpendHolds(scheme: Scheme, w: Wallet, asset: Hash, amount: nat, c: Choice)
    requires UniqueIds(scheme, w.coins) && IsSpend(PurseOf(scheme, w, asset), amount, c)
    requires Lookup(scheme, w.coins, c.ids).Some?
    ensures var inputs := Lookup(scheme, w.coins, c.ids).value;
            && inputs != [] && inputs[0].coin.assetId == asset
            && forall i | 0 <= i < |inputs| :: Holds(scheme, w.coins, c.ids[i], asset, inputs[i].coin.amount)
  {
    hide Owned, Sorting.LexLe;
    var inputs := Lookup(scheme, w.coins, c.ids).value;
    SpendTotals(PurseOf(scheme, w, asset), amount, c);
    forall i | 0 <= i < |inputs|
      ensures inputs[i].coin.assetId == asset && Holds(scheme, w.coins, c.ids[i], asset, inputs[i].coin.amount) {
      SpendCoin(scheme, w, asset, amount, c, i);
      var x :| Spendable(PurseOf(scheme, w, asset), x) && Id(scheme, x) == c.ids[i];
      OneCoinPerId(scheme, w.coins, x, inputs[i]);
      var j :| 0 <= j < |w.coins| && w.coins[j] == x;
    }
  }

  lemma SpendCoin(scheme: Scheme, w: Wallet, asset: Hash, amount: nat, c: Choice, i: nat)
    requires IsSpend(PurseOf(scheme, w, asset), amount, c) && i < |c.ids|
    ensures exists x :: Spendable(PurseOf(scheme, w, asset), x) && Id(scheme, x) == c.ids[i]
  {
    hide Owned, Sorting.LexLe, Spendable;
  }
}
