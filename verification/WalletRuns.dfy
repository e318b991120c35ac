/** What every run of wallet operations keeps (`ffi/src/wallet.rs`). */
module WalletRuns {
  import opened Wrappers
  import opened Wire
  import opened CoinSelection
  import opened Wallets

  // -- how coins may change ------------------------------------------------------------------

  /**
   * `b` is a later coin list than `a`: coins keep their places and identifiers, spent
   * ones stay spent, settled ones stay settled, and only identifiers in `thaw` unfreeze.
   */
  ghost predicate Evolves(scheme: Scheme, a: seq<StoredCoin>, b: seq<StoredCoin>, thaw: set<Hash>) {
    && |a| <= |b|
    && forall i | 0 <= i < |a| ::
         && Id(scheme, b[i]) == Id(scheme, a[i])
         && (a[i].status == Spent ==> b[i].status == Spent)
         && (a[i].status == Frozen && b[i].status == Unspent ==> Id(scheme, a[i]) in thaw)
         && (a[i].parent.None? ==> b[i].parent.None?)
  }

  lemma EvolvesCompose(scheme: Scheme, a: seq<StoredCoin>, b: seq<StoredCoin>, c: seq<StoredCoin>, x: set<Hash>,
                       y: set<Hash>)
    requires Evolves(scheme, a, b, x) && Evolves(scheme, b, c, y)
    ensures Evolves(scheme, a, c, x + y)
  {
  }

  lemma SetStatusEvolves(scheme: Scheme, coins: seq<StoredCoin>, id: Hash)
    requires UniqueIds(scheme, coins)
    ensures var r := SetStatus(scheme, coins, id, Spent);
            Evolves(scheme, coins, r, {}) && UniqueIds(scheme, r)
  {
  }

  lemma {:induction false} MarkAllEvolves(scheme: Scheme, coins: seq<StoredCoin>, ids: seq<Hash>)
    requires UniqueIds(scheme, coins)
    ensures var r := MarkAll(scheme, coins, ids);
            Evolves(scheme, coins, r, {}) && UniqueIds(scheme, r)
    decreases |ids|
  {
    hide SetStatus;
    if ids != [] {
      SetStatusEvolves(scheme, coins, ids[0]);
      MarkAllEvolves(scheme, SetStatus(scheme, coins, ids[0], Spent), ids[1..]);
    }
  }

  lemma StoreEvolves(scheme: Scheme, coins: seq<StoredCoin>, c: StoredCoin)
    requires UniqueIds(scheme, coins)
    ensures var r := Store(scheme, coins, Credited(scheme, coins, c));
            Evolves(scheme, coins, r, {}) && UniqueIds(scheme, r)
    ensures var r := Store(scheme, coins, Received(scheme, coins, c));
            Evolves(scheme, coins, r, if c.parent.None? then {Id(scheme, c)} else {}) && UniqueIds(scheme, r)
  {
  }

  lemma {:induction false} CreditAllEvolves(scheme: Scheme, coins: seq<StoredCoin>, incoming: seq<StoredCoin>)
    requires UniqueIds(scheme, coins)
    ensures var r := CreditAll(scheme, coins, incoming);
            Evolves(scheme, coins, r, {}) && UniqueIds(scheme, r)
    decreases |incoming|
  {
    hide Store, Credited;
    if incoming != [] {
      StoreEvolves(scheme, coins, incoming[0]);
      var next := Store(scheme, coins, Credited(scheme, coins, incoming[0]));
      CreditAllEvolves(scheme, next, incoming[1..]);
    }
  }

  /** The identifiers of the settled coins among these. */
  function SettledIds(scheme: Scheme, coins: seq<StoredCoin>): set<Hash> {
    set c | c in coins && c.parent.None? :: Id(scheme, c)
  }

  lemma {:induction false} ReceiveAllEvolves(scheme: Scheme, coins: seq<StoredCoin>, incoming: seq<StoredCoin>)
    requires UniqueIds(scheme, coins)
    ensures var r := ReceiveAll(scheme, coins, incoming);
            Evolves(scheme, coins, r, SettledIds(scheme, incoming)) && UniqueIds(scheme, r)
    decreases |incoming|
  {
    hide Store, Received;
    if incoming != [] {
      var c, rest := incoming[0], incoming[1..];
      StoreEvolves(scheme, coins, c);
      var next := Store(scheme, coins, Received(scheme, coins, c));
      ReceiveAllEvolves(scheme, next, rest);
      var here := if c.parent.None? then {Id(scheme, c)} else {};
      EvolvesCompose(scheme, coins, next, ReceiveAll(scheme, coins, incoming), here, SettledIds(scheme, rest));
      EvolvesMore(scheme, coins, ReceiveAll(scheme, coins, incoming), here + SettledIds(scheme, rest),
                  SettledIds(scheme, incoming));
    }
  }

  lemma EvolvesMore(scheme: Scheme, a: seq<StoredCoin>, b: seq<StoredCoin>, x: set<Hash>, y: set<Hash>)
    requires Evolves(scheme, a, b, x) && x <= y
    ensures Evolves(scheme, a, b, y)
  {
  }

  // -- runs --------------------------------------------------------------------------------------

  /** Everything that can happen to a wallet. `Push` is any other way a pending transaction arrives. */
  datatype Act =
    | SelectAndProve(asset: Hash, to: Hash, amount: u64, r0: Hash, r1: Hash)
    | Push(pending: Pending)
    | Finalize(id: nat, anchor: Anchor)
    | Verify(accepted: seq<AcceptedCoin>, proof: Bytes, parent: Option<Hash>)
    | Freeze(txid: Hash)
    | Reconcile(confirmed: set<Hash>)
    | MarkSpentIds(ids: seq<Hash>)
    | Cancel(id: nat)
    | AddKey(key: Hash)

  /** The pending transaction an action-level payment makes, if it makes one. */
  ghost function Selected(scheme: Scheme, prover: Prover, w: Wallet, act: Act): Option<Pending>
    requires act.SelectAndProve?
  {
    var purse := PurseOf(scheme, w, act.asset);
    if act.amount == 0 || !exists c :: LeastSpend(purse, act.amount, c) then None
    else
      var c :| LeastSpend(purse, act.amount, c);
      LeastIsSpend(purse, act.amount, c);
      SpendTotals(purse, act.amount, c);
      Transfer(scheme, prover, w, c.ids, act.to, Payment(act.amount, c.total), act.r0, act.r1)
  }

  ghost function Apply(scheme: Scheme, prover: Prover, w: Wallet, act: Act): Wallet {
    match act
    case SelectAndProve(_, _, _, _, _) =>
      var p := Selected(scheme, prover, w, act);
      if p.None? then w else Pushed(w, p.value)
    case Push(p) => Pushed(w, p)
    case Finalize(id, anchor) =>
      var r := Finalized(scheme, w, id, anchor);
      if r.None? then w else r.value
    case Verify(accepted, proof, parent) => Verified(scheme, w, accepted, proof, parent)
    case Freeze(txid) => Froze(w, txid)
    case Reconcile(confirmed) => Reconciled(scheme, w, confirmed)
    case MarkSpentIds(ids) => MarkedSpent(scheme, w, ids)
    case Cancel(id) => w.(pending := w.pending - {id})
    case AddKey(key) => w.(keys := w.keys + [key])
  }

  /** What an operation may thaw: a settled verification, the coins it redelivers. */
  function Thaws(scheme: Scheme, act: Act): set<Hash> {
    if act.Verify? && act.parent.None? then set a | a in act.accepted :: scheme.commit(a.coin) else {}
  }

  lemma {:induction false} MarkedSpentEvolves(scheme: Scheme, w: Wallet, ids: seq<Hash>)
    requires UniqueIds(scheme, w.coins)
    ensures var r := MarkedSpent(scheme, w, ids);
            Evolves(scheme, w.coins, r.coins, {}) && UniqueIds(scheme, r.coins)
            && r == w.(coins := r.coins)
    decreases |ids|
  {
    hide SetStatus;
    if ids != [] && Find(scheme, w.coins, ids[0]).Some? {
      SetStatusEvolves(scheme, w.coins, ids[0]);
      MarkedSpentEvolves(scheme, w.(coins := SetStatus(scheme, w.coins, ids[0], Spent)), ids[1..]);
    }
  }

  /** One step keeps identifiers unique and changes coins only as allowed. */
  lemma StepEvolves(scheme: Scheme, prover: Prover, w: Wallet, act: Act)
    requires UniqueIds(scheme, w.coins)
    ensures var next := Apply(scheme, prover, w, act);
            Evolves(scheme, w.coins, next.coins, Thaws(scheme, act)) && UniqueIds(scheme, next.coins)
  {
    hide Selected, MarkAll, CreditAll, ReceiveAll, LocalOutputs, MarkedSpent;
    match act
    case Finalize(id, anchor) =>
      if id in w.pending {
        var p := w.pending[id];
        MarkAllEvolves(scheme, w.coins, p.spentIds);
        var marked := MarkAll(scheme, w.coins, p.spentIds);
        var local := LocalOutputs(scheme, w.keys, p, if anchor.mempool then Some(anchor.txid) else None, 0);
        CreditAllEvolves(scheme, marked, local);
        EvolvesCompose(scheme, w.coins, marked, CreditAll(scheme, marked, local), {}, {});
      }
    case Verify(accepted, proof, parent) =>
      ReceiveAllEvolves(scheme, w.coins, Incoming(accepted, proof, parent));
      SettledArrivals(scheme, accepted, proof, parent);
    case MarkSpentIds(ids) => MarkedSpentEvolves(scheme, w, ids);
    case _ =>
  }

  /** The settled coins a verification brings are those it accepts, if it is settled. */
  lemma SettledArrivals(scheme: Scheme, accepted: seq<AcceptedCoin>, proof: Bytes, parent: Option<Hash>)
    ensures SettledIds(scheme, Incoming(accepted, proof, parent)) == Thaws(scheme, Verify(accepted, proof, parent))
  {
    var incoming := Incoming(accepted, proof, parent);
    forall a | a in accepted && parent.None? ensures scheme.commit(a.coin) in SettledIds(scheme, incoming) {
      var i :| 0 <= i < |accepted| && accepted[i] == a;
      assert incoming[i] in incoming && Id(scheme, incoming[i]) == scheme.commit(a.coin);
    }
  }

  ghost function Run(scheme: Scheme, prover: Prover, w: Wallet, acts: seq<Act>): Wallet
    decreases |acts|
  {
    if acts == [] then w else Apply(scheme, prover, Run(scheme, prover, w, acts[..|acts| - 1]), acts[|acts| - 1])
  }

  /** The identifiers some settled verification of the run redelivers. */
  function ThawedBy(scheme: Scheme, acts: seq<Act>): set<Hash> {
    set i, h | 0 <= i < |acts| && h in Thaws(scheme, acts[i]) :: h
  }

  /**
   * Over every run: identifiers stay unique, spent is final, a frozen coin comes back
   * only if a settled verification of the run redelivered that very coin, settled
   * stays settled.
   */
  lemma {:induction false} RunEvolves(scheme: Scheme, prover: Prover, w: Wallet, acts: seq<Act>)
    requires UniqueIds(scheme, w.coins)
    ensures var end := Run(scheme, prover, w, acts);
            Evolves(scheme, w.coins, end.coins, ThawedBy(scheme, acts)) && UniqueIds(scheme, end.coins)
    decreases |acts|
  {
    hide Apply, Evolves, UniqueIds, Thaws;
    EvolvesNothing(scheme, w.coins);
    if acts == [] {
      assert ThawedBy(scheme, acts) == {};
    } else {
      var n := |acts| - 1;
      RunEvolves(scheme, prover, w, acts[..n]);
      var mid := Run(scheme, prover, w, acts[..n]);
      StepEvolves(scheme, prover, mid, acts[n]);
      EvolvesCompose(scheme, w.coins, mid.coins, Apply(scheme, prover, mid, acts[n]).coins, ThawedBy(scheme, acts[..n]),
                     Thaws(scheme, acts[n]));
      ThawedLater(scheme, acts);
    }
  }

  lemma ThawedLater(scheme: Scheme, acts: seq<Act>)
    requires acts != []
    ensures ThawedBy(scheme, acts) == ThawedBy(scheme, acts[..|acts| - 1]) + Thaws(scheme, acts[|acts| - 1])
  {
    hide Thaws;
    var n := |acts| - 1;
    assert forall i | 0 <= i < n :: acts[..n][i] == acts[i];
  }

  lemma EvolvesNothing(scheme: Scheme, coins: seq<StoredCoin>)
    ensures Evolves(scheme, coins, coins, {})
  {
  }

  // -- selected spends never overlap ------------------------------------------------------------------

  predicate Disjoint(a: seq<Hash>, b: seq<Hash>) {
    forall x | x in a :: x !in b
  }

  /** Pending numbers chosen by selection so far. */
  ghost function Chosen(scheme: Scheme, prover: Prover, w: Wallet, acts: seq<Act>): set<nat>
    decreases |acts|
  {
    if acts == [] then {}
    else
      var n := |acts| - 1;
      var mid := Run(scheme, prover, w, acts[..n]);
      Chosen(scheme, prover, w, acts[..n])
      + if acts[n].SelectAndProve? && Selected(scheme, prover, mid, acts[n]).Some? then {mid.next} else {}
  }

  /** No two live selected transactions share an input; numbers are never reused. */
  ghost predicate NoOverlap(w: Wallet, chosen: set<nat>) {
    && (forall k | k in w.pending || k in chosen :: k < w.next)
    && (forall a, b | a in chosen && b in chosen && a in w.pending && b in w.pending && a != b ::
          Disjoint(w.pending[a].spentIds, w.pending[b].spentIds))
  }

  lemma TransferSpends(scheme: Scheme, prover: Prover, w: Wallet, ids: seq<Hash>, to: Hash, amounts: seq<u64>, r0: Hash,
                       r1: Hash)
    requires Transfer(scheme, prover, w, ids, to, amounts, r0, r1).Some?
    ensures Transfer(scheme, prover, w, ids, to, amounts, r0, r1).value.spentIds == ids
  {
    hide InputsFit, SameTotal, Owned;
    assert Ids(scheme, Lookup(scheme, w.coins, ids).value) == ids;
  }

  lemma SelectedIsUnreserved(scheme: Scheme, prover: Prover, w: Wallet, act: Act)
    requires act.SelectAndProve? && Selected(scheme, prover, w, act).Some?
    ensures forall k | k in w.pending :: Disjoint(Selected(scheme, prover, w, act).value.spentIds, w.pending[k].spentIds)
  {
    hide Transfer, AtMost, Owned, Sorting.LexLe;
    var purse := PurseOf(scheme, w, act.asset);
    var c :| LeastSpend(purse, act.amount, c)
             && Selected(scheme, prover, w, act)
                == Transfer(scheme, prover, w, c.ids, act.to, Payment(act.amount, c.total), act.r0, act.r1);
    TransferSpends(scheme, prover, w, c.ids, act.to, Payment(act.amount, c.total), act.r0, act.r1);
    UnreservedIds(purse, act.amount, c);
    forall k | k in w.pending ensures Disjoint(c.ids, w.pending[k].spentIds) {
      forall x | x in c.ids ensures x !in w.pending[k].spentIds {
        if x in w.pending[k].spentIds {
          InReserved(w, k, x);
        }
      }
    }
  }

  lemma UnreservedIds(purse: Purse, amount: nat, c: Choice)
    requires IsSpend(purse, amount, c)
    ensures forall x | x in c.ids :: x !in purse.reserved
  {
    hide Owned, Sorting.LexLe;
  }

  lemma InReserved(w: Wallet, k: nat, x: Hash)
    requires k in w.pending && x in w.pending[k].spentIds
    ensures x in Reserved(w)
  {
    var i :| 0 <= i < |w.pending[k].spentIds| && w.pending[k].spentIds[i] == x;
  }

  lemma StepNoOverlap(scheme: Scheme, prover: Prover, w: Wallet, act: Act, chosen: set<nat>)
    requires NoOverlap(w, chosen)
    ensures NoOverlap(Apply(scheme, prover, w, act),
                      chosen + if act.SelectAndProve? && Selected(scheme, prover, w, act).Some? then {w.next} else {})
  {
    hide Selected, MarkAll, CreditAll, ReceiveAll, LocalOutputs, MarkedSpent;
    if act.SelectAndProve? && Selected(scheme, prover, w, act).Some? {
      SelectedIsUnreserved(scheme, prover, w, act);
    }
    if act.MarkSpentIds? {
      PendingKept(scheme, w, act.ids);
    }
  }

  lemma {:induction false} PendingKept(scheme: Scheme, w: Wallet, ids: seq<Hash>)
    ensures MarkedSpent(scheme, w, ids).pending == w.pending && MarkedSpent(scheme, w, ids).next == w.next
    decreases |ids|
  {
    if ids != [] && Find(scheme, w.coins, ids[0]).Some? {
      PendingKept(scheme, w.(coins := SetStatus(scheme, w.coins, ids[0], Spent)), ids[1..]);
    }
  }

  /** Over every run, pending transactions created by selection never spend the same coin. */
  lemma {:induction false} SelectedNeverOverlap(scheme: Scheme, prover: Prover, acts: seq<Act>)
    ensures NoOverlap(Run(scheme, prover, EMPTY, acts), Chosen(scheme, prover, EMPTY, acts))
    decreases |acts|
  {
    hide Apply, Selected, NoOverlap;
    if acts == [] {
      NoOverlapAtFirst();
    } else {
      var n := |acts| - 1;
      SelectedNeverOverlap(scheme, prover, acts[..n]);
      StepNoOverlap(scheme, prover, Run(scheme, prover, EMPTY, acts[..n]), acts[n], Chosen(scheme, prover, EMPTY, acts[..n]));
    }
  }

  lemma NoOverlapAtFirst()
    ensures NoOverlap(EMPTY, {})
  {
  }
}
