/**
 * The wallet's coins and the deterministic choice of transfer inputs
 * (`select_transfer_inputs` of `ffi/src/wallet.rs`).
 */
module CoinSelection {
  import opened Wrappers
  import opened Wire
  import opened Sorting
  import opened Lists

  const U64_LIMIT := 0x1_0000_0000_0000_0000

  datatype Status = Unspent | Spent | Frozen

  datatype Coin = Coin(assetId: Hash, amount: u64, owner: Hash, randomness: Hash)

  /** `parent` is the unconfirmed anchor the coin came from, if it has not settled. */
  datatype StoredCoin = StoredCoin(coin: Coin, status: Status, proof: Bytes, selector: nat, parent: Option<Hash>)

  /** Commitments, key derivation and nullifiers, uninterpreted. */
  datatype Scheme = Scheme(commit: Coin -> Hash, ownerOf: Hash -> Hash, nullifier: (Coin, Hash) -> Hash)

  function Id(scheme: Scheme, c: StoredCoin): Hash {
    scheme.commit(c.coin)
  }

  predicate Owned(scheme: Scheme, keys: seq<Hash>, owner: Hash) {
    exists k | 0 <= k < |keys| :: scheme.ownerOf(keys[k]) == owner
  }

  ghost predicate UniqueIds(scheme: Scheme, coins: seq<StoredCoin>) {
    forall i, j | 0 <= i < j < |coins| :: Id(scheme, coins[i]) != Id(scheme, coins[j])
  }

  // -- the order of spends -----------------------------------------------------------------

  /** A spend of one or two coins. */
  datatype Choice = Choice(change: nat, count: nat, ids: seq<Hash>, total: nat)

  /** Lists of identifiers, compared element by element. */
  predicate IdsLe(a: seq<Hash>, b: seq<Hash>) {
    a == [] || (b != [] && if a[0] == b[0] then IdsLe(a[1..], b[1..]) else LexLe(a[0], b[0]))
  }

  lemma {:induction false} IdsTotal(a: seq<Hash>, b: seq<Hash>)
    ensures IdsLe(a, b) || IdsLe(b, a)
    ensures IdsLe(a, b) && IdsLe(b, a) ==> a == b
  {
    hide LexLe;
    if a != [] && b != [] {
      LexTotal(a[0], b[0]);
      IdsTotal(a[1..], b[1..]);
      assert a == [a[0]] + a[1..] && b == [b[0]] + b[1..];
    }
  }

  lemma {:induction false} IdsTransitive(a: seq<Hash>, b: seq<Hash>, c: seq<Hash>)
    requires IdsLe(a, b) && IdsLe(b, c)
    ensures IdsLe(a, c)
  {
    hide LexLe;
    if a != [] {
      if a[0] == b[0] == c[0] {
        IdsTransitive(a[1..], b[1..], c[1..]);
      } else {
        LexTotal(a[0], b[0]);
        LexTotal(b[0], c[0]);
        LexStep(a[0], b[0], c[0]);
      }
    }
  }

  lemma LexStep(a: Hash, b: Hash, c: Hash)
    requires LexLe(a, b) || a == b
    requires LexLe(b, c) || b == c
    ensures LexLe(a, c)
    ensures a != b || b != c ==> a != c
  {
    LexTotal(a, a);
    LexTotal(a, b);
    LexTotal(b, c);
    LexTotal(a, c);
    if LexLe(a, b) && LexLe(b, c) {
      LexTransitive(a, b, c);
    }
    if a == c && LexLe(a, b) && LexLe(b, c) {
      LexTotal(a, b);
    }
  }

  /** Less change, then fewer coins, then smaller identifiers. */
  predicate AtMost(a: Choice, b: Choice) {
    || a.change < b.change
    || (a.change == b.change && (a.count < b.count || (a.count == b.count && IdsLe(a.ids, b.ids))))
  }

  lemma ChoiceOrder(a: Choice, b: Choice, c: Choice)
    ensures AtMost(a, b) || AtMost(b, a)
    ensures AtMost(a, b) && AtMost(b, c) ==> AtMost(a, c)
    ensures AtMost(a, b) && AtMost(b, a) ==> a.ids == b.ids && a.change == b.change && a.count == b.count
  {
    hide IdsLe;
    IdsTotal(a.ids, b.ids);
    if IdsLe(a.ids, b.ids) && IdsLe(b.ids, c.ids) {
      IdsTransitive(a.ids, b.ids, c.ids);
    }
  }

  // -- what may be spent ---------------------------------------------------------------------

  /** What selection looks at: unspent, of the asset, ours, and not reserved by a pending spend. */
  predicate Usable(scheme: Scheme, keys: seq<Hash>, reserved: set<Hash>, asset: Hash, c: StoredCoin) {
    && c.status == Unspent && c.coin.assetId == asset && Owned(scheme, keys, c.coin.owner)
    && Id(scheme, c) !in reserved
  }

  datatype Purse = Purse(scheme: Scheme, keys: seq<Hash>, coins: seq<StoredCoin>, reserved: set<Hash>, asset: Hash)

  predicate Spendable(purse: Purse, c: StoredCoin) {
    c in purse.coins && Usable(purse.scheme, purse.keys, purse.reserved, purse.asset, c)
  }

  function Single(scheme: Scheme, x: StoredCoin, amount: nat): Choice
    requires x.coin.amount >= amount
  {
    Choice(x.coin.amount - amount, 1, [Id(scheme, x)], x.coin.amount)
  }

  function Double(scheme: Scheme, x: StoredCoin, y: StoredCoin, amount: nat): Choice
    requires x.coin.amount + y.coin.amount >= amount
  {
    Choice(x.coin.amount + y.coin.amount - amount, 2, [Id(scheme, x), Id(scheme, y)], x.coin.amount + y.coin.amount)
  }

  ghost predicate SpendsOne(purse: Purse, amount: nat, x: StoredCoin, c: Choice) {
    Spendable(purse, x) && x.coin.amount >= amount && c == Single(purse.scheme, x, amount)
  }

  /** Two different coins, named in identifier order, whose total fits 64 bits. */
  ghost predicate SpendsTwo(purse: Purse, amount: nat, x: StoredCoin, y: StoredCoin, c: Choice) {
    && Spendable(purse, x) && Spendable(purse, y)
    && Id(purse.scheme, x) != Id(purse.scheme, y) && LexLe(Id(purse.scheme, x), Id(purse.scheme, y))
    && amount <= x.coin.amount + y.coin.amount < U64_LIMIT
    && c == Double(purse.scheme, x, y, amount)
  }

  /** The spends open to the wallet; nothing here depends on the order of its coins. */
  ghost predicate IsSpend(purse: Purse, amount: nat, c: Choice) {
    (exists x :: SpendsOne(purse, amount, x, c)) || (exists x, y :: SpendsTwo(purse, amount, x, y, c))
  }

  ghost predicate LeastSpend(purse: Purse, amount: nat, c: Choice) {
    IsSpend(purse, amount, c) && forall d :: IsSpend(purse, amount, d) ==> AtMost(c, d)
  }

  lemma SpendTotals(purse: Purse, amount: nat, c: Choice)
    requires IsSpend(purse, amount, c)
    ensures c.total == amount + c.change && c.total < U64_LIMIT && c.count == |c.ids| && 1 <= c.count <= 2
  {
    hide LexLe;
  }

  /** There is one best spend at most: whichever order the coins are stored in, selection picks it. */
  lemma LeastSpendUnique(a: Purse, b: Purse, amount: nat, x: Choice, y: Choice)
    requires a == b.(coins := a.coins) && forall c :: c in a.coins <==> c in b.coins
    requires LeastSpend(a, amount, x) && LeastSpend(b, amount, y)
    ensures x == y
  {
    hide LexLe, AtMost;
    SameSpends(a, b, amount, x);
    SameSpends(a, b, amount, y);
    ChoiceOrder(x, y, x);
    SpendTotals(a, amount, x);
    SpendTotals(a, amount, y);
  }

  lemma SameSpends(a: Purse, b: Purse, amount: nat, c: Choice)
    requires a == b.(coins := a.coins) && forall x :: x in a.coins <==> x in b.coins
    ensures IsSpend(a, amount, c) <==> IsSpend(b, amount, c)
  {
    hide LexLe, Usable;
    forall x ensures Spendable(a, x) == Spendable(b, x) {
    }
    if x :| SpendsOne(a, amount, x, c) {
      assert SpendsOne(b, amount, x, c);
    }
    if x :| SpendsOne(b, amount, x, c) {
      assert SpendsOne(a, amount, x, c);
    }
    if x, y :| SpendsTwo(a, amount, x, y, c) {
      assert SpendsTwo(b, amount, x, y, c);
    }
    if x, y :| SpendsTwo(b, amount, x, y, c) {
      assert SpendsTwo(a, amount, x, y, c);
    }
  }

  // -- the search --------------------------------------------------------------------------------

  predicate ById(scheme: Scheme, a: StoredCoin, b: StoredCoin) {
    LexLe(Id(scheme, a), Id(scheme, b))
  }

  function IdOrder(scheme: Scheme): (StoredCoin, StoredCoin) -> bool {
    (a, b) => ById(scheme, a, b)
  }

  function UsableIn(purse: Purse): StoredCoin -> bool {
    (c: StoredCoin) => Usable(purse.scheme, purse.keys, purse.reserved, purse.asset, c)
  }

  /** The usable coins, by identifier. */
  function Eligible(purse: Purse): seq<StoredCoin> {
    Sort(Filter(purse.coins, UsableIn(purse)), IdOrder(purse.scheme))
  }

  lemma IdOrderTotal(scheme: Scheme)
    ensures TotalPreorder(IdOrder(scheme))
  {
    hide LexLe;
    var le := IdOrder(scheme);
    forall a, b ensures le(a, b) || le(b, a) {
      LexTotal(Id(scheme, a), Id(scheme, b));
    }
    forall a, b, c | le(a, b) && le(b, c) ensures le(a, c) {
      LexTransitive(Id(scheme, a), Id(scheme, b), Id(scheme, c));
    }
  }

  /** The eligible list holds every spendable coin once, in strict identifier order. */
  lemma EligibleFacts(purse: Purse)
    requires UniqueIds(purse.scheme, purse.coins)
    ensures var e := Eligible(purse);
            && (forall c :: c in e <==> Spendable(purse, c))
            && SortedBy(IdOrder(purse.scheme), e)
            && UniqueIds(purse.scheme, e)
  {
    hide LexLe, Usable, Sort, Filter;
    var kept := Filter(purse.coins, UsableIn(purse));
    var e := Eligible(purse);
    IdOrderTotal(purse.scheme);
    SortIsSorted(kept, IdOrder(purse.scheme));
    FilterKeepsUnique(purse.scheme, purse.coins, UsableIn(purse));
    forall c ensures c in e <==> c in kept {
      assert c in multiset(e) <==> c in multiset(kept);
    }
    RearrangedUnique(purse.scheme, kept, e);
  }

  lemma {:induction false} FilterKeepsUnique(scheme: Scheme, coins: seq<StoredCoin>, p: StoredCoin -> bool)
    requires UniqueIds(scheme, coins)
    ensures UniqueIds(scheme, Filter(coins, p))
  {
    if coins != [] {
      assert UniqueIds(scheme, coins[1..]);
      FilterKeepsUnique(scheme, coins[1..], p);
      var rest := Filter(coins[1..], p);
      forall j | 0 <= j < |rest| ensures Id(scheme, coins[0]) != Id(scheme, rest[j]) {
        assert rest[j] in rest;
        assert rest[j] in coins[1..];
      }
    }
  }

  lemma RearrangedUnique(scheme: Scheme, a: seq<StoredCoin>, b: seq<StoredCoin>)
    requires UniqueIds(scheme, a) && multiset(a) == multiset(b)
    ensures UniqueIds(scheme, b)
  {
    forall i, j | 0 <= i < j < |b| ensures Id(scheme, b[i]) != Id(scheme, b[j]) {
      if Id(scheme, b[i]) == Id(scheme, b[j]) {
        assert b[i] in multiset(a) && b[j] in multiset(a);
        assert b[i] in a && b[j] in a;
        OneCoinPerId(scheme, a, b[i], b[j]);
        TwiceCounted(b, i, j);
        OnceCounted(scheme, a, b[i]);
      }
    }
  }

  lemma OneCoinPerId(scheme: Scheme, coins: seq<StoredCoin>, x: StoredCoin, y: StoredCoin)
    requires UniqueIds(scheme, coins) && x in coins && y in coins && Id(scheme, x) == Id(scheme, y)
    ensures x == y
  {
    var i :| 0 <= i < |coins| && coins[i] == x;
    var j :| 0 <= j < |coins| && coins[j] == y;
  }

  lemma TwiceCounted(s: seq<StoredCoin>, i: nat, j: nat)
    requires i < j < |s| && s[i] == s[j]
    ensures multiset(s)[s[i]] >= 2
  {
    assert s == s[..i] + [s[i]] + s[i + 1..j] + [s[j]] + s[j + 1..];
  }

  lemma {:induction false} OnceCounted(scheme: Scheme, s: seq<StoredCoin>, x: StoredCoin)
    requires UniqueIds(scheme, s)
    ensures multiset(s)[x] <= 1
  {
    if s != [] {
      assert s == [s[0]] + s[1..];
      OnceCounted(scheme, s[1..], x);
      if s[0] == x {
        assert x !in s[1..];
      }
    }
  }

  ghost predicate OneAt(scheme: Scheme, e: seq<StoredCoin>, amount: nat, i: nat, c: Choice)
    requires i < |e|
  {
    e[i].coin.amount >= amount && c == Single(scheme, e[i], amount)
  }

  predicate PairCovers(e: seq<StoredCoin>, amount: nat, i: nat, j: nat)
    requires i < |e| && j < |e|
  {
    amount <= e[i].coin.amount + e[j].coin.amount < U64_LIMIT
  }

  ghost predicate PairAt(scheme: Scheme, e: seq<StoredCoin>, amount: nat, i: nat, j: nat, c: Choice)
    requires i < |e| && j < |e|
  {
    PairCovers(e, amount, i, j) && c == Double(scheme, e[i], e[j], amount)
  }

  /**
   * The candidates the search has been through: single coins below `n`, pairs whose
   * first coin is below `m`, and pairs of coin `m` with a second coin below `k`.
   */
  ghost predicate Seen(scheme: Scheme, e: seq<StoredCoin>, amount: nat, n: nat, m: nat, k: nat, c: Choice)
    requires n <= |e| && m <= |e| && k <= |e|
  {
    || (exists i | 0 <= i < n :: OneAt(scheme, e, amount, i, c))
    || (exists i, j | 0 <= i < j < |e| && (i < m || (i == m && j < k)) :: PairAt(scheme, e, amount, i, j, c))
  }

  ghost predicate Best(scheme: Scheme, e: seq<StoredCoin>, amount: nat, n: nat, m: nat, k: nat, best: Option<Choice>)
    requires n <= |e| && m <= |e| && k <= |e|
  {
    && (best.Some? ==> Seen(scheme, e, amount, n, m, k, best.value))
    && forall d | Seen(scheme, e, amount, n, m, k, d) :: best.Some? && AtMost(best.value, d)
  }

  /** The smaller of the best so far and one more candidate. */
  function Better(best: Option<Choice>, candidate: Choice): Choice {
    if best.None? || !AtMost(best.value, candidate) then candidate else best.value
  }

  lemma BetterIsLeast(best: Option<Choice>, candidate: Choice, d: Choice)
    ensures AtMost(Better(best, candidate), candidate)
    ensures best.Some? && AtMost(best.value, d) ==> AtMost(Better(best, candidate), d)
  {
    hide AtMost;
    ChoiceOrder(candidate, candidate, candidate);
    if best.Some? {
      ChoiceOrder(best.value, candidate, candidate);
      ChoiceOrder(candidate, best.value, d);
    }
  }

  /** One more candidate keeps the best the best. */
  lemma BestStep(scheme: Scheme, e: seq<StoredCoin>, amount: nat, n: nat, m: nat, k: nat, n': nat, m': nat, k': nat,
                 best: Option<Choice>, candidate: Choice)
    requires n <= |e| && m <= |e| && k <= |e| && n' <= |e| && m' <= |e| && k' <= |e|
    requires Best(scheme, e, amount, n, m, k, best)
    requires forall d :: Seen(scheme, e, amount, n', m', k', d) <==> Seen(scheme, e, amount, n, m, k, d) || d == candidate
    ensures Best(scheme, e, amount, n', m', k', Some(Better(best, candidate)))
  {
    hide AtMost, Seen;
    forall d | Seen(scheme, e, amount, n', m', k', d) ensures AtMost(Better(best, candidate), d) {
      BetterIsLeast(best, candidate, d);
    }
  }

  lemma BestSame(scheme: Scheme, e: seq<StoredCoin>, amount: nat, n: nat, m: nat, k: nat, n': nat, m': nat, k': nat,
                 best: Option<Choice>)
    requires n <= |e| && m <= |e| && k <= |e| && n' <= |e| && m' <= |e| && k' <= |e|
    requires Best(scheme, e, amount, n, m, k, best)
    requires forall d :: Seen(scheme, e, amount, n', m', k', d) <==> Seen(scheme, e, amount, n, m, k, d)
    ensures Best(scheme, e, amount, n', m', k', best)
  {
    hide AtMost, Seen;
  }

  method BestSingle(scheme: Scheme, e: seq<StoredCoin>, amount: nat) returns (best: Option<Choice>)
    ensures Best(scheme, e, amount, |e|, 0, 0, best)
  {
    hide AtMost, Seen, Better;
    best := None;
    NothingSeen(scheme, e, amount);
    for i := 0 to |e|
      invariant Best(scheme, e, amount, i, 0, 0, best)
    {
      SinglesStep(scheme, e, amount, i);
      if e[i].coin.amount >= amount {
        var candidate := Single(scheme, e[i], amount);
        BestStep(scheme, e, amount, i, 0, 0, i + 1, 0, 0, best, candidate);
        best := Some(Better(best, candidate));
      } else {
        BestSame(scheme, e, amount, i, 0, 0, i + 1, 0, 0, best);
      }
    }
  }

  lemma NothingSeen(scheme: Scheme, e: seq<StoredCoin>, amount: nat)
    ensures forall d :: !Seen(scheme, e, amount, 0, 0, 0, d)
  {
  }

  lemma SinglesStep(scheme: Scheme, e: seq<StoredCoin>, amount: nat, i: nat)
    requires i < |e|
    ensures forall d :: Seen(scheme, e, amount, i + 1, 0, 0, d) <==>
              Seen(scheme, e, amount, i, 0, 0, d) || OneAt(scheme, e, amount, i, d)
  {
    hide OneAt, PairAt;
  }

  lemma PairsStart(scheme: Scheme, e: seq<StoredCoin>, amount: nat, first: nat)
    requires first < |e|
    ensures forall d :: Seen(scheme, e, amount, |e|, first, first + 1, d) <==> Seen(scheme, e, amount, |e|, first, 0, d)
  {
    hide OneAt, PairAt;
  }

  lemma PairsStep(scheme: Scheme, e: seq<StoredCoin>, amount: nat, first: nat, second: nat)
    requires first < second < |e|
    ensures forall d :: Seen(scheme, e, amount, |e|, first, second + 1, d) <==>
              Seen(scheme, e, amount, |e|, first, second, d) || PairAt(scheme, e, amount, first, second, d)
  {
    hide OneAt, PairAt;
  }

  lemma PairsEnd(scheme: Scheme, e: seq<StoredCoin>, amount: nat, first: nat)
    requires first < |e|
    ensures forall d :: Seen(scheme, e, amount, |e|, first, |e|, d) <==> Seen(scheme, e, amount, |e|, first + 1, 0, d)
  {
    hide OneAt, PairAt;
  }

  /** The nested loops over pairs. */
  method BestOverall(scheme: Scheme, e: seq<StoredCoin>, amount: nat) returns (best: Option<Choice>)
    ensures Best(scheme, e, amount, |e|, |e|, 0, best)
  {
    hide AtMost, Seen, Better;
    best := BestSingle(scheme, e, amount);
    for first := 0 to |e|
      invariant Best(scheme, e, amount, |e|, first, 0, best)
    {
      PairsStart(scheme, e, amount, first);
      BestSame(scheme, e, amount, |e|, first, 0, |e|, first, first + 1, best);
      for second := first + 1 to |e|
        invariant Best(scheme, e, amount, |e|, first, second, best)
      {
        PairsStep(scheme, e, amount, first, second);
        if PairCovers(e, amount, first, second) {
          var candidate := Double(scheme, e[first], e[second], amount);
          BestStep(scheme, e, amount, |e|, first, second, |e|, first, second + 1, best, candidate);
          best := Some(Better(best, candidate));
        } else {
          BestSame(scheme, e, amount, |e|, first, second, |e|, first, second + 1, best);
        }
      }
      PairsEnd(scheme, e, amount, first);
      BestSame(scheme, e, amount, |e|, first, |e|, |e|, first + 1, 0, best);
    }
  }

  /**
   * `select_transfer_inputs`: the least of all one- and two-coin spends, and a
   * failure exactly when there is none.
   */
  method SelectInputs(purse: Purse, amount: nat) returns (r: Option<Choice>)
    requires UniqueIds(purse.scheme, purse.coins)
    ensures amount == 0 ==> r == None
    ensures amount > 0 && r.Some? ==> LeastSpend(purse, amount, r.value)
    ensures amount > 0 && r.None? ==> forall c :: !IsSpend(purse, amount, c)
  {
    hide AtMost, Eligible, Usable, Seen, IsSpend;
    if amount == 0 {
      return None;
    }
    EligibleFacts(purse);
    var e := Eligible(purse);
    r := BestOverall(purse.scheme, e, amount);
    forall c ensures Seen(purse.scheme, e, amount, |e|, |e|, 0, c) <==> IsSpend(purse, amount, c) {
      SeenAreSpends(purse, e, amount, c);
    }
  }

  lemma SeenAreSpends(purse: Purse, e: seq<StoredCoin>, amount: nat, c: Choice)
    requires forall x :: x in e <==> Spendable(purse, x)
    requires SortedBy(IdOrder(purse.scheme), e) && UniqueIds(purse.scheme, e)
    ensures Seen(purse.scheme, e, amount, |e|, |e|, 0, c) <==> IsSpend(purse, amount, c)
  {
    hide Spendable, LexLe;
    var scheme := purse.scheme;
    if i :| 0 <= i < |e| && OneAt(scheme, e, amount, i, c) {
      assert SpendsOne(purse, amount, e[i], c);
    }
    if i, j :| 0 <= i < j < |e| && PairAt(scheme, e, amount, i, j, c) {
      assert IdOrder(scheme)(e[i], e[j]);
      assert SpendsTwo(purse, amount, e[i], e[j], c);
    }
    if x :| SpendsOne(purse, amount, x, c) {
      var i :| 0 <= i < |e| && e[i] == x;
      assert OneAt(scheme, e, amount, i, c);
    }
    if x, y :| SpendsTwo(purse, amount, x, y, c) {
      PairIsSeen(purse, e, amount, x, y, c);
    }
  }

  lemma PairIsSeen(purse: Purse, e: seq<StoredCoin>, amount: nat, x: StoredCoin, y: StoredCoin, c: Choice)
    requires forall z :: z in e <==> Spendable(purse, z)
    requires SortedBy(IdOrder(purse.scheme), e) && UniqueIds(purse.scheme, e)
    requires SpendsTwo(purse, amount, x, y, c)
    ensures Seen(purse.scheme, e, amount, |e|, |e|, 0, c)
  {
    hide Spendable, LexLe;
    var scheme := purse.scheme;
    var i :| 0 <= i < |e| && e[i] == x;
    var j :| 0 <= j < |e| && e[j] == y;
    LexTotal(Id(scheme, x), Id(scheme, y));
    OrderedPositions(scheme, e, i, j);
    assert PairAt(scheme, e, amount, i, j, c);
  }

  lemma OrderedPositions(scheme: Scheme, e: seq<StoredCoin>, i: nat, j: nat)
    requires SortedBy(IdOrder(scheme), e) && i < |e| && j < |e|
    ensures j <= i ==> LexLe(Id(scheme, e[j]), Id(scheme, e[i]))
  {
    hide LexLe;
    LexTotal(Id(scheme, e[i]), Id(scheme, e[j]));
    assert j < i ==> IdOrder(scheme)(e[j], e[i]);
  }
}
