/** The account store: a map from account number to record. Updates are
    additive and silently do nothing for an absent number. */
module AccountRepo {
  import opened Wrappers
  import opened Errors
  import opened AccountModel

  type Store = map<string, Account>

  /** Every record sits under its own account number (the UNIQUE column). */
  ghost predicate KeyedByNumber(store: Store)
  {
    forall k :: k in store ==> store[k].accountNo == k
  }

  /** `after` is `before` with `dp` added to the pending and `da` to the
      settled balance of `accountNo`, and nothing else changed; for an absent
      number nothing changes at all. */
  ghost predicate Adjusted(before: Store, after: Store, accountNo: string, dp: int, da: int)
  {
    && after.Keys == before.Keys
    && (forall k :: k in before && k != accountNo ==> after[k] == before[k])
    && (accountNo in before ==>
          after[accountNo] == before[accountNo].(pending := before[accountNo].pending + dp,
                                                 amount := before[accountNo].amount + da))
  }

  function Find(store: Store, accountNo: string): (r: Option<Account>)
    ensures r.None? <==> accountNo !in store
    ensures r.Some? ==> r.value == store[accountNo]
  {
    if accountNo in store then Some(store[accountNo]) else None
  }

  function Exists(store: Store, accountNo: string): (b: bool)
    ensures b <==> Find(store, accountNo).Some?
  {
    accountNo in store
  }

  /** Inserts a record; a number already present is a uniqueness violation. */
  function Create(store: Store, a: Account): (r: Result<Store, BankError>)
    ensures r.Failure? <==> Exists(store, a.accountNo)
    ensures r.Failure? ==> r.error == AccountAlreadyExists(a.accountNo)
    ensures r.Success? ==> r.value.Keys == store.Keys + {a.accountNo}
    ensures r.Success? ==> Find(r.value, a.accountNo) == Some(a)
    ensures r.Success? ==> forall k :: k in store ==> r.value[k] == store[k]
    ensures r.Success? && KeyedByNumber(store) ==> KeyedByNumber(r.value)
  {
    if a.accountNo in store then Failure(AccountAlreadyExists(a.accountNo))
    else Success(store[a.accountNo := a])
  }

  function UpdatePending(store: Store, accountNo: string, delta: int): (r: Store)
    ensures Adjusted(store, r, accountNo, delta, 0)
    ensures accountNo !in store ==> r == store
    ensures KeyedByNumber(store) ==> KeyedByNumber(r)
  {
    UpdatePendingAndAmount(store, accountNo, delta, 0)
  }

  function UpdateAmount(store: Store, accountNo: string, delta: int): (r: Store)
    ensures Adjusted(store, r, accountNo, 0, delta)
    ensures accountNo !in store ==> r == store
    ensures KeyedByNumber(store) ==> KeyedByNumber(r)
  {
    UpdatePendingAndAmount(store, accountNo, 0, delta)
  }

  function UpdatePendingAndAmount(store: Store, accountNo: string, pendingDelta: int, amountDelta: int): (r: Store)
    ensures Adjusted(store, r, accountNo, pendingDelta, amountDelta)
    ensures accountNo !in store ==> r == store
    ensures KeyedByNumber(store) ==> KeyedByNumber(r)
  {
    if accountNo in store then
      var a := store[accountNo];
      store[accountNo := a.(pending := a.pending + pendingDelta, amount := a.amount + amountDelta)]
    else
      store
  }

  /** `after` holds the same accounts as `before`, each with the same total
      balance, share and name. */
  ghost predicate SameTotals(before: Store, after: Store)
  {
    && after.Keys == before.Keys
    && forall k :: k in before ==> && TotalBalance(after[k]) == TotalBalance(before[k])
                                   && after[k].share == before[k].share && after[k].name == before[k].name
  }

  /** An adjustment that moves an amount between pending and settled keeps
      every account's total balance, share and name. */
  lemma BalancedKeepsTotals(a: Store, b: Store, accountNo: string, dp: int, da: int)
    requires Adjusted(a, b, accountNo, dp, da) && dp == -da
    ensures SameTotals(a, b)
  {
  }

  lemma SameTotalsTransitive(a: Store, b: Store, c: Store)
    requires SameTotals(a, b) && SameTotals(b, c)
    ensures SameTotals(a, c)
  {
  }

  /** Adjusting two different accounts one after the other changes exactly
      those two records. */
  lemma AdjustedApart(a: Store, b: Store, c: Store, first: string, dp1: int, da1: int,
                      second: string, dp2: int, da2: int)
    requires first != second
    requires Adjusted(a, b, first, dp1, da1) && Adjusted(b, c, second, dp2, da2)
    ensures c.Keys == a.Keys
    ensures first in a ==> c[first] == a[first].(pending := a[first].pending + dp1, amount := a[first].amount + da1)
    ensures second in a ==> c[second] == a[second].(pending := a[second].pending + dp2, amount := a[second].amount + da2)
    ensures forall k :: k in a && k != first && k != second ==> c[k] == a[k]
  {
  }

  /** Two adjustments of the same account add up; the store is otherwise untouched. */
  lemma AdjustedTwice(a: Store, b: Store, c: Store, accountNo: string, dp1: int, da1: int, dp2: int, da2: int)
    requires accountNo in a
    requires Adjusted(a, b, accountNo, dp1, da1) && Adjusted(b, c, accountNo, dp2, da2)
    ensures c == a[accountNo := a[accountNo].(pending := a[accountNo].pending + dp1 + dp2,
                                              amount := a[accountNo].amount + da1 + da2)]
  {
    var expected := a[accountNo := a[accountNo].(pending := a[accountNo].pending + dp1 + dp2,
                                                 amount := a[accountNo].amount + da1 + da2)];
    assert c.Keys == expected.Keys;
    forall k | k in c ensures c[k] == expected[k] {
    }
  }

  /** What `Create` stored is what `Find` returns, with every field intact. */
  lemma CreateThenFind(store: Store, a: Account)
    requires !Exists(store, a.accountNo)
    ensures Create(store, a).Success?
    ensures var found := Find(Create(store, a).value, a.accountNo);
      found.Some? && found.value.name == a.name && found.value.amount == a.amount
      && found.value.pending == a.pending && found.value.share == a.share
  {
  }

  /** The combined update is the pending update followed by the amount update. */
  lemma CombinedUpdateComposes(store: Store, accountNo: string, dp: int, da: int)
    ensures UpdatePendingAndAmount(store, accountNo, dp, da)
         == UpdateAmount(UpdatePending(store, accountNo, dp), accountNo, da)
  {
  }

  /** No store update writes `share`: it keeps its creation value. */
  lemma UpdatesKeepShare(store: Store, accountNo: string, dp: int, da: int, k: string)
    requires k in store
    ensures UpdatePendingAndAmount(store, accountNo, dp, da)[k].share == store[k].share
    ensures UpdatePendingAndAmount(store, accountNo, dp, da)[k].name == store[k].name
  {
  }
}
