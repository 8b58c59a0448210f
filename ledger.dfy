/**
 * The `balances` mapping of the contract as a value: a map from account to
 * `u128` in which a missing entry reads as 0, the two writes the contract
 * performs on it (credit and debit), and the sum of all balances, which the
 * conservation invariant compares with the total supply.
 */
module Ledger {
  import opened U128

  /** An ink! `AccountId`: 32 opaque bytes, compared only for equality. */
  type AccountId = s: seq<bv8> | |s| == 32 witness seq(32, _ => 0)

  type Balances = map<AccountId, u128>

  /** `Mapping::get(account).unwrap_or(0)`. */
  function Balance(m: Balances, a: AccountId): (r: u128)
    ensures a in m ==> r == m[a]
    ensures a !in m ==> r == 0
  {
    if a in m then m[a] else 0
  }

  /** Reads the balance of `a`, adds `amount` with saturation and inserts the result. */
  function Credit(m: Balances, a: AccountId, amount: u128): (r: Balances)
    ensures a in r && Balance(r, a) == SaturatingAdd(Balance(m, a), amount)
    ensures Balance(m, a) + amount <= U128_MAX ==> Balance(r, a) == Balance(m, a) + amount
    ensures forall b :: b != a ==> Balance(r, b) == Balance(m, b)
    ensures r.Keys == m.Keys + {a}
  {
    m[a := SaturatingAdd(Balance(m, a), amount)]
  }

  /** Reads the balance of `a`, subtracts `amount` with saturation and inserts the result. */
  function Debit(m: Balances, a: AccountId, amount: u128): (r: Balances)
    ensures a in r && Balance(r, a) == SaturatingSub(Balance(m, a), amount)
    ensures amount <= Balance(m, a) ==> Balance(r, a) == Balance(m, a) - amount
    ensures forall b :: b != a ==> Balance(r, b) == Balance(m, b)
    ensures r.Keys == m.Keys + {a}
  {
    m[a := SaturatingSub(Balance(m, a), amount)]
  }

  /** The balances after a transfer: the sender is debited first and the
      recipient's balance is read back from the debited map, so a transfer
      to oneself sees its own debit. */
  function Moved(m: Balances, from: AccountId, to: AccountId, amount: u128): (r: Balances)
    ensures from != to ==> forall b :: b != from && b != to ==> Balance(r, b) == Balance(m, b)
    ensures from == to ==> forall b :: b != from ==> Balance(r, b) == Balance(m, b)
  {
    Credit(Debit(m, from, amount), to, amount)
  }

  /** The sum of every stored balance (an absent entry contributes nothing). */
  ghost function Sum(m: Balances): nat
    decreases |m|
  {
    if m == map[] then 0
    else
      var k :| k in m;
      m[k] + Sum(m - {k})
  }

  /** The sum splits off any one entry, whichever entry `Sum` happened to pick. */
  lemma {:induction false} SumRemove(m: Balances, k: AccountId)
    requires k in m
    ensures Sum(m) == m[k] + Sum(m - {k})
    decreases |m|
  {
    var j :| j in m && Sum(m) == m[j] + Sum(m - {j});
    if j != k {
      SumRemove(m - {j}, k);
      SumRemove(m - {k}, j);
      assert (m - {j}) - {k} == (m - {k}) - {j};
    }
  }

  /** Overwriting one entry changes the sum by the difference of the two values. */
  lemma SumUpdate(m: Balances, k: AccountId, v: u128)
    ensures Sum(m[k := v]) == Sum(m) - Balance(m, k) + v
  {
    var m' := m[k := v];
    SumRemove(m', k);
    assert m' - {k} == m - {k};
    if k in m {
      SumRemove(m, k);
    } else {
      assert m - {k} == m;
    }
  }

  /** No single balance exceeds the sum of all balances. */
  lemma BalanceAtMostSum(m: Balances, a: AccountId)
    ensures Balance(m, a) <= Sum(m)
  {
    if a in m {
      SumRemove(m, a);
    }
  }

  /** Two distinct balances together do not exceed the sum of all balances. */
  lemma TwoBalancesAtMostSum(m: Balances, a: AccountId, b: AccountId)
    requires a != b
    ensures Balance(m, a) + Balance(m, b) <= Sum(m)
  {
    if a in m {
      SumRemove(m, a);
      BalanceAtMostSum(m - {a}, b);
      assert Balance(m - {a}, b) == Balance(m, b);
    } else {
      BalanceAtMostSum(m, b);
    }
  }

  /** Crediting `amount` raises the sum by exactly `amount` when the sum has room for it. */
  lemma CreditAddsToSum(m: Balances, a: AccountId, amount: u128)
    requires Sum(m) + amount <= U128_MAX
    ensures Balance(m, a) + amount <= U128_MAX
    ensures Sum(Credit(m, a, amount)) == Sum(m) + amount
  {
    BalanceAtMostSum(m, a);
    SumUpdate(m, a, SaturatingAdd(Balance(m, a), amount));
  }

  /** Debiting at most the available balance lowers the sum by exactly `amount`. */
  lemma DebitSubtractsFromSum(m: Balances, a: AccountId, amount: u128)
    requires amount <= Balance(m, a)
    ensures Sum(Debit(m, a, amount)) == Sum(m) - amount
  {
    SumUpdate(m, a, SaturatingSub(Balance(m, a), amount));
  }

  /** A covered transfer between two distinct accounts whose balances sum to
      at most `U128_MAX` never saturates the recipient's credit. */
  lemma TransferCreditNeverSaturates(m: Balances, from: AccountId, to: AccountId, amount: u128)
    requires from != to
    requires amount <= Balance(m, from)
    requires Sum(m) <= U128_MAX
    ensures Balance(m, to) + amount <= U128_MAX
    ensures Balance(Moved(m, from, to, amount), to) == Balance(m, to) + amount
    ensures Balance(Moved(m, from, to, amount), from) == Balance(m, from) - amount
  {
    TwoBalancesAtMostSum(m, from, to);
  }

  /** A covered transfer to oneself leaves the balance where it was: the
      credit re-reads the debited balance and adds `amount` back. */
  lemma SelfTransferKeepsBalance(m: Balances, a: AccountId, amount: u128)
    requires amount <= Balance(m, a)
    ensures forall b :: Balance(Moved(m, a, a, amount), b) == Balance(m, b)
  {
  }

  /** A covered transfer leaves the sum of all balances unchanged. */
  lemma MovedPreservesSum(m: Balances, from: AccountId, to: AccountId, amount: u128)
    requires amount <= Balance(m, from)
    requires Sum(m) <= U128_MAX
    ensures Sum(Moved(m, from, to, amount)) == Sum(m)
  {
    var d := Debit(m, from, amount);
    DebitSubtractsFromSum(m, from, amount);
    CreditAddsToSum(d, to, amount);
  }

  /** Two distinct accounts, used by the counterexample below. */
  const Alice: AccountId := seq(32, _ => 0)
  const Bob: AccountId := seq(32, _ => 1)

  /** Saturation in `mint` can break conservation: with all of `U128_MAX`
      held by one account, minting 1 to another account credits it in full,
      while the supply stays clamped at `U128_MAX`. */
  lemma MintSaturationBreaksConservation()
    ensures var m: Balances := map[Alice := U128_MAX];
            Sum(m) == U128_MAX &&
            Sum(Credit(m, Bob, 1)) == SaturatingAdd(U128_MAX, 1) + 1
  {
    var m: Balances := map[Alice := U128_MAX];
    assert Alice[0] != Bob[0];
    SumUpdate(map[], Alice, U128_MAX);
    assert map[][Alice := U128_MAX] == m;
    SumUpdate(m, Bob, 1);
  }
}
