/**
 * The `InkyBank` ink! contract: an owner fixed at construction, a total
 * supply and a balance per account. `Mint` and `Transfer` check their
 * conditions in a fixed order, return an error without touching anything
 * when one fails, and otherwise update the storage and emit one event.
 * The caller that the ink! environment supplies is an explicit parameter,
 * and emitted events are appended to a ghost log.
 */
module Bank {
  import opened U128
  import opened Ledger

  /** The contract's error enum. */
  datatype Error = InsufficientBalance | NotOwner | ZeroAmount

  /** The contract's events. */
  datatype Event =
    | Minted(to: AccountId, amount: u128)
    | Transfer(from: AccountId, to: AccountId, amount: u128)

  /** `Result<()>`: success, or one of the errors. */
  datatype Outcome = Ok | Err(error: Error)

  class InkyBank {
    var owner: AccountId
    var totalSupply: u128
    var balances: Balances

    /** The account that deployed the contract. */
    ghost const deployer: AccountId
    /** Every event the contract has emitted, oldest first. */
    ghost var events: seq<Event>

    /** The owner is, and stays, the deploying account. */
    ghost predicate Valid()
      reads this
    {
      owner == deployer
    }

    /** The conservation invariant: the supply is the sum of all balances. */
    ghost predicate Conserved()
      reads this
    {
      totalSupply == Sum(balances)
    }

    /** Deploys the contract on behalf of `caller`. */
    constructor (caller: AccountId)
      ensures Valid() && Conserved()
      ensures owner == caller && deployer == caller
      ensures totalSupply == 0
      ensures forall a :: BalanceOf(a) == 0
      ensures events == []
    {
      owner := caller;
      totalSupply := 0;
      balances := map[];
      deployer := caller;
      events := [];
    }

    /** `balance_of`: the stored balance, 0 for an account never written. */
    function BalanceOf(account: AccountId): (r: u128)
      reads this
      ensures account in balances ==> r == balances[account]
      ensures account !in balances ==> r == 0
    {
      Balance(balances, account)
    }

    /** `total_supply`: under conservation, the sum of all balances. */
    function TotalSupply(): (r: u128)
      reads this
      ensures Conserved() ==> r == Sum(balances)
      ensures forall a :: Conserved() ==> BalanceOf(a) <= r
    {
      BalancesBoundedBySupply();
      totalSupply
    }

    /** `owner`: the account that deployed the contract. */
    function Owner(): (r: AccountId)
      reads this
      requires Valid()
      ensures r == deployer
    {
      owner
    }

    lemma BalancesBoundedBySupply()
      ensures forall a :: Conserved() ==> BalanceOf(a) <= totalSupply
    {
      forall a | Conserved() ensures BalanceOf(a) <= totalSupply {
        BalanceAtMostSum(balances, a);
      }
    }

    /** `mint`: the owner creates `amount` new tokens on account `to`. */
    method Mint(caller: AccountId, to: AccountId, amount: u128) returns (r: Outcome)
      requires Valid()
      modifies this
      ensures Valid() && owner == old(owner)
      ensures caller != old(owner) ==> r == Err(NotOwner)
      ensures caller == old(owner) && amount == 0 ==> r == Err(ZeroAmount)
      ensures r == Ok <==> caller == old(owner) && amount != 0
      ensures r.Err? ==> balances == old(balances) && totalSupply == old(totalSupply) && events == old(events)
      ensures r == Ok ==> balances == Credit(old(balances), to, amount)
      ensures r == Ok ==> BalanceOf(to) == SaturatingAdd(old(BalanceOf(to)), amount)
      ensures r == Ok ==> forall a :: a != to ==> BalanceOf(a) == old(BalanceOf(a))
      ensures r == Ok ==> totalSupply == SaturatingAdd(old(totalSupply), amount)
      ensures r == Ok ==> events == old(events) + [Minted(to, amount)]
      ensures old(Conserved()) && old(totalSupply) + amount <= U128_MAX ==> Conserved()
    {
      if caller != owner {
        return Err(NotOwner);
      }
      if amount == 0 {
        return Err(ZeroAmount);
      }
      ghost var before := balances;
      var currentBalance := BalanceOf(to);
      var newBalance := SaturatingAdd(currentBalance, amount);
      balances := balances[to := newBalance];
      totalSupply := SaturatingAdd(totalSupply, amount);
      events := events + [Minted(to, amount)];
      if Sum(before) == old(totalSupply) && old(totalSupply) + amount <= U128_MAX {
        CreditAddsToSum(before, to, amount);
      }
      r := Ok;
    }

    /** `transfer`: the caller moves `amount` of its own tokens to `to`. */
    method Transfer(caller: AccountId, to: AccountId, amount: u128) returns (r: Outcome)
      requires Valid()
      modifies this
      ensures Valid() && owner == old(owner) && totalSupply == old(totalSupply)
      ensures amount == 0 ==> r == Err(ZeroAmount)
      ensures amount != 0 && old(BalanceOf(caller)) < amount ==> r == Err(InsufficientBalance)
      ensures r == Ok <==> amount != 0 && amount <= old(BalanceOf(caller))
      ensures r.Err? ==> balances == old(balances) && events == old(events)
      ensures r == Ok ==> balances == Moved(old(balances), caller, to, amount)
      ensures r == Ok && caller != to ==>
        BalanceOf(caller) == old(BalanceOf(caller)) - amount &&
        BalanceOf(to) == SaturatingAdd(old(BalanceOf(to)), amount)
      ensures r == Ok && caller == to ==> BalanceOf(caller) == old(BalanceOf(caller))
      ensures r == Ok ==> forall a :: a != caller && a != to ==> BalanceOf(a) == old(BalanceOf(a))
      ensures r == Ok ==> events == old(events) + [Event.Transfer(caller, to, amount)]
      ensures old(Conserved()) && r == Ok && caller != to ==> old(BalanceOf(to)) + amount <= U128_MAX
      ensures old(Conserved()) ==> Conserved()
    {
      var from := caller;
      if amount == 0 {
        return Err(ZeroAmount);
      }
      var fromBalance := BalanceOf(from);
      if fromBalance < amount {
        return Err(InsufficientBalance);
      }
      ghost var before := balances;
      var newFromBalance := SaturatingSub(fromBalance, amount);
      balances := balances[from := newFromBalance];
      var toBalance := BalanceOf(to);
      var newToBalance := SaturatingAdd(toBalance, amount);
      balances := balances[to := newToBalance];
      events := events + [Event.Transfer(from, to, amount)];
      if Sum(before) == totalSupply {
        MovedPreservesSum(before, from, to, amount);
        if from != to {
          TransferCreditNeverSaturates(before, from, to, amount);
        }
      }
      if from == to {
        SelfTransferKeepsBalance(before, from, amount);
      }
      r := Ok;
    }
  }
}
