# InkyBank ledger model

A Dafny model of `InkyBank`, an ink! smart contract that keeps a small token
ledger. The contract stores three things: an `owner` fixed when it is
deployed, a `total_supply` of type `u128`, and a `balances` mapping from
account to `u128` in which an account with no entry has balance 0. It has two
state-changing messages. `mint` is owner-only and rejects a zero amount.
`transfer` moves the caller's own tokens and rejects a zero amount or an
uncovered one. It also has three read-only messages: `balance_of`,
`total_supply` and `owner`.

Layout:

- `u128.dfy`, module `U128`: the `u128` range and Rust's `saturating_add`
  and `saturating_sub`.
- `ledger.dfy`, module `Ledger`: the balances mapping as a value. It has the
  get-or-zero read, the credit and debit writes, and the transfer
  composition, in which the recipient's balance is read back only after the
  sender's debit has been written. It also defines the sum of all balances
  and the lemmas behind the conservation invariant "total supply equals the
  sum of balances".
- `bank.dfy`, module `Bank`: the contract as the class `InkyBank`. Its fields
  are `owner`, `totalSupply` and `balances`, and `Mint` and `Transfer`
  update them in place. The checks run in the source's order, and an error
  returns before any write. Each method's contract gives the whole new state,
  its error cases, the emitted event and the preservation of conservation.

The caller that the ink! environment supplies (`self.env().caller()`) is an
explicit `caller` parameter. Events that `self.env().emit_event` would emit
are appended to the ghost log `events`. `Result<()>` is the datatype
`Outcome`. A deploying account is kept as the ghost constant `deployer`, and
`Valid()` ties the `owner` field to it.

The ledger design this contract belongs to also describes pause and
blacklist checks in `mint`, plus allowances, `approve`, `transfer_from`,
`batch_transfer` and `burn`. The contract in `lib.rs` has none of them, so
the model follows the code: `mint` checks only the owner and then the
amount.

## Model

| member | source | states |
|---|---|---|
| `U128.SaturatingAdd` | lib.rs:73-76 | the sum when it fits in a `u128`, else `U128_MAX`; never below either operand |
| `U128.SaturatingSub` | lib.rs:101 | the difference when it is not negative, else 0; never above the minuend |
| `Ledger.Balance` | lib.rs:84-86 | the stored value for an account with an entry, 0 for one without |
| `Ledger.Credit` | lib.rs:72-74 | the credited account afterwards has an entry holding its old balance plus the amount, saturating; it gains exactly the amount when that fits; every other balance is unchanged |
| `Ledger.Debit` | lib.rs:101-102 | the debited account afterwards holds its old balance minus the amount, saturating at 0; it loses exactly the amount when the amount is covered; every other balance is unchanged |
| `Ledger.Moved` | lib.rs:101-106 | a transfer (debit the sender, then credit the recipient as read from the debited map) changes no balance other than the sender's and the recipient's |
| `Ledger.BalanceAtMostSum` | lib.rs:10-11 | no single balance exceeds the sum of all balances |
| `Ledger.TwoBalancesAtMostSum` | lib.rs:10-11 | two distinct balances together do not exceed the sum of all balances |
| `Ledger.CreditAddsToSum` | lib.rs:72-76 | when the sum of balances plus the amount fits in a `u128`, the credit does not saturate and raises the sum by exactly the amount |
| `Ledger.DebitSubtractsFromSum` | lib.rs:96-102 | a covered debit lowers the sum of balances by exactly the amount |
| `Ledger.TransferCreditNeverSaturates` | lib.rs:96-106 | for distinct accounts, with the sender covering the amount and a sum that fits in a `u128`, the recipient's credit never saturates: the sender loses exactly the amount and the recipient gains exactly the amount |
| `Ledger.SelfTransferKeepsBalance` | lib.rs:96-106 | a covered transfer to oneself leaves every balance as it was, because the credit re-reads the balance after the debit |
| `Ledger.MovedPreservesSum` | lib.rs:96-106 | a covered transfer leaves the sum of all balances unchanged, for distinct accounts and for a self-transfer |
| `Ledger.MintSaturationBreaksConservation` | lib.rs:73-76 | if one account holds all of `U128_MAX`, minting 1 to another account credits it in full while the saturated supply stays at `U128_MAX`, so the balances then sum to one more than the supply |
| `Bank.InkyBank.constructor` | lib.rs:51-59 | the owner (and deployer) is the deploying caller, the total supply is 0, every account's balance is 0, no event has been emitted, and conservation holds |
| `Bank.InkyBank.BalanceOf` | lib.rs:83-86 | the stored balance, or 0 for an account with no entry; reads the state only |
| `Bank.InkyBank.TotalSupply` | lib.rs:113-116 | under conservation the supply equals the sum of balances and bounds every single balance |
| `Bank.InkyBank.Owner` | lib.rs:118-121 | always the account that deployed the contract |
| `Bank.InkyBank.Mint` | lib.rs:61-81 | a non-owner gets `NotOwner` even for amount 0; the owner with amount 0 gets `ZeroAmount`; it succeeds exactly when neither applies; on error no balance, supply or event changes; on success `to` is credited with saturation, the supply grows with saturation, other balances and the owner are unchanged, and exactly one `Minted{to, amount}` is emitted; conservation is preserved when the old supply plus the amount fits in a `u128` |
| `Bank.InkyBank.Transfer` | lib.rs:88-111 | amount 0 gives `ZeroAmount` before the balance is looked at; an uncovered amount gives `InsufficientBalance`; it succeeds exactly when neither applies; on error nothing changes; on success between distinct accounts the sender loses exactly the amount and the recipient gains it with saturation; a self-transfer leaves the balance unchanged; other balances, the supply and the owner are unchanged; exactly one `Transfer{from, to, amount}` is emitted; conservation is always preserved and, under it, the recipient's credit never saturates |

## Left out

- The ink! environment: `self.env().caller()` is replaced by a `caller` parameter and `self.env().emit_event` by the ghost log `events`. Event topics (`#[ink(topic)]`) are not modelled.
- SCALE encoding and decoding and the `TypeInfo` derive on `Error`, which are serialization glue.
- The storage backend behind `Mapping`: it is a Dafny `map` with get and insert, with no persistence or layout.
- The crate attributes, the `#[ink::contract]` macro machinery and the `Default` impl, which only calls `new`.
- Allowances, `approve`, `transfer_from`, `batch_transfer`, `burn`, pause and blacklist: the ledger design describes them, but `lib.rs` does not contain them.
- Bank.InkyBank.Mint: promises conservation only when the supply does not saturate. Saturation can break the invariant, as `Ledger.MintSaturationBreaksConservation` shows, and the source guards against nothing here.
- Bank.InkyBank.TotalSupply: relates the supply to the sum of balances only under `Conserved()`, for the same reason.
