/** Accounts and saturating 128-bit arithmetic, as the state manager and the vault share them. */
module Ledger {
  import opened Base

  datatype Account = Account(balance: nat, nonce: nat, staked: nat, createdAt: nat, lastActivity: nat, isDormant: bool)

  type Accounts = map<Address, Account>

  function SatAdd(a: nat, b: nat): nat {
    Min(a + b, U128_MAX)
  }

  function SatSub(a: nat, b: nat): nat {
    if b <= a then a - b else 0
  }

  function NewAccount(balance: nat, now: nat): Account {
    Account(balance, 0, 0, now, now, false)
  }

  function Active(a: Account, now: nat): Account {
    a.(lastActivity := now, isDormant := false)
  }

  function Lookup(accounts: Accounts, a: Address): Option<Account> {
    if a in accounts then Some(accounts[a]) else None
  }

  function LookupOr(accounts: Accounts, a: Address, fallback: Account): Account {
    if a in accounts then accounts[a] else fallback
  }
}
