/**
 * The pallet's two storage maps, `Accounts: EvmAddress => AccountId` and
 * `EvmAddresses: AccountId => EvmAddress`, and the invariant that keeps
 * them in step: each is the inverse of the other.
 */
module Mapping {
  import opened Types

  /** Every pair of one map is a pair of the other, reversed. */
  ghost predicate Bijective(accounts: map<Address, AccountId>, evmAddresses: map<AccountId, Address>) {
    && (forall a | a in accounts :: accounts[a] in evmAddresses && evmAddresses[accounts[a]] == a)
    && (forall w | w in evmAddresses :: evmAddresses[w] in accounts && accounts[evmAddresses[w]] == w)
  }

  /** Under the invariant, no account is the value of two addresses. */
  lemma BijectiveAccountsInjective(accounts: map<Address, AccountId>, evmAddresses: map<AccountId, Address>,
                                   a1: Address, a2: Address)
    requires Bijective(accounts, evmAddresses)
    requires a1 in accounts && a2 in accounts && accounts[a1] == accounts[a2]
    ensures a1 == a2
  {
  }

  /** Inserting a pair whose two sides are both unmapped keeps the invariant. */
  lemma LinkPreservesBijective(accounts: map<Address, AccountId>, evmAddresses: map<AccountId, Address>,
                               a: Address, w: AccountId)
    requires Bijective(accounts, evmAddresses)
    requires a !in accounts && w !in evmAddresses
    ensures Bijective(accounts[a := w], evmAddresses[w := a])
  {
  }

  /** Removing an account together with its address keeps the invariant. */
  lemma UnlinkPreservesBijective(accounts: map<Address, AccountId>, evmAddresses: map<AccountId, Address>,
                                 w: AccountId)
    requires Bijective(accounts, evmAddresses)
    requires w in evmAddresses
    ensures Bijective(accounts - {evmAddresses[w]}, evmAddresses - {w})
  {
  }
}
