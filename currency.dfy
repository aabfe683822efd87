/**
 * The slice of the host ledger (`T::Currency` and `frame_system`) that a
 * claim touches: account existence, the reducible balance, and a transfer
 * that lets the sender be reaped. The ledger's own rules are host code; the
 * host's right to refuse a transfer (existential deposit, liquidity
 * restrictions, ...) is the oracle argument `refuses`.
 */
module Currency {
  import opened Types
  import opened Wrappers

  datatype TransferError = InsufficientBalance | Refused

  datatype Ledger = Ledger(free: map<AccountId, nat>, frozen: map<AccountId, nat>) {

    /** `frame_system::Pallet::account_exists`. */
    predicate AccountExists(who: AccountId) {
      who in free
    }

    function Balance(who: AccountId): nat {
      if who in free then free[who] else 0
    }

    function Frozen(who: AccountId): nat {
      if who in frozen then frozen[who] else 0
    }

    /** `reducible_balance(who, false)`: what may leave the account, allowing it to die. */
    function ReducibleBalance(who: AccountId): (r: nat)
      ensures r <= Balance(who)
      ensures Balance(who) - r <= Frozen(who)
      ensures r > 0 ==> Balance(who) - r >= Frozen(who)
    {
      if Balance(who) > Frozen(who) then Balance(who) - Frozen(who) else 0
    }
  }

  /**
   * `Currency::transfer(from, to, amount, AllowDeath)`. Zero or self
   * transfers do nothing; otherwise the host may refuse, and more than the
   * reducible balance is refused. A sender left with nothing is reaped.
   */
  function Transfer(l: Ledger, from: AccountId, to: AccountId, amount: nat, refuses: bool): (r: Result<Ledger, TransferError>)
    ensures amount == 0 || from == to ==> r == Success(l)
    ensures amount > 0 && from != to && amount > l.ReducibleBalance(from) ==> r.Failure?
    ensures r.Success? && from != to ==>
              && r.value.Balance(from) == l.Balance(from) - amount
              && r.value.Balance(to) == l.Balance(to) + amount
    ensures r.Success? ==> forall x | x != from && x != to :: r.value.Balance(x) == l.Balance(x)
    ensures r.Success? ==> r.value.frozen == l.frozen
  {
    if amount == 0 || from == to then Success(l)
    else if refuses then Failure(Refused)
    else if amount > l.ReducibleBalance(from) then Failure(InsufficientBalance)
    else
      var credited := l.free[to := l.Balance(to) + amount];
      var rest := l.Balance(from) - amount;
      var free := if rest == 0 then credited - {from} else credited[from := rest];
      Success(Ledger(free, l.frozen))
  }

  /** A successful transfer conserves the sum of the two balances it touches. */
  lemma TransferConserves(l: Ledger, from: AccountId, to: AccountId, amount: nat, refuses: bool)
    requires Transfer(l, from, to, amount, refuses).Success?
    ensures var l' := Transfer(l, from, to, amount, refuses).value;
            l'.Balance(from) + l'.Balance(to) == l.Balance(from) + l.Balance(to)
  {
  }
}
