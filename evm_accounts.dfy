/**
 * The evm-accounts pallet: a one-time claim that links the caller's
 * Substrate account to an EVM address proven by an EIP-712 signature, the
 * hook that unlinks an account when the runtime reaps it, and the query
 * `is_linked`.
 *
 * `Claim` and `OnKilled` are the specification of the state transitions as
 * functions of the whole storage (`World`); `Pallet` holds that storage in
 * fields and performs the same transitions step by step.
 */
module EvmAccounts {
  import opened Types
  import opened Wrappers
  import opened Host
  import opened Eip712
  import opened Currency
  import opened Mapping

  datatype Error =
    | AccountIdHasMapped
    | EthAddressHasMapped
    | BadSignature
    | InvalidSignature
    | Transfer(cause: TransferError)

  datatype Event = ClaimAccount(accountId: AccountId, evmAddress: Address)

  datatype DispatchResult = Ok | Err(error: Error)

  /** The storage a claim reads and writes: the two maps, the ledger and the event log. */
  datatype World = World(
    accounts: map<Address, AccountId>,
    evmAddresses: map<AccountId, Address>,
    ledger: Ledger,
    events: seq<Event>)

  /**
   * Moves the reducible balance of the shadow account of `ethAddress`, if
   * that account exists, to `who`.
   */
  function MigrateShadowBalance(rt: Runtime, ledger: Ledger, who: AccountId, ethAddress: Address, refuses: bool)
    : (r: Result<Ledger, TransferError>)
    ensures !ledger.AccountExists(rt.intoAccountId(ethAddress)) ==> r == Success(ledger)
  {
    var shadow := rt.intoAccountId(ethAddress);
    if ledger.AccountExists(shadow) then
      Currency.Transfer(ledger, shadow, who, ledger.ReducibleBalance(shadow), refuses)
    else
      Success(ledger)
  }

  /**
   * `claim_account` as a function of the storage before the call: the
   * dispatch result and the storage after it. A failing claim is rolled
   * back, so its storage is the storage before.
   */
  function Claim(rt: Runtime, w: World, who: AccountId, ethAddress: Address, sig: Signature, refuses: bool)
    : (r: (DispatchResult, World))
    ensures r.0.Err? ==> r.1 == w
    ensures r.0 == Ok ==>
              && who !in w.evmAddresses && ethAddress !in w.accounts
              && VerifyEip712Signature(rt, who, sig) == Some(ethAddress)
              && r.1.accounts.Keys == w.accounts.Keys + {ethAddress}
              && r.1.evmAddresses.Keys == w.evmAddresses.Keys + {who}
              && r.1.accounts[ethAddress] == who && r.1.evmAddresses[who] == ethAddress
              && |r.1.events| == |w.events| + 1
  {
    if who in w.evmAddresses then (Err(AccountIdHasMapped), w)
    else if ethAddress in w.accounts then (Err(EthAddressHasMapped), w)
    else
      match VerifyEip712Signature(rt, who, sig)
      case None => (Err(BadSignature), w)
      case Some(address) =>
        if ethAddress != address then (Err(InvalidSignature), w)
        else
          match MigrateShadowBalance(rt, w.ledger, who, ethAddress, refuses)
          case Failure(e) => (Err(Transfer(e)), w)
          case Success(ledger) =>
            (Ok, World(w.accounts[ethAddress := who],
                       w.evmAddresses[who := ethAddress],
                       ledger,
                       w.events + [ClaimAccount(who, ethAddress)]))
  }

  /** `on_killed_account` as a function of the storage. */
  function OnKilled(w: World, who: AccountId): (r: World)
    ensures who !in r.evmAddresses
    ensures who in w.evmAddresses ==> r.accounts.Keys == w.accounts.Keys - {w.evmAddresses[who]}
    ensures r.evmAddresses.Keys == w.evmAddresses.Keys - {who}
    ensures r.ledger == w.ledger && r.events == w.events
  {
    if who in w.evmAddresses then
      w.(accounts := w.accounts - {w.evmAddresses[who]}, evmAddresses := w.evmAddresses - {who})
    else
      w
  }

  /**
   * `get_evm_address`: the address linked to `who`, or else the address the
   * host reads out of the account id itself.
   */
  function GetEvmAddress(rt: Runtime, evmAddresses: map<AccountId, Address>, who: AccountId): (r: Option<Address>)
    ensures who in evmAddresses ==> r == Some(evmAddresses[who])
    ensures who !in evmAddresses ==> r == rt.underlyingEvmAddress(who)
  {
    if who in evmAddresses then Some(evmAddresses[who]) else rt.underlyingEvmAddress(who)
  }

  /** `is_linked`. */
  function IsLinked(rt: Runtime, evmAddresses: map<AccountId, Address>, who: AccountId, evm: Address): (r: bool)
    ensures who in evmAddresses ==> (r <==> evmAddresses[who] == evm)
    ensures who !in evmAddresses ==> (r <==> rt.underlyingEvmAddress(who) == Some(evm))
  {
    GetEvmAddress(rt, evmAddresses, who) == Some(evm)
  }

  // ---------------------------------------------------------------------
  // Properties of a claim

  /**
   * The two mapping checks come first and in this order, and neither
   * depends on the signature: a mapped caller or a mapped address is
   * refused whatever was signed.
   */
  lemma ClaimChecksMappingsFirst(rt: Runtime, w: World, who: AccountId, ethAddress: Address,
                                 sig1: Signature, sig2: Signature, refuses: bool)
    requires who in w.evmAddresses || ethAddress in w.accounts
    ensures Claim(rt, w, who, ethAddress, sig1, refuses) == Claim(rt, w, who, ethAddress, sig2, refuses)
    ensures who in w.evmAddresses ==> Claim(rt, w, who, ethAddress, sig1, refuses) == (Err(AccountIdHasMapped), w)
    ensures who !in w.evmAddresses ==> Claim(rt, w, who, ethAddress, sig1, refuses) == (Err(EthAddressHasMapped), w)
  {
  }

  /** A signature that recovers no key, or the key of another address, is refused. */
  lemma ClaimRejectsBadSignatures(rt: Runtime, w: World, who: AccountId, ethAddress: Address, sig: Signature, refuses: bool)
    requires who !in w.evmAddresses && ethAddress !in w.accounts
    ensures VerifyEip712Signature(rt, who, sig).None? ==>
              Claim(rt, w, who, ethAddress, sig, refuses) == (Err(BadSignature), w)
    ensures VerifyEip712Signature(rt, who, sig).Some? && VerifyEip712Signature(rt, who, sig).value != ethAddress ==>
              Claim(rt, w, who, ethAddress, sig, refuses) == (Err(InvalidSignature), w)
  {
  }

  /** All or nothing: a claim that fails changes no map, no balance and no event. */
  lemma ClaimFailureChangesNothing(rt: Runtime, w: World, who: AccountId, ethAddress: Address, sig: Signature, refuses: bool)
    requires Claim(rt, w, who, ethAddress, sig, refuses).0.Err?
    ensures Claim(rt, w, who, ethAddress, sig, refuses).1 == w
  {
  }

  /**
   * A claim succeeds exactly when both sides are unmapped, the signature
   * recovers `ethAddress` and the balance migration goes through; it then
   * adds the one pair in both maps and appends one event.
   */
  lemma ClaimSuccess(rt: Runtime, w: World, who: AccountId, ethAddress: Address, sig: Signature, refuses: bool)
    ensures Claim(rt, w, who, ethAddress, sig, refuses).0 == Ok <==>
              && who !in w.evmAddresses
              && ethAddress !in w.accounts
              && VerifyEip712Signature(rt, who, sig) == Some(ethAddress)
              && MigrateShadowBalance(rt, w.ledger, who, ethAddress, refuses).Success?
    ensures var (r, w') := Claim(rt, w, who, ethAddress, sig, refuses);
            r == Ok ==>
              && w'.accounts == w.accounts[ethAddress := who]
              && w'.evmAddresses == w.evmAddresses[who := ethAddress]
              && w'.ledger == MigrateShadowBalance(rt, w.ledger, who, ethAddress, refuses).value
              && w'.events == w.events + [ClaimAccount(who, ethAddress)]
  {
  }

  /** A claim never changes the entries of other addresses or other accounts. */
  lemma ClaimLeavesOtherEntries(rt: Runtime, w: World, who: AccountId, ethAddress: Address, sig: Signature, refuses: bool,
                                a: Address, v: AccountId)
    requires a != ethAddress && v != who
    ensures var w' := Claim(rt, w, who, ethAddress, sig, refuses).1;
            && (a in w'.accounts <==> a in w.accounts)
            && (a in w.accounts ==> w'.accounts[a] == w.accounts[a])
            && (v in w'.evmAddresses <==> v in w.evmAddresses)
            && (v in w.evmAddresses ==> w'.evmAddresses[v] == w.evmAddresses[v])
  {
  }

  lemma ClaimPreservesBijective(rt: Runtime, w: World, who: AccountId, ethAddress: Address, sig: Signature, refuses: bool)
    requires Bijective(w.accounts, w.evmAddresses)
    ensures var w' := Claim(rt, w, who, ethAddress, sig, refuses).1;
            Bijective(w'.accounts, w'.evmAddresses)
  {
  }

  /**
   * After a successful claim the two are linked, and any further claim by
   * the same account or for the same address is refused.
   */
  lemma ClaimIsOneTime(rt: Runtime, w: World, who: AccountId, ethAddress: Address, sig: Signature, refuses: bool,
                       who2: AccountId, ethAddress2: Address, sig2: Signature, refuses2: bool)
    requires Claim(rt, w, who, ethAddress, sig, refuses).0 == Ok
    ensures var w' := Claim(rt, w, who, ethAddress, sig, refuses).1;
            && IsLinked(rt, w'.evmAddresses, who, ethAddress)
            && (who2 == who ==> Claim(rt, w', who2, ethAddress2, sig2, refuses2) == (Err(AccountIdHasMapped), w'))
            && (who2 != who && who2 !in w.evmAddresses && ethAddress2 == ethAddress ==>
                  Claim(rt, w', who2, ethAddress2, sig2, refuses2) == (Err(EthAddressHasMapped), w'))
  {
  }

  /**
   * Balance migration: when the shadow account exists and is not the
   * caller, a successful claim moves its whole reducible balance to the
   * caller, the shadow keeps exactly its frozen funds (or all it has, if
   * that is less), and every other balance stays as it was; without a
   * shadow account, or when the shadow is the caller, the ledger is
   * untouched.
   */
  lemma ClaimMigratesShadowBalance(rt: Runtime, w: World, who: AccountId, ethAddress: Address, sig: Signature, refuses: bool)
    requires Claim(rt, w, who, ethAddress, sig, refuses).0 == Ok
    ensures var l, l' := w.ledger, Claim(rt, w, who, ethAddress, sig, refuses).1.ledger;
            var shadow := rt.intoAccountId(ethAddress);
            && (!l.AccountExists(shadow) ==> l' == l)
            && (l.AccountExists(shadow) && shadow == who ==> l' == l)
            && (l.AccountExists(shadow) && shadow != who ==>
                  && l'.Balance(who) == l.Balance(who) + l.ReducibleBalance(shadow)
                  && l'.Balance(shadow) == l.Balance(shadow) - l.ReducibleBalance(shadow)
                  && l'.Balance(shadow) == if l.Balance(shadow) < l.Frozen(shadow) then l.Balance(shadow) else l.Frozen(shadow))
            && (forall x | x != shadow && x != who :: l'.Balance(x) == l.Balance(x))
  {
  }

  /** A refused balance migration aborts the claim with the ledger's error. */
  lemma ClaimTransferFailureAborts(rt: Runtime, w: World, who: AccountId, ethAddress: Address, sig: Signature, refuses: bool)
    requires who !in w.evmAddresses && ethAddress !in w.accounts
    requires VerifyEip712Signature(rt, who, sig) == Some(ethAddress)
    requires MigrateShadowBalance(rt, w.ledger, who, ethAddress, refuses).Failure?
    ensures Claim(rt, w, who, ethAddress, sig, refuses) ==
              (Err(Transfer(MigrateShadowBalance(rt, w.ledger, who, ethAddress, refuses).error)), w)
  {
  }

  // ---------------------------------------------------------------------
  // Properties of the lifecycle hook

  /** Killing an unlinked account changes nothing. */
  lemma OnKilledUnlinkedIsNoOp(w: World, who: AccountId)
    requires who !in w.evmAddresses
    ensures OnKilled(w, who) == w
  {
  }

  /**
   * Killing a linked account removes exactly its pair from both maps and
   * leaves the ledger and the event log alone; under the invariant the
   * host's fallback then answers every query about it.
   */
  lemma OnKilledRemovesExactlyThePair(rt: Runtime, w: World, who: AccountId)
    requires who in w.evmAddresses
    ensures var w' := OnKilled(w, who);
            && w'.accounts.Keys == w.accounts.Keys - {w.evmAddresses[who]}
            && w'.evmAddresses.Keys == w.evmAddresses.Keys - {who}
            && (forall a | a in w'.accounts :: w'.accounts[a] == w.accounts[a])
            && (forall v | v in w'.evmAddresses :: w'.evmAddresses[v] == w.evmAddresses[v])
            && w'.ledger == w.ledger && w'.events == w.events
            && GetEvmAddress(rt, w'.evmAddresses, who) == rt.underlyingEvmAddress(who)
  {
  }

  lemma OnKilledPreservesBijective(w: World, who: AccountId)
    requires Bijective(w.accounts, w.evmAddresses)
    ensures Bijective(OnKilled(w, who).accounts, OnKilled(w, who).evmAddresses)
  {
  }

  /** Killing a linked account also frees its address: no account maps to it any more. */
  lemma OnKilledFreesAddress(w: World, who: AccountId)
    requires Bijective(w.accounts, w.evmAddresses)
    requires who in w.evmAddresses
    ensures var w' := OnKilled(w, who);
            && w.evmAddresses[who] !in w'.accounts
            && forall v | v in w'.evmAddresses :: w'.evmAddresses[v] != w.evmAddresses[who]
  {
  }

  // ---------------------------------------------------------------------
  // The pallet's storage

  class Pallet {
    const rt: Runtime
    var accounts: map<Address, AccountId>
    var evmAddresses: map<AccountId, Address>
    var ledger: Ledger
    var events: seq<Event>

    function State(): World
      reads this
    {
      World(accounts, evmAddresses, ledger, events)
    }

    ghost predicate Valid()
      reads this
    {
      Bijective(accounts, evmAddresses)
    }

    /** Empty maps and event log over a given runtime and ledger. */
    constructor (rt: Runtime, ledger: Ledger)
      ensures Valid()
      ensures this.rt == rt && State() == World(map[], map[], ledger, [])
    {
      this.rt := rt;
      accounts := map[];
      evmAddresses := map[];
      this.ledger := ledger;
      events := [];
    }

    /**
     * `claim_account`, called by `who`. The checks run in the source's
     * order and return at the first failure; storage is written only after
     * every fallible step has passed, which is what `#[transactional]`
     * guarantees in the source.
     */
    method ClaimAccount(who: AccountId, ethAddress: Address, sig: Signature, refuses: bool) returns (r: DispatchResult)
      modifies this
      ensures (r, State()) == Claim(rt, old(State()), who, ethAddress, sig, refuses)
      ensures old(Valid()) ==> Valid()
    {
      if who in evmAddresses {
        return Err(AccountIdHasMapped);
      }
      if ethAddress in accounts {
        return Err(EthAddressHasMapped);
      }
      var address := VerifyEip712Signature(rt, who, sig);
      if address.None? {
        return Err(BadSignature);
      }
      if ethAddress != address.value {
        return Err(InvalidSignature);
      }
      var accountId := rt.intoAccountId(ethAddress);
      if ledger.AccountExists(accountId) {
        var amount := ledger.ReducibleBalance(accountId);
        var moved := Currency.Transfer(ledger, accountId, who, amount, refuses);
        if moved.Failure? {
          return Err(Transfer(moved.error));
        }
        ledger := moved.value;
      }
      accounts := accounts[ethAddress := who];
      evmAddresses := evmAddresses[who := ethAddress];
      events := events + [Event.ClaimAccount(who, ethAddress)];
      r := Ok;
    }

    /** `CallKillEVMLinkAccount::on_killed_account`. */
    method OnKilledAccount(who: AccountId)
      modifies this
      ensures State() == OnKilled(old(State()), who)
      ensures old(Valid()) ==> Valid()
      ensures old(Valid()) && who in old(evmAddresses) ==>
                && old(evmAddresses[who]) !in accounts
                && forall v | v in evmAddresses :: evmAddresses[v] != old(evmAddresses[who])
    {
      if Valid() && who in evmAddresses {
        OnKilledFreesAddress(State(), who);
      }
      if who in evmAddresses {
        var evmAddr := evmAddresses[who];
        accounts := accounts - {evmAddr};
        evmAddresses := evmAddresses - {who};
      }
    }

    /** `is_linked` on the current storage. */
    method IsLinkedNow(who: AccountId, evm: Address) returns (linked: bool)
      ensures who in evmAddresses ==> (linked <==> evmAddresses[who] == evm)
      ensures who !in evmAddresses ==> (linked <==> rt.underlyingEvmAddress(who) == Some(evm))
    {
      linked := GetEvmAddress(rt, evmAddresses, who) == Some(evm);
    }
  }
}
