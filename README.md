# evm-accounts: claiming an EVM address for a Substrate account

This project models, in Dafny, the account-claiming pallet of the peaq node
(`pallets/evm-accounts/src/lib.rs`). The pallet links a Substrate account
(`AccountId32`) to a 20-byte EVM address through two storage maps kept in
step: `Accounts: EvmAddress => AccountId` and
`EvmAddresses: AccountId => EvmAddress`.

- `claim_account` runs four checks in a fixed order:
  - the caller is already mapped;
  - the address is already mapped;
  - the signature recovers no key;
  - the recovered address is not the claimed one.
- If the checks pass, it moves the reducible balance of the address's
  "shadow" account (if that account exists) to the caller. Then it writes
  both map entries and emits one `ClaimAccount` event. The call is
  `#[transactional]`, so a failure changes nothing.
- The signed message is the EIP-712 encoding
  `0x19 0x01 ‖ domainSeparator ‖ hashStruct(message)` ("Specification"
  section of EIP-712). The domain is name "Peaq EVM claim", version "1", the
  chain id and the genesis block hash as salt. The message struct is
  `Transaction(bytes substrateAddress)`.
- The signer's address is the last 20 bytes of the keccak-256 digest of the
  64-byte public key that secp256k1 recovery returns (Appendix F of the
  Ethereum Yellow Paper).
- `on_killed_account` removes both entries of a reaped account.
- `is_linked` compares an address with the account's EVM address.

Files, one module each:

- `types.dfy`: byte types, `u64`, `AccountId32`, SCALE encoding of an account id.
- `host.dfy`: what the runtime supplies. keccak-256 and secp256k1 recovery are
  function-valued fields whose result types carry their only contract: a
  32-byte digest, and a 64-byte key or none. It also holds `to_bytes`, the
  chain id, the genesis hash, the shadow-account conversion and the fallback
  of the account-to-address conversion.
- `eip712.dfy`: the message builder and signer recovery.
- `currency.dfy`: the part of the host ledger a claim uses.
- `mapping.dfy`: the bijectivity invariant of the two maps.
- `evm_accounts.dfy` has three parts:
  - `Claim` and `OnKilled` specify the state transitions as functions of the
    storage (`World`);
  - class `Pallet` holds the maps, the ledger and the event log as fields,
    and performs the same steps as methods proved against those functions;
  - lemmas state the properties.

Two behaviours of the code worth knowing:

- `is_linked` (lib.rs:280-282) compares with `get_evm_address`. By its doc
  comment (lib.rs:269-272), that function falls back to the address embedded
  in an unmapped account id. So `is_linked` can hold through that fallback
  address for an account with no stored link (see the note at lib.rs:279).
- `get_account_id` (lib.rs:265-267) delegates to the pallet's own
  `into_account_id`, which calls `EVMAddressToAccountId::convert`. That
  conversion is not part of this model. It is also a different function from
  `T::OriginAddressMapping::into_account_id`, which the claim uses to find
  the shadow account (lib.rs:162).

## Model

| member | source | states |
|---|---|---|
| `Eip712.EncodeMessage` | pallets/evm-accounts/src/lib.rs:216-219 | the signable message is 66 bytes: bytes 0..2 are `0x19 0x01`, bytes 2..34 the domain separator, bytes 34..66 the payload hash |
| `Eip712.DecodeMessage` | pallets/evm-accounts/src/lib.rs:216-219 | a byte string splits into domain separator and payload hash exactly when it is 66 bytes long and starts with `0x19 0x01` |
| `Eip712.DecodeEncodeMessage` | pallets/evm-accounts/src/lib.rs:216-219 | splitting an assembled message gives back its domain separator and payload hash |
| `Eip712.EncodeDecodeMessage` | pallets/evm-accounts/src/lib.rs:216-219 | reassembling the parts of any well-formed message gives back that message byte for byte |
| `Eip712.DomainSeparatorPreimage` | pallets/evm-accounts/src/lib.rs:229-239 | the domain input is the three 32-byte type/name/version hashes, then `to_bytes(chainId)`, then the 32-byte genesis hash |
| `Eip712.DomainSeparator` | pallets/evm-accounts/src/lib.rs:229-240 | the domain separator is the 32-byte keccak-256 digest of the domain preimage; its role in the message is stated by `SignableMessage` and `DigestBindsChain` |
| `Eip712.PayloadPreimage` | pallets/evm-accounts/src/lib.rs:222-226 | the payload input is 64 bytes: the hash of `Transaction(bytes substrateAddress)`, then the hash of the SCALE-encoded account |
| `Eip712.PayloadHash` | pallets/evm-accounts/src/lib.rs:222-227 | the payload hash is the 32-byte keccak-256 digest of the payload preimage; its role in the message is stated by `SignableMessage` and `DigestBindsAccount` |
| `Eip712.SignableMessage` | pallets/evm-accounts/src/lib.rs:212-220 | the message for `who` is 66 bytes, starts with `0x19 0x01`, and splits into this chain's domain separator and `who`'s payload hash; it is a function of the chain and `who` only |
| `Eip712.MessageDigest` | pallets/evm-accounts/src/lib.rs:205-206 | the digest handed to recovery is the keccak-256 of the signable message; `VerifyEip712Signature` and the binding lemmas state what depends on it |
| `Eip712.RecoverSigner` | pallets/evm-accounts/src/lib.rs:243-247 | the result is none exactly when secp256k1 recovery fails; otherwise it is bytes 12..32 of the keccak-256 digest of the recovered key |
| `Eip712.AddressOfSerialized` | pallets/evm-accounts/src/lib.rs:190 | the test helper's address of a 65-byte serialized key is the address of its bytes 1..65, the 64-byte key that recovery returns |
| `Types.ScaleEncode` | pallets/evm-accounts/src/lib.rs:225 | the SCALE encoding of an `AccountId32` is 32 bytes, the raw account id |
| `Eip712.RecoverSignerMatchesSerializedDerivation` | pallets/evm-accounts/src/lib.rs:189-191 | when recovery returns bytes 1..65 of a serialized key, the recovered signer equals the test helper's address for that key |
| `Eip712.VerifyEip712Signature` | pallets/evm-accounts/src/lib.rs:204-209 | no signer is found exactly when recovery over the keccak-256 digest of `who`'s signable message fails; a found signer is the address of the key recovered over that digest |
| `Eip712.DigestBindsAccount` | pallets/evm-accounts/src/lib.rs:222-226 | if the digests signed for two different accounts coincide, keccak-256 collides on their two signable messages, their two payload preimages or their two encoded account ids |
| `Eip712.DigestBindsChain` | pallets/evm-accounts/src/lib.rs:229-239 | if `to_bytes` is injective and two chains differ in chain id or genesis hash, equal digests for one account mean keccak-256 collides on the two signable messages or the two domain-separator preimages |
| `Currency.Ledger.ReducibleBalance` | pallets/evm-accounts/src/lib.rs:165 | the amount migrated is the balance above the frozen part: it never exceeds the balance, and when positive it leaves exactly the frozen part behind |
| `Currency.Transfer` | pallets/evm-accounts/src/lib.rs:166 | zero and self transfers change nothing; more than the reducible balance fails; success debits the sender and credits the receiver by the amount and changes no other balance |
| `Currency.TransferConserves` | pallets/evm-accounts/src/lib.rs:166 | a successful transfer keeps the sum of the two balances it touches |
| `Mapping.BijectiveAccountsInjective` | pallets/evm-accounts/src/lib.rs:113-127 | while the two maps are inverse, no account is the value of two addresses |
| `Mapping.LinkPreservesBijective` | pallets/evm-accounts/src/lib.rs:169-170 | inserting a pair whose address and account are both unmapped keeps the maps inverse |
| `Mapping.UnlinkPreservesBijective` | pallets/evm-accounts/src/lib.rs:289-292 | removing an account and its address from both maps keeps them inverse |
| `EvmAccounts.Claim` | pallets/evm-accounts/src/lib.rs:146-175 | a failing claim leaves the storage unchanged; a successful one had both sides unmapped and a signature recovering `eth_address`, and adds exactly the key `eth_address` to `Accounts` (mapped to `who`) and `who` to `EvmAddresses` (mapped to `eth_address`), and one event |
| `EvmAccounts.OnKilled` | pallets/evm-accounts/src/lib.rs:287-293 | afterwards `who` has no `EvmAddresses` entry, only its address leaves `Accounts`, and the ledger and events are unchanged |
| `EvmAccounts.MigrateShadowBalance` | pallets/evm-accounts/src/lib.rs:162-167 | when the shadow account `into_account_id(eth_address)` does not exist, the ledger is returned unchanged |
| `EvmAccounts.GetEvmAddress` | pallets/evm-accounts/src/lib.rs:269-275 | a mapped account's address is its stored entry; an unmapped account gets the host's fallback |
| `EvmAccounts.ClaimChecksMappingsFirst` | pallets/evm-accounts/src/lib.rs:153-155 | a mapped caller fails with `AccountIdHasMapped`; otherwise a mapped address fails with `EthAddressHasMapped`; both leave storage unchanged and do not depend on the signature |
| `EvmAccounts.ClaimRejectsBadSignatures` | pallets/evm-accounts/src/lib.rs:157-160 | with both sides unmapped, no recovered signer gives `BadSignature` and a different signer gives `InvalidSignature`, each with storage unchanged |
| `EvmAccounts.ClaimFailureChangesNothing` | pallets/evm-accounts/src/lib.rs:145-175 | any failing claim leaves the maps, the ledger and the event log unchanged |
| `EvmAccounts.ClaimSuccess` | pallets/evm-accounts/src/lib.rs:146-175 | a claim succeeds iff both sides are unmapped, the signature recovers `eth_address` and the migration succeeds; it then sets `Accounts[eth_address] = who` and `EvmAddresses[who] = eth_address`, applies the migration, and appends exactly one `ClaimAccount{who, eth_address}` |
| `EvmAccounts.ClaimLeavesOtherEntries` | pallets/evm-accounts/src/lib.rs:169-170 | a claim leaves every other address's and every other account's entry as it was |
| `EvmAccounts.ClaimPreservesBijective` | pallets/evm-accounts/src/lib.rs:153-170 | if the maps are inverse before a claim, they are inverse after it, whatever its outcome |
| `EvmAccounts.ClaimIsOneTime` | pallets/evm-accounts/src/lib.rs:153-155 | after a successful claim the pair is linked; a second claim by the same account fails with `AccountIdHasMapped`, and one for the same address by an unmapped account fails with `EthAddressHasMapped` |
| `EvmAccounts.ClaimMigratesShadowBalance` | pallets/evm-accounts/src/lib.rs:162-167 | on success, an existing shadow account other than the caller loses its reducible balance to the caller and keeps exactly its frozen funds (or all it has, if less); without a shadow account, or when the shadow is the caller, the ledger is unchanged; no third balance changes |
| `EvmAccounts.ClaimTransferFailureAborts` | pallets/evm-accounts/src/lib.rs:162-167 | a refused migration fails the claim with the ledger's error and no map write and no event |
| `EvmAccounts.OnKilledUnlinkedIsNoOp` | pallets/evm-accounts/src/lib.rs:287-293 | killing an account with no `EvmAddresses` entry changes nothing |
| `EvmAccounts.OnKilledRemovesExactlyThePair` | pallets/evm-accounts/src/lib.rs:287-293 | killing a linked account removes exactly `Accounts[evm_addr]` and `EvmAddresses[who]`; every other entry, the ledger and the events stay; its address lookup falls back to the host's |
| `EvmAccounts.OnKilledPreservesBijective` | pallets/evm-accounts/src/lib.rs:286-293 | if the maps are inverse before the hook, they are inverse after it |
| `EvmAccounts.OnKilledFreesAddress` | pallets/evm-accounts/src/lib.rs:289-292 | after killing a linked account, its former address is no longer a key of `Accounts` nor the value of any `EvmAddresses` entry |
| `EvmAccounts.IsLinked` | pallets/evm-accounts/src/lib.rs:280-282 | for a mapped account, `is_linked` holds of its stored address and of no other; for an unmapped one, exactly of the host's fallback address |
| `EvmAccounts.Pallet.constructor` | pallets/evm-accounts/src/lib.rs:113-127 | storage starts with both maps and the event log empty, which satisfies the invariant |
| `EvmAccounts.Pallet.ClaimAccount` | pallets/evm-accounts/src/lib.rs:143-175 | the method's result and new storage are those of `Claim` on the old storage, and it keeps the invariant |
| `EvmAccounts.Pallet.OnKilledAccount` | pallets/evm-accounts/src/lib.rs:285-294 | the new storage is `OnKilled` of the old; it keeps the invariant, and under it the killed account's address is no longer mapped in either direction |
| `EvmAccounts.Pallet.IsLinkedNow` | pallets/evm-accounts/src/lib.rs:280-282 | the answer is true iff the stored address equals `evm`; for an unmapped account, iff the host's fallback address equals `evm` |

## Left out

- The cryptography:
  - keccak-256 and `secp256k1_ecdsa_recover` are abstract functions with
    length contracts only;
  - collision resistance cannot be proved, so the binding lemmas conclude
    that keccak-256 collides on a named pair of distinct inputs built by the
    message builder.
- The test and benchmark helpers `eth_public`, `eth_address` and `eth_sign`
  (lib.rs:180-202) are left out. They generate and sign with real
  libsecp256k1 keys. Only the address derivation of lib.rs:190 is modelled
  (`AddressOfSerialized`).
- `to_bytes`, `into_account_id`, `get_account_id` and the conversions
  `EVMAddressToAccountId` / `AccountIdToEVMAddress` (lib.rs:249-275):
  - `convert_impl` and `peaq_primitives_xcm` are not part of this model;
  - `to_bytes` and the shadow-account conversion are parameters of the
    runtime;
  - `to_bytes` is assumed injective only where `DigestBindsChain` needs it;
  - `get_evm_address` is modelled as the stored entry, else a host-supplied
    fallback, following its doc comment;
  - `get_account_id` is not modelled.
- Origin authentication (`ensure_signed`): the caller `who` is an argument.
- The genesis hash `block_hash(0)` is a runtime parameter. So is the chain id.
- The ledger (`Currency::transfer`, `reducible_balance`, `account_exists`)
  is a value model with free and frozen balances. The host's other reasons to
  refuse a transfer (existential deposit, liquidity rules) collapse into the
  oracle argument `refuses`.
- Reaping a sender emptied by a transfer: the ledger only drops its entry.
  The host's follow-up hooks, including this pallet's own
  `on_killed_account` for the shadow account, are not run inside a claim.
- Weights, pallet hooks, storage hashers (`Twox64Concat`) and the metadata
  of the system event record.
- The `NonZeroRefCount` error (lib.rs:110) is never raised, and the
  `StaticLookup` block (lib.rs:296-314) is commented out.
