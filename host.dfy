/**
 * What the pallet consumes from the runtime around it: the hashing and
 * signature-recovery host functions, the chain-id encoding, the genesis
 * block hash and chain id, and the two address conversions owned by the host.
 */
module Host {
  import opened Types
  import opened Wrappers

  /**
   * `sp_io::hashing::keccak_256` and `sp_io::crypto::secp256k1_ecdsa_recover`.
   * Their internals are not modelled: only their output lengths, carried by
   * the result types (a 32-byte digest; a 64-byte public key or none).
   */
  datatype Crypto = Crypto(
    keccak256: Bytes -> Hash32,
    secp256k1EcdsaRecover: (Signature, Hash32) -> Option<PublicKey>)

  /** The chain instance a claim is signed for. */
  datatype Chain = Chain(
    chainId: u64,       // `T::ChainId::get()`
    genesisHash: Hash32 // `frame_system::Pallet::<T>::block_hash(0)`
  )

  /** Everything the pallet reads from outside its own storage. */
  datatype Runtime = Runtime(
    crypto: Crypto,
    chain: Chain,
    // `peaq_primitives_xcm::to_bytes`, applied to the chain id
    toBytes: u64 -> Bytes,
    // `T::OriginAddressMapping::into_account_id`: the shadow account of an address
    intoAccountId: Address -> AccountId,
    // the address `AccountIdToEVMAddress` falls back to for an unmapped account
    underlyingEvmAddress: AccountId -> Option<Address>)

  ghost predicate ToBytesInjective(toBytes: u64 -> Bytes) {
    forall x, y :: toBytes(x) == toBytes(y) ==> x == y
  }

  /** `x` and `y` are two different inputs with the same keccak-256 digest. */
  predicate Collides(c: Crypto, x: Bytes, y: Bytes) {
    x != y && c.keccak256(x) == c.keccak256(y)
  }
}
