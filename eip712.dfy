/**
 * The EIP-712 style message a claimant signs, and the recovery of the
 * signer's EVM address from a signature over it.
 *
 * The message is `0x19 0x01 ‖ domainSeparator ‖ hashStruct(message)`, as in
 * the "Specification" section of EIP-712; the address of a public key is the
 * last 20 bytes of its keccak-256 digest, as in Appendix F of the Ethereum
 * Yellow Paper. Cryptography is abstract (see `Host.Crypto`): what is proved
 * is the layout of the bytes, and that any two claims whose signed digests
 * coincide name a specific pair of inputs on which keccak-256 collides.
 */
module Eip712 {
  import opened Types
  import opened Wrappers
  import opened Host

  const DOMAIN_TYPE := "EIP712Domain(string name,string version,uint256 chainId,bytes32 salt)"
  const DOMAIN_NAME := "Peaq EVM claim"
  const DOMAIN_VERSION := "1"
  const TRANSACTION_TYPE := "Transaction(bytes substrateAddress)"

  /** The two-byte EIP-191 prefix of a structured-data message. */
  const PREFIX: Bytes := [0x19, 0x01]

  /** The 66-byte signable message for a domain separator and a payload hash. */
  function EncodeMessage(domainSeparator: Hash32, payloadHash: Hash32): (m: Bytes)
    ensures |m| == 66
    ensures m[..2] == PREFIX && m[2..34] == domainSeparator && m[34..] == payloadHash
  {
    PREFIX + domainSeparator + payloadHash
  }

  /** Splits a signable message back into its domain separator and payload hash. */
  function DecodeMessage(m: Bytes): (r: Option<(Hash32, Hash32)>)
    ensures r.Some? <==> |m| == 66 && m[..2] == PREFIX
  {
    if |m| == 66 && m[..2] == PREFIX then Some((m[2..34], m[34..66])) else None
  }

  lemma DecodeEncodeMessage(domainSeparator: Hash32, payloadHash: Hash32)
    ensures DecodeMessage(EncodeMessage(domainSeparator, payloadHash)) == Some((domainSeparator, payloadHash))
  {
    var m := EncodeMessage(domainSeparator, payloadHash);
    assert m[..2] == PREFIX;
    assert m[2..34] == domainSeparator;
    assert m[34..66] == payloadHash;
  }

  lemma EncodeDecodeMessage(m: Bytes)
    requires DecodeMessage(m).Some?
    ensures EncodeMessage(DecodeMessage(m).value.0, DecodeMessage(m).value.1) == m
  {
  }

  /** `hash(typeHash ‖ hash(name) ‖ hash(version) ‖ to_bytes(chainId) ‖ genesisHash)` before hashing. */
  function DomainSeparatorPreimage(c: Crypto, toBytes: u64 -> Bytes, chain: Chain): (r: Bytes)
    ensures |r| == 96 + |toBytes(chain.chainId)| + 32
    ensures r[..96] == c.keccak256(AsciiBytes(DOMAIN_TYPE)) + c.keccak256(AsciiBytes(DOMAIN_NAME))
                       + c.keccak256(AsciiBytes(DOMAIN_VERSION))
    ensures r[96..|r| - 32] == toBytes(chain.chainId)
    ensures r[|r| - 32..] == chain.genesisHash
  {
    c.keccak256(AsciiBytes(DOMAIN_TYPE))
      + c.keccak256(AsciiBytes(DOMAIN_NAME))
      + c.keccak256(AsciiBytes(DOMAIN_VERSION))
      + toBytes(chain.chainId)
      + chain.genesisHash
  }

  function DomainSeparator(c: Crypto, toBytes: u64 -> Bytes, chain: Chain): Hash32 {
    c.keccak256(DomainSeparatorPreimage(c, toBytes, chain))
  }

  /** `typeHash("Transaction(bytes substrateAddress)") ‖ keccak256(who.encode())` before hashing. */
  function PayloadPreimage(c: Crypto, who: AccountId): (r: Bytes)
    ensures |r| == 64
    ensures r[..32] == c.keccak256(AsciiBytes(TRANSACTION_TYPE))
    ensures r[32..] == c.keccak256(ScaleEncode(who))
  {
    c.keccak256(AsciiBytes(TRANSACTION_TYPE)) + c.keccak256(ScaleEncode(who))
  }

  function PayloadHash(c: Crypto, who: AccountId): Hash32 {
    c.keccak256(PayloadPreimage(c, who))
  }

  /** The message a claimant signs: depends on nothing but the chain and `who`. */
  function SignableMessage(rt: Runtime, who: AccountId): (m: Bytes)
    ensures |m| == 66
    ensures m[..2] == PREFIX
    ensures DecodeMessage(m) == Some((DomainSeparator(rt.crypto, rt.toBytes, rt.chain), PayloadHash(rt.crypto, who)))
  {
    DecodeEncodeMessage(DomainSeparator(rt.crypto, rt.toBytes, rt.chain), PayloadHash(rt.crypto, who));
    EncodeMessage(DomainSeparator(rt.crypto, rt.toBytes, rt.chain), PayloadHash(rt.crypto, who))
  }

  /** The digest handed to signature recovery. */
  function MessageDigest(rt: Runtime, who: AccountId): Hash32 {
    rt.crypto.keccak256(SignableMessage(rt, who))
  }

  /** The address of a 64-byte public key: bytes 12..32 of its keccak-256 digest. */
  function AddressOf(c: Crypto, key: PublicKey): Address {
    c.keccak256(key)[12..32]
  }

  /**
   * The signer of `msgHash`: none when secp256k1 recovery fails, otherwise
   * the address of the recovered public key.
   */
  function RecoverSigner(c: Crypto, sig: Signature, msgHash: Hash32): (r: Option<Address>)
    ensures r.None? <==> c.secp256k1EcdsaRecover(sig, msgHash).None?
    ensures r.Some? ==> r.value == AddressOf(c, c.secp256k1EcdsaRecover(sig, msgHash).value)
  {
    match c.secp256k1EcdsaRecover(sig, msgHash)
    case None => None
    case Some(key) => Some(c.keccak256(key)[12..])
  }

  /**
   * The test helper's derivation: the address of a 65-byte serialized
   * uncompressed key is computed from its bytes 1..65 (the tag byte dropped).
   */
  function AddressOfSerialized(c: Crypto, serialized: Bytes): (r: Address)
    requires |serialized| == 65
    ensures r == AddressOf(c, serialized[1..])
  {
    assert serialized[1..65] == serialized[1..];
    c.keccak256(serialized[1..65])[12..]
  }

  /** Recovery of the key a test signed with yields the test helper's address. */
  lemma RecoverSignerMatchesSerializedDerivation(c: Crypto, sig: Signature, msgHash: Hash32, serialized: Bytes)
    requires |serialized| == 65
    requires c.secp256k1EcdsaRecover(sig, msgHash) == Some(serialized[1..65])
    ensures RecoverSigner(c, sig, msgHash) == Some(AddressOfSerialized(c, serialized))
  {
  }

  /** The address, if any, that signed `who`'s signable message. */
  function VerifyEip712Signature(rt: Runtime, who: AccountId, sig: Signature): (r: Option<Address>)
    ensures r.None? <==> rt.crypto.secp256k1EcdsaRecover(sig, MessageDigest(rt, who)).None?
    ensures r.Some? ==> r.value == AddressOf(rt.crypto, rt.crypto.secp256k1EcdsaRecover(sig, MessageDigest(rt, who)).value)
  {
    RecoverSigner(rt.crypto, sig, MessageDigest(rt, who))
  }

  /**
   * Signature binding: if the digests signed for two different accounts on
   * the same chain coincide, keccak-256 collides on the two signable
   * messages, on the two payload preimages, or on the two encoded accounts.
   */
  lemma DigestBindsAccount(rt: Runtime, who1: AccountId, who2: AccountId)
    requires who1 != who2
    requires MessageDigest(rt, who1) == MessageDigest(rt, who2)
    ensures var c := rt.crypto;
            || Collides(c, SignableMessage(rt, who1), SignableMessage(rt, who2))
            || Collides(c, PayloadPreimage(c, who1), PayloadPreimage(c, who2))
            || Collides(c, ScaleEncode(who1), ScaleEncode(who2))
  {
  }

  /**
   * Domain separation: with an injective chain-id encoding, if the digests
   * signed for the same account on two chains that differ in chain id or
   * genesis hash coincide, keccak-256 collides on the two signable messages
   * or on the two domain-separator preimages.
   */
  lemma DigestBindsChain(rt1: Runtime, rt2: Runtime, who: AccountId)
    requires rt1.crypto == rt2.crypto && rt1.toBytes == rt2.toBytes
    requires ToBytesInjective(rt1.toBytes)
    requires rt1.chain != rt2.chain
    requires MessageDigest(rt1, who) == MessageDigest(rt2, who)
    ensures var c := rt1.crypto;
            || Collides(c, SignableMessage(rt1, who), SignableMessage(rt2, who))
            || Collides(c, DomainSeparatorPreimage(c, rt1.toBytes, rt1.chain),
                           DomainSeparatorPreimage(c, rt1.toBytes, rt2.chain))
  {
  }
}
