/**
 * The fixed-width byte types of the pallet: `[u8; 32]`/`H256`, `EvmAddress`
 * (`H160`), `Eip712Signature` (`[u8; 65]`), the 64-byte public key returned by
 * `secp256k1_ecdsa_recover`, and `AccountId32`, the runtime's account id.
 */
module Types {

  type Byte = bv8
  type Bytes = seq<Byte>

  /** Rust's `u64`, the type of the configured EVM chain id. */
  newtype u64 = x: int | 0 <= x < 0x1_0000_0000_0000_0000

  function Zeros(n: nat): (r: Bytes)
    ensures |r| == n
  {
    seq(n, _ => 0)
  }

  type Hash32 = s: Bytes | |s| == 32 witness Zeros(32)
  type Address = s: Bytes | |s| == 20 witness Zeros(20)
  type Signature = s: Bytes | |s| == 65 witness Zeros(65)
  type PublicKey = s: Bytes | |s| == 64 witness Zeros(64)
  type AccountId = s: Bytes | |s| == 32 witness Zeros(32)

  /**
   * The bytes of a string literal. Every literal hashed by the pallet is
   * ASCII, so each character is its own byte.
   */
  function AsciiBytes(s: string): (r: Bytes)
    ensures |r| == |s|
  {
    seq(|s|, i requires 0 <= i < |s| => (s[i] as int % 256) as Byte)
  }

  /**
   * SCALE encoding of an `AccountId32`: a fixed-size byte array is encoded
   * as its bytes, with no length prefix.
   */
  function ScaleEncode(who: AccountId): (r: Bytes)
    ensures |r| == 32
  {
    who
  }
}
