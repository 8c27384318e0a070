/** internal/crypto, idealised: a key derivation without collisions and an AEAD whose ciphertexts
    open only under the key, nonce and associated data they were sealed with. What is sealed is a
    string of bytes; nothing in it tells a key from a secret. */
module IdealCrypto {
  import opened Text
  import opened Wrappers

  datatype KdfParams = KdfParams(timeCost: nat, memoryKiB: nat, parallelism: nat)

  const DEFAULT_PARAMS := KdfParams(4, 256 * 1024, 4)

  /** A key is derived from a passphrase, or is a string of bytes. */
  datatype Key = Derived(passphrase: string, salt: nat, params: KdfParams) | Raw(bytes: string)

  datatype Sealed = Sealed(key: Key, nonce: nat, associatedData: string, plain: string)

  function Open(key: Key, c: Sealed, nonce: nat, associatedData: string): Option<string> {
    if c.key == key && c.nonce == nonce && c.associatedData == associatedData then Some(c.plain) else None
  }

  /** The bytes of the key drawn at a point of the random source: different at every point. */
  function RandomBytes(serial: nat): string {
    Decimal(serial)
  }
}
