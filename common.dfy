/** Shared vocabulary: bytes, an option type and the external hash primitive. */
module Common {

  /** An unsigned 8-bit value, Rust's `u8`. */
  newtype byte = b: int | 0 <= b < 256

  /** Rust's `Vec<u8>`. */
  type Bytes = seq<byte>

  datatype Option<T> = None | Some(value: T)

  /** `hex_digest(Algorithm::SHA256, data).into_bytes()` from the crypto_hash
      crate: the hex text of the SHA-256 digest of `data`, as bytes. The digest
      is computed by a foreign library, so every operation that needs it takes
      it as a parameter and nothing is assumed about it. */
  type HexDigest = Bytes -> Bytes

  /** The text a byte string holds when every byte is one character: what
      `String::from_utf8` yields for ASCII, and a hex digest is ASCII. */
  function ToText(b: Bytes): (s: string)
    ensures |s| == |b|
    ensures forall i :: 0 <= i < |b| ==> s[i] as int == b[i] as int
  {
    seq(|b|, i requires 0 <= i < |b| => b[i] as int as char)
  }
}
