/** The closed-enum design of crypto-conditions: one `Condition` and one
    `Fulfillment` sum type, derivation of a condition from a fulfillment, and
    verification by re-derivation and structural comparison. */
module CryptoConditions {

  import opened Common

  /** A public commitment. `Prefix` owns its subcondition. */
  datatype Condition =
    | Preimage(fingerprint: Bytes)
    | Prefix(prefix: Bytes, maxMessageLength: nat, subcondition: Condition)
    | Threshold(threshold: nat, subconditions: seq<Condition>)
    | Rsa(modulus: Bytes)
    | Ed25519(publicKey: Bytes)

  /** The private data that establishes a condition; mirrors its shape. */
  datatype Fulfillment =
    | Preimage(preimage: Bytes)
    | Prefix(prefix: Bytes, maxMessageLength: nat, subfulfillment: Fulfillment)
    | Threshold(subfulfillments: seq<Fulfillment>, subconditions: seq<Condition>)
    | Rsa(modulus: Bytes, signature: Bytes)
    | Ed25519(publicKey: Bytes, signature: Bytes)

  /** The condition every kind without a derivation of its own is mapped to. */
  const Placeholder: Condition := Condition.Preimage([1, 2, 3])

  /** The kinds whose derivation is implemented. */
  predicate Implemented(f: Fulfillment) {
    f.Preimage? || f.Prefix?
  }

  /** How many `Prefix` layers wrap the innermost condition. */
  function ConditionDepth(c: Condition): nat {
    if c.Prefix? then 1 + ConditionDepth(c.subcondition) else 0
  }

  /** How many `Prefix` layers wrap the innermost fulfillment. */
  function FulfillmentDepth(f: Fulfillment): nat {
    if f.Prefix? then 1 + FulfillmentDepth(f.subfulfillment) else 0
  }

  /** `impl From<&Fulfillment> for Condition`: the condition a fulfillment
      establishes. A Preimage fulfillment commits to the hex SHA-256 of its
      preimage; a Prefix fulfillment keeps its prefix and length bound and
      derives its subcondition; every other kind yields the placeholder. */
  function Derive(f: Fulfillment, hexSha256: HexDigest): (c: Condition)
    ensures f.Preimage? ==> c.Preimage? && c.fingerprint == hexSha256(f.preimage)
    ensures f.Prefix? <==> c.Prefix?
    ensures f.Prefix? ==> c.prefix == f.prefix && c.maxMessageLength == f.maxMessageLength
                          && c.subcondition == Derive(f.subfulfillment, hexSha256)
    ensures !Implemented(f) ==> c == Placeholder
    ensures c.Preimage? || c.Prefix?
    ensures ConditionDepth(c) == FulfillmentDepth(f)
  {
    match f
    case Preimage(preimage) =>
      Condition.Preimage(hexSha256(preimage))
    case Prefix(prefix, maxMessageLength, subfulfillment) =>
      Condition.Prefix(prefix, maxMessageLength, Derive(subfulfillment, hexSha256))
    case _ =>
      Placeholder
  }

  /** `impl From<Fulfillment> for Condition`, the by-value twin of `Derive`:
      it yields the same condition for every fulfillment. */
  function DeriveOwned(f: Fulfillment, hexSha256: HexDigest): (c: Condition)
    ensures c == Derive(f, hexSha256)
  {
    match f
    case Preimage(preimage) =>
      Condition.Preimage(hexSha256(preimage))
    case Prefix(prefix, maxMessageLength, subfulfillment) =>
      var subcondition := DeriveOwned(subfulfillment, hexSha256);
      Condition.Prefix(prefix, maxMessageLength, subcondition)
    case _ =>
      Condition.Preimage([1, 2, 3])
  }

  /** `Fulfillment::verify`: re-derive the condition and compare it with `c`.
      The derived condition always verifies (soundness); a Preimage
      fulfillment verifies only a Preimage condition, a Prefix fulfillment
      only a Prefix condition, and no fulfillment verifies a Threshold, Rsa or
      Ed25519 condition. */
  function Verify(f: Fulfillment, c: Condition, hexSha256: HexDigest): (ok: bool)
    ensures c == Derive(f, hexSha256) ==> ok
    ensures ok && f.Preimage? ==> c.Preimage? && c.fingerprint == hexSha256(f.preimage)
    ensures ok && f.Prefix? ==> c.Prefix? && c.prefix == f.prefix && c.maxMessageLength == f.maxMessageLength
    ensures ok && c.Prefix? ==> f.Prefix?
    ensures ok ==> c.Preimage? || c.Prefix?
  {
    var derived := Derive(f, hexSha256);
    derived == c
  }

  /** Verification read top-down, as a check of `c` against `f` layer by
      layer, with no derived condition built. */
  predicate Satisfies(f: Fulfillment, c: Condition, hexSha256: HexDigest) {
    match f
    case Preimage(preimage) =>
      c.Preimage? && c.fingerprint == hexSha256(preimage)
    case Prefix(prefix, maxMessageLength, subfulfillment) =>
      c.Prefix? && c.prefix == prefix && c.maxMessageLength == maxMessageLength
      && Satisfies(subfulfillment, c.subcondition, hexSha256)
    case _ =>
      c == Placeholder
  }

  /** Verification by re-derivation accepts exactly the conditions the
      layer-by-layer check accepts. */
  lemma {:induction false} VerifyIffSatisfies(f: Fulfillment, c: Condition, hexSha256: HexDigest)
    ensures Verify(f, c, hexSha256) <==> Satisfies(f, c, hexSha256)
  {
    match f
    case Preimage(_) =>
    case Prefix(_, _, subfulfillment) =>
      if c.Prefix? {
        VerifyIffSatisfies(subfulfillment, c.subcondition, hexSha256);
      }
    case _ =>
  }

  /** Threshold, Rsa and Ed25519 fulfillments are indistinguishable to
      verification: each verifies exactly the placeholder condition. */
  lemma PlaceholderForUnimplemented(f: Fulfillment, c: Condition, hexSha256: HexDigest)
    requires !Implemented(f)
    ensures Derive(f, hexSha256) == Condition.Preimage([1, 2, 3])
    ensures Verify(f, c, hexSha256) <==> c == Condition.Preimage([1, 2, 3])
  {
  }

  /** Verification depends on the preimage only through its digest: two
      Preimage fulfillments verify the same conditions exactly when their
      digests agree. */
  lemma PreimageVerifiesByDigest(p: Bytes, q: Bytes, c: Condition, hexSha256: HexDigest)
    requires Verify(Fulfillment.Preimage(p), c, hexSha256)
    ensures Verify(Fulfillment.Preimage(q), c, hexSha256) <==> hexSha256(p) == hexSha256(q)
  {
  }
}
