# Crypto-conditions in Dafny

A model of a small Rust implementation of Interledger crypto-conditions
(draft-thomas-crypto-conditions). A **condition** is a public commitment: a
kind, a fingerprint and a cost. A **fulfillment** is the private data that
derives that condition. Verification re-derives the condition from the
fulfillment and compares the result with the presented one structurally. The
URI form of a condition follows the `ni` scheme of section 3 of RFC 6920:
`ni:///sha-256;<fingerprint>?fpt=<type name>&cost=<cost>`. Compound
conditions add `&subtypes=<names>`.

The repository holds two designs of the same idea, and the model keeps both:

- `CryptoConditions` (`crypto_conditions.dfy`) is the closed-enum design. It
  has one `Condition` and one `Fulfillment` sum type with five kinds each. It
  has the borrowed (`Derive`) and owned (`DeriveOwned`) derivations and
  `Verify`. Only Preimage and Prefix are derived for real. Threshold, Rsa and
  Ed25519 fulfillments all derive the placeholder condition `Preimage([1, 2, 3])`.
- `ConditionTrait` (`condition.dfy`) and `FulfillmentTrait` (`fulfillment.dfy`)
  are the trait design. The two kinds that implement the trait become the
  constructors of one datatype each. Conditions carry a stored `cost`. The
  module defines the shared accessors (`TypeName`, `IsCompound`, `GetCost`,
  `GetFingerprint`, `GetSubtypes`), `SerializeUri`, `GetCondition` and
  `Verify`. `ParseUri` reads back the fingerprint, type name, cost and
  subtypes a URI carries (`UriRoundTrip`); it is not part of the source. A
  URI does not determine its condition (`UriNotInjective`).
- `Designs` (`designs.dfy`) connects the two designs. It erases the costs of a
  trait-design condition and proves that both derivations agree.
- `Examples` (`examples.dfy`) holds the concrete cases from the repository's
  test, its demo program and its integration test. Two contrasting cases are
  added: the URI of the `"test"` Preimage condition (`PreimageUri`), and the
  rejection of the `"TEST"` condition in `EnumDemo`.
- `Common`, `Decimal` and `Strings` are helpers. They provide bytes, Rust's
  decimal formatting of `usize` with its inverse, and `join` with its inverse
  `split`.

SHA-256 comes from a foreign crate. Every operation that hashes takes it as
a parameter, `hexSha256: Bytes -> Bytes`, standing for
`hex_digest(Algorithm::SHA256, ·).into_bytes()`. Nothing is assumed about it,
so every property holds for every hash function. Rust's `usize` is `nat`.

Every operation is a function, so derivation is deterministic by
construction.

## Model

| member | source | states |
|---|---|---|
| `CryptoConditions.Derive` | src/crypto_conditions.rs:64-79 | A Preimage fulfillment derives a Preimage condition holding the hex SHA-256 of its preimage. A Prefix fulfillment derives a Prefix condition with the same prefix and length bound, whose subcondition is derived from the subfulfillment. Every other kind derives the placeholder `Preimage([1,2,3])`. The result is always Preimage or Prefix and has the fulfillment's Prefix-nesting depth. |
| `CryptoConditions.DeriveOwned` | src/crypto_conditions.rs:47-62 | The by-value `From` yields the same condition as the borrowed one for every fulfillment. |
| `CryptoConditions.Verify` | src/crypto_conditions.rs:81-86 | Soundness: the derived condition always verifies. Kind separation: a verified condition matches the kind of a Preimage or Prefix fulfillment, with the same digest, or the same prefix and length bound. A Prefix condition is verified only by a Prefix fulfillment. No Threshold, Rsa or Ed25519 condition is ever verified. |
| `CryptoConditions.VerifyIffSatisfies` | src/crypto_conditions.rs:81-86 | Verifying by re-derivation accepts exactly the conditions that a layer-by-layer check of the fulfillment against the condition accepts. Both directions are proved. |
| `CryptoConditions.PlaceholderForUnimplemented` | src/crypto_conditions.rs:76 | Threshold, Rsa and Ed25519 fulfillments derive `Preimage([1,2,3])` and verify exactly that condition. |
| `CryptoConditions.PreimageVerifiesByDigest` | src/crypto_conditions.rs:67-70 | A Preimage fulfillment's verdict depends on its preimage only through the digest. Two preimages verify the same condition iff their digests agree. |
| `ConditionTrait.TypeName` | src/condition.rs:39-58 | The name is `"preimage-sha-256"` exactly for Preimage conditions and `"prefix-sha-256"` exactly for Prefix conditions. |
| `ConditionTrait.IsCompound` | src/condition.rs:41-60 | A condition is compound iff it has at least one Prefix layer: false for Preimage, true for Prefix. |
| `ConditionTrait.GetCost` | src/condition.rs:43-65 | A Preimage cost is its stored cost. A Prefix cost is at least 1024 and strictly greater than its subcondition's cost. Every cost is at least 1024 per Prefix layer plus the innermost Preimage's cost. |
| `ConditionTrait.GetFingerprint` | src/condition.rs:45-69 | A Preimage fingerprint is the stored bytes read as text: the same length, and each character has the code of the byte at its position. A Prefix fingerprint is the constant `"test"`. |
| `ConditionTrait.GetSubtypes` | src/condition.rs:71-74 | The list is empty for a non-compound condition. For a Prefix condition it holds exactly one element: the subcondition's type name. |
| `ConditionTrait.SerializeUri` | src/condition.rs:20-31 | Every URI is longer than `ni:///sha-256;` and starts with it. |
| `ConditionTrait.UriExtendsBase` | src/condition.rs:25-30 | A non-compound URI is `ni:///sha-256;` + fingerprint + `?fpt=` + name + `&cost=` + decimal cost. A compound URI is that form followed by `&subtypes=` and the subcondition's type name. |
| `ConditionTrait.UriRoundTrip` | src/condition.rs:20-31 | Parsing a condition's URI gives back its fingerprint, type name, cost and, exactly when it is compound, its subtypes. This holds whenever the fingerprint holds no `?`. |
| `ConditionTrait.UriNotInjective` | src/condition.rs:62-69 | Two different Prefix conditions, one with prefix `[1]` and bound 0, the other with an empty prefix, bound 1 and a different stored cost, share a URI. The URI carries the constant fingerprint and the total cost, not the prefix, bound or stored cost. |
| `ConditionTrait.UriSeparatesKindAndCost` | src/condition.rs:20-31 | Two conditions whose fingerprints hold no `?` and that share a URI have the same type name, cost and fingerprint. |
| `Decimal.NatToDecimal` | src/condition.rs:29 | The cost is written as a non-empty string of decimal digits, with a leading `0` only for zero. |
| `Decimal.DecimalRoundTrip` | src/condition.rs:29 | Reading the rendered cost back as a decimal gives the cost again. |
| `Strings.SplitJoin` | src/condition.rs:26 | Splitting the comma-joined subtypes on `,` gives the list back when no name holds a comma. |
| `FulfillmentTrait.GetCondition` | src/fulfillment.rs:28-68 | A derived condition's stored cost equals the cost `get_cost` recomputes. Its kind and Prefix depth match the fulfillment's. Its innermost condition holds the hex SHA-256 and the length of the innermost preimage. A Prefix keeps the prefix and length bound, derives its subcondition, and costs strictly more than that subcondition. The cost is at least 1024 per layer plus the innermost preimage's length. |
| `FulfillmentTrait.Verify` | src/fulfillment.rs:23-56 | The derived condition always verifies. A verified condition has a consistent stored cost and is compound iff the fulfillment is a Prefix. At its bottom it holds the innermost preimage's digest and length. |
| `Designs.DerivationsAgree` | src/fulfillment.rs:28-68 | With costs erased, the trait design's `get_condition` gives the same condition as the enum design's `From<&Fulfillment>`, for every fulfillment. |
| `Designs.TraitVerifyImpliesEnumVerify` | src/fulfillment.rs:53-56 | Whatever the trait design verifies, the enum design verifies too, after erasure. |
| `Designs.EnumVerifyIgnoresCost` | src/crypto_conditions.rs:9-22 | The converse fails. A Preimage condition with a wrong cost is rejected by the trait design but accepted by the enum design, which stores no cost. |
| `Examples.PrefixOverPreimage` | src/fulfillment.rs:76-92 | Prefix `"pre"` with bound 100 over preimage `"test"` derives cost 4 for the preimage and 3 + 100 + 4 + 1024 = 1131 for the prefix, stored and recomputed. Its URI is `ni:///sha-256;test?fpt=prefix-sha-256&cost=1131&subtypes=preimage-sha-256`, and the fulfillment verifies it. |
| `Examples.PreimageUri` | src/condition.rs:28-29 | An added case: the Preimage condition of `"test"` serializes to `ni:///sha-256;<hex digest>?fpt=preimage-sha-256&cost=4`. |
| `Examples.SerializeTestVector` | src/condition.rs:88-93 | The test's Preimage condition with cost 100 serializes to its fingerprint text between `ni:///sha-256;` and `?fpt=preimage-sha-256&cost=100`. |
| `Examples.EnumDemo` | src/bin/main.rs:8-22 | In the enum design, the demo's Preimage and Prefix fulfillments verify their derived conditions. An added contrasting case: the `"test"` fulfillment rejects the condition derived from `"TEST"` whenever the two digests differ. |

## Left out

- SHA-256 and hex encoding (the `crypto_hash` crate) are a parameter of every operation that needs them, not an implementation. Only what holds for every hash function is proved.
- `String::from_utf8(...).unwrap()` on preimages and fingerprints is not modelled as a panic. Preimages are hashed as raw bytes, which is the same thing for valid UTF-8.
- `ConditionTrait.GetFingerprint`: reads each fingerprint byte as one character. This matches `String::from_utf8` for ASCII, and a hex digest is ASCII. The model does not capture the decoding of multi-byte UTF-8 or the panic on invalid UTF-8.
- `ConditionTrait.UriRoundTrip`: requires a fingerprint without `?`. A hex digest and the Prefix constant `"test"` satisfy this; arbitrary stored bytes need not.
- `usize` overflow in the cost sums is not modelled. Costs are unbounded `nat`.
- `MAX_COST` (src/condition.rs:7) is declared as `ConditionTrait.MaxCost`. The source never compares a cost with it, and neither does the model.
- The `Threshold`, `Rsa` and `Ed25519` structs of src/condition.rs:77-85 have no behaviour and do not implement the trait, so they are not modelled. In the enum design their kinds exist and derive the placeholder.
- The generic and trait plumbing (`Box`, the associated type `C`, `PartialEq` bounds) is collapsed into datatypes with structural equality. `PrefixSha256Condition` does not derive `PartialEq` in the source, so its `verify` comparison relies on an equality the Rust code never defines. The model uses structural equality.
- The `From<&PreimageSha256Fulfillment>` and `From<&PrefixSha256Fulfillment>` impls (src/fulfillment.rs:39-41, 71-73) return `get_condition()` unchanged. `FulfillmentTrait.GetCondition` stands for them.
- The enum design's `Condition` has no cost and no URI. Cost and URI exist only in the trait design, and so in the model.
- The source does not match the protocol description in four places, and the model follows the code:
  - Threshold, Rsa and Ed25519 fulfillments do not fail as unsupported. They derive `Preimage([1,2,3])`, so they verify against that Preimage condition across kinds (`CryptoConditions.PlaceholderForUnimplemented`).
  - A Prefix fingerprint is the constant `"test"`, not a hash.
  - No cost ceiling is enforced.
  - Preimages are decoded as UTF-8.
- Debug printing in the tests and in src/bin/main.rs is left out. Only their concrete values are used.
