/** The two designs side by side: a trait-design condition with its costs
    erased is an enum-design condition, and the two derivations agree. */
module Designs {

  import opened Common
  import Enum = CryptoConditions
  import ConditionTrait
  import FulfillmentTrait

  /** The enum-design condition a trait-design condition stands for; the
      enum design records no cost. */
  function EraseCost(c: ConditionTrait.Condition): (e: Enum.Condition)
    ensures e.Prefix? <==> c.PrefixSha256Condition?
    ensures Enum.ConditionDepth(e) == ConditionTrait.PrefixDepth(c)
  {
    match c
    case PreimageSha256Condition(fingerprint, _) =>
      Enum.Condition.Preimage(fingerprint)
    case PrefixSha256Condition(prefix, maxMessageLength, subcondition, _) =>
      Enum.Condition.Prefix(prefix, maxMessageLength, EraseCost(subcondition))
  }

  /** The enum-design fulfillment a trait-design fulfillment stands for. */
  function AsEnum(f: FulfillmentTrait.Fulfillment): (e: Enum.Fulfillment)
    ensures Enum.Implemented(e)
    ensures Enum.FulfillmentDepth(e) == FulfillmentTrait.FulfillmentDepth(f)
  {
    match f
    case PreimageSha256Fulfillment(preimage) =>
      Enum.Fulfillment.Preimage(preimage)
    case PrefixSha256Fulfillment(prefix, maxMessageLength, subfulfillment) =>
      Enum.Fulfillment.Prefix(prefix, maxMessageLength, AsEnum(subfulfillment))
  }

  /** Both designs derive the same fingerprints, prefixes and length bounds
      from the same fulfillment. */
  lemma {:induction false} DerivationsAgree(f: FulfillmentTrait.Fulfillment, hexSha256: HexDigest)
    ensures EraseCost(FulfillmentTrait.GetCondition(f, hexSha256)) == Enum.Derive(AsEnum(f), hexSha256)
  {
    match f
    case PreimageSha256Fulfillment(_) =>
    case PrefixSha256Fulfillment(_, _, subfulfillment) =>
      DerivationsAgree(subfulfillment, hexSha256);
  }

  /** Whatever the trait design accepts, the enum design accepts too. */
  lemma TraitVerifyImpliesEnumVerify(f: FulfillmentTrait.Fulfillment, c: ConditionTrait.Condition, hexSha256: HexDigest)
    requires FulfillmentTrait.Verify(f, c, hexSha256)
    ensures Enum.Verify(AsEnum(f), EraseCost(c), hexSha256)
  {
    DerivationsAgree(f, hexSha256);
  }

  /** The converse fails: the enum design does not see a wrong stored cost,
      which the trait design rejects. */
  lemma EnumVerifyIgnoresCost(preimage: Bytes, hexSha256: HexDigest)
    ensures var f := FulfillmentTrait.PreimageSha256Fulfillment(preimage);
            var forged := ConditionTrait.PreimageSha256Condition(hexSha256(preimage), |preimage| + 1);
            Enum.Verify(AsEnum(f), EraseCost(forged), hexSha256) && !FulfillmentTrait.Verify(f, forged, hexSha256)
  {
  }
}
