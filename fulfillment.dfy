/** The trait design of fulfillments: one record per kind, each deriving its
    own condition kind (with cost) and verifying against it. */
module FulfillmentTrait {

  import opened Common
  import opened ConditionTrait

  /** A Prefix fulfillment owns its subfulfillment, of either kind. */
  datatype Fulfillment =
    | PreimageSha256Fulfillment(preimage: Bytes)
    | PrefixSha256Fulfillment(prefix: Bytes, maxMessageLength: nat, subfulfillment: Fulfillment)

  function FulfillmentDepth(f: Fulfillment): nat {
    if f.PrefixSha256Fulfillment? then 1 + FulfillmentDepth(f.subfulfillment) else 0
  }

  /** The preimage at the bottom of the Prefix layers. */
  function InnermostPreimage(f: Fulfillment): Bytes {
    if f.PrefixSha256Fulfillment? then InnermostPreimage(f.subfulfillment) else f.preimage
  }

  /** `get_condition`, which the `From<&...Fulfillment>` impls return as is.
      A Preimage fulfillment commits to the hex SHA-256 of its preimage at a
      cost of the preimage's length; a Prefix fulfillment derives its
      subcondition first and stores `len(prefix) + max_message_length +
      subcondition cost + 1024`. The stored cost is always the cost
      `get_cost` recomputes, the condition has the fulfillment's kind and
      nesting, and each Prefix layer makes it cost more than its
      subfulfillment's condition. */
  function GetCondition(f: Fulfillment, hexSha256: HexDigest): (c: Condition)
    ensures c.cost == GetCost(c)
    ensures c.PrefixSha256Condition? <==> f.PrefixSha256Fulfillment?
    ensures PrefixDepth(c) == FulfillmentDepth(f)
    ensures Innermost(c) == PreimageSha256Condition(hexSha256(InnermostPreimage(f)), |InnermostPreimage(f)|)
    ensures f.PrefixSha256Fulfillment? ==>
      c.prefix == f.prefix && c.maxMessageLength == f.maxMessageLength
      && c.subcondition == GetCondition(f.subfulfillment, hexSha256)
      && c.cost > GetCondition(f.subfulfillment, hexSha256).cost
    ensures c.cost >= 1024 * FulfillmentDepth(f) + |InnermostPreimage(f)|
  {
    match f
    case PreimageSha256Fulfillment(preimage) =>
      var fingerprint := hexSha256(preimage);
      PreimageSha256Condition(fingerprint, |preimage|)
    case PrefixSha256Fulfillment(prefix, maxMessageLength, subfulfillment) =>
      var subcondition := GetCondition(subfulfillment, hexSha256);
      PrefixSha256Condition(prefix, maxMessageLength, subcondition,
                            |prefix| + maxMessageLength + GetCost(subcondition) + 1024)
  }

  /** `verify`: derive the condition and compare it with `c`. The derived
      condition always verifies; a condition that verifies has the
      fulfillment's kind, a consistent stored cost, and at the bottom the
      digest and length of the innermost preimage. */
  function Verify(f: Fulfillment, c: Condition, hexSha256: HexDigest): (ok: bool)
    ensures c == GetCondition(f, hexSha256) ==> ok
    ensures ok ==> c.cost == GetCost(c)
    ensures ok ==> (IsCompound(c) <==> f.PrefixSha256Fulfillment?)
    ensures ok ==> Innermost(c).fingerprint == hexSha256(InnermostPreimage(f))
                   && Innermost(c).cost == |InnermostPreimage(f)|
  {
    var derived := GetCondition(f, hexSha256);
    derived == c
  }
}
