/** The trait design of conditions: one record per kind carrying a cost, the
    shared accessors (type name, compoundness, cost, fingerprint, subtypes)
    and the `ni:` URI rendering, with a reader that takes a URI apart again. */
module ConditionTrait {

  import opened Common
  import opened Decimal
  import opened Strings

  /** The declared cost ceiling. Nothing in the source compares a cost with it. */
  const MaxCost: nat := 2097152

  const PreimageTypeName: string := "preimage-sha-256"
  const PrefixTypeName: string := "prefix-sha-256"

  /** The fingerprint every Prefix condition reports. */
  const PrefixFingerprint: string := "test"

  /** The URI scheme, authority and hash-function label every URI starts with. */
  const UriScheme: string := "ni:///sha-256;"

  /** The two kinds that implement the `Condition` trait. A Prefix condition
      owns its subcondition; both kinds store a `cost`. */
  datatype Condition =
    | PreimageSha256Condition(fingerprint: Bytes, cost: nat)
    | PrefixSha256Condition(prefix: Bytes, maxMessageLength: nat, subcondition: Condition, cost: nat)

  /** How many Prefix layers wrap the innermost Preimage condition. */
  function PrefixDepth(c: Condition): nat {
    if c.PrefixSha256Condition? then 1 + PrefixDepth(c.subcondition) else 0
  }

  /** The innermost Preimage condition. */
  function Innermost(c: Condition): (leaf: Condition)
    ensures leaf.PreimageSha256Condition?
  {
    if c.PrefixSha256Condition? then Innermost(c.subcondition) else c
  }

  /** `get_type_name`: a fixed name per kind. */
  function TypeName(c: Condition): (name: string)
    ensures name == PreimageTypeName <==> c.PreimageSha256Condition?
    ensures name == PrefixTypeName <==> c.PrefixSha256Condition?
  {
    match c
    case PreimageSha256Condition(_, _) => "preimage-sha-256"
    case PrefixSha256Condition(_, _, _, _) => "prefix-sha-256"
  }

  /** `is_compound`: false by default and for Preimage, true for Prefix. */
  function IsCompound(c: Condition): (compound: bool)
    ensures compound <==> PrefixDepth(c) > 0
  {
    match c
    case PreimageSha256Condition(_, _) => false
    case PrefixSha256Condition(_, _, _, _) => true
  }

  /** `get_cost`: the stored cost for Preimage; for Prefix a recomputation,
      `len(prefix) + max_message_length + subcondition cost + 1024`, that
      ignores the stored `cost` field. Every Prefix layer adds at least 1024
      on top of the innermost Preimage's cost, so a Prefix costs strictly more
      than its subcondition. */
  function GetCost(c: Condition): (cost: nat)
    ensures c.PreimageSha256Condition? ==> cost == c.cost
    ensures c.PrefixSha256Condition? ==> cost >= 1024 && cost > GetCost(c.subcondition)
    ensures cost >= 1024 * PrefixDepth(c) + Innermost(c).cost
  {
    match c
    case PreimageSha256Condition(_, cost) => cost
    case PrefixSha256Condition(prefix, maxMessageLength, subcondition, _) =>
      var subconditionCost := GetCost(subcondition);
      |prefix| + maxMessageLength + subconditionCost + 1024
  }

  /** `get_fingerprint`: the stored fingerprint read as text for Preimage,
      the constant `"test"` for Prefix. */
  function GetFingerprint(c: Condition): (fingerprint: string)
    ensures c.PreimageSha256Condition? ==>
      |fingerprint| == |c.fingerprint|
      && forall i :: 0 <= i < |c.fingerprint| ==> fingerprint[i] as int == c.fingerprint[i] as int
    ensures c.PrefixSha256Condition? ==> fingerprint == PrefixFingerprint
  {
    match c
    case PreimageSha256Condition(fingerprint, _) => ToText(fingerprint)
    case PrefixSha256Condition(_, _, _, _) => "test"
  }

  /** `get_subtypes`: empty by default and for Preimage; for Prefix the one
      type name of its subcondition. */
  function GetSubtypes(c: Condition): (subtypes: seq<string>)
    ensures |subtypes| == if IsCompound(c) then 1 else 0
    ensures c.PrefixSha256Condition? ==> subtypes[0] == TypeName(c.subcondition)
  {
    match c
    case PreimageSha256Condition(_, _) => []
    case PrefixSha256Condition(_, _, subcondition, _) =>
      var subtype := TypeName(subcondition);
      [subtype]
  }

  /** `serialize_uri`: `ni:///sha-256;<fingerprint>?fpt=<name>&cost=<cost>`,
      followed by `&subtypes=<comma-joined subtypes>` for a compound
      condition. */
  function SerializeUri(c: Condition): (uri: string)
    ensures |UriScheme| < |uri| && uri[..|UriScheme|] == UriScheme
  {
    var base := BaseUri(GetFingerprint(c), TypeName(c), GetCost(c));
    if IsCompound(c) then
      var subtypes := Join(GetSubtypes(c), ",");
      base + "&subtypes=" + subtypes
    else
      base
  }

  /** The non-compound URI form, built from its three fields. */
  function BaseUri(fingerprint: string, name: string, cost: nat): string {
    "ni:///sha-256;" + fingerprint + "?fpt=" + name + "&cost=" + NatToDecimal(cost)
  }

  /** A compound condition's URI is its non-compound form followed by the
      subtypes parameter; a non-compound one is that form alone. */
  lemma UriExtendsBase(c: Condition)
    ensures !IsCompound(c) ==> SerializeUri(c) == BaseUri(GetFingerprint(c), TypeName(c), GetCost(c))
    ensures IsCompound(c) ==>
      SerializeUri(c) == BaseUri(GetFingerprint(c), TypeName(c), GetCost(c)) + "&subtypes=" + TypeName(c.subcondition)
  {
  }

  /** What a URI says: fingerprint, type name, cost and, for a compound
      condition, its subtypes. */
  datatype UriParts = UriParts(fingerprint: string, typeName: string, cost: nat, subtypes: Option<seq<string>>)

  /** Reads a URI of the shape `SerializeUri` writes. The fingerprint runs to
      the first `?`, the type name to the first `&`, the cost is the decimal
      digits that follow `&cost=`, and an optional `&subtypes=` parameter holds
      a comma-separated list. */
  function ParseUri(uri: string): (parts: Option<UriParts>)
    ensures parts.Some? ==> |UriScheme| <= |uri| && uri[..|UriScheme|] == UriScheme
  {
    match StripPrefix(uri, UriScheme)
    case None => None
    case Some(rest) => ParseFingerprint(rest)
  }

  function ParseFingerprint(s: string): Option<UriParts> {
    var q := IndexOf(s, '?');
    match StripPrefix(s[q..], "?fpt=")
    case None => None
    case Some(rest) => ParseTypeName(s[..q], rest)
  }

  function ParseTypeName(fingerprint: string, s: string): Option<UriParts> {
    var a := IndexOf(s, '&');
    match StripPrefix(s[a..], "&cost=")
    case None => None
    case Some(rest) => ParseCost(fingerprint, s[..a], rest)
  }

  function ParseCost(fingerprint: string, name: string, s: string): Option<UriParts> {
    var b := IndexOf(s, '&');
    var digits := s[..b];
    if !IsDecimal(digits) then None
    else if b == |s| then Some(UriParts(fingerprint, name, DecimalValue(digits), None))
    else
      match StripPrefix(s[b..], "&subtypes=")
      case None => None
      case Some(list) => Some(UriParts(fingerprint, name, DecimalValue(digits), Some(Split(list, ','))))
  }

  /** The text that follows the cost: nothing, or the subtypes parameter. */
  function SubtypesParameter(subtypes: Option<seq<string>>): string {
    match subtypes
    case None => ""
    case Some(names) => "&subtypes=" + Join(names, ",")
  }

  /** What `SerializeUri` is meant to convey about `c`. */
  function UriContent(c: Condition): UriParts {
    UriParts(GetFingerprint(c), TypeName(c), GetCost(c), if IsCompound(c) then Some(GetSubtypes(c)) else None)
  }

  lemma ParseCostOf(fingerprint: string, name: string, cost: nat, subtypes: Option<seq<string>>)
    requires subtypes.Some? ==> |subtypes.value| >= 1
    requires subtypes.Some? ==>
      forall j, k :: 0 <= j < |subtypes.value| && 0 <= k < |subtypes.value[j]| ==> subtypes.value[j][k] != ','
    ensures ParseCost(fingerprint, name, NatToDecimal(cost) + SubtypesParameter(subtypes))
         == Some(UriParts(fingerprint, name, cost, subtypes))
  {
    var digits, tail := NatToDecimal(cost), SubtypesParameter(subtypes);
    var s := digits + tail;
    IndexOfConcat(digits, tail, '&');
    assert s[..|digits|] == digits;
    assert s[|digits|..] == tail;
    DecimalRoundTrip(cost);
    if subtypes.Some? {
      StripPrefixConcat("&subtypes=", Join(subtypes.value, ","));
      SplitJoin(subtypes.value, ',');
    }
  }

  lemma ParseTypeNameOf(fingerprint: string, name: string, rest: string)
    requires forall k :: 0 <= k < |name| ==> name[k] != '&'
    ensures ParseTypeName(fingerprint, name + "&cost=" + rest) == ParseCost(fingerprint, name, rest)
  {
    var s := name + "&cost=" + rest;
    assert s == name + ("&cost=" + rest);
    IndexOfConcat(name, "&cost=" + rest, '&');
    assert s[..|name|] == name;
    assert s[|name|..] == "&cost=" + rest;
    StripPrefixConcat("&cost=", rest);
  }

  lemma ParseFingerprintOf(fingerprint: string, rest: string)
    requires forall k :: 0 <= k < |fingerprint| ==> fingerprint[k] != '?'
    ensures ParseFingerprint(fingerprint + "?fpt=" + rest) == ParseTypeName(fingerprint, rest)
  {
    var s := fingerprint + "?fpt=" + rest;
    assert s == fingerprint + ("?fpt=" + rest);
    IndexOfConcat(fingerprint, "?fpt=" + rest, '?');
    assert s[..|fingerprint|] == fingerprint;
    assert s[|fingerprint|..] == "?fpt=" + rest;
    StripPrefixConcat("?fpt=", rest);
  }

  /** The URI determines the fingerprint, type name, cost and subtypes it
      was written from, as long as the fingerprint holds no `?`. */
  lemma UriRoundTrip(c: Condition)
    requires forall k :: 0 <= k < |GetFingerprint(c)| ==> GetFingerprint(c)[k] != '?'
    ensures ParseUri(SerializeUri(c)) == Some(UriContent(c))
  {
    var content := UriContent(c);
    var afterCost := NatToDecimal(content.cost) + SubtypesParameter(content.subtypes);
    var afterFpt := content.typeName + "&cost=" + afterCost;
    var afterScheme := content.fingerprint + "?fpt=" + afterFpt;
    UriLayout(c);
    StripPrefixConcat(UriScheme, afterScheme);
    ParseFingerprintOf(content.fingerprint, afterFpt);
    NoAmpersandInTypeName(c);
    ParseTypeNameOf(content.fingerprint, content.typeName, afterCost);
    NoCommaInSubtypes(c);
    ParseCostOf(content.fingerprint, content.typeName, content.cost, content.subtypes);
  }

  /** `SerializeUri` regrouped so that each parameter's value is followed by
      the rest of the URI. */
  lemma UriLayout(c: Condition)
    ensures SerializeUri(c) ==
      UriScheme + (GetFingerprint(c) + "?fpt=" + (TypeName(c) + "&cost=" +
        (NatToDecimal(GetCost(c)) + SubtypesParameter(UriContent(c).subtypes))))
  {
    var fingerprint, name, digits := GetFingerprint(c), TypeName(c), NatToDecimal(GetCost(c));
    if IsCompound(c) {
      Regroup(UriScheme, fingerprint, "?fpt=", name, "&cost=", digits, "&subtypes=" + Join(GetSubtypes(c), ","));
    } else {
      Regroup(UriScheme, fingerprint, "?fpt=", name, "&cost=", digits, "");
    }
  }

  lemma Regroup(a: string, b: string, c: string, d: string, e: string, f: string, g: string)
    ensures a + b + c + d + e + f + g == a + (b + c + (d + e + (f + g)))
    ensures a + b + c + d + e + f == a + (b + c + (d + e + (f + "")))
  {
  }

  /** The URI does not determine the condition: it carries the constant
      fingerprint and the total cost of a Prefix condition, not its prefix,
      its length bound or its stored cost. */
  lemma UriNotInjective()
    ensures var leaf := PreimageSha256Condition([], 0);
            var c := PrefixSha256Condition([1], 0, leaf, 0);
            var d := PrefixSha256Condition([], 1, leaf, 7);
            c != d && SerializeUri(c) == SerializeUri(d)
  {
    var leaf := PreimageSha256Condition([], 0);
    assert GetCost(PrefixSha256Condition([1], 0, leaf, 0)) == 1025;
    assert GetCost(PrefixSha256Condition([], 1, leaf, 7)) == 1025;
  }

  lemma NoAmpersandInTypeName(c: Condition)
    ensures forall k :: 0 <= k < |TypeName(c)| ==> TypeName(c)[k] != '&'
  {
  }

  lemma NoCommaInSubtypes(c: Condition)
    ensures forall j, k :: 0 <= j < |GetSubtypes(c)| && 0 <= k < |GetSubtypes(c)[j]| ==> GetSubtypes(c)[j][k] != ','
  {
  }

  /** Conditions that differ in kind or in cost never share a URI. */
  lemma UriSeparatesKindAndCost(c: Condition, d: Condition)
    requires forall k :: 0 <= k < |GetFingerprint(c)| ==> GetFingerprint(c)[k] != '?'
    requires forall k :: 0 <= k < |GetFingerprint(d)| ==> GetFingerprint(d)[k] != '?'
    requires SerializeUri(c) == SerializeUri(d)
    ensures TypeName(c) == TypeName(d) && GetCost(c) == GetCost(d) && GetFingerprint(c) == GetFingerprint(d)
  {
    UriRoundTrip(c);
    UriRoundTrip(d);
  }
}
