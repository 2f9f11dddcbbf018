/** The concrete scenarios the repository's test and demo exercise: the
    preimage `"test"`, and the prefix `"pre"` with length bound 100 over it. */
module Examples {

  import opened Common
  import Enum = CryptoConditions
  import opened ConditionTrait
  import opened FulfillmentTrait

  function Test(): Bytes { [116, 101, 115, 116] }
  function Pre(): Bytes { [112, 114, 101] }

  /** The trait-design test: the Prefix condition costs 3 + 100 + 4 + 1024,
      its URI is given in full, and the fulfillment verifies it. */
  lemma PrefixOverPreimage(hexSha256: HexDigest)
    ensures var f1 := PreimageSha256Fulfillment(Test());
            var f2 := PrefixSha256Fulfillment(Pre(), 100, f1);
            var c2 := GetCondition(f2, hexSha256);
            GetCondition(f1, hexSha256).cost == 4
            && c2.cost == 1131 && GetCost(c2) == 1131
            && SerializeUri(c2) == "ni:///sha-256;" + "test" + "?fpt=" + "prefix-sha-256" + "&cost=" + "1131"
                                   + "&subtypes=" + "preimage-sha-256"
            && Verify(f2, c2, hexSha256)
  {
    var c1 := GetCondition(PreimageSha256Fulfillment(Test()), hexSha256);
    var c2 := GetCondition(PrefixSha256Fulfillment(Pre(), 100, PreimageSha256Fulfillment(Test())), hexSha256);
    assert c1.cost == 4;
    assert GetCost(c2) == 1131;
    assert Decimal.NatToDecimal(1131) == "1131" by {
      assert Decimal.NatToDecimal(113) == "113" by {
        assert Decimal.NatToDecimal(11) == "11";
      }
    }
  }

  /** The URI of the Preimage condition for `"test"`. */
  lemma PreimageUri(hexSha256: HexDigest)
    ensures SerializeUri(GetCondition(PreimageSha256Fulfillment(Test()), hexSha256))
         == "ni:///sha-256;" + ToText(hexSha256(Test())) + "?fpt=" + "preimage-sha-256" + "&cost=" + "4"
  {
    var c := GetCondition(PreimageSha256Fulfillment(Test()), hexSha256);
    assert c == PreimageSha256Condition(hexSha256(Test()), 4);
    assert Decimal.NatToDecimal(4) == "4";
  }

  /** The fingerprint of the serialization test: the hex SHA-256 of
      `"test"`, given byte by byte. */
  function TestDigest(): Bytes {
    [57, 102, 56, 54, 100, 48, 56, 49, 56, 56, 52, 99, 55, 100, 54, 53, 57, 97, 50, 102, 101, 97, 97, 48, 99, 53,
     53, 97, 100, 48, 49, 53, 97, 51, 98, 102, 52, 102, 49, 98, 50, 98, 48, 98, 56, 50, 50, 99, 100, 49, 53, 100,
     54, 99, 49, 53, 98, 48, 102, 48, 48, 97, 48, 56]
  }

  /** The serialization test: a Preimage condition holding that digest with
      cost 100. */
  lemma SerializeTestVector()
    ensures SerializeUri(PreimageSha256Condition(TestDigest(), 100))
         == "ni:///sha-256;" + ToText(TestDigest()) + "?fpt=" + "preimage-sha-256" + "&cost=" + "100"
  {
    assert Decimal.NatToDecimal(100) == "100" by {
      assert Decimal.NatToDecimal(10) == "10";
    }
  }

  /** The enum-design demo: both derived conditions verify, and a different
      preimage's condition does not, as long as the digests differ. */
  lemma EnumDemo(hexSha256: HexDigest)
    requires hexSha256(Test()) != hexSha256([84, 69, 83, 84])
    ensures var f1 := Enum.Fulfillment.Preimage(Test());
            var f2 := Enum.Fulfillment.Prefix(Pre(), 100, f1);
            Enum.Verify(f1, Enum.Derive(f1, hexSha256), hexSha256)
            && Enum.Verify(f2, Enum.Derive(f2, hexSha256), hexSha256)
            && !Enum.Verify(f1, Enum.Derive(Enum.Fulfillment.Preimage([84, 69, 83, 84]), hexSha256), hexSha256)
  {
  }
}
