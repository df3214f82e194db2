/**
  The rows of the table-driven test of `GetAPIKey`, each as a lemma about the
  model, proved from the general properties in module Auth; and the two
  disabled rows, with what the model yields for them.
*/
module AuthTable {
  import opened Wrappers
  import opened Auth

  lemma HappyPath()
    ensures GetAPIKey(map["Authorization" := ["ApiKey mysecretkey123"]]) == ("mysecretkey123", None)
  {
    WellFormedValue(map["Authorization" := ["ApiKey mysecretkey123"]], "mysecretkey123");
  }

  lemma OtherHeadersPresent()
    ensures GetAPIKey(map["Content-Type" := ["application/json"],
                          "Authorization" := ["ApiKey mainkey789"],
                          "X-Custom" := ["custom-value"]]) == ("mainkey789", None)
  {
    var h: Header := map["Content-Type" := ["application/json"],
                         "Authorization" := ["ApiKey mainkey789"],
                         "X-Custom" := ["custom-value"]];
    WellFormedValue(h, "mainkey789");
  }

  lemma NoAuthorizationHeader()
    ensures GetAPIKey(map[]) == ("", Some(NoAuthHeader))
  {
    MissingHeader(map[]);
  }

  lemma EmptyAuthorizationValue()
    ensures GetAPIKey(map["Authorization" := [""]]) == ("", Some(NoAuthHeader))
  {
    EmptyValue(map["Authorization" := [""]]);
  }

  lemma BearerScheme()
    ensures GetAPIKey(map["Authorization" := ["Bearer topsecrettoken"]]) == ("", Some(Malformed))
  {
    var h: Header := map["Authorization" := ["Bearer topsecrettoken"]];
    assert Get(h, AuthorizationName)[0] != Prefix[0];
    MalformedIffNoPrefix(h);
  }

  lemma PrefixWithoutKey()
    ensures GetAPIKey(map["Authorization" := ["ApiKey "]]) == ("", None)
  {
    var h: Header := map["Authorization" := ["ApiKey "]];
    assert Get(h, AuthorizationName) == Prefix + "";
    WellFormedValue(h, "");
  }

  lemma SchemeWithoutSpace()
    ensures GetAPIKey(map["Authorization" := ["ApiKey"]]) == ("", Some(Malformed))
  {
    var h: Header := map["Authorization" := ["ApiKey"]];
    assert |Get(h, AuthorizationName)| < |Prefix|;
    MalformedIffNoPrefix(h);
  }

  lemma SchemeJoinedToKey()
    ensures GetAPIKey(map["Authorization" := ["ApiKeymysecretkey"]]) == ("", Some(Malformed))
  {
    var h: Header := map["Authorization" := ["ApiKeymysecretkey"]];
    assert Get(h, AuthorizationName)[6] != Prefix[6];
    MalformedIffNoPrefix(h);
  }

  lemma LowerCaseScheme()
    ensures GetAPIKey(map["Authorization" := ["apikey mysecretkey"]]) == ("", Some(Malformed))
  {
    var h: Header := map["Authorization" := ["apikey mysecretkey"]];
    assert Get(h, AuthorizationName)[0] != Prefix[0];
    MalformedIffNoPrefix(h);
  }

  lemma UpperCaseScheme()
    ensures GetAPIKey(map["Authorization" := ["APIKEY mysecretkey"]]) == ("", Some(Malformed))
  {
    var h: Header := map["Authorization" := ["APIKEY mysecretkey"]];
    assert Get(h, AuthorizationName)[1] != Prefix[1];
    MalformedIffNoPrefix(h);
  }

  lemma InternalSpaces()
    ensures GetAPIKey(map["Authorization" := ["ApiKey my internal spaced key"]]) == ("my", None)
  {
    var h: Header := map["Authorization" := ["ApiKey my internal spaced key"]];
    assert Get(h, AuthorizationName) == Prefix + "my" + " " + "internal spaced key";
    KeyStopsAtSpace(h, "my", "internal spaced key");
  }

  lemma SeveralAuthorizationValues()
    ensures GetAPIKey(map["Authorization" := ["ApiKey firstKeyCorrect", "Bearer someOtherToken", "ApiKey thirdKey"]])
            == ("firstKeyCorrect", None)
  {
    var h: Header := map["Authorization" := ["ApiKey firstKeyCorrect", "Bearer someOtherToken", "ApiKey thirdKey"]];
    WellFormedValue(h, "firstKeyCorrect");
  }

  lemma LeadingSpace()
    ensures GetAPIKey(map["Authorization" := [" ApiKey "]]) == ("", Some(Malformed))
  {
    var h: Header := map["Authorization" := [" ApiKey "]];
    assert Get(h, AuthorizationName)[0] != Prefix[0];
    MalformedIffNoPrefix(h);
  }

  /**
    The disabled row with a lower-case field name: the lookup matches the name
    exactly, so "authorization" is not found and the result is NoAuthHeader,
    not the key that row expected.
  */
  lemma LowerCaseFieldName()
    ensures GetAPIKey(map["authorization" := ["ApiKey anotherkey456"]]) == ("", Some(NoAuthHeader))
  {
    var h: Header := map["authorization" := ["ApiKey anotherkey456"]];
    assert "authorization" != AuthorizationName by {
      assert "authorization"[0] != AuthorizationName[0];
    }
    MissingHeader(h);
  }

  /**
    The disabled row with two spaces after the scheme: the text after the
    prefix starts with a space, so the key is empty, not "spaced key".
  */
  lemma DoubleSpaceAfterScheme()
    ensures GetAPIKey(map["Authorization" := ["ApiKey  spaced key  "]]) == ("", None)
  {
    var h: Header := map["Authorization" := ["ApiKey  spaced key  "]];
    assert Get(h, AuthorizationName) == Prefix + "" + " " + "spaced key  ";
    KeyStopsAtSpace(h, "", "spaced key  ");
  }
}
