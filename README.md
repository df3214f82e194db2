# API key extraction (package `auth`)

A Dafny model of `GetAPIKey(headers)` from package `auth`. The function takes a
request's multi-valued header map and reads the first value stored under
`"Authorization"`, the way Go's `http.Header.Get` does. It then returns one of:

- `("", ErrNoAuthHeaderIncluded)` when there is no such value or it is empty;
- `("", ErrMalformedAuthHeader)` when the value does not start with the exact,
  case-sensitive prefix `"ApiKey "`;
- `(key, nil)` otherwise, where the key is the text after the prefix up to,
  but not including, the next space.

The contract is taken from the table-driven test `TestGetAPIKey` in
`internal/auth/auth_test.go`. The implementation file `internal/auth/auth.go`
is not part of this model.

Layout:

- `wrappers.dfy`, module `Wrappers`: `Option`, which stands for Go's nilable `error`.
- `auth.dfy`, module `Auth`: the data model, `Get` (the header lookup), and
  `Split`/`Join`/`FirstToken` (splitting on spaces as Go's
  `strings.Split(s, " ")` does). `JoinSplit` and `SplitJoin` prove that `Split` is
  exactly the inverse of joining space-free pieces with single spaces. It also holds `GetAPIKey` in the split-based form
  (piece 0 must be `"ApiKey"`, there must be at least two pieces, and the key is
  piece 1). `PrefixRule` is an independent prefix-based reference definition.
  The module proves the two forms equal and derives the general properties from that.
- `auth_table.dfy`, module `AuthTable`: one lemma per live row of the test
  table, plus the two disabled rows, showing what the model actually yields for them.

Errors are the enumeration `AuthErr = NoAuthHeader | Malformed`, compared by
equality. The result is the pair `(key, Option<AuthErr>)`.

The header name is matched exactly. `http.Header.Get` canonicalizes only the name it
looks up, and `"Authorization"` is already canonical. So a literal map whose key is
written `"authorization"` is not found. HTTP field names are case-insensitive, but the
model follows this lookup's behaviour: the lower-case row of the test is disabled, and `AuthTable.LowerCaseFieldName`
proves that such a map yields `NoAuthHeader`.

## Model

| member | source | states |
|---|---|---|
| Auth.Get | internal/auth/auth_test.go:124-130 | the result is the first value stored under the name, or "" when the name is absent or its value list is empty |
| Auth.GetAPIKey | internal/auth/auth_test.go:146 | whenever an error is returned the key is empty; `NoAuthHeader` is returned exactly when "Authorization" is absent, has no values, or its first value is empty |
| Auth.ClassifyValue | internal/auth/auth_test.go:13-139 | on one header value: an error implies an empty key; `NoAuthHeader` exactly for the empty value; a successful key never contains a space |
| Auth.SplitRuleIsPrefixRule | internal/auth/auth_test.go:115-122 | the split-on-spaces classification equals the prefix rule on every value: the "ApiKey" first piece with a second piece exists exactly when the value starts with "ApiKey ", and piece 1 is the text after the prefix up to the next space |
| Auth.GetAPIKeyFollowsPrefixRule | internal/auth/auth_test.go:123-130 | GetAPIKey on any header map equals the prefix rule applied to the first Authorization value |
| Auth.MissingHeader | internal/auth/auth_test.go:45-50 | no "Authorization" entry (or an entry with no values) gives `("", NoAuthHeader)` |
| Auth.EmptyValue | internal/auth/auth_test.go:51-58 | an empty first Authorization value gives `("", NoAuthHeader)` |
| Auth.MalformedIffNoPrefix | internal/auth/auth_test.go:59-106 | `("", Malformed)` is returned if and only if the first value is non-empty and does not start with the exact prefix "ApiKey " |
| Auth.SuccessIffPrefix | internal/auth/auth_test.go:19-26 | no error if and only if the first value starts with "ApiKey "; the key is then a space-free prefix of the remainder that is either all of it or followed by a space |
| Auth.WellFormedValue | internal/auth/auth_test.go:19-26 | "ApiKey tok" with a space-free tok gives `(tok, no error)`, including the empty tok |
| Auth.KeyStopsAtSpace | internal/auth/auth_test.go:115-122 | "ApiKey tok more" with a space-free tok gives `(tok, no error)`: the key stops at the next space |
| Auth.OnlyFirstValueMatters | internal/auth/auth_test.go:123-130 | with Authorization values `[first] + later`, the result depends on `first` alone |
| Auth.OtherHeadersIrrelevant | internal/auth/auth_test.go:35-44 | setting or removing any header other than "Authorization" does not change the result |
| AuthTable.HappyPath | internal/auth/auth_test.go:19-26 | `{"Authorization": ["ApiKey mysecretkey123"]}` gives `("mysecretkey123", no error)` |
| AuthTable.OtherHeadersPresent | internal/auth/auth_test.go:35-44 | with Content-Type and X-Custom beside "ApiKey mainkey789" the result is `("mainkey789", no error)` |
| AuthTable.NoAuthorizationHeader | internal/auth/auth_test.go:45-50 | the empty header map gives `("", NoAuthHeader)` |
| AuthTable.EmptyAuthorizationValue | internal/auth/auth_test.go:51-58 | `[""]` gives `("", NoAuthHeader)` |
| AuthTable.BearerScheme | internal/auth/auth_test.go:59-66 | "Bearer topsecrettoken" gives `("", Malformed)` |
| AuthTable.PrefixWithoutKey | internal/auth/auth_test.go:67-74 | "ApiKey " gives an empty key and no error |
| AuthTable.SchemeWithoutSpace | internal/auth/auth_test.go:75-82 | "ApiKey" gives `("", Malformed)` |
| AuthTable.SchemeJoinedToKey | internal/auth/auth_test.go:83-90 | "ApiKeymysecretkey" gives `("", Malformed)` |
| AuthTable.LowerCaseScheme | internal/auth/auth_test.go:91-98 | "apikey mysecretkey" gives `("", Malformed)` |
| AuthTable.UpperCaseScheme | internal/auth/auth_test.go:99-106 | "APIKEY mysecretkey" gives `("", Malformed)` |
| AuthTable.InternalSpaces | internal/auth/auth_test.go:115-122 | "ApiKey my internal spaced key" gives `("my", no error)` |
| AuthTable.SeveralAuthorizationValues | internal/auth/auth_test.go:123-130 | values `["ApiKey firstKeyCorrect", "Bearer someOtherToken", "ApiKey thirdKey"]` give `("firstKeyCorrect", no error)` |
| AuthTable.LeadingSpace | internal/auth/auth_test.go:131-138 | " ApiKey " gives `("", Malformed)` |
| AuthTable.LowerCaseFieldName | internal/auth/auth_test.go:27-34 | the disabled row: a map keyed "authorization" gives `("", NoAuthHeader)`, not the key that row expects, because the lookup name must match exactly |
| AuthTable.DoubleSpaceAfterScheme | internal/auth/auth_test.go:107-114 | the disabled row: "ApiKey  spaced key  " gives an empty key and no error, not "spaced key" |

## Left out

- `http.Header.Get`'s canonicalization of the lookup name (MIME key canonicalization): it is library behaviour. The name is compared exactly, which gives the same result for the canonical name "Authorization".
- Case-insensitive lookup of header names: the code does not do it for keys stored in a literal map, so the model does not assert it.
- The sentinels' message texts and `errors.Is` wrapping: errors are a two-value enumeration compared by equality.
- Go strings are byte strings; the model uses `seq<char>`. Only the ASCII space and the ASCII prefix are ever compared, so the results agree.
- The Go test plumbing (`testing.T`, `t.Run`, `t.Errorf` and the loop over the table): each row is a lemma instead.
- The HTTP server, routing, and whatever consumes the key: I/O outside the extraction logic.
