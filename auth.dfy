/**
  Package `auth`: extraction of an API key from the `Authorization` header of
  an HTTP request.

  `GetAPIKey` reads the first value stored under "Authorization" (as Go's
  `http.Header.Get` does), and classifies it:
    - absent or empty                    -> ("", NoAuthHeader)
    - not of the form "ApiKey <rest>"    -> ("", Malformed)
    - otherwise                          -> (first space-delimited token of <rest>, no error)

  The operation is written as a split-on-spaces formulation, as
  `strings.Split(v, " ")` computes it (demand at least two pieces with
  "ApiKey" first, return piece 1), and is proved equal to an independent
  prefix-based reference definition, `PrefixRule`, from which the
  table-driven test's expectations follow.
*/
module Auth {
  import opened Wrappers

  /** The two sentinel errors, compared by identity in the source. */
  datatype AuthErr =
    | NoAuthHeader   // ErrNoAuthHeaderIncluded
    | Malformed      // ErrMalformedAuthHeader

  /** A multi-valued header collection: field name to its values, in order. */
  type Header = map<string, seq<string>>

  /** The key and, when extraction failed, which error (Go's nil error is None). */
  type Outcome = (string, Option<AuthErr>)

  const AuthorizationName: string := "Authorization"
  const Scheme: string := "ApiKey"
  const Prefix: string := "ApiKey "

  // ---------------------------------------------------------------------------
  // Header lookup
  // ---------------------------------------------------------------------------

  /**
    The first value stored under `name`, or "" when the name is absent or has
    no values. The name is matched exactly: `http.Header.Get` canonicalizes
    only the name it looks up, and "Authorization" is already canonical, so a
    key written "authorization" in a literal map is not found.
  */
  function Get(h: Header, name: string): (v: string)
    ensures name in h && h[name] != [] ==> v == h[name][0]
    ensures name !in h || h[name] == [] ==> v == ""
  {
    if name in h && |h[name]| > 0 then h[name][0] else ""
  }

  // ---------------------------------------------------------------------------
  // Splitting on spaces (Go's strings.Split(s, " "))
  // ---------------------------------------------------------------------------

  /** Number of space characters in `s`. */
  function Spaces(s: string): (n: nat)
    ensures n == 0 <==> ' ' !in s
    ensures n <= |s|
  {
    if s == [] then 0 else (if s[0] == ' ' then 1 else 0) + Spaces(s[1..])
  }

  /**
    The pieces of `s` between the spaces: every space separates two pieces, so
    a leading, trailing or doubled space yields an empty piece, and "" yields
    the single piece "".
  */
  function Split(s: string): (pieces: seq<string>)
    ensures |pieces| == Spaces(s) + 1
    ensures forall i :: 0 <= i < |pieces| ==> ' ' !in pieces[i]
  {
    if s == [] then [""]
    else
      var rest := Split(s[1..]);
      if s[0] == ' ' then [""] + rest
      else [[s[0]] + rest[0]] + rest[1..]
  }

  /** Concatenation of `pieces` with one space between neighbours. */
  function Join(pieces: seq<string>): string
  {
    if pieces == [] then ""
    else if |pieces| == 1 then pieces[0]
    else pieces[0] + " " + Join(pieces[1..])
  }

  /** Putting a character in front of the first piece puts it in front of the joined string. */
  lemma {:induction false} JoinExtendHead(c: char, pieces: seq<string>)
    requires |pieces| >= 1
    ensures Join([[c] + pieces[0]] + pieces[1..]) == [c] + Join(pieces)
  {
    var head := [c] + pieces[0];
    var extended := [head] + pieces[1..];
    assert extended[0] == head && |extended| == |pieces|;
    if |pieces| > 1 {
      var tail := Join(pieces[1..]);
      assert extended[1..] == pieces[1..];
      assert Join(extended) == head + " " + tail;
      assert head + " " + tail == [c] + (pieces[0] + " " + tail);
    }
  }

  /** Splitting loses nothing: joining the pieces back gives the input. */
  lemma {:induction false} JoinSplit(s: string)
    ensures Join(Split(s)) == s
  {
    if s != [] {
      var rest := Split(s[1..]);
      JoinSplit(s[1..]);
      if s[0] == ' ' {
        assert Split(s) == [""] + rest;
        assert ([""] + rest)[1..] == rest;
      } else {
        JoinExtendHead(s[0], rest);
      }
      assert s == [s[0]] + s[1..];
    }
  }

  // ---------------------------------------------------------------------------
  // The first token of a string
  // ---------------------------------------------------------------------------

  /** The text of `s` up to, not including, its first space (all of `s` if none). */
  function FirstToken(s: string): (t: string)
    ensures t <= s
    ensures ' ' !in t
    ensures |t| < |s| <==> ' ' in s
    ensures |t| < |s| ==> s[|t|] == ' '
  {
    if s == [] || s[0] == ' ' then "" else [s[0]] + FirstToken(s[1..])
  }

  /** The first piece of the split is the first token. */
  lemma {:induction false} SplitHead(s: string)
    ensures Split(s)[0] == FirstToken(s)
  {
    if s != [] && s[0] != ' ' {
      SplitHead(s[1..]);
    }
  }

  /** A non-space character joins the first piece of the rest. */
  lemma SplitCons(c: char, t: string)
    requires c != ' '
    ensures Split([c] + t) == [[c] + Split(t)[0]] + Split(t)[1..]
  {
    assert ([c] + t)[1..] == t;
  }

  /** A leading space opens an empty piece. */
  lemma SplitSpace(t: string)
    ensures Split([' '] + t) == [""] + Split(t)
  {
    assert ([' '] + t)[1..] == t;
  }

  /** A space-free token followed by a space splits off as a piece of its own. */
  lemma {:induction false} SplitAfterToken(a: string, b: string)
    requires ' ' !in a
    ensures Split(a + " " + b) == [a] + Split(b)
  {
    if a == [] {
      assert a + " " + b == [' '] + b;
      SplitSpace(b);
    } else {
      var t := a[1..] + " " + b;
      assert a + " " + b == [a[0]] + t;
      SplitAfterToken(a[1..], b);
      SplitCons(a[0], t);
      assert Split(t)[1..] == Split(b);
      assert [a[0]] + a[1..] == a;
    }
  }

  /** A space-free string is a single piece. */
  lemma SplitToken(t: string)
    requires ' ' !in t
    ensures Split(t) == [t]
  {
    SplitHead(t);
    FirstTokenOfToken(t);
  }

  /**
    Joining space-free pieces and splitting again gives the pieces back; with
    JoinSplit this pins Split down as the inverse of joining with spaces.
  */
  lemma {:induction false} SplitJoin(pieces: seq<string>)
    requires |pieces| >= 1
    requires forall i :: 0 <= i < |pieces| ==> ' ' !in pieces[i]
    ensures Split(Join(pieces)) == pieces
  {
    if |pieces| == 1 {
      SplitToken(pieces[0]);
    } else {
      SplitJoin(pieces[1..]);
      SplitAfterToken(pieces[0], Join(pieces[1..]));
      assert [pieces[0]] + pieces[1..] == pieces;
    }
  }

  // ---------------------------------------------------------------------------
  // GetAPIKey and its reference definition
  // ---------------------------------------------------------------------------

  /**
    The extraction on the first Authorization value, in its split-on-spaces
    formulation: empty means no header; otherwise the value is split on
    spaces as `strings.Split(v, " ")` does, and fewer
    than two pieces or a first piece other than "ApiKey" is malformed; the key
    is the second piece.
  */
  function ClassifyValue(v: string): (r: Outcome)
    ensures r.1.Some? ==> r.0 == ""
    ensures r.1 == Some(NoAuthHeader) <==> v == ""
    ensures r.1 == None ==> ' ' !in r.0
  {
    if v == "" then ("", Some(NoAuthHeader))
    else
      var pieces := Split(v);
      if |pieces| < 2 || pieces[0] != Scheme then ("", Some(Malformed))
      else (pieces[1], None)
  }

  /** `GetAPIKey(headers)`: classify the first value stored under "Authorization". */
  function GetAPIKey(h: Header): (r: Outcome)
    ensures r.1.Some? ==> r.0 == ""
    ensures r.1 == Some(NoAuthHeader) <==>
              AuthorizationName !in h || h[AuthorizationName] == [] || h[AuthorizationName][0] == ""
  {
    ClassifyValue(Get(h, AuthorizationName))
  }

  /**
    Reference definition: a non-empty value must begin with the exact,
    case-sensitive prefix "ApiKey " (scheme, then one space), and the key is
    the text after the prefix up to the next space.
  */
  function PrefixRule(v: string): Outcome
  {
    if v == "" then ("", Some(NoAuthHeader))
    else if !(Prefix <= v) then ("", Some(Malformed))
    else (FirstToken(v[|Prefix|..]), None)
  }

  /** The split formulation and the prefix formulation agree on every value. */
  lemma SplitRuleIsPrefixRule(v: string)
    ensures ClassifyValue(v) == PrefixRule(v)
  {
    if v != "" {
      var pieces := Split(v);
      if Prefix <= v {
        var rest := v[|Prefix|..];
        assert v == Scheme + " " + rest;
        SplitAfterToken(Scheme, rest);
        SplitHead(rest);
      } else if |pieces| >= 2 && pieces[0] == Scheme {
        // A first piece "ApiKey" with a space after it would mean the prefix is there.
        SplitHead(v);
        assert false;
      }
    }
  }

  /** GetAPIKey meets the reference definition on the first Authorization value. */
  lemma GetAPIKeyFollowsPrefixRule(h: Header)
    ensures GetAPIKey(h) == PrefixRule(Get(h, AuthorizationName))
  {
    SplitRuleIsPrefixRule(Get(h, AuthorizationName));
  }

  // ---------------------------------------------------------------------------
  // Properties of GetAPIKey
  // ---------------------------------------------------------------------------

  /** No "Authorization" entry (or one with no values) means NoAuthHeader. */
  lemma MissingHeader(h: Header)
    requires AuthorizationName !in h || h[AuthorizationName] == []
    ensures GetAPIKey(h) == ("", Some(NoAuthHeader))
  {
  }

  /** An empty first Authorization value means NoAuthHeader. */
  lemma EmptyValue(h: Header)
    requires AuthorizationName in h && |h[AuthorizationName]| > 0
    requires h[AuthorizationName][0] == ""
    ensures GetAPIKey(h) == ("", Some(NoAuthHeader))
  {
  }

  /**
    Malformed is returned exactly when the first value is non-empty and does
    not start with "ApiKey " (wrong scheme, wrong case, no separator, or a
    leading space).
  */
  lemma MalformedIffNoPrefix(h: Header)
    ensures GetAPIKey(h) == ("", Some(Malformed)) <==>
              Get(h, AuthorizationName) != "" && !(Prefix <= Get(h, AuthorizationName))
  {
    GetAPIKeyFollowsPrefixRule(h);
  }

  /**
    Success is returned exactly when the first value starts with "ApiKey ";
    the key is then the text after the prefix up to the next space: a space-free
    prefix of the remainder that either is all of it or is followed by a space.
  */
  lemma SuccessIffPrefix(h: Header)
    ensures GetAPIKey(h).1 == None <==> Prefix <= Get(h, AuthorizationName)
    ensures GetAPIKey(h).1 == None ==>
              var rest := Get(h, AuthorizationName)[|Prefix|..];
              var key := GetAPIKey(h).0;
              key <= rest && ' ' !in key && (|key| == |rest| || rest[|key|] == ' ')
  {
    GetAPIKeyFollowsPrefixRule(h);
  }

  /** The token after the prefix is the whole key when nothing follows it. */
  lemma {:induction false} FirstTokenOfToken(t: string)
    requires ' ' !in t
    ensures FirstToken(t) == t
  {
    if t != [] {
      FirstTokenOfToken(t[1..]);
    }
  }

  /** The token after the prefix ends at the next space. */
  lemma FirstTokenBeforeSpace(t: string, more: string)
    requires ' ' !in t
    ensures FirstToken(t + " " + more) == t
  {
    SplitAfterToken(t, more);
    SplitHead(t + " " + more);
  }

  /** "ApiKey <tok>" with a space-free token yields that token and no error. */
  lemma WellFormedValue(h: Header, tok: string)
    requires Get(h, AuthorizationName) == Prefix + tok
    requires ' ' !in tok
    ensures GetAPIKey(h) == (tok, None)
  {
    GetAPIKeyFollowsPrefixRule(h);
    assert (Prefix + tok)[|Prefix|..] == tok;
    FirstTokenOfToken(tok);
  }

  /** "ApiKey <tok> <more>" yields only the token: the key stops at the next space. */
  lemma KeyStopsAtSpace(h: Header, tok: string, more: string)
    requires Get(h, AuthorizationName) == Prefix + tok + " " + more
    requires ' ' !in tok
    ensures GetAPIKey(h) == (tok, None)
  {
    GetAPIKeyFollowsPrefixRule(h);
    assert (Prefix + tok + " " + more)[|Prefix|..] == tok + " " + more;
    FirstTokenBeforeSpace(tok, more);
  }

  /** Only the first Authorization value is consulted. */
  lemma OnlyFirstValueMatters(h: Header, first: string, later: seq<string>)
    requires AuthorizationName in h && h[AuthorizationName] == [first] + later
    ensures GetAPIKey(h) == PrefixRule(first)
  {
    GetAPIKeyFollowsPrefixRule(h);
  }

  /** Adding, replacing or removing a header other than "Authorization" has no effect on the result. */
  lemma OtherHeadersIrrelevant(h: Header, name: string, values: seq<string>)
    requires name != AuthorizationName
    ensures GetAPIKey(h[name := values]) == GetAPIKey(h)
    ensures GetAPIKey(h - {name}) == GetAPIKey(h)
  {
    assert Get(h[name := values], AuthorizationName) == Get(h, AuthorizationName);
    assert Get(h - {name}, AuthorizationName) == Get(h, AuthorizationName);
  }
}
