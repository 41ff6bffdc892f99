/** `get_token_auth_header` in app/api/common/auth/__init__.py: the bearer
    token is taken from the `Authorization` header, or the header is rejected
    with a classified `AuthError`. The header is examined in a fixed order: missing
    or empty header, then the scheme word, then the number of parts. */
module TokenHeader {
  import opened Outcomes
  import opened PySplit

  const MissingHeader := AuthError("authorization_header_missing", "Authorization header is expected.", Unauthorized)
  const WrongScheme := AuthError("invalid_header", "Authorization header must start with \"Bearer\".", Unauthorized)
  const TokenNotFound := AuthError("invalid_header", "Token not found.", Unauthorized)
  const NotBearerToken := AuthError("invalid_header", "Authorization header must be bearer token.", Unauthorized)

  /** `str.lower()` for ASCII letters; every other character is kept. */
  function LowerChar(c: char): char {
    if 'A' <= c <= 'Z' then (c as int + 32) as char else c
  }

  function Lower(s: string): (r: string)
    ensures |r| == |s|
  {
    seq(|s|, i requires 0 <= i < |s| => LowerChar(s[i]))
  }

  /** `word.lower() == "bearer"`. */
  predicate IsBearer(w: string) {
    Lower(w) == "bearer"
  }

  /** The scheme test is an exact, case-insensitive match: every letter of
      the word is the letter of "bearer" in lower or upper case, and there
      are no more letters. */
  lemma BearerSpelling(w: string)
    ensures IsBearer(w) <==> |w| == 6 && forall i :: 0 <= i < 6 ==> w[i] == "bearer"[i] || w[i] == "BEARER"[i]
  {
    if IsBearer(w) {
      forall i | 0 <= i < 6 ensures w[i] == "bearer"[i] || w[i] == "BEARER"[i] {
        assert LowerChar(w[i]) == "bearer"[i];
      }
    }
    if |w| == 6 && forall i :: 0 <= i < 6 ==> w[i] == "bearer"[i] || w[i] == "BEARER"[i] {
      assert forall i :: 0 <= i < 6 ==> Lower(w)[i] == "bearer"[i];
    }
  }

  /** `get_token_auth_header()` for the header value `auth` (`None` when the
      request has no `Authorization` header). A non-empty header made only of
      whitespace splits into no parts, and indexing the first part raises
      `IndexError`, which the source does not catch. */
  function GetTokenAuthHeader(auth: Option<string>): (r: Outcome<string>)
    ensures r.Ok? ==> IsWord(r.value)
    ensures r.Uncaught? ==> r.exception == "IndexError"
  {
    if auth == None || auth.value == "" then Raised(MissingHeader)
    else
      var parts := Split(auth.value);
      SplitParts(auth.value);
      if |parts| == 0 then Uncaught("IndexError")
      else if !IsBearer(parts[0]) then Raised(WrongScheme)
      else if |parts| == 1 then Raised(TokenNotFound)
      else if |parts| > 2 then Raised(NotBearerToken)
      else Ok(parts[1])
  }

  /** An absent or empty header, and only such a header, is reported as missing. */
  lemma HeaderMissing(auth: Option<string>)
    ensures GetTokenAuthHeader(auth) == Raised(MissingHeader) <==> auth == None || auth == Some("")
  {
  }

  /** A non-empty header of whitespace only is the one case the source does
      not classify. */
  lemma HeaderBlank(s: string)
    ensures GetTokenAuthHeader(Some(s)).Uncaught? <==> s != "" && AllSpace(s)
  {
    SplitEmptyIff(s);
  }

  /** When the first word is not the scheme, the scheme error wins whatever
      the number of words: a one-word "Basic" gets it too. */
  lemma HeaderWrongScheme(gaps: seq<string>, words: seq<string>)
    requires |gaps| == |words| + 1 && Separators(gaps) && AllWords(words)
    requires |words| > 0 && !IsBearer(words[0])
    ensures GetTokenAuthHeader(Some(Layout(gaps, words))) == Raised(WrongScheme)
  {
    SplitOfLayout(gaps, words);
  }

  lemma HeaderSchemeOnly(gaps: seq<string>, scheme: string)
    requires |gaps| == 2 && Separators(gaps) && IsWord(scheme) && IsBearer(scheme)
    ensures GetTokenAuthHeader(Some(Layout(gaps, [scheme]))) == Raised(TokenNotFound)
  {
    SplitOfLayout(gaps, [scheme]);
  }

  lemma HeaderTooManyParts(gaps: seq<string>, words: seq<string>)
    requires |gaps| == |words| + 1 && Separators(gaps) && AllWords(words)
    requires |words| > 2 && IsBearer(words[0])
    ensures GetTokenAuthHeader(Some(Layout(gaps, words))) == Raised(NotBearerToken)
  {
    SplitOfLayout(gaps, words);
  }

  /** The scheme word and one more word, with any whitespace around and
      between them, yield that word as the token. */
  lemma HeaderWellFormed(gaps: seq<string>, scheme: string, token: string)
    requires |gaps| == 3 && Separators(gaps) && IsWord(scheme) && IsWord(token) && IsBearer(scheme)
    ensures GetTokenAuthHeader(Some(Layout(gaps, [scheme, token]))) == Ok(token)
  {
    SplitOfLayout(gaps, [scheme, token]);
  }

  /** The converse: a token comes only from a header that is a scheme word
      and that token, apart from whitespace before, between and after them. */
  lemma HeaderTokenShape(s: string, token: string)
    requires GetTokenAuthHeader(Some(s)) == Ok(token)
    ensures IsWord(token) && IsWord(Split(s)[0]) && IsBearer(Split(s)[0])
    ensures s == Gaps(s)[0] + Split(s)[0] + Gaps(s)[1] + token + Gaps(s)[2]
    ensures AllSpace(Gaps(s)[0]) && AllSpace(Gaps(s)[1]) && AllSpace(Gaps(s)[2]) && Gaps(s)[1] != ""
  {
    var words := Split(s);
    var gaps := Gaps(s);
    SplitParts(s);
    GapsSeparate(s);
    LayoutOfSplit(s);
    assert words == [words[0], token];
    LayoutOfTwo(gaps, words[0], token);
  }

  lemma LayoutOfTwo(gaps: seq<string>, a: string, b: string)
    requires |gaps| == 3
    ensures Layout(gaps, [a, b]) == gaps[0] + a + gaps[1] + b + gaps[2]
  {
    assert gaps[1..][1..] == gaps[2..];
    assert [a, b][1..] == [b];
    assert [b][1..] == [];
    assert Layout(gaps[2..], []) == gaps[2];
    assert Layout(gaps[1..], [b]) == gaps[1] + b + gaps[2];
  }

  /** `"Bearer " + t` yields `t`, for every word `t`. */
  lemma HeaderBearerToken(t: string)
    requires IsWord(t)
    ensures GetTokenAuthHeader(Some("Bearer " + t)) == Ok(t)
  {
    assert IsWord("Bearer");
    assert IsBearer("Bearer") by {
      BearerSpelling("Bearer");
    }
    var gaps := ["", " ", ""];
    LayoutOfTwo(gaps, "Bearer", t);
    assert "" + "Bearer" + " " + t + "" == "Bearer " + t;
    HeaderWellFormed(gaps, "Bearer", t);
  }

  /** The scheme test is equality, not a prefix test. */
  lemma HeaderSchemePrefixRejected()
    ensures GetTokenAuthHeader(Some("Bearerx t")) == Raised(WrongScheme)
  {
    var gaps := ["", " ", ""];
    var words := ["Bearerx", "t"];
    assert IsWord("Bearerx") && IsWord("t");
    assert AllWords(words) by {
      assert forall i :: 0 <= i < 2 ==> words[i] == "Bearerx" || words[i] == "t";
    }
    assert Layout(gaps, words) == "Bearerx t" by {
      assert gaps[1..] == [" ", ""];
      assert gaps[1..][1..] == [""];
      assert words[1..] == ["t"];
      assert words[1..][1..] == [];
    }
    HeaderWrongScheme(gaps, words);
  }
}
