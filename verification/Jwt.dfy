/** Bearer headers and signed claims (internal/auth/jwt.go). Instants are counted in nanoseconds. */
module Jwt {
  import opened Wrappers
  import opened Text

  const SECOND: int := 1_000_000_000
  const BEARER := "Bearer"

  datatype HeaderResult = Token(text: string) | HeaderMissing | TypeMissing

  function GetTokenFromHeader(header: string): HeaderResult {
    if header == "" then HeaderMissing
    else if Index(header, BEARER) < 0 then TypeMissing
    else
      var at := Index(header, BEARER);
      Token(TrimSpace(header[..at] + header[at + |BEARER|..]))
  }

  /** `before + "Bearer" + after` cuts the header at the first place the word stands. */
  ghost predicate FirstCut(header: string, before: string, after: string) {
    && header == before + BEARER + after
    && forall i | 0 <= i < |before| :: !(BEARER <= header[i..])
  }

  /** Extraction fails exactly when the word is absent; otherwise it is the trimmed rest around its first occurrence. */
  lemma BearerExtraction(header: string)
    ensures GetTokenFromHeader(header).Token? <==> exists i | 0 <= i <= |header| :: "Bearer" <= header[i..]
    ensures GetTokenFromHeader(header).HeaderMissing? <==> header == ""
    ensures forall before, after | FirstCut(header, before, after) ::
              GetTokenFromHeader(header) == Token(TrimSpace(before + after))
  {
    var at := Index(header, BEARER);
    IndexIsFirst(header, BEARER);
    if header == "" {
      assert !(BEARER <= header[0..]);
    }
    if at >= 0 {
      assert BEARER <= header[at..];
    }
    forall before, after | FirstCut(header, before, after)
      ensures GetTokenFromHeader(header) == Token(TrimSpace(before + after))
    {
      assert header[|before|..] == BEARER + after;
      assert BEARER <= header[|before|..];
      assert at == |before|;
      assert header[..at] == before && header[at + |BEARER|..] == after;
    }
  }

  /** The header form of section 2.1 of RFC 6750 gives back any token without surrounding white space. */
  lemma BearerRoundTrip(token: string)
    requires Trimmed(token)
    ensures GetTokenFromHeader("Bearer " + token) == Token(token)
  {
    var header := "Bearer " + token;
    assert FirstCut(header, "", " " + token) by {
      assert header == "" + BEARER + (" " + token);
    }
    BearerExtraction(header);
    assert "" + (" " + token) == " " + token + "";
    TrimUnique("" + (" " + token), " ", token, "");
  }

  /** The registered claims in use: the subject's id and the expiry in whole seconds. */
  datatype Claims = Claims(id: string, exp: Option<int>)

  /** `jwt.NewNumericDate`: an instant cut down to its second. */
  function NumericDate(at: int): int {
    at / SECOND
  }

  /** The library calls: signing, opening a token with a key, and the SHA-256 fingerprint. */
  datatype Crypto = Crypto(
    sign: (string, Claims) -> string,
    open: (string, string) -> Option<Claims>,
    hash: string -> string)

  /** Assumed of the library: opening undoes signing, and no other text shares a signed token's fingerprint. */
  ghost predicate Sound(c: Crypto) {
    && (forall key, claims :: c.open(c.sign(key, claims), key) == Some(claims))
    && (forall text, key, claims :: c.hash(text) == c.hash(c.sign(key, claims)) ==> text == c.sign(key, claims))
  }

  /** Accepted while `now < exp` (section 4.1.4 of RFC 7519); a token without `exp` does not expire. */
  function ParseAndVerifyToken(c: Crypto, token: string, secret: string, now: int): Option<Claims> {
    match c.open(token, secret)
    case None => None
    case Some(claims) =>
      if claims.exp.Some? && now >= claims.exp.value * SECOND then None else Some(claims)
  }

  /** A second is a thousand million nanoseconds, and an instant counts towards the second it falls in. */
  lemma SecondOf(at: int)
    ensures NumericDate(at) * 1_000_000_000 <= at < (NumericDate(at) + 1) * 1_000_000_000
  {
  }

  /** A token is accepted exactly when its key opens it and its expiry second, if it has one, has not begun. */
  lemma AcceptedExactly(c: Crypto, token: string, secret: string, now: int, claims: Claims)
    ensures ParseAndVerifyToken(c, token, secret, now) == Some(claims) <==>
            && c.open(token, secret) == Some(claims)
            && (claims.exp == None || now < claims.exp.value * 1_000_000_000)
  {
  }
}
