/** The assumption made of the libraries can be met: a transparent scheme that meets it. */
module CryptoExample {
  import opened Wrappers
  import opened Jwt

  function Ones(n: nat): string {
    if n == 0 then "" else "1" + Ones(n - 1)
  }

  function CountOnes(s: string): (n: nat)
    ensures n <= |s|
  {
    if s != "" && s[0] == '1' then 1 + CountOnes(s[1..]) else 0
  }

  /** The expiry in unary, its sign in front and a full stop behind, then the id; no expiry is marked by an `n`. */
  function Encode(claims: Claims): string {
    match claims.exp
    case None => "n" + claims.id
    case Some(e) => (if e < 0 then "-" + Ones(-e) else "+" + Ones(e)) + "." + claims.id
  }

  function Decode(text: string): Option<Claims> {
    if text == "" then None
    else if text[0] == 'n' then Some(Claims(text[1..], None))
    else
      var n: int := CountOnes(text[1..]);
      if n + 1 < |text| then Some(Claims(text[n + 2..], Some(if text[0] == '-' then -n else n))) else None
  }

  lemma {:induction false} CountPrefix(n: nat, rest: string)
    requires rest == "" || rest[0] != '1'
    ensures |Ones(n)| == n && CountOnes(Ones(n) + rest) == n
  {
    if n == 0 {
      assert Ones(n) + rest == rest;
    } else {
      CountPrefix(n - 1, rest);
      assert (Ones(n) + rest)[1..] == Ones(n - 1) + rest;
    }
  }

  lemma DecodeEncode(claims: Claims)
    ensures Decode(Encode(claims)) == Some(claims)
  {
    var text := Encode(claims);
    match claims.exp
    case None =>
      assert text[1..] == claims.id;
    case Some(e) =>
      var n := if e < 0 then -e else e;
      var rest := "." + claims.id;
      CountPrefix(n, rest);
      assert text[1..] == Ones(n) + rest;
      assert text[n + 2..] == rest[1..] == claims.id;
  }

  /** Tokens in clear, and every text its own fingerprint. */
  function Transparent(): Crypto {
    Crypto((key, claims) => Encode(claims), (text, key) => Decode(text), text => text)
  }

  /** So no theorem that assumes sound libraries is empty. */
  lemma SoundIsMet()
    ensures Sound(Transparent())
  {
    forall key, claims
      ensures Transparent().open(Transparent().sign(key, claims), key) == Some(claims)
    {
      DecodeEncode(claims);
    }
  }
}
