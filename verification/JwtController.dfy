/** Login, refresh and logout (api/auth/jwt_controller.go), each handler as one step on the token table. */
module JwtController {
  import opened Wrappers
  import opened Decimal
  import opened Jwt
  import opened RefreshTokens

  const MINUTE: int := 60 * SECOND
  const HOUR: int := 60 * MINUTE

  datatype Config = Config(
    crypto: Crypto, accessKey: string, refreshKey: string, accessMinutes: nat, refreshHours: nat)

  /** What one request meets: every clock reading it makes and every call that fails under it. */
  datatype World = World(
    verifyAt: int, findAt: int, revokeAt: int, accessAt: int, refreshAt: int,
    findFails: bool, revokeFails: bool, revokeAllFails: bool,
    accessSignFails: bool, refreshSignFails: bool, storeFails: bool)

  datatype Issued = Issued(access: string, refresh: string, accessExpiresAt: int)

  datatype Reply =
    | LoginOk(user: UserId, access: string, refresh: string)
    | RefreshOk(access: string, refresh: string, expiresAt: int)
    | LoggedOut
    | BadRequest
    | Unauthorized
    | Unprocessable
    | ServerError
  {
    function Status(): int {
      match this
      case LoginOk(_, _, _) => 200
      case RefreshOk(_, _, _) => 200
      case LoggedOut => 200
      case BadRequest => 400
      case Unauthorized => 401
      case Unprocessable => 422
      case ServerError => 500
    }
  }

  /** The login body, what the user lookup gives for its e-mail, and whether the password hash accepts it. */
  datatype LoginData = LoginData(
    bound: bool, email: string, password: string, account: Option<UserId>, passwordMatches: bool)

  /** The refresh token of a user is a function of the id and the expiry's second alone. */
  function TokenFor(c: Config, user: UserId, expiresAt: int): string {
    c.crypto.sign(c.refreshKey, Claims(Print(user), Some(NumericDate(expiresAt))))
  }

  function RefreshExpiry(c: Config, w: World): int {
    w.refreshAt + c.refreshHours * HOUR
  }

  function Issue(c: Config, rows: Table, user: UserId, w: World): (Table, Option<Issued>) {
    var accessExpiresAt := w.accessAt + c.accessMinutes * MINUTE;
    var expiresAt := RefreshExpiry(c, w);
    if w.accessSignFails || w.refreshSignFails || w.storeFails then (rows, None)
    else
      var access := c.crypto.sign(c.accessKey, Claims(Print(user), Some(NumericDate(accessExpiresAt))));
      var refresh := TokenFor(c, user, expiresAt);
      match Insert(rows, Row(user, c.crypto.hash(refresh), expiresAt, None))
      case None => (rows, None)
      case Some(after) => (after, Some(Issued(access, refresh, accessExpiresAt)))
  }

  function Login(c: Config, rows: Table, data: LoginData, w: World): (Table, Reply) {
    if !data.bound then (rows, BadRequest)
    else if data.email == "" || data.password == "" then (rows, Unprocessable)
    else if data.account.None? || !data.passwordMatches then (rows, Unauthorized)
    else
      match Issue(c, rows, data.account.value, w)
      case (after, None) => (after, ServerError)
      case (after, Some(pair)) => (after, LoginOk(data.account.value, pair.access, pair.refresh))
  }

  /** The token a refresh request carries, once header, signature and expiry are accepted. */
  function Presented(c: Config, header: string, w: World): Option<(string, Claims)> {
    match GetTokenFromHeader(header)
    case Token(text) =>
      (match ParseAndVerifyToken(c.crypto, text, c.refreshKey, w.verifyAt)
       case Some(claims) => Some((text, claims))
       case None => None)
    case _ => None
  }

  /** The exchange of an active row for a new pair. */
  function Exchange(c: Config, rows: Table, id: nat, w: World): (Table, Reply)
    requires id < |rows|
  {
    if w.revokeFails then (rows, ServerError)
    else
      match Issue(c, Revoke(rows, id, w.revokeAt), rows[id].userId, w)
      case (after, None) => (after, ServerError)
      case (after, Some(pair)) => (after, RefreshOk(pair.access, pair.refresh, pair.accessExpiresAt))
  }

  /** The answer to a token that is not in the active set: every session of the claimed user ends. */
  function Compromise(rows: Table, claimedId: string, w: World): Table {
    match ParseUint32(claimedId)
    case Some(user) => if w.revokeAllFails then rows else RevokeAllForUser(rows, user, w.revokeAt)
    case None => rows
  }

  function Refresh(c: Config, rows: Table, header: string, w: World): (Table, Reply) {
    match Presented(c, header, w)
    case None => (rows, Unauthorized)
    case Some((text, claims)) =>
      match FindActive(rows, c.crypto.hash(text), w.findAt, w.findFails)
      case LookupError => (rows, ServerError)
      case Found(id) => Exchange(c, rows, id, w)
      case _ => (Compromise(rows, claims.id, w), Unauthorized)
  }

  function Logout(c: Config, rows: Table, header: string, w: World): (Table, Reply) {
    match GetTokenFromHeader(header)
    case Token(text) =>
      (match FindActive(rows, c.crypto.hash(text), w.findAt, w.findFails)
       case Found(id) => (if w.revokeFails then rows else Revoke(rows, id, w.revokeAt), LoggedOut)
       case _ => (rows, LoggedOut))
    case _ => (rows, LoggedOut)
  }

  /** The controller over its repository. */
  class JwtAuthController {
    const cfg: Config
    const refreshTokens: RefreshTokenRepo

    ghost predicate Valid() {
      refreshTokens.hashToken == cfg.crypto.hash
    }

    constructor (cfg: Config, refreshTokens: RefreshTokenRepo)
      requires refreshTokens.hashToken == cfg.crypto.hash
      ensures Valid() && this.cfg == cfg && this.refreshTokens == refreshTokens
    {
      this.cfg := cfg;
      this.refreshTokens := refreshTokens;
    }

    method IssueAccessAndRefresh(user: UserId, w: World)
      returns (access: string, refresh: string, accessExpiresAt: int, ok: bool)
      requires Valid()
      modifies refreshTokens
      ensures Issue(cfg, old(refreshTokens.rows), user, w) ==
              (refreshTokens.rows, if ok then Some(Issued(access, refresh, accessExpiresAt)) else None)
    {
      access, refresh, ok := "", "", false;
      var id := Print(user);
      accessExpiresAt := w.accessAt + cfg.accessMinutes * MINUTE;
      var refreshExpiresAt := w.refreshAt + cfg.refreshHours * HOUR;
      if w.accessSignFails {
        return;
      }
      access := cfg.crypto.sign(cfg.accessKey, Claims(id, Some(NumericDate(accessExpiresAt))));
      if w.refreshSignFails {
        return;
      }
      refresh := cfg.crypto.sign(cfg.refreshKey, Claims(id, Some(NumericDate(refreshExpiresAt))));
      ok := refreshTokens.Store(user, refresh, refreshExpiresAt, w.storeFails);
    }

    method LoginUserWithJWT(data: LoginData, w: World) returns (reply: Reply)
      requires Valid()
      modifies refreshTokens
      ensures (refreshTokens.rows, reply) == Login(cfg, old(refreshTokens.rows), data, w)
    {
      if !data.bound {
        return BadRequest;
      }
      if data.email == "" || data.password == "" {
        return Unprocessable;
      }
      if data.account.None? {
        return Unauthorized;
      }
      if !data.passwordMatches {
        return Unauthorized;
      }
      var access, refresh, _, ok := IssueAccessAndRefresh(data.account.value, w);
      if !ok {
        return ServerError;
      }
      return LoginOk(data.account.value, access, refresh);
    }

    method RefreshJwtToken(header: string, w: World) returns (reply: Reply)
      requires Valid()
      modifies refreshTokens
      ensures (refreshTokens.rows, reply) == Refresh(cfg, old(refreshTokens.rows), header, w)
    {
      var extracted := GetTokenFromHeader(header);
      if !extracted.Token? {
        return Unauthorized;
      }
      var text := extracted.text;
      var claims := ParseAndVerifyToken(cfg.crypto, text, cfg.refreshKey, w.verifyAt);
      if claims.None? {
        return Unauthorized;
      }
      var stored := refreshTokens.FindActiveToken(text, w.findAt, w.findFails);
      if !stored.Found? {
        if stored.NotFound? || stored.Inactive? {
          var user := ParseUint32(claims.value.id);
          if user.Some? {
            var _ := refreshTokens.RevokeUser(user.value, w.revokeAt, w.revokeAllFails);
          }
          return Unauthorized;
        }
        return ServerError;
      }
      var user := refreshTokens.rows[stored.id].userId;
      var revoked := refreshTokens.RevokeToken(stored.id, w.revokeAt, w.revokeFails);
      if !revoked {
        return ServerError;
      }
      var access, refresh, accessExpiresAt, ok := IssueAccessAndRefresh(user, w);
      if !ok {
        return ServerError;
      }
      return RefreshOk(access, refresh, accessExpiresAt);
    }

    method LogoutToken(header: string, w: World) returns (reply: Reply)
      requires Valid()
      modifies refreshTokens
      ensures (refreshTokens.rows, reply) == Logout(cfg, old(refreshTokens.rows), header, w)
    {
      var extracted := GetTokenFromHeader(header);
      if !extracted.Token? {
        return LoggedOut;
      }
      var stored := refreshTokens.FindActiveToken(extracted.text, w.findAt, w.findFails);
      if stored.Found? {
        var _ := refreshTokens.RevokeToken(stored.id, w.revokeAt, w.revokeFails);
      }
      return LoggedOut;
    }
  }

  /** Every row carries the fingerprint of the token issued for its own user and expiry, and no two rows share one. */
  ghost predicate WellFormed(c: Config, rows: Table) {
    && (forall i | 0 <= i < |rows| ::
          rows[i].tokenHash == c.crypto.hash(TokenFor(c, rows[i].userId, rows[i].expiresAt)))
    && (forall i, j | 0 <= i < j < |rows| :: rows[i].tokenHash != rows[j].tokenHash)
  }

  /** Equal fingerprints of issued tokens mean the same user and the same expiry second. */
  lemma FingerprintDeterminesIssue(c: Config, u: UserId, e: int, u': UserId, e': int)
    requires Sound(c.crypto)
    ensures c.crypto.hash(TokenFor(c, u, e)) == c.crypto.hash(TokenFor(c, u', e')) <==>
            u == u' && NumericDate(e) == NumericDate(e')
  {
    ParsePrint(u);
    ParsePrint(u');
    var k := c.refreshKey;
    var claims, claims' := Claims(Print(u), Some(NumericDate(e))), Claims(Print(u'), Some(NumericDate(e')));
    assert c.crypto.open(c.crypto.sign(k, claims), k) == Some(claims);
    assert c.crypto.open(c.crypto.sign(k, claims'), k) == Some(claims');
  }

  /** The expiry second a new token would get is not yet used by a row of this user. */
  ghost predicate SecondFree(rows: Table, user: UserId, expiresAt: int) {
    forall i | 0 <= i < |rows| ::
      rows[i].userId == user ==> NumericDate(rows[i].expiresAt) != NumericDate(expiresAt)
  }

  /** Issuing works exactly when nothing fails and the user's expiry second is free; it then adds one active row. */
  lemma IssueOutcome(c: Config, rows: Table, user: UserId, w: World)
    requires Sound(c.crypto) && WellFormed(c, rows)
    ensures WellFormed(c, Issue(c, rows, user, w).0)
    ensures Issue(c, rows, user, w).1.Some? <==>
            !w.accessSignFails && !w.refreshSignFails && !w.storeFails && SecondFree(rows, user, RefreshExpiry(c, w))
    ensures Issue(c, rows, user, w).1.Some? ==>
              && |Issue(c, rows, user, w).0| == |rows| + 1
              && Issue(c, rows, user, w).0[..|rows|] == rows
              && var row := Issue(c, rows, user, w).0[|rows|];
                 && row.userId == user && row.expiresAt == RefreshExpiry(c, w) && row.revokedAt.None?
                 && row.tokenHash == c.crypto.hash(Issue(c, rows, user, w).1.value.refresh)
    ensures Issue(c, rows, user, w).1.None? ==> Issue(c, rows, user, w).0 == rows
  {
    var e := RefreshExpiry(c, w);
    var hash := c.crypto.hash(TokenFor(c, user, e));
    forall i | 0 <= i < |rows|
      ensures rows[i].tokenHash == hash <==>
              rows[i].userId == user && NumericDate(rows[i].expiresAt) == NumericDate(e)
    {
      FingerprintDeterminesIssue(c, rows[i].userId, rows[i].expiresAt, user, e);
    }
  }

  /** Revoking touches neither owner, hash nor expiry, which is all that well-formedness is about. */
  lemma FormIsIdentity(c: Config, rows: Table, after: Table)
    requires WellFormed(c, rows) && |after| == |rows| && Preserves(rows, after)
    ensures WellFormed(c, after)
  {
    assert forall i | 0 <= i < |after| :: after[i].tokenHash == rows[i].tokenHash;
  }

  lemma RevokeKeepsForm(c: Config, rows: Table, id: nat, now: int)
    requires WellFormed(c, rows)
    ensures WellFormed(c, Revoke(rows, id, now)) && Preserves(rows, Revoke(rows, id, now))
  {
    FormIsIdentity(c, rows, Revoke(rows, id, now));
  }

  lemma RevokeAllKeepsForm(c: Config, rows: Table, user: UserId, now: int)
    requires WellFormed(c, rows)
    ensures WellFormed(c, RevokeAllForUser(rows, user, now)) && Preserves(rows, RevokeAllForUser(rows, user, now))
  {
    FormIsIdentity(c, rows, RevokeAllForUser(rows, user, now));
  }

  lemma IssueKeepsForm(c: Config, rows: Table, user: UserId, w: World)
    requires Sound(c.crypto) && WellFormed(c, rows)
    ensures WellFormed(c, Issue(c, rows, user, w).0) && Preserves(rows, Issue(c, rows, user, w).0)
  {
    IssueOutcome(c, rows, user, w);
    var after := Issue(c, rows, user, w).0;
    assert forall i | 0 <= i < |rows| && after[..|rows|] == rows :: after[..|rows|][i] == after[i];
  }

  /** A verified token that is stored names its owner: reuse of it revokes the owner's rows and no one else's. */
  lemma StoredTokenNamesOwner(c: Config, rows: Table, text: string, claims: Claims, now: int, id: nat)
    requires Sound(c.crypto) && WellFormed(c, rows)
    requires ParseAndVerifyToken(c.crypto, text, c.refreshKey, now) == Some(claims)
    requires id < |rows| && rows[id].tokenHash == c.crypto.hash(text)
    ensures text == TokenFor(c, rows[id].userId, rows[id].expiresAt)
    ensures ParseUint32(claims.id) == Some(rows[id].userId)
    ensures claims.exp == Some(NumericDate(rows[id].expiresAt)) && now < rows[id].expiresAt
  {
    var owner := rows[id].userId;
    var signed := Claims(Print(owner), Some(NumericDate(rows[id].expiresAt)));
    assert text == c.crypto.sign(c.refreshKey, signed);
    assert c.crypto.open(c.crypto.sign(c.refreshKey, signed), c.refreshKey) == Some(signed);
    ParsePrint(owner);
  }

  /**
   * A stored token that verifies is found active exactly when its row is unrevoked and the lookup's clock has not
   * passed the row's expiry. Read at one instant, the second condition always holds: only a revoked row is rejected.
   */
  lemma ExpiryAgreement(c: Config, rows: Table, header: string, w: World, id: nat)
    requires Sound(c.crypto) && WellFormed(c, rows) && !w.findFails
    requires Presented(c, header, w).Some?
    requires FindHash(rows, c.crypto.hash(Presented(c, header, w).value.0)) == Some(id)
    ensures FindActive(rows, c.crypto.hash(Presented(c, header, w).value.0), w.findAt, false) ==
            if Active(rows, id) && w.findAt <= rows[id].expiresAt then Found(id) else Inactive
    ensures w.findAt <= w.verifyAt ==> w.findAt <= rows[id].expiresAt
  {
    var (text, claims) := Presented(c, header, w).value;
    StoredTokenNamesOwner(c, rows, text, claims, w.verifyAt, id);
  }
}
