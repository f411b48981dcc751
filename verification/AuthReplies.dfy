/** What each authentication handler answers and leaves behind, for all tables and requests. */
module AuthReplies {
  import opened Wrappers
  import opened Decimal
  import opened Jwt
  import opened RefreshTokens
  import opened JwtController

  ghost predicate IssueWorks(c: Config, rows: Table, user: UserId, w: World) {
    !w.accessSignFails && !w.refreshSignFails && !w.storeFails && SecondFree(rows, user, RefreshExpiry(c, w))
  }

  /** The text of a refresh token issued to this user in this world. */
  function RefreshText(c: Config, user: UserId, w: World): string {
    c.crypto.sign(
      c.refreshKey,
      Claims(Print(user), Some((w.refreshAt + c.refreshHours * 3_600_000_000_000) / 1_000_000_000)))
  }

  /** One unrevoked row was added for this pair, whose tokens name the user and expire after their lifetimes. */
  ghost predicate AddsPair(c: Config, rows: Table, user: UserId, w: World, after: Table, pair: Issued) {
    && pair.accessExpiresAt == w.accessAt + c.accessMinutes * 60_000_000_000
    && pair.access ==
       c.crypto.sign(c.accessKey, Claims(Print(user), Some(pair.accessExpiresAt / 1_000_000_000)))
    && pair.refresh == RefreshText(c, user, w)
    && after == rows + [Row(user, c.crypto.hash(pair.refresh), w.refreshAt + c.refreshHours * 3_600_000_000_000, None)]
  }

  /** On any table: when a pair is issued, what it is, and what is left. */
  lemma IssueExactly(c: Config, rows: Table, user: UserId, w: World)
    ensures var (after, pair) := Issue(c, rows, user, w);
            && (pair.Some? <==>
                  && !w.accessSignFails && !w.refreshSignFails && !w.storeFails
                  && forall i | 0 <= i < |rows| :: rows[i].tokenHash != c.crypto.hash(RefreshText(c, user, w)))
            && (pair.Some? ==> AddsPair(c, rows, user, w, after, pair.value))
            && (pair.None? ==> after == rows)
  {
  }

  lemma SignedVerifies(c: Config, claims: Claims, now: int)
    requires Sound(c.crypto) && claims.exp.Some? && now < claims.exp.value * SECOND
    ensures ParseAndVerifyToken(c.crypto, c.crypto.sign(c.refreshKey, claims), c.refreshKey, now) == Some(claims)
  {
    assert c.crypto.open(c.crypto.sign(c.refreshKey, claims), c.refreshKey) == Some(claims);
  }

  /**
   * The tokens of an issued pair open to the user's id and to their own expiries, each under its own key, and until the
   * refresh token's expiry second it verifies and names the user.
   */
  lemma IssuedPairVerifies(c: Config, rows: Table, user: UserId, w: World, pair: Issued, now: int)
    requires Sound(c.crypto) && Issue(c, rows, user, w).1 == Some(pair)
    requires now < (w.refreshAt + c.refreshHours * 3_600_000_000_000) / 1_000_000_000 * 1_000_000_000
    ensures c.crypto.open(pair.access, c.accessKey) ==
            Some(Claims(Print(user), Some((w.accessAt + c.accessMinutes * 60_000_000_000) / 1_000_000_000)))
    ensures var claims := ParseAndVerifyToken(c.crypto, pair.refresh, c.refreshKey, now);
            claims.Some? && ParseUint32(claims.value.id) == Some(user)
  {
    IssueExactly(c, rows, user, w);
    hide Issue;
    SignedVerifies(c, Claims(Print(user), Some(NumericDate(RefreshExpiry(c, w)))), now);
    var access := Claims(Print(user), Some(NumericDate(pair.accessExpiresAt)));
    assert c.crypto.open(c.crypto.sign(c.accessKey, access), c.accessKey) == Some(access);
    ParsePrint(user);
  }

  /** The issued refresh token is found active, as the new row, until its expiry. */
  lemma IssuedPairIsFound(c: Config, rows: Table, user: UserId, w: World, pair: Issued, now: int)
    requires Sound(c.crypto) && WellFormed(c, rows) && Issue(c, rows, user, w).1 == Some(pair)
    ensures FindActive(Issue(c, rows, user, w).0, c.crypto.hash(pair.refresh), now, false) ==
            if now <= RefreshExpiry(c, w) then Found(|rows|) else Inactive
  {
    IssueOutcome(c, rows, user, w);
    var after := Issue(c, rows, user, w).0;
    assert after[|rows|].tokenHash == c.crypto.hash(pair.refresh);
    assert forall i | 0 <= i < |rows| :: after[i].tokenHash != after[|rows|].tokenHash;
    assert FindHash(after, c.crypto.hash(pair.refresh)) == Some(|rows|);
  }

  lemma LoginRepliesExactly(c: Config, rows: Table, data: LoginData, w: World)
    requires Sound(c.crypto) && WellFormed(c, rows)
    ensures var (after, reply) := Login(c, rows, data, w);
            var complete := data.email != "" && data.password != "";
            var accepted := data.account.Some? && data.passwordMatches;
            && (reply == BadRequest <==> !data.bound)
            && (reply == Unprocessable <==> data.bound && !complete)
            && (reply == Unauthorized <==> data.bound && complete && !accepted)
            && (reply.LoginOk? <==> data.bound && complete && accepted && IssueWorks(c, rows, data.account.value, w))
            && (reply.LoginOk? ==>
                  && reply.user == data.account.value
                  && exists expiry ::
                       Issue(c, rows, reply.user, w) == (after, Some(Issued(reply.access, reply.refresh, expiry))))
            && (!reply.LoginOk? ==> after == rows)
  {
    if data.account.Some? {
      IssueOutcome(c, rows, data.account.value, w);
      var (after, pair) := Issue(c, rows, data.account.value, w);
      if pair.Some? {
        assert Issue(c, rows, data.account.value, w) ==
               (after, Some(Issued(pair.value.access, pair.value.refresh, pair.value.accessExpiresAt)));
      }
    }
  }

  /** What the exchange of row `id` leaves and answers. */
  ghost predicate ExchangeAnswer(c: Config, rows: Table, id: nat, w: World, after: Table, reply: Reply)
    requires id < |rows|
  {
    var (revoked, owner) := (Revoke(rows, id, w.revokeAt), rows[id].userId);
    if w.revokeFails then after == rows && reply == ServerError
    else
      match reply
      case RefreshOk(access, refresh, expiresAt) =>
        AddsPair(c, revoked, owner, w, after, Issued(access, refresh, expiresAt))
      case _ => reply == ServerError && after == revoked && Issue(c, revoked, owner, w).1.None?
  }

  lemma ExchangeRepliesExactly(c: Config, rows: Table, id: nat, w: World)
    requires Sound(c.crypto) && WellFormed(c, rows) && id < |rows|
    ensures Exchange(c, rows, id, w).1.RefreshOk? <==> !w.revokeFails && IssueWorks(c, rows, rows[id].userId, w)
    ensures !Exchange(c, rows, id, w).1.RefreshOk? ==>
              Exchange(c, rows, id, w) ==
              (if w.revokeFails then rows else Revoke(rows, id, w.revokeAt), ServerError)
  {
    RevokeKeepsForm(c, rows, id, w.revokeAt);
    var revoked := Revoke(rows, id, w.revokeAt);
    IssueOutcome(c, revoked, rows[id].userId, w);
    assert forall i | 0 <= i < |rows| ::
        revoked[i].userId == rows[i].userId && revoked[i].expiresAt == rows[i].expiresAt;
    assert SecondFree(revoked, rows[id].userId, RefreshExpiry(c, w)) <==>
           SecondFree(rows, rows[id].userId, RefreshExpiry(c, w));
  }

  /** The header carries this token, which the refresh key opens to these claims, not yet expired. */
  ghost predicate Carries(c: Config, header: string, now: int, text: string, claims: Claims) {
    && GetTokenFromHeader(header) == Token(text)
    && c.crypto.open(text, c.refreshKey) == Some(claims)
    && (claims.exp == None || now < claims.exp.value * 1_000_000_000)
  }

  lemma PresentedExactly(c: Config, header: string, w: World)
    ensures forall text, claims :: Carries(c, header, w.verifyAt, text, claims) <==>
                                   Presented(c, header, w) == Some((text, claims))
    ensures Presented(c, header, w).Some? <==>
            exists text, claims :: Carries(c, header, w.verifyAt, text, claims)
  {
    if Presented(c, header, w).Some? {
      var (text, claims) := Presented(c, header, w).value;
      assert Carries(c, header, w.verifyAt, text, claims);
    }
  }

  /** The first row with this fingerprint is in the active set at this instant. */
  ghost predicate Usable(rows: Table, hash: string, now: int, id: nat) {
    FirstWith(rows, hash, id) && rows[id].revokedAt == None && now <= rows[id].expiresAt
  }

  lemma UsableIsFound(rows: Table, hash: string, now: int)
    ensures forall id: nat :: Usable(rows, hash, now, id) <==> FindActive(rows, hash, now, false) == Found(id)
    ensures FindActive(rows, hash, now, false).Found? <==> exists id: nat :: Usable(rows, hash, now, id)
    ensures !FindActive(rows, hash, now, false).LookupError? && FindActive(rows, hash, now, true).LookupError?
  {
    LookupExactly(rows, hash, now, false);
    if FindActive(rows, hash, now, false).Found? {
      assert Usable(rows, hash, now, FindActive(rows, hash, now, false).id);
    }
  }

  lemma ExchangeExactly(c: Config, rows: Table, id: nat, w: World)
    requires id < |rows|
    ensures ExchangeAnswer(c, rows, id, w, Exchange(c, rows, id, w).0, Exchange(c, rows, id, w).1)
  {
    IssueExactly(c, Revoke(rows, id, w.revokeAt), rows[id].userId, w);
    hide Issue, AddsPair, Revoke;
  }

  /** Without an accepted token a refresh does nothing. */
  lemma RefreshWithoutToken(c: Config, rows: Table, header: string, w: World)
    requires forall text, claims :: !Carries(c, header, w.verifyAt, text, claims)
    ensures Refresh(c, rows, header, w) == (rows, Unauthorized)
  {
    PresentedExactly(c, header, w);
    hide Presented, Carries, FindActive, Exchange, Compromise;
  }

  /**
   * Refresh with an accepted token, on any table. When the lookup fails nothing happens, and the answer is 500. A token
   * outside the active set ends the claimed user's sessions. One inside is exchanged: its row is revoked, and then a
   * pair is issued to the row's owner.
   */
  lemma RefreshExactly(c: Config, rows: Table, header: string, w: World, text: string, claims: Claims)
    requires Carries(c, header, w.verifyAt, text, claims)
    ensures w.findFails ==> Refresh(c, rows, header, w) == (rows, ServerError)
    ensures !w.findFails && (forall id: nat :: !Usable(rows, c.crypto.hash(text), w.findAt, id)) ==>
              Refresh(c, rows, header, w) ==
              (if ParseUint32(claims.id).None? || w.revokeAllFails then rows
               else RevokeAllForUser(rows, ParseUint32(claims.id).value, w.revokeAt), Unauthorized)
    ensures forall id: nat | !w.findFails && Usable(rows, c.crypto.hash(text), w.findAt, id) ::
              ExchangeAnswer(c, rows, id, w, Refresh(c, rows, header, w).0, Refresh(c, rows, header, w).1)
  {
    PresentedExactly(c, header, w);
    UsableIsFound(rows, c.crypto.hash(text), w.findAt);
    hide Presented, Carries, FindActive, Exchange, ExchangeAnswer, RevokeAllForUser, ParseUint32;
    var found := FindActive(rows, c.crypto.hash(text), w.findAt, w.findFails);
    if found.Found? {
      ExchangeExactly(c, rows, found.id, w);
    }
  }

  /** Row `id` carries this fingerprint, is not revoked, and has not passed its expiry. */
  ghost predicate InActiveSet(rows: Table, hash: string, now: int, id: nat) {
    id < |rows| && rows[id].tokenHash == hash && rows[id].revokedAt == None && now <= rows[id].expiresAt
  }

  lemma UsableIsInActiveSet(c: Config, rows: Table, hash: string, now: int)
    requires WellFormed(c, rows)
    ensures forall id: nat :: Usable(rows, hash, now, id) <==> InActiveSet(rows, hash, now, id)
    ensures FindActive(rows, hash, now, false).Found? <==> exists id: nat :: InActiveSet(rows, hash, now, id)
    ensures forall id: nat :: FindActive(rows, hash, now, false) == Found(id) <==> InActiveSet(rows, hash, now, id)
  {
    LookupExactly(rows, hash, now, false);
    assert forall id: nat | id < |rows| && rows[id].tokenHash == hash :: FirstWith(rows, hash, id);
    if FindActive(rows, hash, now, false).Found? {
      assert InActiveSet(rows, hash, now, FindActive(rows, hash, now, false).id);
    }
  }

  /** On a well-formed table: 401 exactly when the accepted token has no row in the active set, and 500 for failures. */
  lemma RefreshRepliesExactly(c: Config, rows: Table, header: string, w: World, text: string, claims: Claims)
    requires Sound(c.crypto) && WellFormed(c, rows) && Carries(c, header, w.verifyAt, text, claims)
    ensures var (reply, hash) := (Refresh(c, rows, header, w).1, c.crypto.hash(text));
            && (reply == Unauthorized <==> !w.findFails && forall id: nat :: !InActiveSet(rows, hash, w.findAt, id))
            && (reply.RefreshOk? <==>
                  !w.findFails && !w.revokeFails &&
                  exists id: nat :: InActiveSet(rows, hash, w.findAt, id) && IssueWorks(c, rows, rows[id].userId, w))
            && (reply == ServerError <==> reply != Unauthorized && !reply.RefreshOk?)
  {
    var hash := c.crypto.hash(text);
    PresentedExactly(c, header, w);
    UsableIsInActiveSet(c, rows, hash, w.findAt);
    hide WellFormed, IssueWorks, InActiveSet, Presented, FindActive, Carries;
    if !w.findFails {
      match FindActive(rows, hash, w.findAt, false)
      case Found(id) => ExchangeRepliesExactly(c, rows, id, w);
      case _ =>
    }
  }

  /**
   * An exchange whose new expiry second is already taken by a row of the same user loses the session: the old row is
   * revoked, no row takes its place and the answer is 500.
   */
  lemma SameSecondLosesSession(c: Config, rows: Table, id: nat, w: World)
    requires Sound(c.crypto) && WellFormed(c, rows) && Active(rows, id)
    requires !w.revokeFails && !SecondFree(rows, rows[id].userId, RefreshExpiry(c, w))
    ensures Exchange(c, rows, id, w) == (Revoke(rows, id, w.revokeAt), ServerError)
  {
    ExchangeRepliesExactly(c, rows, id, w);
  }

  /** Logout answers the same whatever it is given, and without a token it does nothing. */
  lemma LogoutAnswers(c: Config, rows: Table, header: string, w: World)
    ensures Logout(c, rows, header, w).1 == LoggedOut
    ensures !GetTokenFromHeader(header).Token? ==> Logout(c, rows, header, w).0 == rows
  {
  }

  /** With a token it revokes exactly the active row of that token, which is not found again. */
  lemma LogoutEndsSession(c: Config, rows: Table, text: string, header: string, w: World)
    requires WellFormed(c, rows) && GetTokenFromHeader(header) == Token(text)
    ensures |Logout(c, rows, header, w).0| == |rows|
    ensures forall i | 0 <= i < |rows| ::
              var after := Logout(c, rows, header, w).0[i];
              var ends := rows[i].tokenHash == c.crypto.hash(text) && rows[i].revokedAt.None?
                          && w.findAt <= rows[i].expiresAt && !w.findFails && !w.revokeFails;
              after == if ends then rows[i].(revokedAt := Some(w.revokeAt)) else rows[i]
    ensures !w.findFails && !w.revokeFails ==> forall later | later >= w.findAt ::
              !FindActive(Logout(c, rows, header, w).0, c.crypto.hash(text), later, false).Found?
  {
    var hash := c.crypto.hash(text);
    var after := Logout(c, rows, header, w).0;
    UsableIsInActiveSet(c, rows, hash, w.findAt);
    forall id: nat | id < |rows|
      ensures WellFormed(c, Revoke(rows, id, w.revokeAt))
    {
      RevokeKeepsForm(c, rows, id, w.revokeAt);
    }
    assert WellFormed(c, after);
    forall later: int
      ensures FindActive(after, hash, later, false).Found? <==> exists id: nat :: InActiveSet(after, hash, later, id)
    {
      UsableIsInActiveSet(c, after, hash, later);
    }
    assert forall i, j | 0 <= i < |rows| && 0 <= j < |rows| && rows[i].tokenHash == rows[j].tokenHash :: i == j;
    hide FindActive, WellFormed, Usable;
  }
}
