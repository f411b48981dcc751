/** Whole runs of the authentication handlers, each request handled atomically. */
module AuthRuns {
  import opened Wrappers
  import opened Decimal
  import opened Jwt
  import opened RefreshTokens
  import opened JwtController
  import opened IssueRate

  datatype Request =
    | LoginRequest(data: LoginData, w: World)
    | RefreshRequest(header: string, w: World)
    | LogoutRequest(header: string, w: World)

  function Serve(c: Config, rows: Table, r: Request): (Table, Reply) {
    match r
    case LoginRequest(data, w) => Login(c, rows, data, w)
    case RefreshRequest(header, w) => Refresh(c, rows, header, w)
    case LogoutRequest(header, w) => Logout(c, rows, header, w)
  }

  /** The row a refresh request finds active, which a new row then replaces. */
  function RowInUse(c: Config, rows: Table, r: Request): Option<nat> {
    match r
    case RefreshRequest(header, w) =>
      (match Presented(c, header, w)
       case None => None
       case Some((text, _)) =>
         match FindActive(rows, c.crypto.hash(text), w.findAt, w.findFails)
         case Found(id) => Some(id)
         case _ => None)
    case _ => None
  }

  /** The table together with, for each row, the row it replaced; rows from a login replaced none. */
  datatype History = History(rows: Table, replaced: seq<Option<nat>>)

  const START := History([], [])

  /** The history once the table is `after`; a row added replaces `used`. */
  function Extend(h: History, after: Table, used: Option<nat>): History {
    History(after, if |after| > |h.rows| then h.replaced + [used] else h.replaced)
  }

  function Advance(c: Config, h: History, r: Request): History {
    Extend(h, Serve(c, h.rows, r).0, RowInUse(c, h.rows, r))
  }

  /** The state after the first `k` requests from the empty table: every reachable state is one of these. */
  function At(c: Config, requests: seq<Request>, k: nat): History
    requires k <= |requests|
  {
    if k == 0 then START else Advance(c, At(c, requests, k - 1), requests[k - 1])
  }

  /** The login at the end of the chain of replacements. */
  function Root(replaced: seq<Option<nat>>, i: nat): nat {
    if i < |replaced| && replaced[i].Some? && replaced[i].value < i then Root(replaced, replaced[i].value) else i
  }

  ghost predicate Linked(h: History) {
    && |h.replaced| == |h.rows|
    && forall i {:trigger h.replaced[i]} | 0 <= i < |h.rows| :: h.replaced[i].Some? ==>
         h.replaced[i].value < i && h.rows[h.replaced[i].value].userId == h.rows[i].userId
  }

  /** A row that is followed by a newer row of its lineage is revoked. */
  ghost predicate OneActivePerLineage(h: History) {
    forall i, j | 0 <= i < j < |h.rows| :: Root(h.replaced, i) == Root(h.replaced, j) ==> h.rows[i].revokedAt.Some?
  }

  ghost predicate Good(c: Config, h: History) {
    WellFormed(c, h.rows) && Linked(h) && OneActivePerLineage(h)
  }

  lemma {:induction false} RootFacts(h: History, i: nat)
    requires Linked(h) && i < |h.rows|
    ensures Root(h.replaced, i) <= i && h.replaced[Root(h.replaced, i)].None?
    ensures h.rows[Root(h.replaced, i)].userId == h.rows[i].userId
  {
    if h.replaced[i].Some? {
      RootFacts(h, h.replaced[i].value);
    }
  }

  lemma {:induction false} RootStable(replaced: seq<Option<nat>>, last: Option<nat>, i: nat)
    requires i < |replaced|
    ensures Root(replaced + [last], i) == Root(replaced, i)
  {
    if replaced[i].Some? && replaced[i].value < i {
      RootStable(replaced, last, replaced[i].value);
    }
  }

  /** What any request does: it may add one row, whose origin the reply tells, and otherwise only revokes. */
  ghost predicate Effect(c: Config, rows: Table, used: Option<nat>, after: Table, reply: Reply) {
    && WellFormed(c, after) && Preserves(rows, after)
    && |after| == |rows| + (if reply.LoginOk? || reply.RefreshOk? then 1 else 0)
    && (reply.LoginOk? ==> used.None? && after[|rows|].userId == reply.user && after[|rows|].revokedAt.None?)
    && (reply.RefreshOk? ==>
          && used.Some? && Active(rows, used.value) && after[used.value].revokedAt.Some?
          && after[|rows|].userId == rows[used.value].userId)
  }

  lemma LoginEffect(c: Config, rows: Table, data: LoginData, w: World)
    requires Sound(c.crypto) && WellFormed(c, rows)
    ensures Effect(c, rows, None, Login(c, rows, data, w).0, Login(c, rows, data, w).1)
  {
    if data.account.Some? {
      IssueOutcome(c, rows, data.account.value, w);
      IssueKeepsForm(c, rows, data.account.value, w);
    }
  }

  lemma ExchangeEffect(c: Config, rows: Table, id: nat, w: World)
    requires Sound(c.crypto) && WellFormed(c, rows) && Active(rows, id)
    ensures !Exchange(c, rows, id, w).1.LoginOk?
    ensures Effect(c, rows, Some(id), Exchange(c, rows, id, w).0, Exchange(c, rows, id, w).1)
  {
    RevokeKeepsForm(c, rows, id, w.revokeAt);
    var revoked := Revoke(rows, id, w.revokeAt);
    IssueOutcome(c, revoked, rows[id].userId, w);
    IssueKeepsForm(c, revoked, rows[id].userId, w);
  }

  lemma RefreshEffect(c: Config, rows: Table, header: string, w: World)
    requires Sound(c.crypto) && WellFormed(c, rows)
    ensures Effect(c, rows, RowInUse(c, rows, RefreshRequest(header, w)),
                   Refresh(c, rows, header, w).0, Refresh(c, rows, header, w).1)
  {
    match Presented(c, header, w)
    case None =>
    case Some((text, claims)) =>
      match FindActive(rows, c.crypto.hash(text), w.findAt, w.findFails)
      case Found(id) => ExchangeEffect(c, rows, id, w);
      case _ =>
        if ParseUint32(claims.id).Some? {
          RevokeAllKeepsForm(c, rows, ParseUint32(claims.id).value, w.revokeAt);
        }
  }

  lemma LogoutEffect(c: Config, rows: Table, header: string, w: World)
    requires WellFormed(c, rows)
    ensures Effect(c, rows, None, Logout(c, rows, header, w).0, Logout(c, rows, header, w).1)
  {
    match GetTokenFromHeader(header)
    case Token(text) =>
      match FindActive(rows, c.crypto.hash(text), w.findAt, w.findFails) {
        case Found(id) => RevokeKeepsForm(c, rows, id, w.revokeAt);
        case _ =>
      }
    case _ =>
  }

  lemma ServeEffect(c: Config, rows: Table, r: Request)
    requires Sound(c.crypto) && WellFormed(c, rows)
    ensures Effect(c, rows, RowInUse(c, rows, r), Serve(c, rows, r).0, Serve(c, rows, r).1)
  {
    match r
    case LoginRequest(data, w) => LoginEffect(c, rows, data, w);
    case RefreshRequest(header, w) => RefreshEffect(c, rows, header, w);
    case LogoutRequest(header, w) => LogoutEffect(c, rows, header, w);
  }

  /** No newer row belongs to the row's lineage. */
  ghost predicate Newest(h: History, id: nat) {
    forall j | 0 <= j < |h.rows| && Root(h.replaced, j) == Root(h.replaced, id) :: j <= id
  }

  /** What a new last row may replace: nothing, or the newest row of a lineage, of the same user and revoked by then. */
  ghost predicate Follows(h: History, after: Table, used: Option<nat>) {
    && Preserves(h.rows, after)
    && (|after| == |h.rows| || |after| == |h.rows| + 1)
    && (|after| > |h.rows| && used.Some? ==>
          && used.value < |h.rows| && Newest(h, used.value) && after[used.value].revokedAt.Some?
          && after[|h.rows|].userId == h.rows[used.value].userId)
  }

  lemma ExtendRoots(h: History, after: Table, used: Option<nat>)
    requires Linked(h) && Follows(h, after, used) && |after| > |h.rows|
    ensures forall i | 0 <= i < |h.rows| :: Root(Extend(h, after, used).replaced, i) == Root(h.replaced, i)
    ensures Root(Extend(h, after, used).replaced, |h.rows|) ==
            if used.Some? then Root(h.replaced, used.value) else |h.rows|
  {
    forall i | 0 <= i < |h.rows|
      ensures Root(Extend(h, after, used).replaced, i) == Root(h.replaced, i)
    {
      RootStable(h.replaced, used, i);
    }
  }

  /** Every older row of the lineage that a new row joins is revoked. */
  lemma JoinedLineageIsRevoked(h: History, after: Table, used: Option<nat>, i: nat)
    requires Linked(h) && OneActivePerLineage(h) && Follows(h, after, used) && |after| > |h.rows|
    requires i < |h.rows| && used.Some? && Root(h.replaced, i) == Root(h.replaced, used.value)
    ensures after[i].revokedAt.Some?
  {
  }

  /** A row stays the newest of its lineage until it is replaced itself. */
  lemma NewestUntilReplaced(h: History, after: Table, used: Option<nat>, id: nat)
    requires Linked(h) && Follows(h, after, used) && id < |h.rows| && Newest(h, id) && used != Some(id)
    ensures Newest(Extend(h, after, used), id)
  {
    if |after| > |h.rows| {
      ExtendRoots(h, after, used);
      RootFacts(h, id);
    }
  }

  lemma ExtendKeepsLineages(h: History, after: Table, used: Option<nat>)
    requires Linked(h) && OneActivePerLineage(h) && Follows(h, after, used)
    ensures Linked(Extend(h, after, used)) && OneActivePerLineage(Extend(h, after, used))
  {
    if |after| > |h.rows| {
      var replaced := Extend(h, after, used).replaced;
      var n := |h.rows|;
      ExtendRoots(h, after, used);
      forall i, j | 0 <= i < j <= n && Root(replaced, i) == Root(replaced, j)
        ensures after[i].revokedAt.Some?
      {
        RootFacts(h, i);
        if j == n && used.Some? {
          JoinedLineageIsRevoked(h, after, used, i);
        }
      }
    }
  }

  lemma AdvanceKeepsGood(c: Config, h: History, r: Request)
    requires Sound(c.crypto) && Good(c, h)
    ensures Good(c, Advance(c, h, r))
  {
    ServeEffect(c, h.rows, r);
    ExtendKeepsLineages(h, Serve(c, h.rows, r).0, RowInUse(c, h.rows, r));
  }

  lemma {:induction false} ReachableIsGood(c: Config, requests: seq<Request>, k: nat)
    requires Sound(c.crypto) && k <= |requests|
    ensures Good(c, At(c, requests, k))
  {
    hide Serve, RowInUse;
    if k > 0 {
      ReachableIsGood(c, requests, k - 1);
      AdvanceKeepsGood(c, At(c, requests, k - 1), requests[k - 1]);
    }
  }

  /**
   * In every reachable state an unrevoked row is the newest of its lineage, and so the only unrevoked one.
   * Failed issuing is included: the run may meet any faults at any point.
   */
  lemma LineageHasOneActiveRow(c: Config, requests: seq<Request>, k: nat, i: nat, j: nat)
    requires Sound(c.crypto) && k <= |requests|
    requires Active(At(c, requests, k).rows, i) && j < |At(c, requests, k).rows|
    requires Root(At(c, requests, k).replaced, i) == Root(At(c, requests, k).replaced, j)
    ensures j <= i
    ensures Active(At(c, requests, k).rows, j) ==> i == j
  {
    ReachableIsGood(c, requests, k);
  }

  ghost function ActiveRows(h: History, user: UserId): set<nat> {
    set i | 0 <= i < |h.rows| && h.rows[i].userId == user && h.rows[i].revokedAt.None?
  }

  ghost function LoginRows(h: History, user: UserId): set<nat>
    requires |h.replaced| == |h.rows|
  {
    set i | 0 <= i < |h.rows| && h.rows[i].userId == user && h.replaced[i].None?
  }

  /** The request is answered as a successful login of this user. */
  predicate LogsIn(c: Config, rows: Table, r: Request, user: UserId) {
    var reply := Serve(c, rows, r).1;
    reply.LoginOk? && reply.user == user
  }

  /** How many of the first `k` requests were answered as a successful login of this user. */
  function SuccessfulLogins(c: Config, requests: seq<Request>, k: nat, user: UserId): nat
    requires k <= |requests|
  {
    if k == 0 then 0
    else
      SuccessfulLogins(c, requests, k - 1, user) +
      if LogsIn(c, At(c, requests, k - 1).rows, requests[k - 1], user) then 1 else 0
  }

  lemma LoginRowsStep(c: Config, h: History, r: Request, user: UserId)
    requires Sound(c.crypto) && Good(c, h) && Linked(Advance(c, h, r))
    ensures LoginRows(Advance(c, h, r), user) ==
            LoginRows(h, user) + if LogsIn(c, h.rows, r, user) then {|h.rows|} else {}
  {
    ServeEffect(c, h.rows, r);
  }

  lemma {:induction false} LoginsCountLoginRows(c: Config, requests: seq<Request>, k: nat, user: UserId)
    requires Sound(c.crypto) && k <= |requests|
    ensures Linked(At(c, requests, k))
    ensures |LoginRows(At(c, requests, k), user)| == SuccessfulLogins(c, requests, k, user)
  {
    hide Serve, RowInUse, WellFormed, OneActivePerLineage;
    ReachableIsGood(c, requests, k);
    if k > 0 {
      LoginsCountLoginRows(c, requests, k - 1, user);
      ReachableIsGood(c, requests, k - 1);
      LoginRowsStep(c, At(c, requests, k - 1), requests[k - 1], user);
    }
  }

  /** A user's unrevoked rows never outnumber that user's successful logins. */
  lemma ActiveRowsBoundedByLogins(c: Config, requests: seq<Request>, k: nat, user: UserId)
    requires Sound(c.crypto) && k <= |requests|
    ensures |ActiveRows(At(c, requests, k), user)| <= SuccessfulLogins(c, requests, k, user)
  {
    var h := At(c, requests, k);
    ReachableIsGood(c, requests, k);
    LoginsCountLoginRows(c, requests, k, user);
    var root := (i: nat) => Root(h.replaced, i);
    forall i | i in ActiveRows(h, user)
      ensures root(i) in LoginRows(h, user)
    {
      RootFacts(h, i);
    }
    ImageSize(ActiveRows(h, user), LoginRows(h, user), root);
  }

  /** The user whose session a refresh request renews, if it succeeds. */
  function RefreshedUser(c: Config, rows: Table, r: Request): Option<UserId> {
    var used := RowInUse(c, rows, r);
    if Serve(c, rows, r).1.RefreshOk? && used.Some? && used.value < |rows| then Some(rows[used.value].userId) else None
  }

  /** From a table without active rows of a user, only a login of that user gives one. */
  lemma LockedOutStep(c: Config, rows: Table, r: Request, user: UserId)
    requires Sound(c.crypto) && WellFormed(c, rows) && NoActive(rows, user)
    ensures WellFormed(c, Serve(c, rows, r).0)
    ensures RefreshedUser(c, rows, r) != Some(user)
    ensures NoActive(Serve(c, rows, r).0, user) <==> !LogsIn(c, rows, r, user)
  {
    ServeEffect(c, rows, r);
    if LogsIn(c, rows, r, user) {
      assert Active(Serve(c, rows, r).0, |rows|);
    }
  }

  /** The table after the first `k` of some later requests. */
  function After(c: Config, rows: Table, later: seq<Request>, k: nat): Table
    requires k <= |later|
  {
    if k == 0 then rows else Serve(c, After(c, rows, later, k - 1), later[k - 1]).0
  }

  /** Request `m` of the later ones is answered as a successful login of this user. */
  predicate LogsInAt(c: Config, rows: Table, later: seq<Request>, m: nat, user: UserId)
    requires m < |later|
  {
    LogsIn(c, After(c, rows, later, m), later[m], user)
  }

  /** None of the first `k` later requests is. */
  ghost predicate NoLogin(c: Config, rows: Table, later: seq<Request>, k: nat, user: UserId)
    requires k <= |later|
  {
    forall m | 0 <= m < k :: !LogsInAt(c, rows, later, m, user)
  }

  /**
   * From this table on the user stays out until logging in: as long as no request was a successful login of the user,
   * there is no unrevoked row, and no refresh renews a session of the user.
   */
  ghost predicate LockedOut(c: Config, rows: Table, user: UserId) {
    forall later: seq<Request>, k: nat |
      k <= |later| && NoLogin(c, rows, later, k, user) ::
      && NoActive(After(c, rows, later, k), user)
      && (k < |later| ==> RefreshedUser(c, After(c, rows, later, k), later[k]) != Some(user))
  }

  lemma {:induction false} LockedOutAt(c: Config, rows: Table, later: seq<Request>, user: UserId, k: nat)
    requires Sound(c.crypto) && WellFormed(c, rows) && NoActive(rows, user)
    requires k <= |later| && NoLogin(c, rows, later, k, user)
    ensures WellFormed(c, After(c, rows, later, k)) && NoActive(After(c, rows, later, k), user)
  {
    hide Serve, WellFormed;
    if k > 0 {
      LockedOutAt(c, rows, later, user, k - 1);
      var before := After(c, rows, later, k - 1);
      assert !LogsInAt(c, rows, later, k - 1, user);
      LockedOutStep(c, before, later[k - 1], user);
    }
  }

  /** A user without an unrevoked row is locked out. */
  lemma NoActiveLocksOut(c: Config, rows: Table, user: UserId)
    requires Sound(c.crypto) && WellFormed(c, rows) && NoActive(rows, user)
    ensures LockedOut(c, rows, user)
  {
    forall later: seq<Request>, k: nat |
      k <= |later| && NoLogin(c, rows, later, k, user)
      ensures NoActive(After(c, rows, later, k), user)
      ensures k < |later| ==> RefreshedUser(c, After(c, rows, later, k), later[k]) != Some(user)
    {
      LockedOutAt(c, rows, later, user, k);
      if k < |later| {
        LockedOutStep(c, After(c, rows, later, k), later[k], user);
      }
    }
  }

  /** The request presents a verified token that claims this user and is not in the active set. */
  ghost predicate Rejected(c: Config, rows: Table, header: string, w: World, user: UserId) {
    && Presented(c, header, w).Some?
    && var (text, claims) := Presented(c, header, w).value;
       && ParseUint32(claims.id) == Some(user)
       && FindActive(rows, c.crypto.hash(text), w.findAt, w.findFails) in {NotFound, Inactive}
  }

  /**
   * In every reachable state, presenting a verified token that is not stored, or whose row is revoked or expired, while
   * the update succeeds, ends every session of the claimed user, touches nobody else's, and locks that user out until
   * the next login.
   */
  lemma RejectedTokenLocksOut(c: Config, requests: seq<Request>, k: nat, header: string, w: World, user: UserId)
    requires Sound(c.crypto) && k <= |requests| && !w.revokeAllFails
    requires Rejected(c, At(c, requests, k).rows, header, w, user)
    ensures var rows := At(c, requests, k).rows;
            var (locked, reply) := Refresh(c, rows, header, w);
            && reply == Unauthorized && |locked| == |rows|
            && NoActive(locked, user) && LockedOut(c, locked, user)
            && forall i | 0 <= i < |rows| :: rows[i].userId != user ==> locked[i] == rows[i]
  {
    hide WellFormed, LockedOut;
    var rows := At(c, requests, k).rows;
    ReachableIsGood(c, requests, k);
    var locked := RevokeAllForUser(rows, user, w.revokeAt);
    assert Refresh(c, rows, header, w) == (locked, Unauthorized);
    RevokeAllKeepsForm(c, rows, user, w.revokeAt);
    NoActiveLocksOut(c, locked, user);
  }

  /** The request presents a verified token whose stored row `id` is revoked. */
  ghost predicate Reuses(c: Config, rows: Table, header: string, w: World, id: nat) {
    && id < |rows| && rows[id].revokedAt.Some?
    && Presented(c, header, w).Some? && rows[id].tokenHash == c.crypto.hash(Presented(c, header, w).value.0)
  }

  /** Reuse of a stored token claims the row's owner, and revokes exactly the owner's rows. */
  lemma ReuseRevokesOwner(c: Config, rows: Table, header: string, w: World, id: nat)
    requires Sound(c.crypto) && WellFormed(c, rows) && !w.findFails && Reuses(c, rows, header, w, id)
    ensures Rejected(c, rows, header, w, rows[id].userId)
    ensures !w.revokeAllFails ==>
              Refresh(c, rows, header, w) == (RevokeAllForUser(rows, rows[id].userId, w.revokeAt), Unauthorized)
  {
    var (text, claims) := Presented(c, header, w).value;
    StoredTokenNamesOwner(c, rows, text, claims, w.verifyAt, id);
    assert FindHash(rows, c.crypto.hash(text)) == Some(id);
  }

  /** So reuse of a revoked row's token locks out the row's owner, and no one else. */
  lemma ReuseLocksOut(c: Config, requests: seq<Request>, k: nat, header: string, w: World, id: nat)
    requires Sound(c.crypto) && k <= |requests| && !w.findFails && !w.revokeAllFails
    requires Reuses(c, At(c, requests, k).rows, header, w, id)
    ensures var rows := At(c, requests, k).rows;
            var owner := rows[id].userId;
            var (locked, reply) := Refresh(c, rows, header, w);
            && reply == Unauthorized && |locked| == |rows|
            && NoActive(locked, owner) && LockedOut(c, locked, owner)
            && forall i | 0 <= i < |rows| :: rows[i].userId != owner ==> locked[i] == rows[i]
  {
    hide LockedOut, Refresh;
    ReachableIsGood(c, requests, k);
    ReuseRevokesOwner(c, At(c, requests, k).rows, header, w, id);
    RejectedTokenLocksOut(c, requests, k, header, w, At(c, requests, k).rows[id].userId);
  }
}
