/** The idempotency middleware in front of the two protocols, as internal/router/router.go mounts it. */
module Composition {
  import opened IdempotencyStore
  import opened ResponseCapture
  import opened IdempotencyMiddleware
  import opened IdempotencyRuns
  import Decimal
  import Jwt
  import RefreshTokens
  import JwtController
  import AuthRuns
  import Users

  const JSON := "application/json; charset=utf-8"

  /** `c.JSON(status, body)` on a connection that takes everything. */
  function JsonReply(status: int, body: Bytes): seq<Op> {
    [WriteHeader(status), SetContentType(JSON), Write(body, |body|)]
  }

  lemma JsonReplyIsFaithful<S>(app: S, status: int, body: Bytes)
    requires status > 0
    ensures var s := Script(app, JsonReply(status, body), [], false);
            && FaithfulRun(s) && Live(s) == Response(status, JSON, body, false)
            && (Recordable(s) <==> 200 <= status < 500) && (EndsWell(s) <==> 200 <= status < 500)
            && RecordOf(s) == Record(status, map["Content-Type" := JSON], body)
  {
    var ops := JsonReply(status, body);
    var w1 := Apply(UNTOUCHED, ops[0]);
    var w2 := Apply(w1, ops[1]);
    assert ops[..1] == [ops[0]] && ops[..2] == [ops[0], ops[1]] && ops[..2][..1] == ops[..1];
    assert ApplyAll(ops[..0]) == UNTOUCHED;
    assert ApplyAll(ops[..1]) == w1 by {
      assert ops[..1][..0] == [];
    }
    assert ApplyAll(ops[..2]) == w2;
    assert ApplyAll(ops) == Apply(w2, ops[2]);
    SentAgainstBody(ops);
  }

  /** Login, refresh and logout as one application; `render` is the JSON encoding of an answer. */
  function AuthApi(c: JwtController.Config, render: JwtController.Reply -> Bytes)
    : Handler<RefreshTokens.Table, AuthRuns.Request>
  {
    (rows: RefreshTokens.Table, r: AuthRuns.Request) =>
      var (after, reply) := AuthRuns.Serve(c, rows, r);
      Script(after, JsonReply(reply.Status(), render(reply)), [], false)
  }

  lemma AuthRunIsFaithful(
    c: JwtController.Config, render: JwtController.Reply -> Bytes, rows: RefreshTokens.Table, r: AuthRuns.Request)
    ensures var reply := AuthRuns.Serve(c, rows, r).1;
            var run := AuthApi(c, render)(rows, r);
            && FaithfulRun(run) && Live(run) == Response(reply.Status(), JSON, render(reply), false)
            && (EndsWell(run) <==> !reply.ServerError?)
            && RecordOf(run) == Record(reply.Status(), map["Content-Type" := JSON], render(reply))
  {
    hide AuthRuns.Serve;
    var (after, reply) := AuthRuns.Serve(c, rows, r);
    JsonReplyIsFaithful(after, reply.Status(), render(reply));
  }

  /** What the authentication API does and sends when a request is run: for each answer its status and JSON body. */
  lemma AuthApiAnswers(
    c: JwtController.Config, render: JwtController.Reply -> Bytes, rows: RefreshTokens.Table, store: Backend,
    q: HttpRequest<AuthRuns.Request>, ttl: int)
    requires !ServeRequest(AuthApi(c, render), rows, store, q, ttl).reply.replayed
    ensures var (out, (after, reply)) := (ServeRequest(AuthApi(c, render), rows, store, q, ttl),
                                          AuthRuns.Serve(c, rows, q.payload));
            && out.app == after && out.reply.body == render(reply) && !out.reply.replayed
            && out.reply.contentType == "application/json; charset=utf-8"
            && (reply.LoginOk? || reply.RefreshOk? || reply.LoggedOut? ==> out.reply.status == 200)
            && (reply.BadRequest? ==> out.reply.status == 400)
            && (reply.Unauthorized? ==> out.reply.status == 401)
            && (reply.Unprocessable? ==> out.reply.status == 422)
            && (reply.ServerError? ==> out.reply.status == 500)
  {
    AuthRunIsFaithful(c, render, rows, q.payload);
    hide AuthRuns.Serve, Live;
  }

  /** A keyed request that is run is recorded exactly when the store takes it and the answer is not a server error. */
  lemma AuthRecordedExactly(
    c: JwtController.Config, render: JwtController.Reply -> Bytes, ttl: int,
    init: State<RefreshTokens.Table>, events: seq<Event<AuthRuns.Request>>, i: nat)
    requires i < |events| && events[i].Incoming?
    requires Misses(events[i].q, At(AuthApi(c, render), ttl, init, events, i).store)
    ensures var (q, s) := (events[i].q, At(AuthApi(c, render), ttl, init, events, i));
            var (reply, pair) := (AuthRuns.Serve(c, s.app, q.payload).1, Pair(q.route, q.key));
            && (RecordsAt(AuthApi(c, render), ttl, init, events, i) <==>
                  !q.recordFails && s.store.Accepts(pair, q.recordAt) && !reply.ServerError?)
            && (RecordsAt(AuthApi(c, render), ttl, init, events, i) ==>
                  var kept := At(AuthApi(c, render), ttl, init, events, i + 1).store.Kept(pair);
                  && kept.Some? && kept.value.record.body == render(reply)
                  && (reply.LoginOk? || reply.RefreshOk? || reply.LoggedOut? ==> kept.value.record.status == 200))
  {
    var h := AuthApi(c, render);
    var (q, s) := (events[i].q, At(h, ttl, init, events, i));
    hide AuthRuns.Serve, RecordOf, Live, EndsWell, FaithfulRun, ServeRequest;
    AuthRunIsFaithful(c, render, s.app, q.payload);
    RecordedExactly(h, ttl, s, q);
  }

  /**
   * A request to the authentication API that was run and recorded under a key, a refresh in particular, can be retried
   * with that key until the record expires, whatever else is served in between: each retry gets the same answer, tokens
   * included, and leaves the token table alone, so a retried refresh never enters the reuse branch.
   */
  lemma RefreshIsRetrySafe(
    c: JwtController.Config, render: JwtController.Reply -> Bytes, ttl: int,
    init: State<RefreshTokens.Table>, events: seq<Event<AuthRuns.Request>>, i: nat, j: nat)
    requires RecordsAt(AuthApi(c, render), ttl, init, events, i) && RetriesAt(ttl, events, i, j)
    ensures At(AuthApi(c, render), ttl, init, events, j + 1) == At(AuthApi(c, render), ttl, init, events, j)
    ensures var first := At(AuthApi(c, render), ttl, init, events, i);
            var later := At(AuthApi(c, render), ttl, init, events, j);
            var reply := AuthRuns.Serve(c, first.app, events[i].q.payload).1;
            ServeRequest(AuthApi(c, render), later.app, later.store, events[j].q, ttl) ==
            Served(later.app, later.store, Response(reply.Status(), JSON, render(reply), true))
  {
    var h := AuthApi(c, render);
    var rows := At(h, ttl, init, events, i).app;
    AuthRunIsFaithful(c, render, rows, events[i].q.payload);
    ExactlyOnce(h, ttl, init, events, i, j);
    ReplayEqualsLiveExactly(h(rows, events[i].q.payload));
  }

  /**
   * So a successful refresh under a key, with a store that takes its record, is answered 200 with its new tokens, and
   * so is every retry of it until the record expires, which leaves the token table alone.
   */
  lemma KeyedRefreshIsRetrySafe(
    c: JwtController.Config, render: JwtController.Reply -> Bytes, ttl: int,
    init: State<RefreshTokens.Table>, events: seq<Event<AuthRuns.Request>>, i: nat, j: nat)
    requires i < |events| && events[i].Incoming? && RetriesAt(ttl, events, i, j)
    requires var (q, s) := (events[i].q, At(AuthApi(c, render), ttl, init, events, i));
             && Misses(q, s.store) && !q.recordFails && s.store.Accepts(Pair(q.route, q.key), q.recordAt)
             && q.payload.RefreshRequest? && AuthRuns.Serve(c, s.app, q.payload).1.RefreshOk?
    ensures var first := At(AuthApi(c, render), ttl, init, events, i);
            var later := At(AuthApi(c, render), ttl, init, events, j);
            var body := render(AuthRuns.Serve(c, first.app, events[i].q.payload).1);
            && ServeRequest(AuthApi(c, render), first.app, first.store, events[i].q, ttl).reply ==
               Response(200, "application/json; charset=utf-8", body, false)
            && ServeRequest(AuthApi(c, render), later.app, later.store, events[j].q, ttl).reply ==
               Response(200, "application/json; charset=utf-8", body, true)
            && At(AuthApi(c, render), ttl, init, events, j + 1) == later
  {
    hide AuthRuns.Serve, RecordsAt, RetriesAt;
    var first := At(AuthApi(c, render), ttl, init, events, i);
    AuthRecordedExactly(c, render, ttl, init, events, i);
    ServeExactly(AuthApi(c, render), first.app, first.store, events[i].q, ttl);
    AuthApiAnswers(c, render, first.app, first.store, events[i].q, ttl);
    RefreshIsRetrySafe(c, render, ttl, init, events, i, j);
  }

  lemma LoginAddsARow(c: JwtController.Config, rows: RefreshTokens.Table, r: AuthRuns.Request, user: Decimal.UserId)
    requires AuthRuns.LogsIn(c, rows, r, user)
    ensures |AuthRuns.Serve(c, rows, r).0| == |rows| + 1
  {
  }

  /**
   * A key stands for its first request, whatever a later one under it asks. A login of any other user, under a key that
   * a login of this user was recorded with, is not run, and is answered with this user's tokens.
   */
  lemma ReusedKeyAnswersForTheFirst(
    c: JwtController.Config, render: JwtController.Reply -> Bytes, ttl: int,
    init: State<RefreshTokens.Table>, events: seq<Event<AuthRuns.Request>>, i: nat, j: nat,
    user: Decimal.UserId, other: Decimal.UserId)
    requires RecordsAt(AuthApi(c, render), ttl, init, events, i) && RetriesAt(ttl, events, i, j)
    requires AuthRuns.LogsIn(c, At(AuthApi(c, render), ttl, init, events, i).app, events[i].q.payload, user)
    requires AuthRuns.LogsIn(c, At(AuthApi(c, render), ttl, init, events, j).app, events[j].q.payload, other)
    ensures var first := At(AuthApi(c, render), ttl, init, events, i);
            var later := At(AuthApi(c, render), ttl, init, events, j);
            var theirs := AuthRuns.Serve(c, first.app, events[i].q.payload).1;
            && theirs.LoginOk? && theirs.user == user
            && ServeRequest(AuthApi(c, render), later.app, later.store, events[j].q, ttl).reply ==
               Response(200, JSON, render(theirs), true)
    ensures var later := At(AuthApi(c, render), ttl, init, events, j).app;
            At(AuthApi(c, render), ttl, init, events, j + 1).app == later !=
            AuthRuns.Serve(c, later, events[j].q.payload).0
  {
    RefreshIsRetrySafe(c, render, ttl, init, events, i, j);
    LoginAddsARow(c, At(AuthApi(c, render), ttl, init, events, j).app, events[j].q.payload, other);
  }

  /** Without the key the same retry counts as reuse: it is refused and ends every session of the user. */
  lemma UnkeyedRetryLocksOut(
    c: JwtController.Config, rows: RefreshTokens.Table, header: string, w: JwtController.World, v: JwtController.World)
    requires Jwt.Sound(c.crypto) && JwtController.WellFormed(c, rows)
    requires JwtController.Refresh(c, rows, header, w).1.RefreshOk?
    requires JwtController.Presented(c, header, v).Some? && !v.findFails && !v.revokeAllFails
    ensures var used := AuthRuns.RowInUse(c, rows, AuthRuns.RefreshRequest(header, w));
            && used.Some? && used.value < |rows|
            && var after := JwtController.Refresh(c, rows, header, w).0;
               JwtController.Refresh(c, after, header, v) ==
               (RefreshTokens.RevokeAllForUser(after, rows[used.value].userId, v.revokeAt), JwtController.Unauthorized)
  {
    var r := AuthRuns.RefreshRequest(header, w);
    AuthRuns.ServeEffect(c, rows, r);
    var id := AuthRuns.RowInUse(c, rows, r).value;
    var after := JwtController.Refresh(c, rows, header, w).0;
    assert JwtController.Presented(c, header, w).value.0 == JwtController.Presented(c, header, v).value.0;
    AuthRuns.ReuseRevokesOwner(c, after, header, v, id);
  }

  /** The create-user route behind its transaction; a panic does not get past the transaction middleware. */
  function UsersApi(render: int -> Bytes): Handler<Users.Table, Users.Request> {
    (rows: Users.Table, r: Users.Request) =>
      var out := Users.CreateRoute(rows, r.req, r.w);
      Script(out.rows, if out.written then JsonReply(out.status, render(out.status)) else [], [], false)
  }

  lemma WrittenStatus(rows: Users.Table, r: Users.Request)
    requires Users.CreateRoute(rows, r.req, r.w).written
    ensures Users.CreateRoute(rows, r.req, r.w).status in {200, 400, 409, 422, 500}
  {
  }

  lemma CreateRunIsFaithful(render: int -> Bytes, rows: Users.Table, r: Users.Request)
    requires Recordable(UsersApi(render)(rows, r))
    ensures FaithfulRun(UsersApi(render)(rows, r))
  {
    var out := Users.CreateRoute(rows, r.req, r.w);
    if out.written {
      WrittenStatus(rows, r);
      JsonReplyIsFaithful(out.rows, out.status, render(out.status));
    }
  }

  /** What the create route sends when a request is run: JSON under its status, or an empty 200 after a panic. */
  lemma UsersApiAnswers(
    render: int -> Bytes, rows: Users.Table, store: Backend, q: HttpRequest<Users.Request>, ttl: int)
    requires !ServeRequest(UsersApi(render), rows, store, q, ttl).reply.replayed
    ensures var (out, route) := (ServeRequest(UsersApi(render), rows, store, q, ttl),
                                 Users.CreateRoute(rows, q.payload.req, q.payload.w));
            && out.app == route.rows
            && out.reply == if route.written
                            then Response(route.status, "application/json; charset=utf-8", render(route.status), false)
                            else Response(200, "", [], false)
  {
    hide Users.Handle;
    var out := Users.CreateRoute(rows, q.payload.req, q.payload.w);
    if out.written {
      WrittenStatus(rows, q.payload);
      JsonReplyIsFaithful(out.rows, out.status, render(out.status));
    }
  }

  /** A create that was answered and recorded is never run again under its key before the record expires. */
  lemma CreateIsRetrySafe(
    render: int -> Bytes, ttl: int, init: State<Users.Table>, events: seq<Event<Users.Request>>, i: nat, j: nat)
    requires RecordsAt(UsersApi(render), ttl, init, events, i) && RetriesAt(ttl, events, i, j)
    ensures At(UsersApi(render), ttl, init, events, j + 1) == At(UsersApi(render), ttl, init, events, j)
    ensures var first := At(UsersApi(render), ttl, init, events, i);
            var later := At(UsersApi(render), ttl, init, events, j);
            ServeRequest(UsersApi(render), later.app, later.store, events[j].q, ttl) ==
            Served(later.app, later.store,
                   ServeRequest(UsersApi(render), first.app, first.store, events[i].q, ttl).reply.Marked())
  {
    var h := UsersApi(render);
    CreateRunIsFaithful(render, At(h, ttl, init, events, i).app, events[i].q.payload);
    ExactlyOnce(h, ttl, init, events, i, j);
  }

  /**
   * A create that panicked before answering is rolled back, answered with an empty 200, recorded as such, and replayed
   * as such: no retry under the key creates the user before the record expires.
   */
  lemma PanickedCreateReplaysSuccess(
    render: int -> Bytes, ttl: int, init: State<Users.Table>, events: seq<Event<Users.Request>>, i: nat, j: nat)
    requires i < |events| && events[i].Incoming?
    requires events[i].q.payload.w.panics.BeforeInsert? || events[i].q.payload.w.panics.AfterInsert?
    requires var (q, store) := (events[i].q, At(UsersApi(render), ttl, init, events, i).store);
             Misses(q, store) && !q.recordFails && store.Accepts(q.Pair(), q.recordAt)
    requires RetriesAt(ttl, events, i, j)
    ensures At(UsersApi(render), ttl, init, events, i + 1).app == At(UsersApi(render), ttl, init, events, i).app
    ensures At(UsersApi(render), ttl, init, events, j + 1) == At(UsersApi(render), ttl, init, events, j)
    ensures var later := At(UsersApi(render), ttl, init, events, j);
            ServeRequest(UsersApi(render), later.app, later.store, events[j].q, ttl) ==
            Served(later.app, later.store, Response(200, "", [], true))
  {
    var h := UsersApi(render);
    var (rows, r) := (At(h, ttl, init, events, i).app, events[i].q.payload);
    Users.PanicAnswers200(rows, r.req, r.w);
    assert h(rows, r) == Script(rows, [], [], false);
    assert RecordsAt(h, ttl, init, events, i);
    ExactlyOnce(h, ttl, init, events, i, j);
  }
}
