/** Lookup, run, record around an arbitrary handler (internal/middlewares/idempotency.go). */
module IdempotencyMiddleware {
  import opened Wrappers
  import opened IdempotencyStore
  import opened ResponseCapture

  /** What a client receives; `replayed` is the Idempotent-Replay header. */
  datatype Response = Response(status: int, contentType: string, body: Bytes, replayed: bool) {

    function Marked(): Response {
      this.(replayed := true)
    }
  }

  /** An error envelope as RespondError writes it; its JSON is never empty. */
  type Envelope = r: Response | r.body != [] && !r.replayed
    witness Response(500, "application/json; charset=utf-8", [123, 125], false)

  /** One execution of a handler: new application state, writer calls, errors left in the context, and panics. */
  datatype Script<S> = Script(app: S, ops: seq<Op>, errors: seq<Envelope>, panics: bool)

  type Handler<!S, !Q> = (S, Q) -> Script<S>

  datatype HttpRequest<Q> = HttpRequest(
    verb: string, route: string, key: string, payload: Q,
    lookupAt: int, lookupFails: bool, recordAt: int, recordFails: bool)
  {
    /** Only POSTs with a key on a known route are treated. */
    predicate Treated() {
      verb == "POST" && key != "" && route != ""
    }

    function Pair(): Pair {
      IdempotencyStore.Pair(route, key)
    }
  }

  /** What reaches the client of a run: gin's recovery answers a panic, the error handler an unwritten response. */
  function Live<S>(s: Script<S>): Response {
    var w := ApplyAll(s.ops);
    if w.committed.Some? then Response(w.status, w.committed.value, w.sent, false)
    else if s.panics then Response(500, w.contentType, [], false)
    else if s.errors != [] then s.errors[|s.errors| - 1]
    else Response(w.status, w.contentType, [], false)
  }

  predicate Recordable<S>(s: Script<S>) {
    !s.panics && 200 <= ApplyAll(s.ops).status < 500
  }

  function RecordOf<S>(s: Script<S>): Record {
    var w := ApplyAll(s.ops);
    Record(w.status, if w.contentType != "" then map["Content-Type" := w.contentType] else map[], Body(s.ops))
  }

  /** The recorded response written again and marked; a status of zero or less would leave the writer's own 200. */
  function Replay(r: Record): Response {
    Response(
      if r.status > 0 then r.status else 200,
      if "Content-Type" in r.headers then r.headers["Content-Type"] else "", r.body, true)
  }

  datatype Served<S> = Served(app: S, store: Backend, reply: Response)

  function ServeRequest<S, Q>(h: Handler<S, Q>, app: S, store: Backend, q: HttpRequest<Q>, ttl: int): Served<S> {
    var found := if q.lookupFails then None else store.Get(q.Pair(), q.lookupAt);
    var run := h(app, q.payload);
    if !q.Treated() then Served(run.app, store, Live(run))
    else if found.Some? then Served(app, store, Replay(found.value))
    else
      var kept := if Recordable(run) && !q.recordFails
                  then store.Set(q.Pair(), RecordOf(run), ttl, q.recordAt) else store;
      Served(run.app, kept, Live(run))
  }

  /** What a client is sent, by the handler's own operations: `k` is the first of them that sends the head. */
  lemma LiveExactly<S>(s: Script<S>, k: nat)
    requires HeadSentAt(s.ops, k)
    ensures k < |s.ops| ==>
              Live(s) == Response(LastStatus(s.ops, k), LastType(s.ops, k), ApplyAll(s.ops).sent, false)
    ensures k == |s.ops| && s.panics ==> Live(s) == Response(500, LastType(s.ops, k), [], false)
    ensures k == |s.ops| && !s.panics && s.errors != [] ==> Live(s) == s.errors[|s.errors| - 1]
    ensures k == |s.ops| && !s.panics && s.errors == [] ==>
              Live(s) == Response(LastStatus(s.ops, k), LastType(s.ops, k), [], false)
  {
    HeadExactly(s.ops, k);
  }

  /** Which runs are recorded, and with what: status and content type as last set, and everything written. */
  lemma RecordExactly<S>(s: Script<S>, k: nat)
    requires HeadSentAt(s.ops, k)
    ensures Recordable(s) <==> !s.panics && 200 <= LastStatus(s.ops, k) < 500
    ensures var (r, t) := (RecordOf(s), LastType(s.ops, |s.ops|));
            && r.status == LastStatus(s.ops, k) && r.body == Body(s.ops)
            && r.headers == if t == "" then map[] else map["Content-Type" := t]
  {
    HeadExactly(s.ops, k);
  }

  /** A replay is marked and otherwise the record; a record without content type leaves the header out. */
  lemma ReplayExactly(r: Record)
    ensures Replay(r).replayed && Replay(r).body == r.body
    ensures r.status > 0 ==> Replay(r).status == r.status
    ensures Replay(r).contentType == if "Content-Type" in r.headers then r.headers["Content-Type"] else ""
  {
  }

  /**
   * The middleware on the request's own fields. Only a POST with a key on a known route is treated; it is answered from
   * the store exactly when the lookup works and finds a live entry, and otherwise run, and recorded if it did not panic
   * and ended with 200 to 499. Every other request just runs.
   */
  lemma ServeExactly<S, Q>(h: Handler<S, Q>, app: S, store: Backend, q: HttpRequest<Q>, ttl: int)
    ensures var (out, run) := (ServeRequest(h, app, store, q, ttl), h(app, q.payload));
            var keyed := q.verb == "POST" && q.key != "" && q.route != "";
            var pair := IdempotencyStore.Pair(q.route, q.key);
            var found := store.Get(pair, q.lookupAt);
            && (!keyed ==> out == Served(run.app, store, Live(run)))
            && (out.reply.replayed <==> keyed && !q.lookupFails && found.Some?)
            && (out.reply.replayed ==> out == Served(app, store, Replay(found.value)))
            && (keyed && !out.reply.replayed ==>
                  && out.app == run.app && out.reply == Live(run)
                  && out.store == if !run.panics && 200 <= ApplyAll(run.ops).status < 500 && !q.recordFails
                                  then store.Set(pair, RecordOf(run), ttl, q.recordAt) else store)
  {
  }

  /** The middleware in front of an application whose state the handler replaces. */
  class Middleware<S, Q> {
    const store: Store
    const ttl: int
    const handler: Handler<S, Q>
    var app: S

    constructor (store: Store, configuredTtl: int, handler: Handler<S, Q>, app: S)
      ensures this.store == store && ttl == Ttl(configuredTtl) && this.handler == handler && this.app == app
    {
      this.store := store;
      this.ttl := Ttl(configuredTtl);
      this.handler := handler;
      this.app := app;
    }

    method Get(p: Pair, now: int, fails: bool) returns (found: Lookup)
      ensures found == if store.NoStore? then Miss
                       else if fails then StoreError
                       else match store.Contents().Get(p, now) { case Some(r) => Hit(r) case None => Miss }
    {
      match store
      case NoStore => return Miss;
      case InMySql(m) => found := m.Get(p, now, fails);
      case InRedis(r) => found := r.Get(p, now, fails);
    }

    method Set(p: Pair, r: Record, now: int, fails: bool)
      modifies store.Objects()
      ensures store.Contents() == if fails then old(store.Contents()) else old(store.Contents()).Set(p, r, ttl, now)
    {
      match store
      case NoStore =>
      case InMySql(m) =>
        var before := m.rows;
        var _ := m.Set(p, r, ttl, now, fails);
        assert !fails ==> m.rows == MySqlSet(before, p, r, ttl, now);
      case InRedis(c) =>
        var _ := c.Set(p, r, ttl, now, fails);
    }

    /** `c.Next()` with the handler writing to `w` directly. */
    method RunPlain(q: HttpRequest<Q>) returns (reply: Response)
      requires this !in store.Objects()
      modifies this`app
      ensures app == handler(old(app), q.payload).app && reply == Live(handler(old(app), q.payload))
    {
      var run := handler(app, q.payload);
      app := run.app;
      reply := Live(run);
    }

    /** The recorded headers and the replay mark, then `c.Data` with the recorded status and body. */
    method WriteRecord(r: Record) returns (reply: Response)
      ensures reply == Replay(r)
    {
      var writer := new GinWriter();
      if "Content-Type" in r.headers {
        writer.SetType(r.headers["Content-Type"]);
      }
      writer.WriteHead(r.status);
      var _ := writer.Send(r.body, |r.body|);
      reply := Response(writer.status, writer.contentType, writer.sent, true);
    }

    method Handle(q: HttpRequest<Q>) returns (reply: Response)
      requires this !in store.Objects()
      modifies this`app, store.Objects()
      ensures Served(app, store.Contents(), reply) ==
              ServeRequest(handler, old(app), old(store.Contents()), q, ttl)
    {
      if q.verb != "POST" {
        reply := RunPlain(q);
        return;
      }
      if q.key == "" {
        reply := RunPlain(q);
        return;
      }
      if q.route == "" {
        reply := RunPlain(q);
        return;
      }
      var found := Get(q.Pair(), q.lookupAt, q.lookupFails);
      if found.Hit? {
        reply := WriteRecord(found.record);
        return;
      }
      var inner := new GinWriter();
      var bw := new BodyCaptureWriter(inner);
      var run := handler(app, q.payload);
      app := run.app;
      bw.Perform(run.ops);
      reply := Live(run);
      if run.panics {
        return;
      }
      if bw.inner.status < 200 || bw.inner.status >= 500 {
        return;
      }
      var headers: map<string, string> := map[];
      if bw.inner.contentType != "" {
        headers := headers["Content-Type" := bw.inner.contentType];
      }
      Set(q.Pair(), Record(bw.inner.status, headers, bw.buf), q.recordAt, q.recordFails);
    }
  }

  /** The three ways in which a record can differ from what its own client was sent. */
  ghost predicate FaithfulRun<S>(s: Script<S>) {
    && AllTakenInFull(s.ops)
    && (ApplyAll(s.ops).committed.None? || ApplyAll(s.ops).committed == Some(ApplyAll(s.ops).contentType))
    && (ApplyAll(s.ops).committed.Some? || s.errors == [])
  }

  /**
   * A replay is the live response, marked, exactly when every write was taken in full, the content type did not change
   * after the head was sent, and the handler did not leave errors behind without writing.
   */
  lemma ReplayEqualsLiveExactly<S>(s: Script<S>)
    requires Recordable(s)
    ensures Replay(RecordOf(s)) == Live(s).Marked() <==> FaithfulRun(s)
  {
    CaptureIsFaithfulExactly(s.ops);
    SentAgainstBody(s.ops);
  }

  /** A handler that only pushes an error: its client is answered 404, but an empty 200 is recorded and replayed. */
  lemma UnwrittenErrorIsRecordedAsSuccess<S>(app: S)
    ensures var s := Script(app, [], [Response(404, "application/json; charset=utf-8", [123, 125], false)], false);
            Recordable(s) && Live(s).status == 404 && Replay(RecordOf(s)) == Response(200, "", [], true)
  {
  }
}
