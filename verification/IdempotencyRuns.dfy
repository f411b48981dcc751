/** Sequential runs of the middleware around an arbitrary handler, with any other traffic and sweeps in between. */
module IdempotencyRuns {
  import opened Wrappers
  import opened IdempotencyStore
  import opened ResponseCapture
  import opened IdempotencyMiddleware

  datatype State<S> = State(app: S, store: Backend)

  datatype Event<Q> = Incoming(q: HttpRequest<Q>) | SweepAt(at: int)

  /** The last clock reading of an event. */
  function Ends<Q>(e: Event<Q>): int {
    match e
    case Incoming(q) => if q.lookupAt < q.recordAt then q.recordAt else q.lookupAt
    case SweepAt(at) => at
  }

  function Step<S, Q>(h: Handler<S, Q>, ttl: int, s: State<S>, e: Event<Q>): State<S> {
    match e
    case Incoming(q) => var out := ServeRequest(h, s.app, s.store, q, ttl); State(out.app, out.store)
    case SweepAt(at) => s.(store := s.store.Swept(at))
  }

  /** The state after the first `k` events of a run from `init`. */
  function At<S, Q>(h: Handler<S, Q>, ttl: int, init: State<S>, events: seq<Event<Q>>, k: nat): State<S>
    requires k <= |events|
  {
    if k == 0 then init else Step(h, ttl, At(h, ttl, init, events, k - 1), events[k - 1])
  }

  /** Only these requests are for the middleware. */
  predicate KeyedPost<Q>(q: HttpRequest<Q>) {
    q.verb == "POST" && q.key != "" && q.route != ""
  }

  predicate OnSamePair<Q>(p: HttpRequest<Q>, q: HttpRequest<Q>) {
    p.route == q.route && p.key == q.key
  }

  /** The request is not answered from the store, so the handler runs. */
  predicate Misses<Q>(q: HttpRequest<Q>, store: Backend) {
    KeyedPost(q) && (q.lookupFails || store.Get(Pair(q.route, q.key), q.lookupAt).None?)
  }

  /** The run did not panic and its status is from 200 to 499. */
  ghost predicate EndsWell<S>(run: Script<S>) {
    !run.panics && 200 <= ApplyAll(run.ops).status < 500
  }

  /** A run is recorded exactly when it finished below 500 without panic, the write works and nothing is in its way. */
  lemma RecordedExactly<S, Q>(h: Handler<S, Q>, ttl: int, s: State<S>, q: HttpRequest<Q>)
    requires Misses(q, s.store)
    ensures var run := h(s.app, q.payload);
            var recorded := EndsWell(run) && !q.recordFails && s.store.Accepts(q.Pair(), q.recordAt);
            var after := Step(h, ttl, s, Incoming(q)).store;
            && (after != s.store <==> recorded)
            && (recorded ==> after.Kept(q.Pair()) == Some(Entry(RecordOf(run), q.recordAt + Ttl(ttl))))
  {
    var run := h(s.app, q.payload);
    WriteKeptExactly(s.store, q.Pair(), RecordOf(run), ttl, q.recordAt);
    if EndsWell(run) && !q.recordFails && s.store.Accepts(q.Pair(), q.recordAt) {
      var after := s.store.Set(q.Pair(), RecordOf(run), ttl, q.recordAt);
      assert after.Kept(q.Pair()) != s.store.Kept(q.Pair());
    }
  }

  /** What event `i` leaves in the store, if it is a POST that runs the handler and is recorded. */
  ghost predicate RecordsAt<S, Q>(h: Handler<S, Q>, ttl: int, init: State<S>, events: seq<Event<Q>>, i: nat) {
    && i < |events| && events[i].Incoming?
    && var (q, s) := (events[i].q, At(h, ttl, init, events, i));
       && Misses(q, s.store) && EndsWell(h(s.app, q.payload))
       && !q.recordFails && s.store.Accepts(Pair(q.route, q.key), q.recordAt)
  }

  /** Event `j` is a POST on the same pair, looked up successfully after everything since `i` and before the expiry. */
  predicate RetriesAt<Q>(ttl: int, events: seq<Event<Q>>, i: nat, j: nat)
    requires i < |events| && events[i].Incoming?
  {
    && i < j < |events| && events[j].Incoming?
    && var (first, retry) := (events[i].q, events[j].q);
       && KeyedPost(retry) && OnSamePair(retry, first) && !retry.lookupFails
       && retry.lookupAt < first.recordAt + Ttl(ttl)
       && forall k | i < k < j :: Ends(events[k]) <= retry.lookupAt
  }

  lemma {:induction false} KeptThroughRun<S, Q>(
    h: Handler<S, Q>, ttl: int, init: State<S>, events: seq<Event<Q>>, i: nat, k: nat, p: Pair, e: Entry)
    requires i <= k <= |events| && At(h, ttl, init, events, i).store.Kept(p) == Some(e)
    requires forall m | i <= m < k :: Ends(events[m]) < e.expiresAt
    ensures At(h, ttl, init, events, k).store.Kept(p) == Some(e)
    decreases k
  {
    if i < k {
      KeptThroughRun(h, ttl, init, events, i, k - 1, p, e);
      var before := At(h, ttl, init, events, k - 1);
      assert Ends(events[k - 1]) < e.expiresAt;
      match events[k - 1]
      case Incoming(q) =>
        var run := h(before.app, q.payload);
        KeptUntilExpiry(before.store, p, e, q.Pair(), RecordOf(run), ttl, q.recordAt);
      case SweepAt(at) =>
        KeptUntilExpiry(before.store, p, e, p, e.record, ttl, at);
    }
  }

  /**
   * Exactly once: after a POST that was run and recorded, and whatever came in between, every POST on its route and
   * key before the record expires leaves application and store as they are and is answered from the record, which is
   * the first answer, marked, exactly when the first run was captured faithfully.
   */
  lemma ExactlyOnce<S, Q>(h: Handler<S, Q>, ttl: int, init: State<S>, events: seq<Event<Q>>, i: nat, j: nat)
    requires RecordsAt(h, ttl, init, events, i) && RetriesAt(ttl, events, i, j)
    ensures var (first, later) := (At(h, ttl, init, events, i), At(h, ttl, init, events, j));
            var run := h(first.app, events[i].q.payload);
            var served := ServeRequest(h, later.app, later.store, events[j].q, ttl);
            && served == Served(later.app, later.store, Replay(RecordOf(run)))
            && (served.reply == ServeRequest(h, first.app, first.store, events[i].q, ttl).reply.Marked() <==>
                  FaithfulRun(run))
    ensures At(h, ttl, init, events, j + 1) == At(h, ttl, init, events, j)
  {
    var (s, q) := (At(h, ttl, init, events, i), events[i].q);
    var run := h(s.app, q.payload);
    var e := Entry(RecordOf(run), q.recordAt + Ttl(ttl));
    RecordedExactly(h, ttl, s, q);
    KeptThroughRun(h, ttl, init, events, i + 1, j, q.Pair(), e);
    var later := At(h, ttl, init, events, j);
    KeptUntilExpiry(later.store, q.Pair(), e, q.Pair(), e.record, ttl, events[j].q.lookupAt);
    ReplayEqualsLiveExactly(run);
  }

  ghost predicate KeepsNothing(b: Backend) {
    forall p :: b.Kept(p).None?
  }

  /** Entries for the two pairs are kept in one place: the pairs are equal, or share a Redis cache key. */
  predicate SameSlot(b: Backend, p: Pair, q: Pair) {
    p == q || (b.Redis? && CacheKey(p) == CacheKey(q))
  }

  /** One request changes what is kept for a pair only by recording its own run there. */
  lemma KeptChangesByRecording<S, Q>(h: Handler<S, Q>, ttl: int, s: State<S>, q: HttpRequest<Q>, p: Pair, e: Entry)
    requires Step(h, ttl, s, Incoming(q)).store.Kept(p) == Some(e) && s.store.Kept(p) != Some(e)
    ensures Misses(q, s.store) && EndsWell(h(s.app, q.payload)) && !q.recordFails
    ensures s.store.Accepts(q.Pair(), q.recordAt) && SameSlot(s.store, q.Pair(), p)
    ensures e == Entry(RecordOf(h(s.app, q.payload)), q.recordAt + Ttl(ttl))
  {
    hide RecordOf, Live, Replay;
    var run := h(s.app, q.payload);
    if Misses(q, s.store) {
      WriteKeptExactly(s.store, q.Pair(), RecordOf(run), ttl, q.recordAt);
    }
  }

  lemma StepKeepsKind<S, Q>(h: Handler<S, Q>, ttl: int, s: State<S>, e: Event<Q>)
    ensures Step(h, ttl, s, e).store.Redis? == s.store.Redis?
  {
  }

  lemma {:induction false} KindStays<S, Q>(h: Handler<S, Q>, ttl: int, init: State<S>, events: seq<Event<Q>>, k: nat)
    requires k <= |events|
    ensures At(h, ttl, init, events, k).store.Redis? == init.store.Redis?
  {
    if k > 0 {
      KindStays(h, ttl, init, events, k - 1);
      StepKeepsKind(h, ttl, At(h, ttl, init, events, k - 1), events[k - 1]);
    }
  }

  /** Everything kept was recorded by an earlier event on the pair, and is what that event's run left. */
  lemma {:induction false} EntriesHaveAnOrigin<S, Q>(
    h: Handler<S, Q>, ttl: int, init: State<S>, events: seq<Event<Q>>, k: nat, p: Pair, e: Entry) returns (i: nat)
    requires KeepsNothing(init.store) && k <= |events| && At(h, ttl, init, events, k).store.Kept(p) == Some(e)
    ensures i < k && RecordsAt(h, ttl, init, events, i) && SameSlot(init.store, events[i].q.Pair(), p)
    ensures var (q, run) := (events[i].q, h(At(h, ttl, init, events, i).app, events[i].q.payload));
            e == Entry(RecordOf(run), q.recordAt + Ttl(ttl))
  {
    assert k > 0;
    var before := At(h, ttl, init, events, k - 1);
    if before.store.Kept(p) == Some(e) {
      i := EntriesHaveAnOrigin(h, ttl, init, events, k - 1, p, e);
    } else {
      i := k - 1;
      assert events[i].Incoming?;
      KeptChangesByRecording(h, ttl, before, events[i].q, p, e);
      KindStays(h, ttl, init, events, i);
    }
  }

  /** Event `i` recorded a run whose record request `j` may find: same pair, and still unexpired. */
  ghost predicate Covers<S, Q>(h: Handler<S, Q>, ttl: int, init: State<S>, events: seq<Event<Q>>, i: nat, j: nat)
    requires j < |events| && events[j].Incoming?
  {
    && i < j && RecordsAt(h, ttl, init, events, i)
    && SameSlot(init.store, events[i].q.Pair(), events[j].q.Pair())
    && events[j].q.lookupAt < events[i].q.recordAt + Ttl(ttl)
  }

  /** Every replay returns what an earlier recorded POST left. */
  lemma ReplaysHaveAnOrigin<S, Q>(
    h: Handler<S, Q>, ttl: int, init: State<S>, events: seq<Event<Q>>, j: nat) returns (i: nat)
    requires KeepsNothing(init.store) && j < |events| && events[j].Incoming?
    requires var later := At(h, ttl, init, events, j);
             ServeRequest(h, later.app, later.store, events[j].q, ttl).reply.replayed
    ensures Covers(h, ttl, init, events, i, j)
    ensures var later := At(h, ttl, init, events, j);
            ServeRequest(h, later.app, later.store, events[j].q, ttl).reply ==
            Replay(RecordOf(h(At(h, ttl, init, events, i).app, events[i].q.payload)))
  {
    var (store, p) := (At(h, ttl, init, events, j).store, events[j].q.Pair());
    assert store.Get(p, events[j].q.lookupAt).Some?;
    assert store.Kept(p).Some?;
    i := EntriesHaveAnOrigin(h, ttl, init, events, j, p, store.Kept(p).value);
  }

  /**
   * A POST is run, and not answered from the store, as long as no earlier POST on its pair was recorded: whatever came
   * before, attempts that panicked, answered 500 and above, or could not be recorded do not count.
   */
  lemma RerunUntilRecorded<S, Q>(h: Handler<S, Q>, ttl: int, init: State<S>, events: seq<Event<Q>>, j: nat)
    requires KeepsNothing(init.store) && j < |events| && events[j].Incoming? && KeyedPost(events[j].q)
    requires forall i | 0 <= i < j && RecordsAt(h, ttl, init, events, i) ::
               !SameSlot(init.store, events[i].q.Pair(), events[j].q.Pair())
    ensures Misses(events[j].q, At(h, ttl, init, events, j).store)
    ensures At(h, ttl, init, events, j + 1).app == h(At(h, ttl, init, events, j).app, events[j].q.payload).app
  {
    var s := At(h, ttl, init, events, j);
    if ServeRequest(h, s.app, s.store, events[j].q, ttl).reply.replayed {
      var i := ReplaysHaveAnOrigin(h, ttl, init, events, j);
      assert false;
    }
  }

  /** The clock of request `j` has not fallen behind any earlier event. */
  predicate InOrder<Q>(events: seq<Event<Q>>, j: nat)
    requires j < |events| && events[j].Incoming?
  {
    forall k | 0 <= k < j :: Ends(events[k]) <= events[j].q.lookupAt
  }

  /** With clocks in order a POST is answered from the store exactly when an earlier recorded POST covers it. */
  lemma ReplayedExactly<S, Q>(h: Handler<S, Q>, ttl: int, init: State<S>, events: seq<Event<Q>>, j: nat)
    requires KeepsNothing(init.store) && j < |events| && events[j].Incoming? && InOrder(events, j)
    requires KeyedPost(events[j].q) && !events[j].q.lookupFails
    ensures var later := At(h, ttl, init, events, j);
            ServeRequest(h, later.app, later.store, events[j].q, ttl).reply.replayed <==>
            exists i :: Covers(h, ttl, init, events, i, j)
  {
    var later := At(h, ttl, init, events, j);
    if ServeRequest(h, later.app, later.store, events[j].q, ttl).reply.replayed {
      var i := ReplaysHaveAnOrigin(h, ttl, init, events, j);
    }
    if i: nat :| Covers(h, ttl, init, events, i, j) {
      CoveredIsKept(h, ttl, init, events, i, j);
    }
  }

  lemma CoveredIsKept<S, Q>(h: Handler<S, Q>, ttl: int, init: State<S>, events: seq<Event<Q>>, i: nat, j: nat)
    requires j < |events| && events[j].Incoming? && InOrder(events, j) && Covers(h, ttl, init, events, i, j)
    ensures At(h, ttl, init, events, j).store.Get(events[j].q.Pair(), events[j].q.lookupAt).Some?
  {
    hide ServeRequest, RecordOf;
    var (s, q, p) := (At(h, ttl, init, events, i), events[i].q, events[j].q.Pair());
    var e := Entry(RecordOf(h(s.app, q.payload)), q.recordAt + Ttl(ttl));
    RecordedExactly(h, ttl, s, q);
    KindStays(h, ttl, init, events, i + 1);
    assert At(h, ttl, init, events, i + 1).store.Kept(p) == Some(e);
    KeptThroughRun(h, ttl, init, events, i + 1, j, p, e);
    KeptUntilExpiry(At(h, ttl, init, events, j).store, p, e, p, e.record, ttl, events[j].q.lookupAt);
  }

  /**
   * On MySQL a row that outlived its expiry without being swept is never replaced: every later POST on its pair runs
   * the handler again, and none of them is recorded.
   */
  lemma {:induction false} StaleRowIsNeverReplaced<S, Q>(
    h: Handler<S, Q>, ttl: int, init: State<S>, events: seq<Event<Q>>, p: Pair, k: nat)
    requires init.store.MySql? && p in init.store.rows && k <= |events|
    requires forall m | 0 <= m < |events| ::
               events[m].Incoming? && events[m].q.lookupAt >= init.store.rows[p].expiresAt
    ensures var s := At(h, ttl, init, events, k);
            && s.store.Kept(p) == init.store.Kept(p) && s.store.MySql?
            && (k < |events| && KeyedPost(events[k].q) && events[k].q.Pair() == p ==>
                  Step(h, ttl, s, events[k]) == State(h(s.app, events[k].q.payload).app, s.store))
  {
    if k > 0 {
      StaleRowIsNeverReplaced(h, ttl, init, events, p, k - 1);
    }
    var s := At(h, ttl, init, events, k);
    if k < |events| && KeyedPost(events[k].q) && events[k].q.Pair() == p {
      RecordedExactly(h, ttl, s, events[k].q);
    }
  }

  /**
   * A sweep is what frees such a pair: afterwards a MySQL store keeps exactly the rows whose expiry was not past, so a
   * write on the pair of an expired row is accepted again. It touches nothing else, and Redis needs none.
   */
  lemma SweepFreesExpired<S, Q>(h: Handler<S, Q>, ttl: int, s: State<S>, at: int, p: Pair)
    ensures Step(h, ttl, s, SweepAt(at)).app == s.app
    ensures !s.store.MySql? ==> Step(h, ttl, s, SweepAt(at)) == s
    ensures s.store.MySql? && p in s.store.rows && s.store.rows[p].expiresAt < at ==>
              Step(h, ttl, s, SweepAt(at)).store.Accepts(p, at)
    ensures s.store.MySql? && !(p in s.store.rows && s.store.rows[p].expiresAt < at) ==>
              Step(h, ttl, s, SweepAt(at)).store.Kept(p) == s.store.Kept(p)
  {
  }

  ghost predicate InRange(r: Record) {
    200 <= r.status < 500
  }

  ghost predicate StatusesInRange(b: Backend) {
    match b
    case Noop => true
    case MySql(rows) => forall p | p in rows :: InRange(rows[p].record)
    case Redis(cells) => forall k | k in cells :: InRange(cells[k].record)
  }

  /** Every record in every reachable store has a status from 200 to 499. */
  lemma {:induction false} RecordsStayInRange<S, Q>(
    h: Handler<S, Q>, ttl: int, init: State<S>, events: seq<Event<Q>>, k: nat)
    requires StatusesInRange(init.store) && k <= |events|
    ensures StatusesInRange(At(h, ttl, init, events, k).store)
  {
    if k > 0 {
      RecordsStayInRange(h, ttl, init, events, k - 1);
    }
  }
}
