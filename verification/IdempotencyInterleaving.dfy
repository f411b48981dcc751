/**
 * Concurrent requests through the middleware: lookup, handler and write are separate steps of each request, interleaved
 * with each other, with the clock and with sweeps. A write is two steps on MySQL, find and insert, and one on Redis.
 */
module IdempotencyInterleaving {
  import opened Wrappers
  import opened IdempotencyStore
  import opened ResponseCapture
  import opened IdempotencyMiddleware

  datatype Post<Q> = Post(pair: Pair, payload: Q)

  /** What a request does next. */
  datatype Pc<Q> =
    | Looking(post: Post<Q>)
    | Running(post: Post<Q>)
    | Recording(pair: Pair, record: Record, reply: Response)
    | Inserting(pair: Pair, entry: Entry, reply: Response)
    | Done(reply: Response)

  datatype State<S, Q> = State(app: S, store: Backend, now: int, pcs: map<nat, Pc<Q>>)

  datatype Event<Q> =
    | Arrive(p: nat, post: Post<Q>)
    | Next(p: nat, fails: bool)
    | Elapse(time: nat)
    | SweepRows

  /** The insert that ends a MySQL write: the primary key refuses it when a row has come in between. */
  function Insert(b: Backend, pair: Pair, entry: Entry): Backend {
    if b.MySql? && pair !in b.rows then MySql(b.rows[pair := entry]) else b
  }

  function Advance<S, Q>(h: Handler<S, Q>, ttl: int, s: State<S, Q>, pc: Pc<Q>, fails: bool): (S, Backend, Pc<Q>) {
    match pc
    case Looking(post) =>
      var found := if fails then None else s.store.Get(post.pair, s.now);
      (s.app, s.store, if found.Some? then Done(Replay(found.value)) else Running(post))
    case Running(post) =>
      var run := h(s.app, post.payload);
      (run.app, s.store,
       if Recordable(run) then Recording(post.pair, RecordOf(run), Live(run)) else Done(Live(run)))
    case Recording(pair, record, reply) =>
      if fails then (s.app, s.store, Done(reply))
      else if s.store.MySql? && pair !in s.store.rows
      then (s.app, s.store, Inserting(pair, Entry(record, s.now + Ttl(ttl)), reply))
      else (s.app, s.store.Set(pair, record, ttl, s.now), Done(reply))
    case Inserting(pair, entry, reply) =>
      (s.app, if fails then s.store else Insert(s.store, pair, entry), Done(reply))
    case Done(_) => (s.app, s.store, pc)
  }

  function Step<S, Q>(h: Handler<S, Q>, ttl: int, s: State<S, Q>, e: Event<Q>): State<S, Q> {
    match e
    case Arrive(p, post) => if p in s.pcs then s else s.(pcs := s.pcs[p := Looking(post)])
    case Next(p, fails) =>
      if p in s.pcs then
        var (app, store, pc) := Advance(h, ttl, s, s.pcs[p], fails);
        State(app, store, s.now, s.pcs[p := pc])
      else s
    case Elapse(time) => s.(now := s.now + time)
    case SweepRows => s.(store := s.store.Swept(s.now))
  }

  /** The state after the first `k` events of a run from `init`. */
  function At<S, Q>(h: Handler<S, Q>, ttl: int, init: State<S, Q>, events: seq<Event<Q>>, k: nat): State<S, Q>
    requires k <= |events|
  {
    if k == 0 then init else Step(h, ttl, At(h, ttl, init, events, k - 1), events[k - 1])
  }

  /** Four calls of a request that has come to `pc`, each failing or not. */
  function FourCalls<S, Q>(
    h: Handler<S, Q>, ttl: int, s: State<S, Q>, pc: Pc<Q>, f1: bool, f2: bool, f3: bool, f4: bool)
    : (S, Backend, Pc<Q>)
  {
    var (a1, b1, c1) := Advance(h, ttl, s, pc, f1);
    var (a2, b2, c2) := Advance(h, ttl, s.(app := a1, store := b1), c1, f2);
    var (a3, b3, c3) := Advance(h, ttl, s.(app := a2, store := b2), c2, f3);
    Advance(h, ttl, s.(app := a3, store := b3), c3, f4)
  }

  lemma FourCallsAreSequential<S, Q>(
    h: Handler<S, Q>, ttl: int, s: State<S, Q>, post: Post<Q>, f1: bool, f2: bool, f3: bool, f4: bool)
    requires post.pair.route != "" && post.pair.key != ""
    ensures var q := HttpRequest("POST", post.pair.route, post.pair.key, post.payload, s.now, f1,
                                 s.now, f3 || (f4 && s.store.MySql?));
            var out := ServeRequest(h, s.app, s.store, q, ttl);
            FourCalls(h, ttl, s, Looking(post), f1, f2, f3, f4) == (out.app, out.store, Done(out.reply))
  {
    hide Live, Replay, RecordOf, Recordable;
  }

  /** A call depends on application, store and clock, and changes its own request only. */
  lemma NextIsAdvance<S, Q>(h: Handler<S, Q>, ttl: int, s: State<S, Q>, t: State<S, Q>, p: nat, fails: bool)
    requires p in t.pcs && t.now == s.now && t.pcs == s.pcs[p := t.pcs[p]]
    ensures var (app, store, pc) := Advance(h, ttl, s.(app := t.app, store := t.store), t.pcs[p], fails);
            Step(h, ttl, t, Next(p, fails)) == State(app, store, s.now, s.pcs[p := pc])
  {
    hide Live, Replay, RecordOf, Recordable;
  }

  /**
   * A request that is alone from its arrival to its answer has the effect and the answer of the middleware in sequence.
   * On MySQL its write fails if either of its two steps does.
   */
  lemma SoloRunIsSequential<S, Q>(
    h: Handler<S, Q>, ttl: int, s: State<S, Q>, p: nat, post: Post<Q>, f1: bool, f2: bool, f3: bool, f4: bool)
    requires p !in s.pcs && post.pair.route != "" && post.pair.key != ""
    ensures var t := At(h, ttl, s, [Arrive(p, post), Next(p, f1), Next(p, f2), Next(p, f3), Next(p, f4)], 5);
            var q := HttpRequest("POST", post.pair.route, post.pair.key, post.payload, s.now, f1,
                                 s.now, f3 || (f4 && s.store.MySql?));
            var out := ServeRequest(h, s.app, s.store, q, ttl);
            t == State(out.app, out.store, s.now, s.pcs[p := Done(out.reply)])
  {
    hide Advance, ServeRequest;
    FourCallsAreSequential(h, ttl, s, post, f1, f2, f3, f4);
    var events := [Arrive(p, post), Next(p, f1), Next(p, f2), Next(p, f3), Next(p, f4)];
    assert At(h, ttl, s, events, 0) == s;
    var s1 := At(h, ttl, s, events, 1);
    assert s1 == Step(h, ttl, s, events[0]);
    var s2 := At(h, ttl, s, events, 2);
    assert s2 == Step(h, ttl, s1, events[1]);
    var s3 := At(h, ttl, s, events, 3);
    assert s3 == Step(h, ttl, s2, events[2]);
    var s4 := At(h, ttl, s, events, 4);
    assert s4 == Step(h, ttl, s3, events[3]);
    NextIsAdvance(h, ttl, s, s1, p, f1);
    NextIsAdvance(h, ttl, s, s2, p, f2);
    NextIsAdvance(h, ttl, s, s3, p, f3);
    NextIsAdvance(h, ttl, s, s4, p, f4);
    assert At(h, ttl, s, events, 5) == Step(h, ttl, s4, events[4]);
  }

  /** Time passes for everyone at once, and an entry is no longer found once its expiry is reached. */
  lemma ElapseExpires<S, Q>(h: Handler<S, Q>, ttl: int, s: State<S, Q>, time: nat, pair: Pair, entry: Entry)
    ensures Step(h, ttl, s, Elapse(time)) == State(s.app, s.store, s.now + time, s.pcs)
    ensures s.store.Kept(pair) == Some(entry) ==>
              var t := Step(h, ttl, s, Elapse(time));
              t.store.Get(pair, t.now) == if s.now + time < entry.expiresAt then Some(entry.record) else None
  {
  }

  /** A sweep removes the rows whose expiry is past, on MySQL, and changes nothing else. */
  lemma SweepRemovesExpired<S, Q>(h: Handler<S, Q>, ttl: int, s: State<S, Q>, pair: Pair)
    ensures var t := Step<S, Q>(h, ttl, s, SweepRows);
            && t.app == s.app && t.now == s.now && t.pcs == s.pcs
            && (!s.store.MySql? ==> t.store == s.store)
            && (s.store.MySql? && pair in s.store.rows && s.store.rows[pair].expiresAt < s.now ==>
                  t.store.Kept(pair).None?)
            && (s.store.MySql? && !(pair in s.store.rows && s.store.rows[pair].expiresAt < s.now) ==>
                  t.store.Kept(pair) == s.store.Kept(pair))
  {
  }

  /** What the event adds to the store: the row of a MySQL insert, or the cell of a Redis write. */
  function Added<S, Q>(ttl: int, s: State<S, Q>, e: Event<Q>): Option<(Pair, Entry)> {
    if !e.Next? || e.fails || e.p !in s.pcs then None
    else
      match s.pcs[e.p]
      case Inserting(pair, entry, _) =>
        if s.store.MySql? && s.store.Accepts(pair, s.now) then Some((pair, entry)) else None
      case Recording(pair, record, _) =>
        if s.store.Redis? && s.store.Accepts(pair, s.now) then Some((pair, Entry(record, s.now + Ttl(ttl)))) else None
      case _ => None
  }

  /** Event `i` is a successful first write of this entry for this pair. */
  ghost predicate Inserts<S, Q>(
    h: Handler<S, Q>, ttl: int, init: State<S, Q>, events: seq<Event<Q>>, i: nat, pair: Pair, entry: Entry)
  {
    i < |events| && Added(ttl, At(h, ttl, init, events, i), events[i]) == Some((pair, entry))
  }

  lemma AddedIsKept<S, Q>(h: Handler<S, Q>, ttl: int, s: State<S, Q>, e: Event<Q>)
    requires Added(ttl, s, e).Some?
    ensures var (pair, entry) := Added(ttl, s, e).value; Step(h, ttl, s, e).store.Kept(pair) == Some(entry)
  {
    var (pair, entry) := Added(ttl, s, e).value;
    WriteKeptExactly(s.store, pair, entry.record, ttl, s.now);
  }

  lemma KeptUntilItExpires<S, Q>(h: Handler<S, Q>, ttl: int, s: State<S, Q>, e: Event<Q>, pair: Pair, entry: Entry)
    requires s.store.Kept(pair) == Some(entry) && s.now < entry.expiresAt
    ensures Step(h, ttl, s, e).store.Kept(pair) == Some(entry)
  {
    hide Live, RecordOf, Recordable, Replay;
    KeptUntilExpiry(s.store, pair, entry, pair, entry.record, ttl, s.now);
    if e.Next? && e.p in s.pcs && s.pcs[e.p].Recording? {
      KeptUntilExpiry(s.store, pair, entry, s.pcs[e.p].pair, s.pcs[e.p].record, ttl, s.now);
    }
  }

  /** The first successful insert wins: until it expires, that entry is what every later state keeps for its pair. */
  lemma {:induction false} FirstInsertWins<S, Q>(
    h: Handler<S, Q>, ttl: int, init: State<S, Q>, events: seq<Event<Q>>, i: nat, pair: Pair, entry: Entry, k: nat)
    requires Inserts(h, ttl, init, events, i, pair, entry) && i < k <= |events|
    requires At(h, ttl, init, events, k).now < entry.expiresAt
    ensures At(h, ttl, init, events, k).store.Kept(pair) == Some(entry)
    decreases k
  {
    var before := At(h, ttl, init, events, k - 1);
    if k == i + 1 {
      AddedIsKept(h, ttl, before, events[i]);
    } else {
      FirstInsertWins(h, ttl, init, events, i, pair, entry, k - 1);
      KeptUntilItExpires(h, ttl, before, events[k - 1], pair, entry);
    }
  }

  /** How far a request has come. */
  function Stage<Q>(pc: Pc<Q>): nat {
    match pc
    case Looking(_) => 0
    case Running(_) => 1
    case Recording(_, _, _) => 2
    case Inserting(_, _, _) => 3
    case Done(_) => 4
  }

  lemma StepGrowsStage<S, Q>(h: Handler<S, Q>, ttl: int, s: State<S, Q>, e: Event<Q>, p: nat)
    requires p in s.pcs
    ensures p in Step(h, ttl, s, e).pcs && Stage(s.pcs[p]) <= Stage(Step(h, ttl, s, e).pcs[p])
    ensures s.pcs[p].Done? ==> Step(h, ttl, s, e).pcs[p] == s.pcs[p]
  {
  }

  /** Requests only move forward, and an answer is final. */
  lemma {:induction false} StagesOnlyGrow<S, Q>(
    h: Handler<S, Q>, ttl: int, init: State<S, Q>, events: seq<Event<Q>>, p: nat, i: nat, k: nat)
    requires i <= k <= |events| && p in At(h, ttl, init, events, i).pcs
    ensures p in At(h, ttl, init, events, k).pcs
    ensures Stage(At(h, ttl, init, events, i).pcs[p]) <= Stage(At(h, ttl, init, events, k).pcs[p])
    ensures At(h, ttl, init, events, i).pcs[p].Done? ==>
              At(h, ttl, init, events, k).pcs[p] == At(h, ttl, init, events, i).pcs[p]
    decreases k
  {
    if i < k {
      StagesOnlyGrow(h, ttl, init, events, p, i, k - 1);
      StepGrowsStage(h, ttl, At(h, ttl, init, events, k - 1), events[k - 1], p);
    }
  }

  /** Event `m` runs the handler for request `p`. */
  ghost predicate RunsHandler<S, Q>(
    h: Handler<S, Q>, ttl: int, init: State<S, Q>, events: seq<Event<Q>>, m: nat, p: nat)
  {
    && m < |events| && events[m].Next? && events[m].p == p
    && p in At(h, ttl, init, events, m).pcs && At(h, ttl, init, events, m).pcs[p].Running?
  }

  /** What event `m` ran for request `p`. */
  ghost function RunAt<S, Q>(
    h: Handler<S, Q>, ttl: int, init: State<S, Q>, events: seq<Event<Q>>, m: nat, p: nat): Script<S>
    requires RunsHandler(h, ttl, init, events, m, p)
  {
    var s := At(h, ttl, init, events, m);
    h(s.app, s.pcs[p].post.payload)
  }

  /** The record that belongs to a run, and only to one that did not panic and ended with 200 to 499. */
  ghost predicate Records<S>(run: Script<S>, r: Record) {
    var w := ApplyAll(run.ops);
    && !run.panics && 200 <= w.status < 500
    && r.status == w.status && r.body == Body(run.ops)
    && r.headers == if w.contentType == "" then map[] else map["Content-Type" := w.contentType]
  }

  /** The lifetime of the record began at an event after `m` and before `k`. */
  ghost predicate LifetimeFrom<S, Q>(
    h: Handler<S, Q>, ttl: int, init: State<S, Q>, events: seq<Event<Q>>, m: nat, k: nat, expiresAt: int)
  {
    exists n | m < n < k <= |events| ::
      expiresAt == At(h, ttl, init, events, n).now + if ttl > 0 then ttl else 86_400_000_000_000
  }

  /** A request whose handler ran at event `m` carries that run's record and answer from then on. */
  lemma {:induction false} RunIsCarried<S, Q>(
    h: Handler<S, Q>, ttl: int, init: State<S, Q>, events: seq<Event<Q>>, m: nat, k: nat, p: nat)
    requires RunsHandler(h, ttl, init, events, m, p) && m < k <= |events|
    ensures p in At(h, ttl, init, events, k).pcs
    ensures var (run, post) := (RunAt(h, ttl, init, events, m, p), At(h, ttl, init, events, m).pcs[p].post);
            match At(h, ttl, init, events, k).pcs[p]
            case Recording(pair, record, reply) => pair == post.pair && Records(run, record) && reply == Live(run)
            case Inserting(pair, entry, reply) =>
              && pair == post.pair && Records(run, entry.record) && reply == Live(run)
              && LifetimeFrom(h, ttl, init, events, m, k, entry.expiresAt)
            case Done(reply) => reply == Live(run)
            case _ => false
    decreases k
  {
    var before := At(h, ttl, init, events, k - 1);
    hide Live, Replay, Insert, Body;
    if m + 1 < k {
      RunIsCarried(h, ttl, init, events, m, k - 1, p);
    }
  }

  /** Whatever answer is given to a request whose handler ran is the live answer of that run. */
  lemma RunIsAnswered<S, Q>(
    h: Handler<S, Q>, ttl: int, init: State<S, Q>, events: seq<Event<Q>>, m: nat, k: nat, p: nat)
    requires RunsHandler(h, ttl, init, events, m, p) && k <= |events|
    requires p in At(h, ttl, init, events, k).pcs && At(h, ttl, init, events, k).pcs[p].Done?
    ensures At(h, ttl, init, events, k).pcs[p].reply == Live(RunAt(h, ttl, init, events, m, p))
  {
    if k <= m {
      StagesOnlyGrow(h, ttl, init, events, p, k, m);
      assert false;
    } else {
      RunIsCarried(h, ttl, init, events, m, k, p);
    }
  }

  lemma {:induction false} WriteFollowsRun<S, Q>(
    h: Handler<S, Q>, ttl: int, init: State<S, Q>, events: seq<Event<Q>>, k: nat, p: nat) returns (m: nat)
    requires k <= |events| && p !in init.pcs && p in At(h, ttl, init, events, k).pcs
    requires 2 <= Stage(At(h, ttl, init, events, k).pcs[p]) <= 3
    ensures m < k && RunsHandler(h, ttl, init, events, m, p)
    decreases k
  {
    var before := At(h, ttl, init, events, k - 1);
    if p in before.pcs && before.pcs[p].Running? {
      m := k - 1;
    } else {
      m := WriteFollowsRun(h, ttl, init, events, k - 1, p);
    }
  }

  /**
   * Every entry that comes into the store is the record of an earlier run of the handler, for the same request and on
   * its pair, which did not panic and ended with 200 to 499; its lifetime counts from between the run and the insert.
   */
  lemma InsertFollowsRun<S, Q>(
    h: Handler<S, Q>, ttl: int, init: State<S, Q>, events: seq<Event<Q>>, i: nat, pair: Pair, entry: Entry)
    returns (m: nat)
    requires Inserts(h, ttl, init, events, i, pair, entry) && events[i].p !in init.pcs
    ensures m < i && RunsHandler(h, ttl, init, events, m, events[i].p)
    ensures At(h, ttl, init, events, m).pcs[events[i].p].post.pair == pair
    ensures Records(RunAt(h, ttl, init, events, m, events[i].p), entry.record)
    ensures LifetimeFrom(h, ttl, init, events, m, i + 1, entry.expiresAt)
  {
    m := WriteFollowsRun(h, ttl, init, events, i, events[i].p);
    RunIsCarried(h, ttl, init, events, m, i, events[i].p);
  }

  lemma RanEarlier<S, Q>(
    h: Handler<S, Q>, ttl: int, init: State<S, Q>, events: seq<Event<Q>>, m: nat, m': nat, p: nat)
    requires RunsHandler(h, ttl, init, events, m, p) && m < m'
    ensures !RunsHandler(h, ttl, init, events, m', p)
  {
    if m' < |events| {
      assert Stage(At(h, ttl, init, events, m + 1).pcs[p]) >= 2;
      StagesOnlyGrow(h, ttl, init, events, p, m + 1, m');
    }
  }

  /** The handler runs for a request at no more than one event. */
  lemma HandlerRunsOnce<S, Q>(
    h: Handler<S, Q>, ttl: int, init: State<S, Q>, events: seq<Event<Q>>, m: nat, m': nat, p: nat)
    requires RunsHandler(h, ttl, init, events, m, p) && RunsHandler(h, ttl, init, events, m', p)
    ensures m == m'
  {
    if m < m' {
      RanEarlier(h, ttl, init, events, m, m', p);
    } else if m' < m {
      RanEarlier(h, ttl, init, events, m', m, p);
    }
  }

  /** Event `j` is the lookup of request `p`. */
  ghost predicate LooksUp<S, Q>(
    h: Handler<S, Q>, ttl: int, init: State<S, Q>, events: seq<Event<Q>>, j: nat, p: nat)
  {
    && j < |events| && events[j].Next? && events[j].p == p
    && p in At(h, ttl, init, events, j).pcs && At(h, ttl, init, events, j).pcs[p].Looking?
  }

  /** It failed or saw no live entry. */
  ghost predicate LookupMissed<S, Q>(
    h: Handler<S, Q>, ttl: int, init: State<S, Q>, events: seq<Event<Q>>, j: nat, p: nat)
  {
    && LooksUp(h, ttl, init, events, j, p)
    && var s := At(h, ttl, init, events, j);
       events[j].fails || s.store.Get(s.pcs[p].post.pair, s.now).None?
  }

  /**
   * The lookup decides: a request goes on to its handler exactly when it missed; otherwise it is answered from the
   * record it found, for good, and the handler runs for it at no event of the run.
   */
  lemma LookupDecides<S, Q>(h: Handler<S, Q>, ttl: int, init: State<S, Q>, events: seq<Event<Q>>, j: nat, p: nat)
    requires LooksUp(h, ttl, init, events, j, p)
    ensures var (s, t) := (At(h, ttl, init, events, j), At(h, ttl, init, events, j + 1));
            && t.app == s.app && t.store == s.store && p in t.pcs
            && (t.pcs[p] == Running(s.pcs[p].post) <==> LookupMissed(h, ttl, init, events, j, p))
    ensures !LookupMissed(h, ttl, init, events, j, p) ==>
              var s := At(h, ttl, init, events, j);
              var found := s.store.Get(s.pcs[p].post.pair, s.now).value;
              && (forall k | j < k <= |events| ::
                    && p in At(h, ttl, init, events, k).pcs
                    && At(h, ttl, init, events, k).pcs[p] == Done(Replay(found)))
              && (forall m | 0 <= m < |events| :: !RunsHandler(h, ttl, init, events, m, p))
  {
    assert At(h, ttl, init, events, j + 1) == Step(h, ttl, At(h, ttl, init, events, j), events[j]);
    if !LookupMissed(h, ttl, init, events, j, p) {
      forall k | j < k <= |events|
        ensures p in At(h, ttl, init, events, k).pcs
        ensures At(h, ttl, init, events, k).pcs[p] == At(h, ttl, init, events, j + 1).pcs[p]
      {
        StagesOnlyGrow(h, ttl, init, events, p, j + 1, k);
      }
      forall m | 0 <= m <= j
        ensures !RunsHandler(h, ttl, init, events, m, p)
      {
        if p in At(h, ttl, init, events, m).pcs {
          StagesOnlyGrow(h, ttl, init, events, p, m, j);
        }
      }
    }
  }

  /** A successful lookup that follows the insert before it expires is answered with that one record, for good. */
  lemma LookupAfterInsertReplays<S, Q>(
    h: Handler<S, Q>, ttl: int, init: State<S, Q>, events: seq<Event<Q>>, i: nat, entry: Entry, j: nat, p: nat)
    requires i < j && LooksUp(h, ttl, init, events, j, p) && !events[j].fails
    requires Inserts(h, ttl, init, events, i, At(h, ttl, init, events, j).pcs[p].post.pair, entry)
    requires At(h, ttl, init, events, j).now < entry.expiresAt
    ensures At(h, ttl, init, events, j + 1).app == At(h, ttl, init, events, j).app
    ensures forall k | j < k <= |events| ::
              && p in At(h, ttl, init, events, k).pcs
              && At(h, ttl, init, events, k).pcs[p] == Done(Replay(entry.record))
    ensures forall m | 0 <= m < |events| :: !RunsHandler(h, ttl, init, events, m, p)
  {
    var s := At(h, ttl, init, events, j);
    var pair := s.pcs[p].post.pair;
    FirstInsertWins(h, ttl, init, events, i, pair, entry, j);
    KeptUntilExpiry(s.store, pair, entry, pair, entry.record, ttl, s.now);
    LookupDecides(h, ttl, init, events, j, p);
  }

  /** What one event newly keeps for a pair is what it inserts, there or under the same cache key. */
  lemma KeptChangesByInsert<S, Q>(h: Handler<S, Q>, ttl: int, s: State<S, Q>, e: Event<Q>, pair: Pair, entry: Entry)
    requires Step(h, ttl, s, e).store.Kept(pair) == Some(entry) && s.store.Kept(pair) != Some(entry)
    ensures Added(ttl, s, e).Some? && Added(ttl, s, e).value.1 == entry
    ensures var from := Added(ttl, s, e).value.0; from == pair || (s.store.Redis? && CacheKey(from) == CacheKey(pair))
  {
    hide Live, RecordOf, Recordable, Replay, CacheKey;
    if e.Next? && e.p in s.pcs && s.pcs[e.p].Recording? {
      WriteKeptExactly(s.store, s.pcs[e.p].pair, s.pcs[e.p].record, ttl, s.now);
    }
  }

  lemma {:induction false} KindStays<S, Q>(
    h: Handler<S, Q>, ttl: int, init: State<S, Q>, events: seq<Event<Q>>, k: nat)
    requires k <= |events|
    ensures At(h, ttl, init, events, k).store.Redis? == init.store.Redis?
  {
    hide Live, RecordOf, Recordable, Replay, MySqlSet, RedisSet;
    if k > 0 {
      KindStays(h, ttl, init, events, k - 1);
    }
  }

  lemma {:induction false} KeptWasInserted<S, Q>(
    h: Handler<S, Q>, ttl: int, init: State<S, Q>, events: seq<Event<Q>>, k: nat, pair: Pair, entry: Entry)
    returns (i: nat, from: Pair)
    requires (forall p :: init.store.Kept(p).None?) && k <= |events|
    requires At(h, ttl, init, events, k).store.Kept(pair) == Some(entry)
    ensures i < k && Inserts(h, ttl, init, events, i, from, entry)
    ensures from == pair || (init.store.Redis? && CacheKey(from) == CacheKey(pair))
  {
    assert k > 0;
    var before := At(h, ttl, init, events, k - 1);
    if before.store.Kept(pair) == Some(entry) {
      i, from := KeptWasInserted(h, ttl, init, events, k - 1, pair, entry);
    } else {
      i := k - 1;
      KeptChangesByInsert(h, ttl, before, events[i], pair, entry);
      KindStays(h, ttl, init, events, i);
      from := Added(ttl, before, events[i]).value.0;
    }
  }

  /** Every replay is the record of an earlier run of the handler, on the same pair or one with the same cache key. */
  lemma ReplayFollowsRun<S, Q>(
    h: Handler<S, Q>, ttl: int, init: State<S, Q>, events: seq<Event<Q>>, j: nat, p: nat)
    returns (m: nat, q: nat, record: Record)
    requires (forall pair :: init.store.Kept(pair).None?) && init.pcs == map[]
    requires LooksUp(h, ttl, init, events, j, p) && !LookupMissed(h, ttl, init, events, j, p)
    ensures m < j && RunsHandler(h, ttl, init, events, m, q) && Records(RunAt(h, ttl, init, events, m, q), record)
    ensures var from := At(h, ttl, init, events, m).pcs[q].post.pair;
            var pair := At(h, ttl, init, events, j).pcs[p].post.pair;
            from == pair || (init.store.Redis? && CacheKey(from) == CacheKey(pair))
    ensures forall k | j < k <= |events| ::
              && p in At(h, ttl, init, events, k).pcs
              && At(h, ttl, init, events, k).pcs[p] == Done(Replay(record))
  {
    var s := At(h, ttl, init, events, j);
    var pair := s.pcs[p].post.pair;
    LookupDecides(h, ttl, init, events, j, p);
    var entry := s.store.Kept(pair).value;
    var i, from := KeptWasInserted(h, ttl, init, events, j, pair, entry);
    q := events[i].p;
    m := InsertFollowsRun(h, ttl, init, events, i, from, entry);
    record := entry.record;
  }

  /** A request whose handler is due has missed, for the same request. */
  lemma {:induction false} RunFollowsMiss<S, Q>(
    h: Handler<S, Q>, ttl: int, init: State<S, Q>, events: seq<Event<Q>>, m: nat, p: nat) returns (j: nat)
    requires m <= |events| && p !in init.pcs
    requires p in At(h, ttl, init, events, m).pcs && At(h, ttl, init, events, m).pcs[p].Running?
    ensures j < m && LookupMissed(h, ttl, init, events, j, p)
    ensures At(h, ttl, init, events, j).pcs[p].post == At(h, ttl, init, events, m).pcs[p].post
    decreases m
  {
    var before := At(h, ttl, init, events, m - 1);
    if p in before.pcs && before.pcs[p].Running? {
      j := RunFollowsMiss(h, ttl, init, events, m - 1, p);
    } else {
      j := m - 1;
    }
  }

  /** After a miss the request's next event runs the handler. */
  lemma {:induction false} MissRuns<S, Q>(
    h: Handler<S, Q>, ttl: int, init: State<S, Q>, events: seq<Event<Q>>, j: nat, m: nat, p: nat) returns (n: nat)
    requires LookupMissed(h, ttl, init, events, j, p)
    requires j < m < |events| && events[m].Next? && events[m].p == p
    ensures j < n <= m && RunsHandler(h, ttl, init, events, n, p)
    decreases m
  {
    LookupDecides(h, ttl, init, events, j, p);
    if n' :| j < n' < m && events[n'].Next? && events[n'].p == p {
      n := MissRuns(h, ttl, init, events, j, n', p);
    } else {
      n := m;
      WaitsForItsEvent(h, ttl, init, events, j + 1, m, p);
    }
  }

  lemma {:induction false} WaitsForItsEvent<S, Q>(
    h: Handler<S, Q>, ttl: int, init: State<S, Q>, events: seq<Event<Q>>, i: nat, k: nat, p: nat)
    requires i <= k <= |events| && p in At(h, ttl, init, events, i).pcs
    requires forall m | i <= m < k :: !(events[m].Next? && events[m].p == p)
    ensures p in At(h, ttl, init, events, k).pcs
    ensures At(h, ttl, init, events, k).pcs[p] == At(h, ttl, init, events, i).pcs[p]
    decreases k
  {
    if i < k {
      WaitsForItsEvent(h, ttl, init, events, i, k - 1, p);
    }
  }

  /** The handler runs for a request exactly when its own lookup missed and it went on after that. */
  lemma HandlerRunsExactly<S, Q>(h: Handler<S, Q>, ttl: int, init: State<S, Q>, events: seq<Event<Q>>, p: nat)
    requires p !in init.pcs
    ensures (exists n :: RunsHandler(h, ttl, init, events, n, p)) <==>
            (exists j, m | 0 <= j < m < |events| ::
               LookupMissed(h, ttl, init, events, j, p) && events[m].Next? && events[m].p == p)
  {
    if n: nat :| RunsHandler(h, ttl, init, events, n, p) {
      var j := RunFollowsMiss(h, ttl, init, events, n, p);
      assert events[n].Next? && events[n].p == p;
    }
    if j: nat, m: nat :|
      j < m < |events| && LookupMissed(h, ttl, init, events, j, p) && events[m].Next? && events[m].p == p
    {
      var n := MissRuns(h, ttl, init, events, j, m, p);
    }
  }

  /**
   * Once a pair has its record, the handler runs for another request on the pair only if that request's lookup came
   * before the insert, failed, or came after the expiry.
   */
  lemma SecondRunLookedEarly<S, Q>(
    h: Handler<S, Q>, ttl: int, init: State<S, Q>, events: seq<Event<Q>>, i: nat, entry: Entry, m: nat, p: nat)
    returns (j: nat)
    requires p !in init.pcs && RunsHandler(h, ttl, init, events, m, p)
    requires Inserts(h, ttl, init, events, i, At(h, ttl, init, events, m).pcs[p].post.pair, entry)
    ensures j < m && LookupMissed(h, ttl, init, events, j, p)
    ensures j < i || events[j].fails || At(h, ttl, init, events, j).now >= entry.expiresAt
  {
    j := RunFollowsMiss(h, ttl, init, events, m, p);
    if i < j && !events[j].fails && At(h, ttl, init, events, j).now < entry.expiresAt {
      LookupAfterInsertReplays(h, ttl, init, events, i, entry, j, p);
      assert false;
    }
  }

  /** So two requests whose lookups both missed both run the handler when they go on, whatever pair they are for. */
  lemma TwoMissesRunTwice<S, Q>(
    h: Handler<S, Q>, ttl: int, init: State<S, Q>, events: seq<Event<Q>>,
    j: nat, m: nat, p: nat, j': nat, m': nat, q: nat) returns (n: nat, n': nat)
    requires p != q && LookupMissed(h, ttl, init, events, j, p) && LookupMissed(h, ttl, init, events, j', q)
    requires j < m < |events| && events[m].Next? && events[m].p == p
    requires j' < m' < |events| && events[m'].Next? && events[m'].p == q
    ensures n != n' && RunsHandler(h, ttl, init, events, n, p) && RunsHandler(h, ttl, init, events, n', q)
  {
    n := MissRuns(h, ttl, init, events, j, m, p);
    n' := MissRuns(h, ttl, init, events, j', m', q);
  }

  /** Two first requests that look before either writes apply the handler twice: the side effect is duplicated. */
  lemma ConcurrentFirstRequestsBothRun<S, Q>(
    h: Handler<S, Q>, ttl: int, s: State<S, Q>, p: nat, q: nat, pair: Pair, a: Q, b: Q)
    requires p != q && p in s.pcs && q in s.pcs && s.store.Get(pair, s.now).None?
    requires s.pcs[p] == Looking(Post(pair, a)) && s.pcs[q] == Looking(Post(pair, b))
    ensures At(h, ttl, s, [Next(p, false), Next(q, false), Next(p, false), Next(q, false)], 4).app ==
            h(h(s.app, a).app, b).app
  {
    var events := [Next(p, false), Next(q, false), Next(p, false), Next(q, false)];
    assert At(h, ttl, s, events, 0) == s;
    var s1 := At(h, ttl, s, events, 1);
    assert s1 == Step(h, ttl, s, Next(p, false));
    assert s1 == s.(pcs := s.pcs[p := Running(Post(pair, a))]);
    var s2 := At(h, ttl, s, events, 2);
    assert s2 == s1.(pcs := s1.pcs[q := Running(Post(pair, b))]);
    var s3 := At(h, ttl, s, events, 3);
    assert s3.app == h(s.app, a).app && s3.pcs[q] == Running(Post(pair, b));
  }
}
