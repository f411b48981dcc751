/** Replacement of rows when the handlers interleave: exactly when one row can be replaced twice. */
module AuthLineages {
  import opened Wrappers
  import opened Decimal
  import opened Text
  import opened Jwt
  import opened RefreshTokens
  import opened JwtController
  import opened AuthInterleaving
  import Runs = AuthRuns

  /** Request `p` holds a row of its own user, and once it is past its revoke that row is revoked. */
  ghost predicate Known(s: State, p: nat)
    requires Holds(s, p).Some?
  {
    var id := Holds(s, p).value;
    && id < |s.rows| && s.rows[id].userId == s.pcs[p].user
    && (s.pcs[p].Issuing? ==> s.rows[id].revokedAt.Some?)
  }

  ghost predicate HoldersKnown(s: State) {
    && |s.replaced| == |s.rows|
    && forall p | Holds(s, p).Some? :: Known(s, p)
  }

  ghost predicate OneHolder(s: State, id: nat) {
    forall p, q | Holds(s, p) == Some(id) && Holds(s, q) == Some(id) :: p == q
  }

  /** The event is a lookup that finds row `id` while another request is between finding and revoking it. */
  ghost predicate Overlaps(c: Config, s: State, e: Event, id: nat) {
    && LooksUp(c, s, e, e.p, id)
    && exists p | p in s.pcs :: p != e.p && s.pcs[p].Exchanging? && s.pcs[p].id == id
  }

  ghost predicate NoOverlap(c: Config, init: State, events: seq<Event>, k: nat, id: nat)
    requires k <= |events|
  {
    forall j | 0 <= j < k :: !Overlaps(c, At(c, init, events, j), events[j], id)
  }

  ghost predicate OneHolderThroughout(c: Config, init: State, events: seq<Event>, k: nat, id: nat)
    requires k <= |events|
  {
    forall j | 0 <= j <= k :: OneHolder(At(c, init, events, j), id)
  }

  lemma HistoryKeepsSize(c: Config, s: State, e: Event)
    requires |s.replaced| == |s.rows|
    ensures |Step(c, s, e).replaced| == |Step(c, s, e).rows|
  {
  }

  lemma StepKeepsKnown(c: Config, s: State, e: Event)
    requires Sound(c.crypto) && WellFormed(c, s.rows) && HoldersKnown(s)
    ensures HoldersKnown(Step(c, s, e))
  {
    hide WellFormed, Issue, Compromise, Entry;
    var t := Step(c, s, e);
    StepKeepsForm(c, s, e);
    HistoryKeepsSize(c, s, e);
    forall p | Holds(t, p).Some?
      ensures Known(t, p)
    {
      HeldByLookup(c, s, e, p);
      assert Holds(s, p) == Holds(t, p) ==> Known(s, p);
    }
  }

  /** A step leaves a row with a single holder exactly when it is no overlapping lookup. */
  lemma OneHolderStep(c: Config, s: State, e: Event, id: nat)
    requires HoldersKnown(s) && OneHolder(s, id)
    ensures OneHolder(Step(c, s, e), id) <==> !Overlaps(c, s, e, id)
  {
    hide Issue, Compromise, Entry;
    var t := Step(c, s, e);
    if Overlaps(c, s, e, id) {
      var p :| p in s.pcs && p != e.p && s.pcs[p].Exchanging? && s.pcs[p].id == id;
      assert Holds(t, p) == Some(id) && Holds(t, e.p) == Some(id);
    } else {
      forall p, q | Holds(t, p) == Some(id) && Holds(t, q) == Some(id)
        ensures p == q
      {
        HeldByLookup(c, s, e, p);
        HeldByLookup(c, s, e, q);
      }
    }
  }

  lemma {:induction false} AlwaysKnown(c: Config, init: State, events: seq<Event>, k: nat)
    requires Sound(c.crypto) && WellFormed(c, init.rows) && HoldersKnown(init) && k <= |events|
    ensures WellFormed(c, At(c, init, events, k).rows) && HoldersKnown(At(c, init, events, k))
  {
    hide Step, WellFormed, HoldersKnown;
    AlwaysWellFormed(c, init, events, k);
    if k > 0 {
      AlwaysKnown(c, init, events, k - 1);
      StepKeepsKnown(c, At(c, init, events, k - 1), events[k - 1]);
    }
  }

  /** A row has at most one holder throughout a run exactly when no lookup of it overlaps another's exchange. */
  lemma {:induction false} OneHolderExactly(c: Config, init: State, events: seq<Event>, k: nat, id: nat)
    requires Sound(c.crypto) && WellFormed(c, init.rows) && HoldersKnown(init) && OneHolder(init, id) && k <= |events|
    ensures OneHolderThroughout(c, init, events, k, id) <==> NoOverlap(c, init, events, k, id)
  {
    hide Step, WellFormed, HoldersKnown, OneHolder, Overlaps;
    if k > 0 {
      OneHolderExactly(c, init, events, k - 1, id);
      AlwaysKnown(c, init, events, k - 1);
      var before := At(c, init, events, k - 1);
      if OneHolder(before, id) {
        OneHolderStep(c, before, events[k - 1], id);
      }
      assert OneHolderThroughout(c, init, events, k, id) <==>
             OneHolderThroughout(c, init, events, k - 1, id) && OneHolder(At(c, init, events, k), id);
      assert NoOverlap(c, init, events, k, id) <==>
             NoOverlap(c, init, events, k - 1, id) && !Overlaps(c, before, events[k - 1], id);
    }
  }

  /** The row is revoked and nobody is about to replace it. */
  ghost predicate Spent(s: State, id: nat) {
    && id < |s.rows| && s.rows[id].revokedAt.Some?
    && forall p :: Holds(s, p) != Some(id)
  }

  lemma StepKeepsSpent(c: Config, s: State, e: Event, id: nat)
    requires Sound(c.crypto) && WellFormed(c, s.rows) && Spent(s, id)
    ensures Spent(Step(c, s, e), id)
  {
    var t := Step(c, s, e);
    StepKeepsForm(c, s, e);
    hide Step, WellFormed;
    forall p
      ensures Holds(t, p) != Some(id)
    {
      if Holds(t, p) == Some(id) {
        HeldByLookup(c, s, e, p);
      }
    }
  }

  lemma {:induction false} SpentForever(c: Config, init: State, events: seq<Event>, i: nat, k: nat, id: nat)
    requires Sound(c.crypto) && WellFormed(c, init.rows) && i <= k <= |events| && Spent(At(c, init, events, i), id)
    ensures Spent(At(c, init, events, k), id)
    decreases k
  {
    hide Step, WellFormed, Spent;
    if i < k {
      SpentForever(c, init, events, i, k - 1, id);
      AlwaysWellFormed(c, init, events, k - 1);
      StepKeepsSpent(c, At(c, init, events, k - 1), events[k - 1], id);
    }
  }

  lemma ExchangeSpends(c: Config, init: State, events: seq<Event>, k: nat, p: nat, id: nat)
    requires Sound(c.crypto) && WellFormed(c, init.rows) && Exchanges(c, init, events, k, p, id)
    requires HoldersKnown(At(c, init, events, k)) && OneHolder(At(c, init, events, k), id)
    ensures Spent(At(c, init, events, k + 1), id)
  {
    hide WellFormed, Issue;
    var (s, t) := (At(c, init, events, k), At(c, init, events, k + 1));
    AlwaysWellFormed(c, init, events, k);
    StepKeepsForm(c, s, events[k]);
    assert t == Step(c, s, events[k]) && Known(s, p) && s.pcs[p].Issuing?;
    forall q
      ensures Holds(t, q) != Some(id)
    {
      assert q != p ==> Holds(t, q) == Holds(s, q);
    }
  }

  lemma ExchangedOnce(c: Config, init: State, events: seq<Event>, k: nat, p: nat, m: nat, q: nat, id: nat)
    requires Sound(c.crypto) && WellFormed(c, init.rows) && HoldersKnown(init) && OneHolder(init, id)
    requires NoOverlap(c, init, events, |events|, id)
    requires k < m < |events| && Exchanges(c, init, events, k, p, id)
    ensures !Exchanges(c, init, events, m, q, id)
  {
    hide Step, WellFormed, HoldersKnown, OneHolder, NoOverlap, Overlaps, At, Exchanges;
    OneHolderExactly(c, init, events, |events|, id);
    AlwaysKnown(c, init, events, k);
    ExchangeSpends(c, init, events, k, p, id);
    SpentForever(c, init, events, k + 1, m, id);
    SpentIsNotExchanged(c, init, events, m, q, id);
  }

  lemma SpentIsNotExchanged(c: Config, init: State, events: seq<Event>, m: nat, q: nat, id: nat)
    requires m < |events| && Spent(At(c, init, events, m), id)
    ensures !Exchanges(c, init, events, m, q, id)
  {
    assert Holds(At(c, init, events, m), q) != Some(id);
  }

  /** Without an overlapping lookup a row is exchanged at most once. */
  lemma OneExchange(c: Config, init: State, events: seq<Event>, k: nat, p: nat, m: nat, q: nat, id: nat)
    requires Sound(c.crypto) && WellFormed(c, init.rows) && HoldersKnown(init) && OneHolder(init, id)
    requires NoOverlap(c, init, events, |events|, id)
    requires Exchanges(c, init, events, k, p, id) && Exchanges(c, init, events, m, q, id)
    ensures k == m && p == q
  {
    if k < m {
      ExchangedOnce(c, init, events, k, p, m, q, id);
    } else if m < k {
      ExchangedOnce(c, init, events, m, q, k, p, id);
    }
  }

  /** One unrevoked row per lineage, and every held row has one holder and is the newest of its lineage. */
  ghost predicate Good(s: State) {
    && Runs.Linked(Past(s)) && Runs.OneActivePerLineage(Past(s)) && HoldersKnown(s)
    && (forall id :: OneHolder(s, id))
    && (forall p | Holds(s, p).Some? :: Runs.Newest(Past(s), Holds(s, p).value))
  }

  /** What a call stores is what a lineage may be extended with. */
  lemma CallFollows(c: Config, s: State, p: nat, w: World)
    requires Sound(c.crypto) && WellFormed(c, s.rows) && Good(s) && p in s.pcs
    ensures Runs.Follows(Past(s), Call(c, s.rows, s.pcs[p], w).0, Held(s.pcs[p]))
  {
    hide Runs.Linked, Runs.OneActivePerLineage, Runs.Newest, OneHolder;
    CallKeepsForm(c, s.rows, s.pcs[p], w);
    assert Holds(s, p).Some? ==> Known(s, p);
    if s.pcs[p].Issuing? {
      IssueOutcome(c, s.rows, s.pcs[p].user, w);
    }
  }

  lemma FoundIsNewest(c: Config, s: State, e: Event, p: nat, id: nat)
    requires Good(s) && LooksUp(c, s, e, p, id)
    ensures Runs.Newest(Past(s), id)
  {
  }

  /** Only an insert adds a row, and it ends its request. */
  lemma GrowthEndsRequest(c: Config, s: State, e: Event)
    requires |Step(c, s, e).rows| > |s.rows|
    ensures e.Next? && e.p in s.pcs && s.pcs[e.p].Issuing? && Holds(Step(c, s, e), e.p).None?
  {
  }

  /** A held row stays the newest of its lineage: only its own holder could add to that lineage. */
  lemma HeldStaysNewest(c: Config, s: State, e: Event, p: nat)
    requires Sound(c.crypto) && WellFormed(c, s.rows) && Good(s)
    requires Holds(s, p).Some? && Holds(Step(c, s, e), p) == Holds(s, p)
    ensures Runs.Newest(Past(Step(c, s, e)), Holds(s, p).value)
  {
    hide WellFormed, Call, Runs.Linked, Runs.OneActivePerLineage, Runs.Newest, Runs.Follows;
    assert Known(s, p) && OneHolder(s, Holds(s, p).value);
    if e.Next? && e.p in s.pcs {
      CallFollows(c, s, e.p, e.w);
      var after := Call(c, s.rows, s.pcs[e.p], e.w).0;
      if |after| > |s.rows| {
        GrowthEndsRequest(c, s, e);
        assert Holds(s, e.p) == Held(s.pcs[e.p]) && e.p != p;
        Runs.NewestUntilReplaced(Past(s), after, Held(s.pcs[e.p]), Holds(s, p).value);
      } else {
        SameHistorySize(s, after, Held(s.pcs[e.p]), Holds(s, p).value);
      }
    }
  }

  lemma SameHistorySize(s: State, after: Table, used: Option<nat>, id: nat)
    requires Runs.Newest(Past(s), id) && |after| <= |s.rows|
    ensures Runs.Newest(Runs.Extend(Past(s), after, used), id)
  {
  }

  /** The lineage property survives every event but an overlapping lookup. */
  lemma StepKeepsGood(c: Config, s: State, e: Event)
    requires Sound(c.crypto) && WellFormed(c, s.rows) && Good(s)
    requires forall id :: !Overlaps(c, s, e, id)
    ensures Good(Step(c, s, e))
  {
    hide WellFormed, Call, Overlaps, Runs.Linked, Runs.OneActivePerLineage, Runs.Newest, Runs.Follows, Known;
    var t := Step(c, s, e);
    StepKeepsKnown(c, s, e);
    if e.Next? && e.p in s.pcs {
      CallFollows(c, s, e.p, e.w);
      Runs.ExtendKeepsLineages(Past(s), Call(c, s.rows, s.pcs[e.p], e.w).0, Held(s.pcs[e.p]));
    }
    forall id
      ensures OneHolder(t, id)
    {
      OneHolderStep(c, s, e, id);
    }
    forall p | Holds(t, p).Some?
      ensures Runs.Newest(Past(t), Holds(t, p).value)
    {
      HeldByLookup(c, s, e, p);
      if Holds(s, p) == Holds(t, p) {
        HeldStaysNewest(c, s, e, p);
      } else {
        FoundIsNewest(c, s, e, p, Holds(t, p).value);
        LookupKeepsHistory(c, s, e, p, Holds(t, p).value);
      }
    }
  }

  lemma LookupKeepsHistory(c: Config, s: State, e: Event, p: nat, id: nat)
    requires LooksUp(c, s, e, p, id)
    ensures Past(Step(c, s, e)) == Past(s)
  {
  }

  ghost predicate NoOverlaps(c: Config, init: State, events: seq<Event>, k: nat)
    requires k <= |events|
  {
    forall id :: NoOverlap(c, init, events, k, id)
  }

  /** Without overlapping lookups every reachable state has one unrevoked row per lineage, its newest. */
  lemma {:induction false} NoOverlapsKeepGood(c: Config, init: State, events: seq<Event>, k: nat)
    requires Sound(c.crypto) && WellFormed(c, init.rows) && Good(init) && k <= |events|
    requires NoOverlaps(c, init, events, k)
    ensures WellFormed(c, At(c, init, events, k).rows) && Good(At(c, init, events, k))
  {
    hide Step, WellFormed, Good, Overlaps;
    AlwaysWellFormed(c, init, events, k);
    if k > 0 {
      var (j, before, e) := (k - 1, At(c, init, events, k - 1), events[k - 1]);
      forall id
        ensures NoOverlap(c, init, events, j, id) && !Overlaps(c, before, e, id)
      {
        assert NoOverlap(c, init, events, k, id);
      }
      NoOverlapsKeepGood(c, init, events, j);
      StepKeepsGood(c, before, e);
    }
  }

  /** Only requests that hold a row at `s` make their calls. */
  ghost predicate OnlyHolders(s: State, later: seq<Event>) {
    forall m | 0 <= m < |later| :: later[m].Next? && Holds(s, later[m].p).Some?
  }

  lemma {:induction false} PastLookup(c: Config, s: State, later: seq<Event>, k: nat, p: nat)
    requires Holds(s, p).Some? && k <= |later|
    ensures var t := At(c, s, later, k);
            p in t.pcs && (t.pcs[p].Exchanging? || t.pcs[p].Issuing? || t.pcs[p].Done?)
  {
    hide Issue, Revoke, Compromise, FindActive, Entry;
    if k > 0 {
      PastLookup(c, s, later, k - 1, p);
    }
  }

  lemma HoldersDoNotOverlap(c: Config, s: State, later: seq<Event>)
    requires OnlyHolders(s, later)
    ensures NoOverlaps(c, s, later, |later|)
  {
    hide Step;
    forall id, j | 0 <= j < |later|
      ensures !Overlaps(c, At(c, s, later, j), later[j], id)
    {
      PastLookup(c, s, later, j, later[j].p);
    }
  }

  /** Request `p` is on its way to replace row `id`, or has replaced it. */
  ghost predicate Underway(s: State, p: nat, id: nat, user: UserId) {
    && p in s.pcs
    && match s.pcs[p]
       case Exchanging(i, u) => i == id && u == user
       case Issuing(origin, u) => origin == Some(id) && u == user
       case Done(reply) => reply.RefreshOk?
       case _ => false
  }

  function Stored(s: State, p: nat): nat {
    if p in s.pcs && s.pcs[p].Done? then 1 else 0
  }

  /** Two holders of row `id` on their way from `s` to `t`: each stores one row, an active one that replaces `id`. */
  ghost predicate Midway(
    c: Config, s: State, t: State, id: nat, user: UserId, p: nat, w: World, q: nat, v: World)
  {
    var n := |s.rows|;
    && WellFormed(c, t.rows) && Underway(t, p, id, user) && Underway(t, q, id, user)
    && |t.rows| == |t.replaced| == n + Stored(t, p) + Stored(t, q)
    && s.replaced <= t.replaced && (forall i | n <= i < |t.replaced| :: t.replaced[i] == Some(id))
    && (forall i | 0 <= i < n :: t.rows[i].userId == s.rows[i].userId && t.rows[i].expiresAt == s.rows[i].expiresAt)
    && (forall i | n <= i < |t.rows| ::
          && Active(t.rows, i) && t.rows[i].userId == user
          && (t.rows[i].expiresAt == RefreshExpiry(c, w) ==> t.pcs[p].Done?)
          && (t.rows[i].expiresAt == RefreshExpiry(c, v) ==> t.pcs[q].Done?)
          && t.rows[i].expiresAt in {RefreshExpiry(c, w), RefreshExpiry(c, v)})
  }

  /** Neither a fault nor a taken second stands in the way of a request in world `w`, with another one in `v`. */
  ghost predicate Unhindered(c: Config, s: State, user: UserId, w: World, v: World) {
    && NoFaults(w) && SecondFree(s.rows, user, RefreshExpiry(c, w))
    && NumericDate(RefreshExpiry(c, w)) != NumericDate(RefreshExpiry(c, v))
  }

  function Remaining(pc: Pc): nat {
    match pc
    case Exchanging(_, _) => 2
    case Issuing(_, _) => 1
    case _ => 0
  }

  /** After this many of its calls, of which two are enough. */
  ghost predicate Progress(t: State, p: nat, calls: nat) {
    p in t.pcs && (Remaining(t.pcs[p]) == 0 || Remaining(t.pcs[p]) + calls <= 2)
  }

  lemma MidwayRevokes(c: Config, s: State, t: State, id: nat, user: UserId, p: nat, w: World, q: nat, v: World)
    requires Sound(c.crypto) && id < |s.rows| && p != q && NoFaults(w)
    requires Midway(c, s, t, id, user, p, w, q, v) && t.pcs[p].Exchanging?
    ensures var u := Step(c, t, Next(p, w));
            Midway(c, s, u, id, user, p, w, q, v) && u.pcs == t.pcs[p := Issuing(Some(id), user)]
  {
    hide WellFormed, SecondFree, Step;
    ExchangingRevokes(c, t, p, w);
  }

  lemma MidwayStores(c: Config, s: State, t: State, id: nat, user: UserId, p: nat, w: World, q: nat, v: World)
    requires Sound(c.crypto) && id < |s.rows| && p != q && Unhindered(c, s, user, w, v)
    requires Midway(c, s, t, id, user, p, w, q, v) && t.pcs[p].Issuing?
    ensures var u := Step(c, t, Next(p, w));
            Midway(c, s, u, id, user, p, w, q, v) && u.pcs == t.pcs[p := u.pcs[p]] && u.pcs[p].Done?
  {
    hide WellFormed, Step, RefreshExpiry;
    IssuingStores(c, t, p, w);
    var u := Step(c, t, Next(p, w));
    assert forall i | 0 <= i < |t.rows| :: u.rows[i] == u.rows[..|t.rows|][i];
  }

  /** The roles are symmetric. */
  lemma MidwayStep(c: Config, s: State, t: State, id: nat, user: UserId, p: nat, w: World, q: nat, v: World)
    requires Sound(c.crypto) && id < |s.rows| && p != q
    requires Midway(c, s, t, id, user, p, w, q, v) && Unhindered(c, s, user, w, v)
    ensures var u := Step(c, t, Next(p, w));
            && Midway(c, s, u, id, user, p, w, q, v) && Midway(c, s, u, id, user, q, v, p, w)
            && (forall n: nat | Progress(t, p, n) :: Progress(u, p, n + 1))
            && (forall n: nat | Progress(t, q, n) :: Progress(u, q, n))
  {
    if t.pcs[p].Exchanging? {
      MidwayRevokes(c, s, t, id, user, p, w, q, v);
    } else if t.pcs[p].Issuing? {
      MidwayStores(c, s, t, id, user, p, w, q, v);
    }
  }

  /** How many of the first `k` events are calls of request `p`. */
  function Calls(later: seq<Event>, p: nat, k: nat): nat
    requires k <= |later|
  {
    if k == 0 then 0 else Calls(later, p, k - 1) + if later[k - 1].Next? && later[k - 1].p == p then 1 else 0
  }

  /** The events are the calls of two requests in any order. */
  ghost predicate Schedule(later: seq<Event>, p: nat, w: World, q: nat, v: World) {
    forall m | 0 <= m < |later| :: later[m] == Next(p, w) || later[m] == Next(q, v)
  }

  lemma {:induction false} MidwayRun(
    c: Config, s: State, id: nat, user: UserId, p: nat, w: World, q: nat, v: World, later: seq<Event>, k: nat)
    requires Sound(c.crypto) && id < |s.rows| && p != q && k <= |later| && Schedule(later, p, w, q, v)
    requires Midway(c, s, s, id, user, p, w, q, v) && Midway(c, s, s, id, user, q, v, p, w)
    requires Progress(s, p, 0) && Progress(s, q, 0)
    requires Unhindered(c, s, user, w, v) && Unhindered(c, s, user, v, w)
    ensures var t := At(c, s, later, k);
            && Midway(c, s, t, id, user, p, w, q, v) && Midway(c, s, t, id, user, q, v, p, w)
            && Progress(t, p, Calls(later, p, k)) && Progress(t, q, Calls(later, q, k))
  {
    hide Midway, Step, Unhindered, Progress;
    if k > 0 {
      MidwayRun(c, s, id, user, p, w, q, v, later, k - 1);
      var before := At(c, s, later, k - 1);
      if later[k - 1] == Next(p, w) {
        MidwayStep(c, s, before, id, user, p, w, q, v);
      } else {
        MidwayStep(c, s, before, id, user, q, v, p, w);
      }
    }
  }

  /** Two requests hold the same row. */
  ghost predicate Share(s: State, p: nat, q: nat, id: nat) {
    p != q && Holds(s, p) == Some(id) && Holds(s, q) == Some(id)
  }

  lemma SharedStart(c: Config, s: State, p: nat, w: World, q: nat, v: World, id: nat)
    requires WellFormed(c, s.rows) && HoldersKnown(s) && Share(s, p, q, id)
    ensures id < |s.rows| && Progress(s, p, 0) && Progress(s, q, 0)
    ensures Midway(c, s, s, id, s.rows[id].userId, p, w, q, v) && Midway(c, s, s, id, s.rows[id].userId, q, v, p, w)
  {
    hide WellFormed, RefreshExpiry;
    assert Known(s, p) && Known(s, q);
  }

  lemma SharedEnd(
    c: Config, s: State, t: State, id: nat, user: UserId, p: nat, w: World, q: nat, v: World, calls: nat, calls': nat)
    requires id < |s.rows| == |s.replaced| && calls >= 2 && calls' >= 2
    requires Midway(c, s, t, id, user, p, w, q, v) && Progress(t, p, calls) && Progress(t, q, calls')
    ensures t.pcs[p].Done? && t.pcs[q].Done? && t.replaced == s.replaced + [Some(id), Some(id)]
    ensures !Runs.OneActivePerLineage(Past(t))
  {
    hide WellFormed, RefreshExpiry;
    var n := |s.rows|;
    assert t.replaced[n] == t.replaced[n + 1] == Some(id);
    assert Runs.Root(t.replaced, n) == Runs.Root(t.replaced, id) == Runs.Root(t.replaced, n + 1);
  }

  /**
   * Two requests that hold the same row both complete their exchange, in whatever order their calls come: the one row
   * is replaced by two, both active and of its lineage.
   */
  lemma SharedRowSplits(
    c: Config, s: State, p: nat, w: World, q: nat, v: World, id: nat, later: seq<Event>)
    requires Sound(c.crypto) && WellFormed(c, s.rows) && HoldersKnown(s)
    requires Share(s, p, q, id)
    requires Unhindered(c, s, s.rows[id].userId, w, v) && Unhindered(c, s, s.rows[id].userId, v, w)
    requires Schedule(later, p, w, q, v) && Calls(later, p, |later|) >= 2 && Calls(later, q, |later|) >= 2
    ensures var (t, n) := (At(c, s, later, |later|), |s.rows|);
            && p in t.pcs && t.pcs[p].Done? && t.pcs[p].reply.RefreshOk?
            && q in t.pcs && t.pcs[q].Done? && t.pcs[q].reply.RefreshOk?
            && |t.rows| == n + 2 && Active(t.rows, n) && Active(t.rows, n + 1)
            && t.rows[n].userId == t.rows[n + 1].userId == s.rows[id].userId
            && t.replaced == s.replaced + [Some(id), Some(id)]
            && !Runs.OneActivePerLineage(Past(t))
  {
    hide WellFormed, SecondFree, RefreshExpiry, Schedule, Unhindered, Progress, Runs.OneActivePerLineage;
    SharedStart(c, s, p, w, q, v, id);
    MidwayRun(c, s, id, s.rows[id].userId, p, w, q, v, later, |later|);
    var t := At(c, s, later, |later|);
    SharedEnd(c, s, t, id, s.rows[id].userId, p, w, q, v, Calls(later, p, |later|), Calls(later, q, |later|));
  }

  /** However the exchanges in progress are completed or fail, each lineage has one unrevoked row, its newest. */
  ghost predicate Safe(c: Config, s: State) {
    forall later | OnlyHolders(s, later) :: Runs.OneActivePerLineage(Past(At(c, s, later, |later|)))
  }

  lemma GoodIsSafe(c: Config, s: State)
    requires Sound(c.crypto) && WellFormed(c, s.rows) && Good(s)
    ensures Safe(c, s)
  {
    hide WellFormed, Runs.OneActivePerLineage, Runs.Linked;
    forall later | OnlyHolders(s, later)
      ensures Runs.OneActivePerLineage(Past(At(c, s, later, |later|)))
    {
      HoldersDoNotOverlap(c, s, later);
      NoOverlapsKeepGood(c, s, later, |later|);
    }
  }

  /** One request makes its two calls, and then the other. */
  function InTurn(p: nat, w: World, q: nat, v: World): seq<Event> {
    [Next(p, w), Next(p, w), Next(q, v), Next(q, v)]
  }

  lemma InTurnCalls(p: nat, w: World, q: nat, v: World)
    requires p != q
    ensures Schedule(InTurn(p, w, q, v), p, w, q, v)
    ensures Calls(InTurn(p, w, q, v), p, 4) == 2 && Calls(InTurn(p, w, q, v), q, 4) == 2
  {
    var later := InTurn(p, w, q, v);
    assert Calls(later, p, 0) == Calls(later, q, 0) == 0;
    assert Calls(later, p, 1) == 1 && Calls(later, q, 1) == 0;
    assert Calls(later, p, 2) == 2 && Calls(later, q, 2) == 0;
    assert Calls(later, p, 3) == 2 && Calls(later, q, 3) == 1;
  }

  lemma SharedIsUnsafe(c: Config, s: State, p: nat, q: nat, id: nat)
    requires Sound(c.crypto) && WellFormed(c, s.rows) && HoldersKnown(s) && Share(s, p, q, id)
    ensures !Safe(c, s)
  {
    hide WellFormed, SecondFree, RefreshExpiry, Runs.OneActivePerLineage;
    var (w, v) := (Ahead(c, s.rows, 1), Ahead(c, s.rows, 2));
    var later := InTurn(p, w, q, v);
    assert Known(s, p);
    InTurnCalls(p, w, q, v);
    SharedRowSplits(c, s, p, w, q, v, id, later);
    assert OnlyHolders(s, later);
  }

  lemma OverlapShares(c: Config, s: State, e: Event, id: nat) returns (p: nat)
    requires Overlaps(c, s, e, id)
    ensures Share(Step(c, s, e), p, e.p, id)
  {
    p :| p in s.pcs && p != e.p && s.pcs[p].Exchanging? && s.pcs[p].id == id;
  }

  /**
   * The exact condition: throughout a run the lineages are safe exactly when no lookup finds a row that another request
   * has found and not yet revoked.
   */
  lemma LineagesSafeExactly(c: Config, init: State, events: seq<Event>)
    requires Sound(c.crypto) && WellFormed(c, init.rows) && Good(init)
    ensures NoOverlaps(c, init, events, |events|) <==>
            forall k | 0 <= k <= |events| :: Safe(c, At(c, init, events, k))
  {
    hide Step, WellFormed, Good, Safe, Overlaps, HoldersKnown;
    if NoOverlaps(c, init, events, |events|) {
      forall k | 0 <= k <= |events|
        ensures Safe(c, At(c, init, events, k))
      {
        assert forall id :: NoOverlap(c, init, events, |events|, id) ==> NoOverlap(c, init, events, k, id);
        NoOverlapsKeepGood(c, init, events, k);
        GoodIsSafe(c, At(c, init, events, k));
      }
    } else {
      var id :| !NoOverlap(c, init, events, |events|, id);
      var j :| 0 <= j < |events| && Overlaps(c, At(c, init, events, j), events[j], id);
      assert HoldersKnown(init) by { GoodIsKnown(init); }
      AlwaysKnown(c, init, events, j + 1);
      var p := OverlapShares(c, At(c, init, events, j), events[j], id);
      SharedIsUnsafe(c, At(c, init, events, j + 1), p, events[j].p, id);
    }
  }

  lemma GoodIsKnown(s: State)
    requires Good(s)
    ensures HoldersKnown(s)
  {
  }

  /** The empty system, from which every run starts. */
  lemma EmptyIsGood(c: Config)
    ensures WellFormed(c, EMPTY.rows) && Good(EMPTY)
  {
  }

  /** The row of the first login, by user 1 at instant 0. */
  function FirstRow(c: Config): Row {
    Row(1, c.crypto.hash(TokenFor(c, 1, c.refreshHours * HOUR)), c.refreshHours * HOUR, None)
  }

  lemma AtSnoc(c: Config, events: seq<Event>, e: Event)
    ensures At(c, EMPTY, events + [e], |events| + 1) == Step(c, At(c, EMPTY, events, |events|), e)
  {
    AtPrefix(c, EMPTY, events, [e], |events|);
  }

  lemma FirstLogin(c: Config) returns (events: seq<Event>)
    ensures var s := At(c, EMPTY, events, |events|);
            s.rows == [FirstRow(c)] && s.replaced == [None] && s.pcs.Keys == {0}
  {
    var login := Runs.LoginRequest(LoginData(true, "a@b.c", "secret", Some(1), true), Calm(0));
    AtSnoc(c, [], Begin(0, login));
    events := [] + [Begin(0, login)];
    assert At(c, EMPTY, events, 1) == State([], [], map[0 := Issuing(None, 1)]);
    AtSnoc(c, events, Next(0, Calm(0)));
    events := events + [Next(0, Calm(0))];
  }

  /** The header that presents the first row's token, one second later. */
  function FirstToken(c: Config): Runs.Request {
    Runs.RefreshRequest("Bearer " + TokenFor(c, 1, c.refreshHours * HOUR), Calm(SECOND))
  }

  lemma FirstTokenFinds(c: Config)
    requires Sound(c.crypto) && c.refreshHours >= 1 && Trimmed(TokenFor(c, 1, c.refreshHours * HOUR))
    ensures Entry(c, FirstToken(c)).Finding?
    ensures Call(c, [FirstRow(c)], Entry(c, FirstToken(c)), Calm(SECOND)) == ([FirstRow(c)], Exchanging(0, 1))
  {
    var text := TokenFor(c, 1, c.refreshHours * HOUR);
    var claims := Claims(Print(1), Some(NumericDate(c.refreshHours * HOUR)));
    BearerRoundTrip(text);
    assert c.crypto.open(c.crypto.sign(c.refreshKey, claims), c.refreshKey) == Some(claims);
    assert Entry(c, FirstToken(c)) == Finding(text, claims.id);
    assert FindHash([FirstRow(c)], c.crypto.hash(text)) == Some(0);
  }

  /** A request that presents the first row's token comes to hold that row. */
  lemma HolderArrives(c: Config, events: seq<Event>, p: nat) returns (more: seq<Event>)
    requires Sound(c.crypto) && c.refreshHours >= 1 && Trimmed(TokenFor(c, 1, c.refreshHours * HOUR))
    requires At(c, EMPTY, events, |events|).rows == [FirstRow(c)] && p !in At(c, EMPTY, events, |events|).pcs
    ensures var s := At(c, EMPTY, events, |events|);
            At(c, EMPTY, more, |more|) == s.(pcs := s.pcs[p := Exchanging(0, 1)])
  {
    hide At, Entry, Call, FirstToken, FirstRow;
    FirstTokenFinds(c);
    AtSnoc(c, events, Begin(p, FirstToken(c)));
    more := events + [Begin(p, FirstToken(c))];
    AtSnoc(c, more, Next(p, Calm(SECOND)));
    more := more + [Next(p, Calm(SECOND))];
  }

  lemma TwoHoldersArrive(c: Config) returns (events: seq<Event>)
    requires Sound(c.crypto) && c.refreshHours >= 1 && Trimmed(TokenFor(c, 1, c.refreshHours * HOUR))
    ensures var s := At(c, EMPTY, events, |events|);
            && s.rows == [FirstRow(c)] && s.replaced == [None] && Share(s, 1, 2, 0)
            && WellFormed(c, s.rows) && HoldersKnown(s)
  {
    hide WellFormed, HoldersKnown, FirstRow;
    events := FirstLogin(c);
    events := HolderArrives(c, events, 1);
    events := HolderArrives(c, events, 2);
    EmptyIsGood(c);
    GoodIsKnown(EMPTY);
    AlwaysKnown(c, EMPTY, events, |events|);
  }

  lemma LaterIsUnhindered(c: Config, s: State, at: int, other: int)
    requires s.rows == [FirstRow(c)] && at in {1, 2} && other in {1, 2} && at != other
    ensures Unhindered(c, s, 1, Calm(at * SECOND), Calm(other * SECOND))
  {
  }

  /** One login, and then two requests that both exchanged its row: one lineage has two active rows. */
  ghost predicate Split(s: State) {
    && |s.rows| == 3 && Active(s.rows, 1) && Active(s.rows, 2) && s.rows[1].userId == s.rows[2].userId == 1
    && s.replaced == [None, Some(0), Some(0)]
    && 1 in s.pcs && s.pcs[1].Done? && s.pcs[1].reply.RefreshOk?
    && 2 in s.pcs && s.pcs[2].Done? && s.pcs[2].reply.RefreshOk?
  }

  /** Such a state is reached from the empty system without any fault. */
  lemma LineageCanSplit(c: Config)
    requires Sound(c.crypto) && c.refreshHours >= 1 && Trimmed(TokenFor(c, 1, c.refreshHours * HOUR))
    ensures exists events :: Split(At(c, EMPTY, events, |events|))
  {
    hide WellFormed, HoldersKnown, At, Share, Unhindered, Schedule, Runs.OneActivePerLineage;
    var events := TwoHoldersArrive(c);
    var s := At(c, EMPTY, events, |events|);
    var (w, v) := (Calm(1 * SECOND), Calm(2 * SECOND));
    LaterIsUnhindered(c, s, 1, 2);
    LaterIsUnhindered(c, s, 2, 1);
    InTurnCalls(1, w, 2, v);
    SharedRowSplits(c, s, 1, w, 2, v, 0, InTurn(1, w, 2, v));
    AtSplit(c, EMPTY, events, InTurn(1, w, 2, v), 4);
    events := events + InTurn(1, w, 2, v);
    assert Split(At(c, EMPTY, events, |events|));
  }
}
