/**
 * The same handlers with their database calls as separate steps, interleaved at will: no transaction wraps the
 * lookup, the revocation and the insert of a refresh.
 */
module AuthInterleaving {
  import opened Wrappers
  import opened Decimal
  import opened Jwt
  import opened RefreshTokens
  import opened JwtController
  import opened AuthRuns
  import opened IssueRate

  /** Where a request stands: the database call it makes next, or its answer. */
  datatype Pc =
    | Finding(text: string, claimedId: string)
    | Exchanging(id: nat, user: UserId)
    | Compromised(claimedId: string)
    | Issuing(origin: Option<nat>, user: UserId)
    | FindingForLogout(text: string)
    | EndingSession(id: nat)
    | Done(reply: Reply)

  /** The table, for each row the row it replaced, and where each request stands. */
  datatype State = State(rows: Table, replaced: seq<Option<nat>>, pcs: map<nat, Pc>)

  const EMPTY := State([], [], map[])

  /** A new request arrives, or request `p` makes its next call in world `w`. */
  datatype Event =
    | Begin(p: nat, request: Request)
    | Next(p: nat, w: World)

  function Entry(c: Config, r: Request): Pc {
    match r
    case LoginRequest(data, w) =>
      if !data.bound then Done(BadRequest)
      else if data.email == "" || data.password == "" then Done(Unprocessable)
      else if data.account.None? || !data.passwordMatches then Done(Unauthorized)
      else Issuing(None, data.account.value)
    case RefreshRequest(header, w) =>
      (match Presented(c, header, w)
       case None => Done(Unauthorized)
       case Some((text, claims)) => Finding(text, claims.id))
    case LogoutRequest(header, _) =>
      match GetTokenFromHeader(header)
      case Token(text) => FindingForLogout(text)
      case _ => Done(LoggedOut)
  }

  function Call(c: Config, rows: Table, pc: Pc, w: World): (Table, Pc) {
    match pc
    case Finding(text, claimedId) =>
      (match FindActive(rows, c.crypto.hash(text), w.findAt, w.findFails)
       case Found(id) => (rows, Exchanging(id, rows[id].userId))
       case LookupError => (rows, Done(ServerError))
       case _ => (rows, Compromised(claimedId)))
    case Exchanging(id, user) =>
      if w.revokeFails then (rows, Done(ServerError)) else (Revoke(rows, id, w.revokeAt), Issuing(Some(id), user))
    case Compromised(claimedId) => (Compromise(rows, claimedId, w), Done(Unauthorized))
    case Issuing(origin, user) =>
      (match Issue(c, rows, user, w)
       case (after, None) => (after, Done(ServerError))
       case (after, Some(pair)) =>
         (after, Done(if origin.None? then LoginOk(user, pair.access, pair.refresh)
                      else RefreshOk(pair.access, pair.refresh, pair.accessExpiresAt))))
    case FindingForLogout(text) =>
      (match FindActive(rows, c.crypto.hash(text), w.findAt, w.findFails)
       case Found(id) => (rows, EndingSession(id))
       case _ => (rows, Done(LoggedOut)))
    case EndingSession(id) => (if w.revokeFails then rows else Revoke(rows, id, w.revokeAt), Done(LoggedOut))
    case Done(_) => (rows, pc)
  }

  /** The row that a request at this point has found and is about to replace. */
  function Held(pc: Pc): Option<nat> {
    match pc
    case Exchanging(id, _) => Some(id)
    case Issuing(origin, _) => origin
    case _ => None
  }

  function Holds(s: State, p: nat): Option<nat> {
    if p in s.pcs then Held(s.pcs[p]) else None
  }

  function Past(s: State): History {
    History(s.rows, s.replaced)
  }

  /** Events of unknown requests, and arrivals under a name in use, do nothing. */
  function Step(c: Config, s: State, e: Event): State {
    match e
    case Begin(p, r) => if p in s.pcs then s else s.(pcs := s.pcs[p := Entry(c, r)])
    case Next(p, w) =>
      if p in s.pcs then
        var (rows, pc) := Call(c, s.rows, s.pcs[p], w);
        var past := Extend(Past(s), rows, Held(s.pcs[p]));
        State(past.rows, past.replaced, s.pcs[p := pc])
      else s
  }

  /** The state after the first `k` events of a run from `init`. */
  function At(c: Config, init: State, events: seq<Event>, k: nat): State
    requires k <= |events|
  {
    if k == 0 then init else Step(c, At(c, init, events, k - 1), events[k - 1])
  }

  lemma {:induction false} AtPrefix(c: Config, init: State, a: seq<Event>, b: seq<Event>, k: nat)
    requires k <= |a|
    ensures At(c, init, a + b, k) == At(c, init, a, k)
  {
    if k > 0 {
      AtPrefix(c, init, a, b, k - 1);
    }
  }

  /** A run goes on from the state it has reached. */
  lemma {:induction false} AtSplit(c: Config, init: State, a: seq<Event>, b: seq<Event>, k: nat)
    requires k <= |b|
    ensures At(c, init, a + b, |a| + k) == At(c, At(c, init, a, |a|), b, k)
  {
    if k == 0 {
      AtPrefix(c, init, a, b, |a|);
    } else {
      AtSplit(c, init, a, b, k - 1);
      assert (a + b)[|a| + k - 1] == b[k - 1];
    }
  }

  /** One call by a request that has come to `pc`, on the table and its history. */
  function HistoryCall(c: Config, h: History, pc: Pc, w: World): (History, Pc) {
    var (rows, next) := Call(c, h.rows, pc, w);
    (Extend(h, rows, Held(pc)), next)
  }

  /** Three calls from a given point; an answered request stays answered. */
  function ThreeCalls(c: Config, h: History, pc: Pc, w: World): (History, Pc) {
    var (h1, pc1) := HistoryCall(c, h, pc, w);
    var (h2, pc2) := HistoryCall(c, h1, pc1, w);
    HistoryCall(c, h2, pc2, w)
  }

  lemma SoloLoginRequest(c: Config, h: History, data: LoginData, w: World)
    ensures var r := LoginRequest(data, w);
            ThreeCalls(c, h, Entry(c, r), w) == (Advance(c, h, r), Done(Serve(c, h.rows, r).1))
  {
    hide Issue;
  }

  lemma SoloRefreshRequest(c: Config, h: History, header: string, w: World)
    ensures var r := RefreshRequest(header, w);
            ThreeCalls(c, h, Entry(c, r), w) == (Advance(c, h, r), Done(Serve(c, h.rows, r).1))
  {
    hide Issue, Presented;
  }

  lemma SoloLogoutRequest(c: Config, h: History, header: string, w: World)
    ensures var r := LogoutRequest(header, w);
            ThreeCalls(c, h, Entry(c, r), w) == (Advance(c, h, r), Done(Serve(c, h.rows, r).1))
  {
    hide GetTokenFromHeader;
  }

  /** Three calls are enough for any request, and they amount to the atomic handler. */
  lemma SoloCalls(c: Config, h: History, r: Request)
    ensures ThreeCalls(c, h, Entry(c, r), r.w) == (Advance(c, h, r), Done(Serve(c, h.rows, r).1))
  {
    match r
    case LoginRequest(data, w) => SoloLoginRequest(c, h, data, w);
    case RefreshRequest(header, w) => SoloRefreshRequest(c, h, header, w);
    case LogoutRequest(header, w) => SoloLogoutRequest(c, h, header, w);
  }

  /** A request that is alone between its arrival and its answer has the atomic handler's effect, history and answer. */
  lemma SoloRunIsAtomic(c: Config, s: State, p: nat, r: Request)
    requires p !in s.pcs
    ensures var t := At(c, s, [Begin(p, r), Next(p, r.w), Next(p, r.w), Next(p, r.w)], 4);
            && Past(t) == Advance(c, Past(s), r)
            && t.pcs == s.pcs[p := Done(Serve(c, s.rows, r).1)]
  {
    hide Call, Entry, Extend, Serve, Advance;
    var pc0 := Entry(c, r);
    var (h1, pc1) := HistoryCall(c, Past(s), pc0, r.w);
    var (h2, pc2) := HistoryCall(c, h1, pc1, r.w);
    SoloCalls(c, Past(s), r);
    var events := [Begin(p, r), Next(p, r.w), Next(p, r.w), Next(p, r.w)];
    assert At(c, s, events, 0) == s;
    var s0 := At(c, s, events, 1);
    assert s0 == Step(c, s, events[0]) && s0.pcs[p] == pc0;
    var s1 := At(c, s, events, 2);
    assert s1 == Step(c, s0, events[1]) && Past(s1) == h1 && s1.pcs == s.pcs[p := pc1];
    var s2 := At(c, s, events, 3);
    assert s2 == Step(c, s1, events[2]) && Past(s2) == h2 && s2.pcs == s.pcs[p := pc2];
  }

  lemma CallKeepsForm(c: Config, rows: Table, pc: Pc, w: World)
    requires Sound(c.crypto) && WellFormed(c, rows)
    ensures WellFormed(c, Call(c, rows, pc, w).0) && Preserves(rows, Call(c, rows, pc, w).0)
  {
    hide WellFormed, Issue;
    match pc
    case Exchanging(id, _) => RevokeKeepsForm(c, rows, id, w.revokeAt);
    case EndingSession(id) => RevokeKeepsForm(c, rows, id, w.revokeAt);
    case Issuing(_, user) => IssueKeepsForm(c, rows, user, w);
    case Compromised(claimedId) =>
      if ParseUint32(claimedId).Some? {
        RevokeAllKeepsForm(c, rows, ParseUint32(claimedId).value, w.revokeAt);
      }
    case _ =>
  }

  lemma StepKeepsForm(c: Config, s: State, e: Event)
    requires Sound(c.crypto) && WellFormed(c, s.rows)
    ensures WellFormed(c, Step(c, s, e).rows) && Preserves(s.rows, Step(c, s, e).rows)
  {
    if e.Next? && e.p in s.pcs {
      CallKeepsForm(c, s.rows, s.pcs[e.p], e.w);
    }
  }

  lemma PreservesTransitive(a: Table, b: Table, d: Table)
    requires Preserves(a, b) && Preserves(b, d)
    ensures Preserves(a, d)
  {
  }

  lemma {:induction false} AlwaysWellFormed(c: Config, init: State, events: seq<Event>, k: nat)
    requires Sound(c.crypto) && WellFormed(c, init.rows) && k <= |events|
    ensures WellFormed(c, At(c, init, events, k).rows)
  {
    if k > 0 {
      AlwaysWellFormed(c, init, events, k - 1);
      StepKeepsForm(c, At(c, init, events, k - 1), events[k - 1]);
    }
  }

  /** Under any interleaving rows stay, keep owner, hash and expiry, and a revocation is never taken back. */
  lemma {:induction false} RevocationIsForever(c: Config, init: State, events: seq<Event>, i: nat, k: nat)
    requires Sound(c.crypto) && WellFormed(c, init.rows) && i <= k <= |events|
    ensures Preserves(At(c, init, events, i).rows, At(c, init, events, k).rows)
    decreases k
  {
    hide WellFormed, Step;
    if i < k {
      hide Preserves;
      var before := At(c, init, events, k - 1);
      RevocationIsForever(c, init, events, i, k - 1);
      AlwaysWellFormed(c, init, events, k - 1);
      StepKeepsForm(c, before, events[k - 1]);
      PreservesTransitive(At(c, init, events, i).rows, before.rows, At(c, init, events, k).rows);
    }
  }

  /** The event is a lookup by request `p` that finds row `id`. */
  ghost predicate LooksUp(c: Config, s: State, e: Event, p: nat, id: nat) {
    && e.Next? && e.p == p && p in s.pcs && s.pcs[p].Finding?
    && FindActive(s.rows, c.crypto.hash(s.pcs[p].text), e.w.findAt, e.w.findFails) == Found(id)
  }

  ghost predicate FindsActive(c: Config, init: State, events: seq<Event>, j: nat, p: nat, id: nat) {
    j < |events| && LooksUp(c, At(c, init, events, j), events[j], p, id)
  }

  /** A request comes to hold a row by looking it up, and in no other way. */
  lemma HeldByLookup(c: Config, s: State, e: Event, p: nat)
    requires Holds(Step(c, s, e), p).Some?
    ensures Holds(s, p) == Holds(Step(c, s, e), p) || LooksUp(c, s, e, p, Holds(Step(c, s, e), p).value)
  {
    hide Issue, Compromise, Revoke, Extend, Presented, GetTokenFromHeader;
  }

  lemma {:induction false} HeldRowWasFound(c: Config, init: State, events: seq<Event>, k: nat, p: nat) returns (j: nat)
    requires k <= |events| && Holds(init, p).None? && Holds(At(c, init, events, k), p).Some?
    ensures j < k && FindsActive(c, init, events, j, p, Holds(At(c, init, events, k), p).value)
  {
    hide Step, Holds;
    var before := At(c, init, events, k - 1);
    HeldByLookup(c, before, events[k - 1], p);
    if Holds(before, p) == Holds(At(c, init, events, k), p) {
      j := HeldRowWasFound(c, init, events, k - 1, p);
    } else {
      j := k - 1;
    }
  }

  /** Request `p` completes its exchange of row `id` at event `k`. */
  ghost predicate Exchanges(c: Config, init: State, events: seq<Event>, k: nat, p: nat, id: nat) {
    && k < |events| && events[k].Next? && events[k].p == p
    && Holds(At(c, init, events, k), p) == Some(id)
    && var after := At(c, init, events, k + 1);
       p in after.pcs && after.pcs[p].Done? && after.pcs[p].reply.RefreshOk?
  }

  /** Every successful exchange of a row did its lookup before the first revocation of that row. */
  lemma ExchangeFoundBeforeRevocation(c: Config, init: State, events: seq<Event>, k: nat, p: nat, id: nat)
    returns (j: nat)
    requires Sound(c.crypto) && WellFormed(c, init.rows) && Holds(init, p).None?
    requires Exchanges(c, init, events, k, p, id)
    ensures j < k && FindsActive(c, init, events, j, p, id)
    ensures forall m | 0 <= m <= j && id < |At(c, init, events, m).rows| :: Active(At(c, init, events, m).rows, id)
  {
    j := HeldRowWasFound(c, init, events, k, p);
    forall m | 0 <= m <= j && id < |At(c, init, events, m).rows|
      ensures Active(At(c, init, events, m).rows, id)
    {
      RevocationIsForever(c, init, events, m, j);
    }
  }

  /** Under any interleaving a user's rows have distinct expiry seconds, and issues per window are bounded. */
  lemma IssueRateUnderInterleaving(
    c: Config, init: State, events: seq<Event>, k: nat, user: UserId, from: int, n: nat)
    requires Sound(c.crypto) && WellFormed(c, init.rows) && k <= |events|
    ensures var rows := At(c, init, events, k).rows;
            && (forall i, j | 0 <= i < |rows| && 0 <= j < |rows| && i != j && rows[i].userId == rows[j].userId ::
                  NumericDate(rows[i].expiresAt) != NumericDate(rows[j].expiresAt))
            && |IssuedWithin(c, rows, user, from, n)| <= n + 1
  {
    var rows := At(c, init, events, k).rows;
    AlwaysWellFormed(c, init, events, k);
    WindowBound(c, rows, user, from, n);
    forall i, j | 0 <= i < |rows| && 0 <= j < |rows| && i != j && rows[i].userId == rows[j].userId
      ensures NumericDate(rows[i].expiresAt) != NumericDate(rows[j].expiresAt)
    {
      OneRowPerSecond(c, rows, i, j);
    }
  }

  ghost predicate NoFaults(w: World) {
    !w.findFails && !w.revokeFails && !w.revokeAllFails && !w.accessSignFails && !w.refreshSignFails && !w.storeFails
  }

  /** Every call works; a token presented at this instant is verified, looked up and replaced at this instant. */
  function Calm(at: int): (w: World)
    ensures NoFaults(w)
  {
    World(at, at, at, at, at, false, false, false, false, false, false)
  }

  function LatestSecond(rows: Table): (latest: int)
    ensures forall i | 0 <= i < |rows| :: NumericDate(rows[i].expiresAt) <= latest
  {
    if rows == [] then 0
    else
      var (rest, last) := (LatestSecond(rows[..|rows| - 1]), NumericDate(rows[|rows| - 1].expiresAt));
      if last > rest then last else rest
  }

  /** A faultless world whose new tokens expire `ahead` seconds after every row of the table. */
  function Ahead(c: Config, rows: Table, ahead: nat): (w: World)
    requires ahead > 0
    ensures NoFaults(w) && NumericDate(RefreshExpiry(c, w)) == LatestSecond(rows) + ahead
    ensures forall user :: SecondFree(rows, user, RefreshExpiry(c, w))
  {
    Calm((LatestSecond(rows) + ahead) * SECOND - c.refreshHours * HOUR)
  }

  /** The revocation of a request that has found its row, when it works. */
  lemma ExchangingRevokes(c: Config, s: State, p: nat, w: World)
    requires WellFormed(c, s.rows) && NoFaults(w) && p in s.pcs && s.pcs[p].Exchanging?
    ensures var (t, pc) := (Step(c, s, Next(p, w)), s.pcs[p]);
            && t == State(Revoke(s.rows, pc.id, w.revokeAt), s.replaced, s.pcs[p := Issuing(Some(pc.id), pc.user)])
            && WellFormed(c, t.rows)
            && forall user, expiresAt | SecondFree(s.rows, user, expiresAt) :: SecondFree(t.rows, user, expiresAt)
  {
    RevokeKeepsForm(c, s.rows, s.pcs[p].id, w.revokeAt);
  }

  /** The insert of a request that has come this far, when nothing fails and its expiry second is free. */
  lemma IssuingStores(c: Config, s: State, p: nat, w: World)
    requires Sound(c.crypto) && WellFormed(c, s.rows) && NoFaults(w)
    requires p in s.pcs && s.pcs[p].Issuing? && SecondFree(s.rows, s.pcs[p].user, RefreshExpiry(c, w))
    ensures var (t, n) := (Step(c, s, Next(p, w)), |s.rows|);
            && WellFormed(c, t.rows) && |t.rows| == n + 1 && t.rows[..n] == s.rows
            && Active(t.rows, n) && t.rows[n].userId == s.pcs[p].user && t.rows[n].expiresAt == RefreshExpiry(c, w)
            && t.replaced == s.replaced + [s.pcs[p].origin]
            && t.pcs == s.pcs[p := t.pcs[p]] && t.pcs[p].Done?
            && (s.pcs[p].origin.Some? ==> t.pcs[p].reply.RefreshOk?)
  {
    IssueOutcome(c, s.rows, s.pcs[p].user, w);
  }
}
