/** Lock-out when the handlers interleave: exactly when it holds, and what can end it. */
module AuthLockout {
  import opened Wrappers
  import opened Decimal
  import opened Jwt
  import opened RefreshTokens
  import opened JwtController
  import opened AuthInterleaving

  /** A request at this point may still store a row for this user. */
  predicate MayStore(pc: Pc, user: UserId) {
    (pc.Exchanging? || pc.Issuing?) && pc.user == user
  }

  ghost predicate NonePending(s: State, user: UserId) {
    forall p | p in s.pcs :: !MayStore(s.pcs[p], user)
  }

  /** The event is the arrival of an accepted login of this user. */
  predicate BeginsLogin(c: Config, e: Event, user: UserId) {
    e.Begin? && Entry(c, e.request) == Issuing(None, user)
  }

  ghost predicate NoLoginBegins(c: Config, later: seq<Event>, user: UserId) {
    forall m | 0 <= m < |later| :: !BeginsLogin(c, later[m], user)
  }

  /** However things go on, the user has no unrevoked row until one of the user's logins arrives. */
  ghost predicate StaysOut(c: Config, s: State, user: UserId) {
    forall later | NoLoginBegins(c, later, user) :: NoActive(At(c, s, later, |later|).rows, user)
  }

  lemma CallKeepsOut(c: Config, s: State, p: nat, w: World, user: UserId)
    requires NoActive(s.rows, user) && NonePending(s, user) && p in s.pcs
    ensures NoActive(Call(c, s.rows, s.pcs[p], w).0, user) && !MayStore(Call(c, s.rows, s.pcs[p], w).1, user)
  {
    assert !MayStore(s.pcs[p], user);
  }

  lemma StepKeepsOut(c: Config, s: State, e: Event, user: UserId)
    requires NoActive(s.rows, user) && NonePending(s, user) && !BeginsLogin(c, e, user)
    ensures NoActive(Step(c, s, e).rows, user) && NonePending(Step(c, s, e), user)
  {
    hide Call, NoActive;
    if e.Next? && e.p in s.pcs {
      CallKeepsOut(c, s, e.p, e.w, user);
    }
  }

  lemma {:induction false} NonePendingStaysOut(c: Config, s: State, later: seq<Event>, k: nat, user: UserId)
    requires NoActive(s.rows, user) && NonePending(s, user) && NoLoginBegins(c, later, user) && k <= |later|
    ensures NoActive(At(c, s, later, k).rows, user) && NonePending(At(c, s, later, k), user)
  {
    hide Step, NoActive, NonePending, BeginsLogin;
    if k > 0 {
      NonePendingStaysOut(c, s, later, k - 1, user);
      StepKeepsOut(c, At(c, s, later, k - 1), later[k - 1], user);
    }
  }

  /** A request that may store a row does so in its next two calls, if nothing fails and its expiry second is free. */
  lemma PendingStores(c: Config, s: State, p: nat, w: World, user: UserId)
    requires Sound(c.crypto) && WellFormed(c, s.rows) && NoFaults(w)
    requires p in s.pcs && MayStore(s.pcs[p], user) && SecondFree(s.rows, user, RefreshExpiry(c, w))
    ensures !NoActive(At(c, s, [Next(p, w), Next(p, w)], 2).rows, user)
    ensures !StaysOut(c, s, user)
  {
    hide WellFormed, SecondFree, Issue, Revoke, Compromise, FindActive, RefreshExpiry;
    var e := Next(p, w);
    assert NoLoginBegins(c, [e, e], user);
    var middle := Step(c, s, e);
    assert At(c, s, [e, e], 0) == s;
    assert At(c, s, [e, e], 1) == middle;
    assert At(c, s, [e, e], 2) == Step(c, middle, e);
    if s.pcs[p].Issuing? {
      IssuingStores(c, s, p, w);
      assert Step(c, middle, e).rows == middle.rows;
      assert Active(middle.rows, |s.rows|);
    } else {
      ExchangingRevokes(c, s, p, w);
      IssuingStores(c, middle, p, w);
      assert Active(Step(c, middle, e).rows, |middle.rows|);
    }
  }

  /**
   * The exact condition for lock-out: the user has no unrevoked row, and no request of the user, or with one of the
   * user's rows, is between its lookup and its insert.
   */
  lemma LockOutExactly(c: Config, s: State, user: UserId)
    requires Sound(c.crypto) && WellFormed(c, s.rows)
    ensures StaysOut(c, s, user) <==> NoActive(s.rows, user) && NonePending(s, user)
  {
    if NoActive(s.rows, user) && NonePending(s, user) {
      forall later | NoLoginBegins(c, later, user)
        ensures NoActive(At(c, s, later, |later|).rows, user)
      {
        NonePendingStaysOut(c, s, later, |later|, user);
      }
    }
    if StaysOut(c, s, user) {
      assert NoLoginBegins(c, [], user) && At(c, s, [], 0) == s;
    }
    if !NonePending(s, user) {
      var p :| p in s.pcs && MayStore(s.pcs[p], user);
      PendingStores(c, s, p, Ahead(c, s.rows, 1), user);
    }
  }

  /** At event `i` every session of `user` is revoked. */
  ghost predicate EndsSessions(c: Config, init: State, events: seq<Event>, i: nat, user: UserId) {
    && i < |events| && events[i].Next? && !events[i].w.revokeAllFails
    && var s := At(c, init, events, i);
       events[i].p in s.pcs && s.pcs[events[i].p].Compromised?
       && ParseUint32(s.pcs[events[i].p].claimedId) == Some(user)
  }

  /** After all sessions of a user were revoked, the user is locked out exactly when no session was in mid-exchange. */
  lemma ReuseLocksOutExactly(c: Config, init: State, events: seq<Event>, i: nat, user: UserId)
    requires Sound(c.crypto) && WellFormed(c, init.rows) && EndsSessions(c, init, events, i, user)
    ensures NoActive(At(c, init, events, i + 1).rows, user)
    ensures StaysOut(c, At(c, init, events, i + 1), user) <==> NonePending(At(c, init, events, i), user)
  {
    hide WellFormed, StaysOut;
    var (s, t) := (At(c, init, events, i), At(c, init, events, i + 1));
    assert t == Step(c, s, events[i]);
    AlwaysWellFormed(c, init, events, i + 1);
    LockOutExactly(c, t, user);
    assert t.pcs == s.pcs[events[i].p := Done(Unauthorized)];
    if NonePending(t, user) {
      forall p | p in s.pcs
        ensures !MayStore(s.pcs[p], user)
      {
        assert p == events[i].p || t.pcs[p] == s.pcs[p];
      }
    }
  }

  /** A row of the user still unrevoked at any later time was stored after all of them were revoked. */
  lemma UnrevokedWereStoredLater(
    c: Config, init: State, events: seq<Event>, i: nat, k: nat, user: UserId, id: nat)
    requires Sound(c.crypto) && WellFormed(c, init.rows) && EndsSessions(c, init, events, i, user) && i < k <= |events|
    requires Active(At(c, init, events, k).rows, id) && At(c, init, events, k).rows[id].userId == user
    ensures id >= |At(c, init, events, i + 1).rows|
  {
    ReuseLocksOutExactly(c, init, events, i, user);
    RevocationIsForever(c, init, events, i + 1, k);
  }

  /** A session that has done its lookup, or is past its revoke, when all are revoked comes through. */
  lemma SessionSurvivesReuse(c: Config, s: State, p: nat, q: nat, user: UserId, w: World)
    requires Sound(c.crypto) && WellFormed(c, s.rows) && NoFaults(w)
    requires p in s.pcs && MayStore(s.pcs[p], user) && SecondFree(s.rows, user, RefreshExpiry(c, w))
    requires q in s.pcs && s.pcs[q].Compromised? && ParseUint32(s.pcs[q].claimedId) == Some(user)
    ensures NoActive(Step(c, s, Next(q, w)).rows, user)
    ensures !NoActive(At(c, Step(c, s, Next(q, w)), [Next(p, w), Next(p, w)], 2).rows, user)
  {
    var t := Step(c, s, Next(q, w));
    StepKeepsForm(c, s, Next(q, w));
    assert t.pcs[p] == s.pcs[p];
    PendingStores(c, t, p, w, user);
  }
}
