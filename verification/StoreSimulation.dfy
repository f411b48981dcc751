/** One trace of store calls, run on the MySQL and the Redis store side by side. */
module StoreSimulation {
  import opened Wrappers
  import opened IdempotencyStore

  datatype Call =
    | Get(p: Pair)
    | Set(p: Pair, r: Record, ttl: int)
    | Advance(elapsed: nat)
    | Purge

  datatype Both = Both(rows: map<Pair, Entry>, cells: map<string, Entry>, now: int)

  function Step(s: Both, call: Call): Both {
    match call
    case Get(_) => s
    case Set(p, r, ttl) => Both(MySqlSet(s.rows, p, r, ttl, s.now), RedisSet(s.cells, p, r, ttl, s.now), s.now)
    case Advance(elapsed) => s.(now := s.now + elapsed)
    case Purge => s.(rows := Sweep(s.rows, s.now))
  }

  /** What time does: each store stops answering with an entry once its expiry is reached. */
  lemma AdvanceExpires(s: Both, elapsed: nat, p: Pair)
    ensures var t := Step(s, Advance(elapsed));
            && t.rows == s.rows && t.cells == s.cells
            && MySqlGet(t.rows, p, t.now) ==
               (if p in s.rows && s.now + elapsed < s.rows[p].expiresAt then Some(s.rows[p].record) else None)
            && var k := "idem:" + p.route + ":" + p.key;
               RedisGet(t.cells, p, t.now) ==
               if k in s.cells && s.now + elapsed < s.cells[k].expiresAt then Some(s.cells[k].record) else None
  {
  }

  /** What a purge does: it removes exactly the rows whose expiry is past. */
  lemma PurgeExactly(s: Both, p: Pair)
    ensures var t := Step(s, Purge);
            && t.cells == s.cells && t.now == s.now
            && (p in t.rows <==> p in s.rows && s.rows[p].expiresAt >= s.now)
            && (p in t.rows ==> t.rows[p] == s.rows[p])
  {
  }

  /** Both stores, and the clock, after the first `k` calls. */
  function At(trace: seq<Call>, k: nat): Both
    requires k <= |trace|
  {
    if k == 0 then Both(map[], map[], 0) else Step(At(trace, k - 1), trace[k - 1])
  }

  /** The pairs that occur have cache keys of their own; colon-free routes are enough. */
  ghost predicate Separated(pairs: set<Pair>) {
    forall p, q | p in pairs && q in pairs && CacheKey(p) == CacheKey(q) :: p == q
  }

  ghost predicate Within(trace: seq<Call>, pairs: set<Pair>) {
    forall k | 0 <= k < |trace| && trace[k].Set? :: trace[k].p in pairs
  }

  ghost predicate NeverPurged(trace: seq<Call>) {
    forall k | 0 <= k < |trace| :: !trace[k].Purge?
  }

  /** A live row has its twin among the cells, and no cell exists without a row. */
  ghost predicate Covered(s: Both, pairs: set<Pair>) {
    forall p | p in pairs ::
      if p in s.rows then s.rows[p].expiresAt > s.now ==>
                            CacheKey(p) in s.cells && s.cells[CacheKey(p)] == s.rows[p]
      else CacheKey(p) !in s.cells
  }

  lemma {:induction false} UnpurgedRunIsCovered(trace: seq<Call>, pairs: set<Pair>, k: nat)
    requires Separated(pairs) && Within(trace, pairs) && NeverPurged(trace) && k <= |trace|
    ensures Covered(At(trace, k), pairs)
  {
    if k > 0 {
      UnpurgedRunIsCovered(trace, pairs, k - 1);
    }
  }

  /** While no row is ever swept, every MySQL hit is a Redis hit with the same record. */
  lemma MySqlHitIsRedisHit(trace: seq<Call>, pairs: set<Pair>, k: nat, p: Pair)
    requires Separated(pairs) && Within(trace, pairs) && NeverPurged(trace) && k <= |trace| && p in pairs
    requires MySqlGet(At(trace, k).rows, p, At(trace, k).now).Some?
    ensures RedisGet(At(trace, k).cells, p, At(trace, k).now) == MySqlGet(At(trace, k).rows, p, At(trace, k).now)
  {
    UnpurgedRunIsCovered(trace, pairs, k);
  }

  function LiveRow(s: Both, p: Pair): Option<Entry> {
    if p in s.rows && s.rows[p].expiresAt > s.now then Some(s.rows[p]) else None
  }

  function LiveCell(s: Both, p: Pair): Option<Entry> {
    if Present(s.cells, CacheKey(p), s.now) then Some(s.cells[CacheKey(p)]) else None
  }

  /** Both stores hold the same live entry, with the same expiry, for every pair. */
  ghost predicate Agree(s: Both, pairs: set<Pair>) {
    forall p | p in pairs :: LiveRow(s, p) == LiveCell(s, p)
  }

  /** A row that is past its expiry but was not purged. */
  predicate Stale(s: Both, p: Pair) {
    p in s.rows && s.rows[p].expiresAt <= s.now
  }

  /** From agreement, a call keeps agreement exactly when it is not a write over a stale row. */
  lemma CallKeepsAgreementExactly(s: Both, call: Call, pairs: set<Pair>)
    requires Separated(pairs) && Agree(s, pairs) && (call.Set? ==> call.p in pairs)
    ensures Agree(Step(s, call), pairs) <==> !(call.Set? && Stale(s, call.p))
  {
    var s' := Step(s, call);
    forall p | p in pairs && !(call.Set? && call.p == p)
      ensures LiveRow(s', p) == LiveCell(s', p)
    {
      assert LiveRow(s, p) == LiveCell(s, p);
    }
    if call.Set? {
      assert LiveRow(s, call.p) == LiveCell(s, call.p);
      if Stale(s, call.p) {
        assert LiveRow(s', call.p) == None && LiveCell(s', call.p).Some?;
      } else {
        assert LiveRow(s', call.p) == LiveCell(s', call.p);
      }
    }
  }

  ghost predicate PurgedBeforeSets(trace: seq<Call>) {
    forall k | 0 <= k < |trace| && trace[k].Set? :: !Stale(At(trace, k), trace[k].p)
  }

  ghost predicate AgreeThroughout(trace: seq<Call>, pairs: set<Pair>) {
    forall k | 0 <= k <= |trace| :: Agree(At(trace, k), pairs)
  }

  lemma {:induction false} PurgedTraceAgrees(trace: seq<Call>, pairs: set<Pair>, k: nat)
    requires Separated(pairs) && Within(trace, pairs) && PurgedBeforeSets(trace) && k <= |trace|
    ensures Agree(At(trace, k), pairs)
  {
    if k > 0 {
      PurgedTraceAgrees(trace, pairs, k - 1);
      CallKeepsAgreementExactly(At(trace, k - 1), trace[k - 1], pairs);
    }
  }

  /** The stores agree after every call of a trace exactly when no write on a pair meets its expired, unpurged row. */
  lemma StoresAgreeExactly(trace: seq<Call>, pairs: set<Pair>)
    requires Separated(pairs) && Within(trace, pairs)
    ensures AgreeThroughout(trace, pairs) <==> PurgedBeforeSets(trace)
  {
    if PurgedBeforeSets(trace) {
      forall k | 0 <= k <= |trace|
        ensures Agree(At(trace, k), pairs)
      {
        PurgedTraceAgrees(trace, pairs, k);
      }
    }
    if AgreeThroughout(trace, pairs) {
      forall k | 0 <= k < |trace| && trace[k].Set?
        ensures !Stale(At(trace, k), trace[k].p)
      {
        assert Agree(At(trace, k), pairs) && Agree(At(trace, k + 1), pairs);
        CallKeepsAgreementExactly(At(trace, k), trace[k], pairs);
      }
    }
  }

  /** Then every Get answers the same on both. */
  lemma GetsAgree(trace: seq<Call>, pairs: set<Pair>, k: nat, p: Pair)
    requires Separated(pairs) && Within(trace, pairs) && PurgedBeforeSets(trace) && k <= |trace| && p in pairs
    ensures MySqlGet(At(trace, k).rows, p, At(trace, k).now) == RedisGet(At(trace, k).cells, p, At(trace, k).now)
  {
    PurgedTraceAgrees(trace, pairs, k);
    assert LiveRow(At(trace, k), p) == LiveCell(At(trace, k), p);
  }
}
