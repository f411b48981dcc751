/** Recorded responses and the stores that keep them (internal/idempotency). */
module IdempotencyStore {
  import opened Wrappers

  newtype byte = x: int | 0 <= x < 256

  type Bytes = seq<byte>

  const DAY: int := 24 * 60 * 60 * 1_000_000_000

  datatype Record = Record(status: int, headers: map<string, string>, body: Bytes)

  datatype Entry = Entry(record: Record, expiresAt: int)

  datatype Pair = Pair(route: string, key: string)

  datatype Lookup = Hit(record: Record) | Miss | StoreError

  /** A duration that is not positive means a day, in the configuration and in both stores. */
  function Ttl(configured: int): (ttl: int)
    ensures configured > 0 ==> ttl == configured
    ensures configured <= 0 ==> ttl == 86_400_000_000_000
  {
    if configured > 0 then configured else DAY
  }

  function MySqlGet(rows: map<Pair, Entry>, p: Pair, now: int): Option<Record> {
    if p in rows && rows[p].expiresAt > now then Some(rows[p].record) else None
  }

  /** Find or create: a row that is there stays, expired or not. */
  function MySqlSet(rows: map<Pair, Entry>, p: Pair, r: Record, ttl: int, now: int): map<Pair, Entry> {
    if p in rows then rows else rows[p := Entry(r, now + Ttl(ttl))]
  }

  /** The out-of-band sweeper of database/schema.sql deletes rows whose expiry is past. */
  function Sweep(rows: map<Pair, Entry>, now: int): map<Pair, Entry> {
    map p | p in rows && rows[p].expiresAt >= now :: rows[p]
  }

  /** What a sweep deletes and what it leaves. */
  lemma SweepExactly(rows: map<Pair, Entry>, now: int)
    ensures forall p :: p in Sweep(rows, now) <==> p in rows && !(rows[p].expiresAt < now)
    ensures forall p | p in Sweep(rows, now) :: Sweep(rows, now)[p] == rows[p]
  {
  }

  function CacheKey(p: Pair): string {
    "idem:" + p.route + ":" + p.key
  }

  /** A Redis cell is there until its expiry; afterwards it is as if it had never been. */
  predicate Present(cells: map<string, Entry>, k: string, now: int) {
    k in cells && now < cells[k].expiresAt
  }

  function RedisGet(cells: map<string, Entry>, p: Pair, now: int): Option<Record> {
    if Present(cells, CacheKey(p), now) then Some(cells[CacheKey(p)].record) else None
  }

  function RedisSet(cells: map<string, Entry>, p: Pair, r: Record, ttl: int, now: int): map<string, Entry> {
    if Present(cells, CacheKey(p), now) then cells else cells[CacheKey(p) := Entry(r, now + Ttl(ttl))]
  }

  /** One route continues with a colon where the other ends, and the keys make up for it. */
  ghost predicate Overlap(p: Pair, q: Pair, middle: string) {
    q.route == p.route + ":" + middle && p.key == middle + ":" + q.key
  }

  /** Distinct pairs share a cache key exactly when they overlap, so no two pairs with colon-free routes do. */
  lemma CacheKeySeparation(p: Pair, q: Pair)
    ensures CacheKey(p) == CacheKey(q) && p != q <==>
            (exists middle :: Overlap(p, q, middle)) || (exists middle :: Overlap(q, p, middle))
    ensures ':' !in p.route && ':' !in q.route && CacheKey(p) == CacheKey(q) ==> p == q
  {
    if CacheKey(p) == CacheKey(q) && p != q {
      if |p.route| <= |q.route| {
        OverlapOfEqualKeys(p, q);
      } else {
        OverlapOfEqualKeys(q, p);
      }
    }
    if middle :| Overlap(p, q, middle) {
      assert CacheKey(q) == "idem:" + (p.route + ":" + middle) + ":" + q.key == CacheKey(p);
      assert |q.route| > |p.route| && q.route[|p.route|] == ':';
    }
    if middle :| Overlap(q, p, middle) {
      assert CacheKey(p) == "idem:" + (q.route + ":" + middle) + ":" + p.key == CacheKey(q);
      assert |p.route| > |q.route| && p.route[|q.route|] == ':';
    }
  }

  lemma OverlapOfEqualKeys(p: Pair, q: Pair)
    requires CacheKey(p) == CacheKey(q) && p != q && |p.route| <= |q.route|
    ensures exists middle :: Overlap(p, q, middle)
  {
    var a, b := p.route + ":" + p.key, q.route + ":" + q.key;
    assert CacheKey(p) == "idem:" + a && CacheKey(q) == "idem:" + b;
    assert a == CacheKey(p)[5..] == CacheKey(q)[5..] == b;
    var n, m := |p.route|, |q.route|;
    assert p.route == a[..n] == q.route[..n];
    assert p.key == a[n + 1..] == b[n + 1..] && q.key == b[m + 1..];
    var middle := q.route[n + 1..];
    assert q.route[n] == b[n] == a[n] == ':';
    assert q.route == q.route[..n] + [q.route[n]] + q.route[n + 1..];
    assert b[n + 1..] == middle + ":" + q.key;
    assert Overlap(p, q, middle);
  }

  /** The GORM store. `fails` is the database's own answer; a failing call changes nothing. */
  class MySQLStore {
    var rows: map<Pair, Entry>

    constructor ()
      ensures rows == map[]
    {
      rows := map[];
    }

    method Get(p: Pair, now: int, fails: bool) returns (found: Lookup)
      ensures found.StoreError? <==> fails
      ensures found.Hit? <==> !fails && p in rows && now < rows[p].expiresAt
      ensures found.Hit? ==> found.record == rows[p].record
    {
      if fails {
        return StoreError;
      }
      if p in rows && rows[p].expiresAt > now {
        return Hit(rows[p].record);
      }
      return Miss;
    }

    /** The first writer wins. */
    method Set(p: Pair, r: Record, ttl: int, now: int, fails: bool) returns (ok: bool)
      modifies this
      ensures ok == !fails
      ensures forall q | q != p :: (q in rows <==> q in old(rows)) && (q in rows ==> rows[q] == old(rows)[q])
      ensures p in old(rows) || fails ==> rows == old(rows)
      ensures ok ==> p in rows && (p !in old(rows) ==>
                rows[p] == Entry(r, now + if ttl > 0 then ttl else 86_400_000_000_000))
    {
      var expires := now + ttl;
      if ttl <= 0 {
        expires := now + DAY;
      }
      if fails {
        return false;
      }
      if p !in rows {
        rows := rows[p := Entry(r, expires)];
      }
      return true;
    }
  }

  /** The Redis store. */
  class RedisStore {
    var cells: map<string, Entry>

    constructor ()
      ensures cells == map[]
    {
      cells := map[];
    }

    method Get(p: Pair, now: int, fails: bool) returns (found: Lookup)
      ensures var k := "idem:" + p.route + ":" + p.key;
              && (found.StoreError? <==> fails)
              && (found.Hit? <==> !fails && k in cells && now < cells[k].expiresAt)
              && (found.Hit? ==> found.record == cells[k].record)
    {
      if fails {
        return StoreError;
      }
      var k := CacheKey(p);
      if !Present(cells, k, now) {
        return Miss;
      }
      return Hit(cells[k].record);
    }

    /** The first writer wins until its record expires. */
    method Set(p: Pair, r: Record, ttl: int, now: int, fails: bool) returns (ok: bool)
      modifies this
      ensures ok == !fails
      ensures var k := "idem:" + p.route + ":" + p.key;
              var blocked := k in old(cells) && now < old(cells)[k].expiresAt;
              && (fails || blocked ==> cells == old(cells))
              && (ok && !blocked ==>
                    cells == old(cells)[k := Entry(r, now + if ttl > 0 then ttl else 86_400_000_000_000)])
    {
      var lifetime := ttl;
      if lifetime <= 0 {
        lifetime := DAY;
      }
      if fails {
        return false;
      }
      var k := CacheKey(p);
      if !Present(cells, k, now) {
        cells := cells[k := Entry(r, now + lifetime)];
      }
      return true;
    }
  }

  /** The contents of whichever store is selected. */
  datatype Backend = Noop | MySql(rows: map<Pair, Entry>) | Redis(cells: map<string, Entry>) {

    function Get(p: Pair, now: int): Option<Record> {
      match this
      case Noop => None
      case MySql(rows) => MySqlGet(rows, p, now)
      case Redis(cells) => RedisGet(cells, p, now)
    }

    function Set(p: Pair, r: Record, ttl: int, now: int): Backend {
      match this
      case Noop => Noop
      case MySql(rows) => MySql(MySqlSet(rows, p, r, ttl, now))
      case Redis(cells) => Redis(RedisSet(cells, p, r, ttl, now))
    }

    function Swept(now: int): Backend {
      match this
      case MySql(rows) => MySql(Sweep(rows, now))
      case _ => this
    }

    /** What is kept for a pair, expired or not. */
    function Kept(p: Pair): Option<Entry> {
      match this
      case Noop => None
      case MySql(rows) => if p in rows then Some(rows[p]) else None
      case Redis(cells) => if CacheKey(p) in cells then Some(cells[CacheKey(p)]) else None
    }

    /** A write for this pair would be kept: there is a store, and no earlier entry is in its way. */
    predicate Accepts(p: Pair, now: int) {
      match this
      case Noop => false
      case MySql(rows) => p !in rows
      case Redis(cells) => !Present(cells, CacheKey(p), now)
    }
  }

  /** A kept entry survives every write and sweep up to its expiry, whichever pairs they are for. */
  lemma KeptUntilExpiry(b: Backend, p: Pair, e: Entry, q: Pair, r: Record, ttl: int, now: int)
    requires b.Kept(p) == Some(e) && now < e.expiresAt
    ensures b.Get(p, now) == Some(e.record)
    ensures b.Set(q, r, ttl, now).Kept(p) == Some(e)
    ensures b.Swept(now).Kept(p) == Some(e)
  {
    if b.Redis? && CacheKey(q) == CacheKey(p) {
      assert Present(b.cells, CacheKey(q), now);
    }
  }

  /** A write is kept exactly when the store accepts it. */
  lemma WriteKeptExactly(b: Backend, p: Pair, r: Record, ttl: int, now: int)
    ensures b.Accepts(p, now) ==> b.Set(p, r, ttl, now).Kept(p) == Some(Entry(r, now + Ttl(ttl)))
    ensures !b.Accepts(p, now) ==> b.Set(p, r, ttl, now) == b
  {
  }

  /** The store the middleware was given. */
  datatype Store = NoStore | InMySql(mysql: MySQLStore) | InRedis(redis: RedisStore) {

    function Objects(): set<object> {
      match this
      case NoStore => {}
      case InMySql(m) => {m}
      case InRedis(r) => {r}
    }

    function Contents(): Backend
      reads Objects()
    {
      match this
      case NoStore => Noop
      case InMySql(m) => MySql(m.rows)
      case InRedis(r) => Redis(r.cells)
    }
  }

  /** Selection at start-up: Redis without a client, or any other setting, means no store. */
  method NewStore(setting: string, mysql: MySQLStore, redis: RedisStore?) returns (store: Store)
    ensures store.InMySql? <==> setting == "mysql"
    ensures store.InRedis? <==> setting == "redis" && redis != null
    ensures store.InMySql? ==> store.mysql == mysql
    ensures store.InRedis? ==> store.redis == redis
  {
    if setting == "mysql" {
      return InMySql(mysql);
    } else if setting == "redis" {
      if redis == null {
        return NoStore;
      }
      return InRedis(redis);
    }
    return NoStore;
  }
}
