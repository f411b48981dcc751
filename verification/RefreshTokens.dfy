/** The refresh_tokens table and its repository (api/auth/refresh_token_repository.go). */
module RefreshTokens {
  import opened Wrappers
  import opened Decimal

  datatype Row = Row(userId: UserId, tokenHash: string, expiresAt: int, revokedAt: Option<int>)

  /** Rows in insertion order; a row's id is its position. Nothing ever deletes a row. */
  type Table = seq<Row>

  datatype Lookup = Found(id: nat) | NotFound | Inactive | LookupError

  predicate Active(rows: Table, id: nat) {
    id < |rows| && rows[id].revokedAt.None?
  }

  /** The first of the first `n` rows that has this hash. */
  function FindAmong(rows: Table, hash: string, n: nat): (found: Option<nat>)
    requires n <= |rows|
    ensures found.Some? ==> found.value < n && rows[found.value].tokenHash == hash
    ensures forall i | 0 <= i < (if found.Some? then found.value else n) :: rows[i].tokenHash != hash
  {
    if n == 0 then None
    else
      match FindAmong(rows, hash, n - 1)
      case Some(i) => Some(i)
      case None => if rows[n - 1].tokenHash == hash then Some(n - 1) else None
  }

  function FindHash(rows: Table, hash: string): (found: Option<nat>)
    ensures found.Some? ==> found.value < |rows| && rows[found.value].tokenHash == hash
    ensures forall i | 0 <= i < (if found.Some? then found.value else |rows|) :: rows[i].tokenHash != hash
  {
    FindAmong(rows, hash, |rows|)
  }

  function FindActive(rows: Table, hash: string, now: int, fails: bool): Lookup {
    if fails then LookupError
    else
      match FindHash(rows, hash)
      case None => NotFound
      case Some(id) =>
        if rows[id].revokedAt.Some? || now > rows[id].expiresAt then Inactive else Found(id)
  }

  /** Row `id` is the first that carries this hash. */
  ghost predicate FirstWith(rows: Table, hash: string, id: nat) {
    id < |rows| && rows[id].tokenHash == hash && forall i | 0 <= i < id :: rows[i].tokenHash != hash
  }

  /** What a lookup may answer, on the rows themselves: an error is no statement about any row. */
  ghost predicate LookupAnswer(rows: Table, hash: string, now: int, fails: bool, found: Lookup) {
    && (found.LookupError? <==> fails)
    && (found.NotFound? <==> !fails && forall i | 0 <= i < |rows| :: rows[i].tokenHash != hash)
    && (found.Inactive? <==> !fails && exists id: nat ::
          FirstWith(rows, hash, id) && (rows[id].revokedAt.Some? || rows[id].expiresAt < now))
    && (found.Found? ==>
          && !fails && FirstWith(rows, hash, found.id)
          && rows[found.id].revokedAt.None? && now <= rows[found.id].expiresAt)
  }

  lemma LookupExactly(rows: Table, hash: string, now: int, fails: bool)
    ensures LookupAnswer(rows, hash, now, fails, FindActive(rows, hash, now, fails))
  {
    if !fails && FindHash(rows, hash).Some? {
      assert FirstWith(rows, hash, FindHash(rows, hash).value);
    }
  }

  /** An insert, refused when the unique hash is taken. */
  function Insert(rows: Table, row: Row): Option<Table> {
    if FindHash(rows, row.tokenHash).Some? then None else Some(rows + [row])
  }

  function Revoke(rows: Table, id: nat, now: int): Table {
    if id < |rows| then rows[id := rows[id].(revokedAt := Some(now))] else rows
  }

  function RevokeIfOf(row: Row, user: UserId, now: int): Row {
    if row.userId == user && row.revokedAt.None? then row.(revokedAt := Some(now)) else row
  }

  function RevokeAllForUser(rows: Table, user: UserId, now: int): (out: Table)
    ensures |out| == |rows|
    ensures forall i | 0 <= i < |rows| :: out[i] == RevokeIfOf(rows[i], user, now)
  {
    seq(|rows|, i requires 0 <= i < |rows| => RevokeIfOf(rows[i], user, now))
  }

  /** Rows are only added; owner, hash and expiry never change; a revocation is never taken back. */
  ghost predicate Preserves(before: Table, after: Table) {
    && |before| <= |after|
    && forall i | 0 <= i < |before| ::
         && after[i].userId == before[i].userId
         && after[i].tokenHash == before[i].tokenHash
         && after[i].expiresAt == before[i].expiresAt
         && (before[i].revokedAt.Some? ==> after[i].revokedAt.Some?)
  }

  ghost predicate NoActive(rows: Table, user: UserId) {
    forall i | 0 <= i < |rows| :: rows[i].userId == user ==> rows[i].revokedAt.Some?
  }

  /** The GORM repository. `fails` is the database's own answer; a failing call changes nothing. */
  class RefreshTokenRepo {
    var rows: Table
    const hashToken: string -> string

    constructor (hashToken: string -> string)
      ensures rows == [] && this.hashToken == hashToken
    {
      rows := [];
      this.hashToken := hashToken;
    }

    method Store(user: UserId, rawToken: string, expiresAt: int, fails: bool) returns (ok: bool)
      modifies this
      ensures ok <==> !fails && forall i | 0 <= i < |old(rows)| :: old(rows)[i].tokenHash != hashToken(rawToken)
      ensures rows == if ok then old(rows) + [Row(user, hashToken(rawToken), expiresAt, None)] else old(rows)
    {
      var row := Row(user, hashToken(rawToken), expiresAt, None);
      var inserted := Insert(rows, row);
      ok := !fails && inserted.Some?;
      if ok {
        rows := inserted.value;
      }
    }

    method FindActiveToken(rawToken: string, now: int, fails: bool) returns (found: Lookup)
      ensures found == FindActive(rows, hashToken(rawToken), now, fails)
      ensures LookupAnswer(rows, hashToken(rawToken), now, fails, found)
    {
      LookupExactly(rows, hashToken(rawToken), now, fails);
      if fails {
        return LookupError;
      }
      match FindHash(rows, hashToken(rawToken))
      case None =>
        return NotFound;
      case Some(id) =>
        if rows[id].revokedAt.Some? || now > rows[id].expiresAt {
          return Inactive;
        }
        return Found(id);
    }

    method RevokeToken(id: nat, now: int, fails: bool) returns (ok: bool)
      modifies this
      ensures ok == !fails
      ensures |rows| == |old(rows)| && forall i | 0 <= i < |rows| ::
                rows[i] == if i == id && !fails then old(rows)[i].(revokedAt := Some(now)) else old(rows)[i]
      ensures rows == if ok then Revoke(old(rows), id, now) else old(rows)
    {
      ok := !fails;
      if ok && id < |rows| {
        rows := rows[id := rows[id].(revokedAt := Some(now))];
      }
    }

    method RevokeUser(user: UserId, now: int, fails: bool) returns (ok: bool)
      modifies this
      ensures ok == !fails
      ensures ok ==> NoActive(rows, user)
      ensures |rows| == |old(rows)| && forall i | 0 <= i < |rows| ::
                var was := old(rows)[i];
                rows[i] == if was.userId == user && was.revokedAt == None && !fails
                           then was.(revokedAt := Some(now)) else was
      ensures rows == if ok then RevokeAllForUser(old(rows), user, now) else old(rows)
    {
      ok := !fails;
      if ok {
        rows := RevokeAllForUser(rows, user, now);
      }
    }
  }
}
