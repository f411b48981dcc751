/** How often one user can be issued tokens, from the shape of the table alone. */
module IssueRate {
  import opened Decimal
  import opened Jwt
  import opened RefreshTokens
  import opened JwtController

  lemma {:induction false} ImageSize(s: set<nat>, t: set<nat>, f: nat -> nat)
    requires forall x | x in s :: f(x) in t
    requires forall x, y | x in s && y in s && f(x) == f(y) :: x == y
    ensures |s| <= |t|
    decreases |s|
  {
    if s != {} {
      var x :| x in s;
      ImageSize(s - {x}, t - {f(x)}, f);
    }
  }

  /** Rows of one user have distinct expiry seconds. */
  lemma OneRowPerSecond(c: Config, rows: Table, i: nat, j: nat)
    requires Sound(c.crypto) && WellFormed(c, rows)
    requires i < |rows| && j < |rows| && rows[i].userId == rows[j].userId
    ensures NumericDate(rows[i].expiresAt) == NumericDate(rows[j].expiresAt) ==> i == j
  {
    FingerprintDeterminesIssue(c, rows[i].userId, rows[i].expiresAt, rows[j].userId, rows[j].expiresAt);
  }

  /** The rows of a user issued from `from` to `from + n` seconds: each expires one lifetime after its issue. */
  ghost function IssuedWithin(c: Config, rows: Table, user: UserId, from: int, n: nat): set<nat> {
    set i | 0 <= i < |rows| && rows[i].userId == user
            && from <= rows[i].expiresAt - c.refreshHours * HOUR <= from + n * SECOND
  }

  ghost function UpTo(n: nat): (s: set<nat>)
    ensures |s| == n + 1 && forall k: nat :: k in s <==> k <= n
  {
    if n == 0 then {0} else UpTo(n - 1) + {n}
  }

  /** Any window of `n` seconds holds at most `n + 1` successful issues for one user. */
  lemma WindowBound(c: Config, rows: Table, user: UserId, from: int, n: nat)
    requires Sound(c.crypto) && WellFormed(c, rows)
    ensures |IssuedWithin(c, rows, user, from, n)| <= n + 1
  {
    var issued := IssuedWithin(c, rows, user, from, n);
    var base := NumericDate(from + c.refreshHours * HOUR);
    var offset := (i: nat) => if i < |rows| && NumericDate(rows[i].expiresAt) >= base
                              then (NumericDate(rows[i].expiresAt) - base) as nat else 0;
    forall i | i in issued
      ensures base <= NumericDate(rows[i].expiresAt) <= base + n
    {
      assert (from + c.refreshHours * HOUR + n * SECOND) / SECOND == base + n;
    }
    forall i, j | i in issued && j in issued && offset(i) == offset(j)
      ensures i == j
    {
      OneRowPerSecond(c, rows, i, j);
    }
    assert forall i | i in issued :: offset(i) in UpTo(n);
    ImageSize(issued, UpTo(n), offset);
  }
}
