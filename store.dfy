/** The two tables of the Postgres database, `short_urls` and `users`, as an
    in-memory store. The methods of `Database` are the query shapes the core
    issues through the ORM: delete-where, insert, update-where and the
    update of a user's API-key columns. The `id` column of `short_urls` is
    the primary key: an insert or update that would give two rows the same
    id fails, as Postgres does with unique_violation 23505. */
module Store {
  import opened ShortUrlTypes
  import opened Text

  /** A row of `short_urls`; `userId == None` is an anonymous (public) link. */
  datatype Link = Link(
    id: string,
    userId: Option<string>,
    url: string,
    title: Option<string>,
    enabled: Option<bool>,
    clickLimit: ClickLimit,
    password: Option<string>,
    timeOffset: Option<int>,
    createdAt: int,
    updatedAt: int)

  /** A row of `users`, reduced to the columns the core reads and writes. */
  datatype User = User(id: string, apiKey: Option<string>, apiKeySalt: Option<string>, updatedAt: int)

  /** No two rows share an id. */
  predicate LinkIdsUnique(s: seq<Link>) {
    forall i, j | 0 <= i < j < |s| :: s[i].id != s[j].id
  }

  predicate UserIdsUnique(s: seq<User>) {
    forall i, j | 0 <= i < j < |s| :: s[i].id != s[j].id
  }

  /** Some row has this id. */
  predicate HasId(s: seq<Link>, id: string) {
    exists i | 0 <= i < |s| :: s[i].id == id
  }

  /** `SELECT ... WHERE cond`: the rows satisfying `cond`, in table order. */
  function Where(s: seq<Link>, cond: Link -> bool): (r: seq<Link>)
    ensures |r| <= |s|
    decreases |s|
  {
    if |s| == 0 then []
    else (if cond(s[0]) then [s[0]] else []) + Where(s[1..], cond)
  }

  /** `like(shortUrls.url, '%pattern%')`, with `%` and `_` inside `pattern` taken literally. */
  function UrlLike(pattern: string): Link -> bool {
    (l: Link) => Contains(l.url, pattern)
  }

  /** The negation of a condition. */
  function Not(cond: Link -> bool): Link -> bool {
    l => !cond(l)
  }

  /** The table left by `DELETE ... WHERE cond`. */
  function Without(s: seq<Link>, cond: Link -> bool): seq<Link> {
    Where(s, Not(cond))
  }

  /** The table left by `UPDATE ... SET change WHERE cond`, if no constraint fails. */
  function UpdateWhere(s: seq<Link>, cond: Link -> bool, change: Link -> Link): (r: seq<Link>)
    ensures |r| == |s|
    ensures forall i :: 0 <= i < |s| ==> r[i] == if cond(s[i]) then change(s[i]) else s[i]
  {
    seq(|s|, i requires 0 <= i < |s| => if cond(s[i]) then change(s[i]) else s[i])
  }

  /** A row is selected exactly when it is in the table and satisfies the condition. */
  lemma {:induction false} WhereMember(s: seq<Link>, cond: Link -> bool, x: Link)
    ensures x in Where(s, cond) <==> x in s && cond(x)
    decreases |s|
  {
    if |s| > 0 {
      WhereMember(s[1..], cond, x);
      assert s == [s[0]] + s[1..];
    }
  }

  /** `WhereMember` for every row at once. */
  lemma WhereMembers(s: seq<Link>, cond: Link -> bool)
    ensures forall x :: x in Where(s, cond) <==> x in s && cond(x)
  {
    forall x ensures x in Where(s, cond) <==> x in s && cond(x) {
      WhereMember(s, cond, x);
    }
  }

  /** Selecting rows none of which satisfies the condition gives nothing. */
  lemma {:induction false} WhereNone(s: seq<Link>, cond: Link -> bool)
    requires forall j :: 0 <= j < |s| ==> !cond(s[j])
    ensures Where(s, cond) == []
    decreases |s|
  {
    if |s| > 0 {
      forall j | 0 <= j < |s[1..]| ensures !cond(s[1..][j]) {
        assert s[1..][j] == s[j + 1];
      }
      WhereNone(s[1..], cond);
    }
  }

  /** Selecting from a table with a row appended selects from the table, then that row. */
  lemma {:induction false} WhereAppend(s: seq<Link>, x: Link, cond: Link -> bool)
    ensures Where(s + [x], cond) == Where(s, cond) + (if cond(x) then [x] else [])
    decreases |s|
  {
    var t := s + [x];
    if |s| == 0 {
      assert t == [x] && t[1..] == [];
    } else {
      assert t[0] == s[0];
      assert t[1..] == s[1..] + [x];
      WhereAppend(s[1..], x, cond);
      var head := if cond(s[0]) then [s[0]] else [];
      var tail := if cond(x) then [x] else [];
      assert Where(t, cond) == head + (Where(s[1..], cond) + tail);
      assert Where(s, cond) == head + Where(s[1..], cond);
    }
  }

  /** A selection of a table with unique ids has unique ids. */
  lemma {:induction false} WhereKeepsIdsUnique(s: seq<Link>, cond: Link -> bool)
    requires LinkIdsUnique(s)
    ensures LinkIdsUnique(Where(s, cond))
    decreases |s|
  {
    if |s| > 0 {
      var rest := Where(s[1..], cond);
      assert LinkIdsUnique(s[1..]) by {
        forall i, j | 0 <= i < j < |s[1..]| ensures s[1..][i].id != s[1..][j].id {
          assert s[1..][i] == s[i + 1] && s[1..][j] == s[j + 1];
        }
      }
      WhereKeepsIdsUnique(s[1..], cond);
      if cond(s[0]) {
        forall j | 0 <= j < |rest| ensures rest[j].id != s[0].id {
          WhereMember(s[1..], cond, rest[j]);
          var k :| 0 <= k < |s[1..]| && s[1..][k] == rest[j];
          assert s[k + 1] == rest[j];
        }
        var r := [s[0]] + rest;
        assert Where(s, cond) == r;
        forall i, j | 0 <= i < j < |r| ensures r[i].id != r[j].id {
          if i == 0 {
            assert r[j] == rest[j - 1];
          } else {
            assert r[i] == rest[i - 1] && r[j] == rest[j - 1];
          }
        }
      } else {
        assert Where(s, cond) == rest;
      }
    }
  }

  /** When every row but the one at `k` satisfies the condition, the selection
      is the table with exactly that row taken out. */
  lemma {:induction false} WhereDropsOne(s: seq<Link>, cond: Link -> bool, k: int)
    requires 0 <= k < |s|
    requires !cond(s[k])
    requires forall j :: 0 <= j < |s| && j != k ==> cond(s[j])
    ensures Where(s, cond) == s[..k] + s[k + 1..]
    decreases |s|
  {
    if k == 0 {
      WhereAll(s[1..], cond);
      assert s[k + 1..] == s[1..];
    } else {
      forall j | 0 <= j < |s[1..]| && j != k - 1 ensures cond(s[1..][j]) {
        assert s[1..][j] == s[j + 1];
      }
      WhereDropsOne(s[1..], cond, k - 1);
      assert s[1..][..k - 1] + s[1..][k..] == s[1..k] + s[k + 1..];
      assert [s[0]] + s[1..k] == s[..k];
    }
  }

  /** Selecting with a condition only the row at `k` satisfies gives that row. */
  lemma {:induction false} WhereSingle(s: seq<Link>, cond: Link -> bool, k: int)
    requires 0 <= k < |s| && cond(s[k])
    requires forall j :: 0 <= j < |s| && j != k ==> !cond(s[j])
    ensures Where(s, cond) == [s[k]]
    decreases |s|
  {
    if k == 0 {
      forall j | 0 <= j < |s[1..]| ensures !cond(s[1..][j]) {
        assert s[1..][j] == s[j + 1];
      }
      WhereNone(s[1..], cond);
    } else {
      forall j | 0 <= j < |s[1..]| && j != k - 1 ensures !cond(s[1..][j]) {
        assert s[1..][j] == s[j + 1];
      }
      WhereSingle(s[1..], cond, k - 1);
    }
  }

  /** Selecting rows that all satisfy the condition leaves the table as it is. */
  lemma {:induction false} WhereAll(s: seq<Link>, cond: Link -> bool)
    requires forall j :: 0 <= j < |s| ==> cond(s[j])
    ensures Where(s, cond) == s
    decreases |s|
  {
    if |s| > 0 {
      forall j | 0 <= j < |s[1..]| ensures cond(s[1..][j]) {
        assert s[1..][j] == s[j + 1];
      }
      WhereAll(s[1..], cond);
      assert [s[0]] + s[1..] == s;
    }
  }

  /** `duplicate key value violates unique constraint`: the driver error, SQLSTATE 23505, an insert of a taken id raises. */
  const UniqueViolation: Exception := RuntimeError("PostgresError", "duplicate key value violates unique constraint")

  /** Appending a row with a fresh id keeps ids unique. */
  lemma AppendKeepsIdsUnique(s: seq<Link>, x: Link)
    requires LinkIdsUnique(s) && !HasId(s, x.id)
    ensures LinkIdsUnique(s + [x])
  {
    var r := s + [x];
    forall i, j | 0 <= i < j < |r| ensures r[i].id != r[j].id {
      if j == |s| {
        assert r[i] == s[i];
      } else {
        assert r[i] == s[i] && r[j] == s[j];
      }
    }
  }

  /** The users table after `UPDATE users SET apiKey, apiKeySalt, updatedAt WHERE id = uid`. */
  function StoreApiKey(s: seq<User>, uid: string, apiKey: string, salt: string, now: int): (r: seq<User>)
    ensures |r| == |s|
    ensures forall i :: 0 <= i < |s| && s[i].id != uid ==> r[i] == s[i]
    ensures forall i :: 0 <= i < |s| && s[i].id == uid ==>
              r[i] == User(uid, Some(apiKey), Some(salt), now)
  {
    seq(|s|, i requires 0 <= i < |s| =>
      if s[i].id == uid then s[i].(apiKey := Some(apiKey), apiKeySalt := Some(salt), updatedAt := now) else s[i])
  }

  class Database {
    var shortUrls: seq<Link>
    var users: seq<User>

    /** The primary keys of both tables hold. */
    ghost predicate Valid()
      reads this
    {
      LinkIdsUnique(shortUrls) && UserIdsUnique(users)
    }

    constructor (links: seq<Link>, accounts: seq<User>)
      requires LinkIdsUnique(links) && UserIdsUnique(accounts)
      ensures Valid() && shortUrls == links && users == accounts
    {
      shortUrls := links;
      users := accounts;
    }

    /** `db.delete(shortUrls).where(cond)`. */
    method DeleteWhere(cond: Link -> bool)
      requires Valid()
      modifies this
      ensures Valid()
      ensures shortUrls == Without(old(shortUrls), cond)
      ensures users == old(users)
    {
      WhereKeepsIdsUnique(shortUrls, Not(cond));
      shortUrls := Without(shortUrls, cond);
    }

    /** `db.insert(shortUrls).values(row)`: fails, changing nothing, when the id is taken. */
    method Insert(row: Link) returns (ok: bool)
      requires Valid()
      modifies this
      ensures Valid()
      ensures ok == !HasId(old(shortUrls), row.id)
      ensures shortUrls == if ok then old(shortUrls) + [row] else old(shortUrls)
      ensures users == old(users)
    {
      ok := !HasId(shortUrls, row.id);
      if ok {
        AppendKeepsIdsUnique(shortUrls, row);
        shortUrls := shortUrls + [row];
      }
    }

    /** `db.update(shortUrls).set(change).where(cond)`: fails, changing nothing,
        when the updated table would hold two rows with one id. */
    method Update(cond: Link -> bool, change: Link -> Link) returns (ok: bool)
      requires Valid()
      modifies this
      ensures Valid()
      ensures ok == LinkIdsUnique(UpdateWhere(old(shortUrls), cond, change))
      ensures shortUrls == if ok then UpdateWhere(old(shortUrls), cond, change) else old(shortUrls)
      ensures users == old(users)
    {
      var next := UpdateWhere(shortUrls, cond, change);
      ok := LinkIdsUnique(next);
      if ok {
        shortUrls := next;
      }
    }

    /** `db.update(users).set({ apiKey, apiKeySalt, updatedAt }).where(eq(users.id, uid))`. */
    method SetApiKey(uid: string, apiKey: string, salt: string, now: int)
      requires Valid()
      modifies this
      ensures Valid()
      ensures users == StoreApiKey(old(users), uid, apiKey, salt, now)
      ensures shortUrls == old(shortUrls)
    {
      var next := StoreApiKey(users, uid, apiKey, salt, now);
      assert forall i :: 0 <= i < |users| ==> next[i].id == users[i].id;
      users := next;
    }
  }
}
