/** The SQLite `Alerts` table behind `Database`, as a class whose only state is whether the table
    exists and its rows. A statement that SQLite rejects (no such table, a repeated primary key)
    is logged by the source and changes nothing; a failed query returns `None`. Other failures of
    the database file (locked, read-only, corrupt) are not modelled: every statement on an existing
    table with a new key succeeds. */
module AlertDb {
  import opened Wrappers

  /** A row `(alert_id, user_id, level, expiry, strike)`; the cached alert tuples have the same shape. */
  datatype Alert = Alert(alertId: int, userId: int, level: real, expiry: string, strike: int)

  /** A row of `select alert_id, level, expiry, strike`. */
  datatype OwnAlert = OwnAlert(alertId: int, level: real, expiry: string, strike: int)

  function Project(a: Alert): OwnAlert {
    OwnAlert(a.alertId, a.level, a.expiry, a.strike)
  }

  /** `alert_id` is the primary key. */
  predicate UniqueIds(rows: seq<Alert>) {
    forall i, j :: 0 <= i < j < |rows| ==> rows[i].alertId != rows[j].alertId
  }

  predicate HasId(rows: seq<Alert>, id: int) {
    exists a :: a in rows && a.alertId == id
  }

  /** The rows that survive `delete ... where alert_id = k` for every `k` in `ids`. */
  function WithoutIds(rows: seq<Alert>, ids: set<int>): seq<Alert> {
    if rows == [] then []
    else (if rows[0].alertId in ids then [] else [rows[0]]) + WithoutIds(rows[1..], ids)
  }

  lemma {:induction false} WithoutIdsMembers(rows: seq<Alert>, ids: set<int>)
    ensures forall a :: a in WithoutIds(rows, ids) <==> a in rows && a.alertId !in ids
  {
    if rows != [] {
      WithoutIdsMembers(rows[1..], ids);
      assert rows == [rows[0]] + rows[1..];
    }
  }

  /** The rows that survive `delete ... where alert_id = id and user_id = user`. */
  function WithoutOwned(rows: seq<Alert>, id: int, user: int): seq<Alert> {
    if rows == [] then []
    else (if rows[0].alertId == id && rows[0].userId == user then [] else [rows[0]])
         + WithoutOwned(rows[1..], id, user)
  }

  /** Exactly the rows matching both key and owner go; a row with that key but another owner stays. */
  lemma {:induction false} WithoutOwnedMembers(rows: seq<Alert>, id: int, user: int)
    ensures forall a :: a in WithoutOwned(rows, id, user) <==> a in rows && !(a.alertId == id && a.userId == user)
  {
    if rows != [] {
      WithoutOwnedMembers(rows[1..], id, user);
      assert rows == [rows[0]] + rows[1..];
    }
  }

  /** `select alert_id, level, expiry, strike from Alerts where user_id = user`. */
  function OwnedBy(rows: seq<Alert>, user: int): seq<OwnAlert> {
    if rows == [] then []
    else (if rows[0].userId == user then [Project(rows[0])] else []) + OwnedBy(rows[1..], user)
  }

  /** The owner's listing holds the projection of each of the owner's rows and nothing else. */
  lemma {:induction false} OwnedByMembers(rows: seq<Alert>, user: int)
    ensures forall o :: o in OwnedBy(rows, user) <==> exists a :: a in rows && a.userId == user && Project(a) == o
  {
    if rows != [] {
      OwnedByMembers(rows[1..], user);
      assert forall a :: a in rows <==> a == rows[0] || a in rows[1..];
    }
  }

  lemma ConsUnique(a: Alert, rows: seq<Alert>)
    requires UniqueIds(rows)
    requires forall b :: b in rows ==> b.alertId != a.alertId
    ensures UniqueIds([a] + rows)
  {
    var s := [a] + rows;
    forall i, j | 0 <= i < j < |s| ensures s[i].alertId != s[j].alertId {
      if i > 0 { assert s[i] == rows[i - 1] && s[j] == rows[j - 1]; }
      else { assert s[j] in rows; }
    }
  }

  lemma TailUnique(rows: seq<Alert>)
    requires rows != [] && UniqueIds(rows)
    ensures UniqueIds(rows[1..])
    ensures forall b :: b in rows[1..] ==> b.alertId != rows[0].alertId
  {
    forall b | b in rows[1..] ensures b.alertId != rows[0].alertId {
      var j :| 0 <= j < |rows[1..]| && rows[1..][j] == b;
      assert rows[j + 1] == b;
    }
  }

  /** With unique keys every row occurs once. */
  lemma UniqueRowOnce(rows: seq<Alert>, p: nat)
    requires UniqueIds(rows) && p < |rows|
    ensures multiset(rows)[rows[p]] == 1
  {
    var x := rows[p];
    assert rows == rows[..p] + [x] + rows[p + 1..];
    forall i | 0 <= i < p ensures rows[..p][i] != x {
      assert rows[i].alertId != rows[p].alertId;
    }
    var after := rows[p + 1..];
    forall j | 0 <= j < |after| ensures after[j] != x {
      assert after[j] == rows[p + 1 + j] && rows[p + 1 + j].alertId != rows[p].alertId;
    }
    assert x !in rows[..p] && x !in after;
  }

  /** Unique keys are a property of the multiset of rows, so a cache that holds the table's rows
      in any order has unique keys too. */
  lemma SameRowsUnique(alerts: seq<Alert>, rows: seq<Alert>)
    requires UniqueIds(rows) && multiset(alerts) == multiset(rows)
    ensures UniqueIds(alerts)
  {
    forall i, j | 0 <= i < j < |alerts| ensures alerts[i].alertId != alerts[j].alertId {
      var x, y := alerts[i], alerts[j];
      assert x in multiset(rows) && y in multiset(rows);
      var p :| 0 <= p < |rows| && rows[p] == x;
      var q :| 0 <= q < |rows| && rows[q] == y;
      UniqueRowOnce(rows, p);
      assert alerts == alerts[..i] + [x] + alerts[i + 1..j] + [y] + alerts[j + 1..];
      assert multiset(alerts)[x] >= 1 + multiset([y])[x];
      assert x != y && p != q;
      if p < q { assert rows[p].alertId != rows[q].alertId; } else { assert rows[q].alertId != rows[p].alertId; }
    }
  }

  /** Deleting rows never creates a repeated key. */
  lemma {:induction false} WithoutIdsUnique(rows: seq<Alert>, ids: set<int>)
    requires UniqueIds(rows)
    ensures UniqueIds(WithoutIds(rows, ids))
  {
    if rows != [] {
      TailUnique(rows);
      WithoutIdsUnique(rows[1..], ids);
      WithoutIdsMembers(rows[1..], ids);
      if rows[0].alertId !in ids {
        ConsUnique(rows[0], WithoutIds(rows[1..], ids));
      }
    }
  }

  lemma {:induction false} WithoutOwnedUnique(rows: seq<Alert>, id: int, user: int)
    requires UniqueIds(rows)
    ensures UniqueIds(WithoutOwned(rows, id, user))
  {
    if rows != [] {
      TailUnique(rows);
      WithoutOwnedUnique(rows[1..], id, user);
      WithoutOwnedMembers(rows[1..], id, user);
      if !(rows[0].alertId == id && rows[0].userId == user) {
        ConsUnique(rows[0], WithoutOwned(rows[1..], id, user));
      }
    }
  }

  lemma {:induction false} WithoutIdsAppend(a: seq<Alert>, b: seq<Alert>, ids: set<int>)
    ensures WithoutIds(a + b, ids) == WithoutIds(a, ids) + WithoutIds(b, ids)
  {
    if a == [] {
      assert a + b == b;
    } else {
      var head := if a[0].alertId in ids then [] else [a[0]];
      assert (a + b)[0] == a[0];
      assert (a + b)[1..] == a[1..] + b;
      assert WithoutIds(a + b, ids) == head + WithoutIds(a[1..] + b, ids);
      WithoutIdsAppend(a[1..], b, ids);
      assert WithoutIds(a, ids) == head + WithoutIds(a[1..], ids);
    }
  }

  /** Deleting keys that no row has changes nothing. */
  lemma {:induction false} WithoutIdsKeepsAll(rows: seq<Alert>, ids: set<int>)
    requires forall a :: a in rows ==> a.alertId !in ids
    ensures WithoutIds(rows, ids) == rows
  {
    if rows != [] {
      assert rows[0] in rows;
      assert forall a :: a in rows[1..] ==> a in rows;
      WithoutIdsKeepsAll(rows[1..], ids);
      assert rows == [rows[0]] + rows[1..];
    }
  }

  /** Two deletes by key in a row are one delete of both keys. */
  lemma {:induction false} WithoutIdsTwice(rows: seq<Alert>, ids: set<int>, k: int)
    ensures WithoutIds(WithoutIds(rows, ids), {k}) == WithoutIds(rows, ids + {k})
  {
    if rows != [] {
      var head := if rows[0].alertId in ids then [] else [rows[0]];
      WithoutIdsAppend(head, WithoutIds(rows[1..], ids), {k});
      WithoutIdsTwice(rows[1..], ids, k);
      if head != [] { assert head[1..] == []; }
    }
  }

  /** Deleting a key that no row has leaves the table as it was. */
  lemma {:induction false} DeleteAbsentIsNoop(rows: seq<Alert>, k: int)
    requires !HasId(rows, k)
    ensures WithoutIds(rows, {k}) == rows
  {
    if rows != [] {
      assert rows[0] in rows;
      assert !HasId(rows[1..], k) by {
        forall a | a in rows[1..] ensures a.alertId != k { assert a in rows; }
      }
      DeleteAbsentIsNoop(rows[1..], k);
      assert rows == [rows[0]] + rows[1..];
    }
  }

  /** Deleting a present key removes exactly one row. */
  lemma {:induction false} DeletePresentRemovesOne(rows: seq<Alert>, k: int)
    requires UniqueIds(rows) && HasId(rows, k)
    ensures |WithoutIds(rows, {k})| == |rows| - 1
  {
    TailUnique(rows);
    if rows[0].alertId == k {
      DeleteAbsentIsNoop(rows[1..], k);
    } else {
      assert HasId(rows[1..], k) by {
        var a :| a in rows && a.alertId == k;
        assert a != rows[0];
        assert a in rows[1..] by { assert rows == [rows[0]] + rows[1..]; }
      }
      DeletePresentRemovesOne(rows[1..], k);
    }
  }

  /** Multiplicity of each alert after an owner-checked delete: the same filter applied to two
      orderings of the same rows keeps the same rows. */
  lemma {:induction false} WithoutOwnedCount(rows: seq<Alert>, id: int, user: int, x: Alert)
    ensures multiset(WithoutOwned(rows, id, user))[x]
            == if x.alertId == id && x.userId == user then 0 else multiset(rows)[x]
  {
    if rows != [] {
      WithoutOwnedCount(rows[1..], id, user, x);
      assert rows == [rows[0]] + rows[1..];
    }
  }

  lemma {:induction false} WithoutIdsCount(rows: seq<Alert>, ids: set<int>, x: Alert)
    ensures multiset(WithoutIds(rows, ids))[x] == if x.alertId in ids then 0 else multiset(rows)[x]
  {
    if rows != [] {
      WithoutIdsCount(rows[1..], ids, x);
      assert rows == [rows[0]] + rows[1..];
    }
  }

  class Database {
    /** Whether `create table if not exists Alerts` has taken effect on this database file. */
    var tableExists: bool
    var rows: seq<Alert>

    ghost predicate Valid()
      reads this
    {
      (tableExists || rows == []) && UniqueIds(rows)
    }

    /** Opening the database file: `stored` is its `Alerts` table, `None` when it has none. */
    constructor (stored: Option<seq<Alert>>)
      requires stored.Some? ==> UniqueIds(stored.value)
      ensures Valid()
      ensures tableExists == stored.Some?
      ensures rows == if stored.Some? then stored.value else []
    {
      tableExists := stored.Some?;
      rows := if stored.Some? then stored.value else [];
    }

    /** `create table if not exists`: idempotent, never touches existing rows. */
    method CreateAlertTable()
      requires Valid()
      modifies this
      ensures Valid() && tableExists && rows == old(rows)
    {
      tableExists := true;
    }

    /** An insert whose key is already taken, or with no table, fails and is only logged. */
    method InsertAlert(alertId: int, userId: int, level: real, expiry: string, strike: int)
      requires Valid()
      modifies this
      ensures Valid() && tableExists == old(tableExists)
      ensures rows == if old(tableExists) && !HasId(old(rows), alertId)
                      then old(rows) + [Alert(alertId, userId, level, expiry, strike)]
                      else old(rows)
    {
      if tableExists && !HasId(rows, alertId) {
        var row := Alert(alertId, userId, level, expiry, strike);
        forall i, j | 0 <= i < j < |rows + [row]| ensures (rows + [row])[i].alertId != (rows + [row])[j].alertId {
          if j == |rows| { assert rows[i] in rows; }
        }
        rows := rows + [row];
      }
    }

    /** `select * from Alerts`: every row, in no promised order; `None` when the query fails. */
    method SelectAlerts() returns (r: Option<seq<Alert>>)
      requires Valid()
      ensures r.Some? <==> tableExists
      ensures r.Some? ==> multiset(r.value) == multiset(rows)
    {
      if tableExists {
        r := Some(rows);
      } else {
        r := None;
      }
    }

    /** The query behind the `show` command. */
    method SelectMyAlerts(userId: int) returns (r: Option<seq<OwnAlert>>)
      requires Valid()
      ensures r.Some? <==> tableExists
      ensures r.Some? ==> multiset(r.value) == multiset(OwnedBy(rows, userId))
    {
      if tableExists {
        r := Some(OwnedBy(rows, userId));
      } else {
        r := None;
      }
    }

    method DeleteAlert(primaryKey: int)
      requires Valid()
      modifies this
      ensures Valid() && tableExists == old(tableExists)
      ensures rows == WithoutIds(old(rows), {primaryKey})
    {
      WithoutIdsUnique(rows, {primaryKey});
      rows := WithoutIds(rows, {primaryKey});
    }

    method DeleteMyAlert(primaryKey: int, userId: int)
      requires Valid()
      modifies this
      ensures Valid() && tableExists == old(tableExists)
      ensures rows == WithoutOwned(old(rows), primaryKey, userId)
    {
      WithoutOwnedUnique(rows, primaryKey, userId);
      rows := WithoutOwned(rows, primaryKey, userId);
    }
  }
}
