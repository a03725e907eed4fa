/** The cog's alert engine: the in-memory list `alerts` beside the `Alerts` table, the commands
    that change them, and one pass of the polling task. */
module TradeCog {
  import opened Wrappers
  import opened Lists
  import opened Expiry
  import opened Feed
  import opened AlertDb
  import opened Polling

  /** What `show` replies: the "No alerts found!" message, or the owner's rows for the table. */
  datatype ShowReply = NoAlerts | Listing(rows: seq<OwnAlert>)

  class TradeCog {
    var alerts: seq<Alert>
    const db: Database

    ghost predicate Valid()
      reads this, db
    {
      db.Valid()
    }

    /** The cache holds exactly the table's rows. The source keeps this only on some paths. */
    ghost predicate Synced()
      reads this, db
    {
      multiset(alerts) == multiset(db.rows)
    }

    /** Start-up: create the table if it is missing, then load every row into the cache. */
    constructor (stored: Option<seq<Alert>>)
      requires stored.Some? ==> UniqueIds(stored.value)
      ensures Valid() && Synced() && fresh(db)
      ensures db.tableExists
      ensures db.rows == if stored.Some? then stored.value else []
    {
      var store := new Database(stored);
      store.CreateAlertTable();
      var loaded := store.SelectAlerts();
      db := store;
      alerts := loaded.value;
    }

    /** The `alert` command body: insert, commit, append. The tuple is appended even when the
        insert failed because its key is taken. */
    method CreateAlert(messageId: int, authorId: int, level: real, expiry: string, strike: int)
      requires Valid()
      modifies this, db
      ensures Valid() && db.tableExists == old(db.tableExists)
      ensures alerts == old(alerts) + [Alert(messageId, authorId, level, expiry, strike)]
      ensures db.rows == if old(db.tableExists) && !HasId(old(db.rows), messageId)
                         then old(db.rows) + [Alert(messageId, authorId, level, expiry, strike)]
                         else old(db.rows)
      ensures old(Synced()) ==> (Synced() <==> db.tableExists && !HasId(old(db.rows), messageId))
    {
      db.InsertAlert(messageId, authorId, level, expiry, strike);
      alerts := alerts + [Alert(messageId, authorId, level, expiry, strike)];
      if !(db.tableExists && !HasId(old(db.rows), messageId)) {
        assert |multiset(alerts)| == |multiset(old(alerts))| + 1;
        assert db.rows == old(db.rows);
      }
    }

    /** The `alert` command as the command framework runs it: the `Expiry` converter first; when it
        raises `BadArgument` the body never runs and nothing changes. */
    method AlertCommand(messageId: int, authorId: int, level: real, month: string, today: Date, strike: int)
      returns (r: Result<Alert, BadArgument>)
      requires Valid() && ValidDate(today)
      modifies this, db
      ensures Valid()
      ensures r.Err? <==> Convert(month, today).Err?
      ensures r.Err? ==> r.error == Convert(month, today).error
                         && alerts == old(alerts) && db.rows == old(db.rows)
                         && db.tableExists == old(db.tableExists)
      ensures r.Ok? ==> r.value == Alert(messageId, authorId, level, Convert(month, today).value, strike)
                        && alerts == old(alerts) + [r.value]
                        && db.tableExists == old(db.tableExists)
                        && db.rows == if old(db.tableExists) && !HasId(old(db.rows), messageId)
                                      then old(db.rows) + [r.value]
                                      else old(db.rows)
    {
      var expiry := Convert(month, today);
      if expiry.Err? {
        return Err(expiry.error);
      }
      CreateAlert(messageId, authorId, level, expiry.value, strike);
      r := Ok(Alert(messageId, authorId, level, expiry.value, strike));
    }

    /** The `delete` command: only the table changes; the cached tuple stays. */
    method Delete(alertId: int, authorId: int)
      requires Valid()
      modifies db
      ensures Valid() && db.tableExists == old(db.tableExists)
      ensures alerts == old(alerts)
      ensures db.rows == WithoutOwned(old(db.rows), alertId, authorId)
    {
      db.DeleteMyAlert(alertId, authorId);
    }

    /** `delete` as the cache/store invariant requires it: the same filter applied to the cache. */
    method DeleteSynced(alertId: int, authorId: int)
      requires Valid()
      modifies this, db
      ensures Valid() && db.tableExists == old(db.tableExists)
      ensures alerts == WithoutOwned(old(alerts), alertId, authorId)
      ensures db.rows == WithoutOwned(old(db.rows), alertId, authorId)
      ensures old(Synced()) ==> Synced()
    {
      ghost var before := alerts;
      ghost var rowsBefore := db.rows;
      db.DeleteMyAlert(alertId, authorId);
      alerts := WithoutOwned(alerts, alertId, authorId);
      if multiset(before) == multiset(rowsBefore) {
        forall x ensures multiset(alerts)[x] == multiset(db.rows)[x] {
          WithoutOwnedCount(before, alertId, authorId, x);
          WithoutOwnedCount(rowsBefore, alertId, authorId, x);
        }
        assert multiset(alerts) == multiset(db.rows);
      }
    }

    /** The `show` command: a failed query and an empty listing both read as "no alerts". */
    method Show(authorId: int) returns (reply: ShowReply)
      requires Valid()
      ensures reply.NoAlerts? <==> !db.tableExists || OwnedBy(db.rows, authorId) == []
      ensures reply.Listing? ==> multiset(reply.rows) == multiset(OwnedBy(db.rows, authorId))
    {
      var r := db.SelectMyAlerts(authorId);
      if r.None? || r.value == [] {
        reply := NoAlerts;
      } else {
        reply := Listing(r.value);
      }
      assert r.Some? ==> |r.value| == |multiset(r.value)| == |multiset(OwnedBy(db.rows, authorId))|;
    }

    /** The body of the polling loop for one alert, the k-th of the pass: search for its strike,
        keep the answers with its expiry and read the first one's bid; when that bid is strictly
        above the level, announce it, `list.remove` the alert and delete its row. The quote is
        `None` where `result[0]` raises `IndexError`; nothing has changed then. */
    method Visit(search: Search, k: nat, alert: Alert) returns (quote: Option<Market>, notice: Option<Notice>)
      requires Valid()
      modifies this, db
      ensures Valid() && db.tableExists == old(db.tableExists)
      ensures quote == Quote(search, k, alert)
      ensures Fires(quote, alert) ==>
                && notice == Some(Notice(alert.userId, alert.expiry, alert.strike, quote.value.bid))
                && alerts == Remove(old(alerts), alert)
                && db.rows == WithoutIds(old(db.rows), {alert.alertId})
      ensures !Fires(quote, alert) ==> notice == None && alerts == old(alerts) && db.rows == old(db.rows)
    {
      var data := search(k, PutQuery(alert.strike));
      var result := WithExpiry(data, alert.expiry);
      if result == [] {
        return None, None;
      }
      quote := Some(result[0]);
      var price := result[0].bid;
      if price > alert.level {
        notice := Some(Notice(alert.userId, alert.expiry, alert.strike, price));
        alerts := Remove(alerts, alert);
        db.DeleteAlert(alert.alertId);
      } else {
        notice := None;
      }
    }

    /** One run of `background_task`. It walks the copy `alerts[:]`, visiting each alert in turn.
        The `IndexError` of an alert with no answer for its expiry ends the pass there. */
    method BackgroundTask(search: Search) returns (outcome: Outcome, queries: seq<string>, notices: seq<Notice>)
      requires Valid()
      modifies this, db
      ensures Valid() && db.tableExists == old(db.tableExists)
      ensures var snap := old(alerts);
              var quotes := Quotes(snap, search);
              var n := Reach(quotes);
              && outcome == (if n == |snap| then Completed else NoMatch(n))
              && queries == Queries(snap, if n == |snap| then n else n + 1)
              && notices == Notices(snap, quotes, n)
              && alerts == CacheAfter(snap, quotes, n)
              && multiset(alerts) == multiset(Kept(snap, quotes, n) + snap[n..])
              && (Distinct(snap) ==> alerts == Kept(snap, quotes, n) + snap[n..])
              && db.rows == WithoutIds(old(db.rows), FiredIds(snap, quotes, n))
      ensures old(Synced()) ==> Synced()
    {
      var snap := alerts;
      ghost var quotes := Quotes(snap, search);
      ghost var rows0 := db.rows;
      queries, notices := [], [];
      outcome := Completed;
      WithoutIdsKeepsAll(rows0, {});
      var i := 0;
      while i < |snap|
        invariant i <= |snap| && i <= Reach(quotes) && outcome == Completed
        invariant Valid() && db.tableExists == old(db.tableExists)
        invariant queries == Queries(snap, i) && notices == Notices(snap, quotes, i)
        invariant alerts == CacheAfter(snap, quotes, i)
        invariant db.rows == WithoutIds(rows0, FiredIds(snap, quotes, i))
      {
        QuoteAt(snap, search, i);
        PassStep(snap, quotes, rows0, i);
        queries := queries + [PutQuery(snap[i].strike)];
        var quote, notice := Visit(search, i, snap[i]);
        if quote.None? {
          outcome := NoMatch(i);
          break;
        }
        if notice.Some? {
          notices := notices + [notice.value];
        }
        i := i + 1;
      }
      assert Reach(quotes) == i;
      if multiset(snap) == multiset(rows0) {
        SameRowsUnique(snap, rows0);
      }
      PassEffects(snap, rows0, quotes, i);
    }

    /** A variant of the pass that skips an alert with no answer for its expiry and visits every
        alert of the copy. */
    method BackgroundTaskSkipping(search: Search) returns (queries: seq<string>, notices: seq<Notice>)
      requires Valid()
      modifies this, db
      ensures Valid() && db.tableExists == old(db.tableExists)
      ensures var snap := old(alerts);
              var quotes := Quotes(snap, search);
              var n := |snap|;
              && queries == Queries(snap, n)
              && notices == Notices(snap, quotes, n)
              && alerts == CacheAfter(snap, quotes, n)
              && multiset(alerts) == multiset(Kept(snap, quotes, n) + snap[n..])
              && (Distinct(snap) ==> alerts == Kept(snap, quotes, n) + snap[n..])
              && db.rows == WithoutIds(old(db.rows), FiredIds(snap, quotes, n))
      ensures old(Synced()) ==> Synced()
    {
      var snap := alerts;
      ghost var quotes := Quotes(snap, search);
      ghost var rows0 := db.rows;
      queries, notices := [], [];
      WithoutIdsKeepsAll(rows0, {});
      var i := 0;
      while i < |snap|
        invariant i <= |snap|
        invariant Valid() && db.tableExists == old(db.tableExists)
        invariant queries == Queries(snap, i) && notices == Notices(snap, quotes, i)
        invariant alerts == CacheAfter(snap, quotes, i)
        invariant db.rows == WithoutIds(rows0, FiredIds(snap, quotes, i))
      {
        QuoteAt(snap, search, i);
        PassStep(snap, quotes, rows0, i);
        queries := queries + [PutQuery(snap[i].strike)];
        var quote, notice := Visit(search, i, snap[i]);
        if notice.Some? {
          notices := notices + [notice.value];
        }
        i := i + 1;
      }
      if multiset(snap) == multiset(rows0) {
        SameRowsUnique(snap, rows0);
      }
      PassEffects(snap, rows0, quotes, i);
    }
  }

  /** What the cache and the table hold after n visits, and that they still agree when they agreed
      before and the keys were unique. */
  lemma PassEffects(snap: seq<Alert>, rows: seq<Alert>, quotes: seq<Option<Market>>, n: nat)
    requires n <= |snap| == |quotes|
    ensures multiset(CacheAfter(snap, quotes, n)) == multiset(Kept(snap, quotes, n) + snap[n..])
    ensures Distinct(snap) ==> CacheAfter(snap, quotes, n) == Kept(snap, quotes, n) + snap[n..]
    ensures UniqueIds(snap) && multiset(snap) == multiset(rows) ==>
            multiset(CacheAfter(snap, quotes, n)) == multiset(WithoutIds(rows, FiredIds(snap, quotes, n)))
  {
    CacheAfterCount(snap, quotes, n);
    if Distinct(snap) {
      CacheAfterOrder(snap, quotes, n);
    }
    if UniqueIds(snap) && multiset(snap) == multiset(rows) {
      CycleKeepsSync(snap, rows, quotes, n);
    }
  }
}
