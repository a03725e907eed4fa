/** Small runs of the alert engine on fixed data: the trigger's strict comparison, a deleted alert
    that still fires, the `IndexError` that ends a pass early, and a duplicate key. */
module Scenarios {
  import opened Wrappers
  import opened Feed
  import opened AlertDb
  import opened Polling
  import opened TradeCog

  /** A feed whose every search answers one quote, for that expiry at that bid. */
  function OneQuote(expiry: string, bid: real): Search {
    (k: nat, q: string) => [Market("OP.D.SPX3.4000P.IP", expiry, bid, "US 500 4000 PUT")]
  }

  /** One alert at level 52.0 on the December 4000 put. */
  function Watched(): Alert {
    Alert(1, 7, 52.0, "DEC-24", 4000)
  }

  /** A pass over a cache of one alert, quoted at `bid` for its expiry: it fires exactly when the
      bid is strictly above the level, and then the alert leaves both the cache and the table;
      an equal bid leaves everything as it was. */
  method OneAlertPass(a: Alert, bid: real) returns (notices: seq<Notice>, cache: seq<Alert>, rows: seq<Alert>)
    ensures bid > a.level ==> notices == [Notice(a.userId, a.expiry, a.strike, bid)] && cache == [] && rows == []
    ensures bid <= a.level ==> notices == [] && cache == [a] && rows == [a]
  {
    var feed := OneQuote(a.expiry, bid);
    var cog := new TradeCog(None);
    cog.CreateAlert(a.alertId, a.userId, a.level, a.expiry, a.strike);
    ghost var quotes := Quotes([a], feed);
    QuoteAt([a], feed, 0);
    assert WithExpiry(feed(0, PutQuery(a.strike)), a.expiry) == feed(0, PutQuery(a.strike));
    assert quotes == [Some(feed(0, PutQuery(a.strike))[0])];
    assert ReachFrom(quotes, 1) == 1;
    if bid > a.level {
      assert Notices([a], quotes, 1) == [Notice(a.userId, a.expiry, a.strike, bid)];
      assert CacheAfter([a], quotes, 1) == [];
      assert FiredIds([a], quotes, 1) == {a.alertId};
    } else {
      assert Notices([a], quotes, 1) == [] && CacheAfter([a], quotes, 1) == [a];
      assert FiredIds([a], quotes, 1) == {};
    }
    var outcome, queries;
    outcome, queries, notices := cog.BackgroundTask(feed);
    cache, rows := cog.alerts, cog.db.rows;
  }

  /** The trigger is strict: a bid equal to the level stays quiet, a cent above it fires. */
  method TriggerIsStrict() returns (quiet: seq<Notice>, loud: seq<Notice>)
    ensures quiet == [] && loud == [Notice(7, "DEC-24", 4000, 52.01)]
  {
    var c, r;
    quiet, c, r := OneAlertPass(Watched(), 52.0);
    loud, c, r := OneAlertPass(Watched(), 52.01);
  }

  /** `delete` as written: the row is gone but the cached tuple is not, so the next pass still
      notifies the owner of an alert they deleted. `DeleteSynced` does not. */
  method DeletedAlertStillFires() returns (asWritten: seq<Notice>, rowsLeft: seq<Alert>, synced: seq<Notice>)
    ensures rowsLeft == []
    ensures asWritten == [Notice(7, "DEC-24", 4000, 60.0)]
    ensures synced == []
  {
    var a := Watched();
    var cog := new TradeCog(Some([a]));
    cog.Delete(1, 7);
    assert cog.alerts == [a];
    var outcome, queries, notices := cog.BackgroundTask(OneQuote("DEC-24", 60.0));
    QuoteAt([a], OneQuote("DEC-24", 60.0), 0);
    asWritten, rowsLeft := notices, cog.db.rows;
    var fixed := new TradeCog(Some([a]));
    fixed.DeleteSynced(1, 7);
    assert fixed.alerts == [];
    outcome, queries, notices := fixed.BackgroundTask(OneQuote("DEC-24", 60.0));
    synced := notices;
  }

  /** A cog whose cache and table hold, in this order, an alert for November, which a feed that
      only knows December cannot quote, and `Watched()`. The alerts come from two `alert` commands,
      so their order in the cache is fixed, unlike the order in which a start-up load reads them. */
  method TwoAlerts() returns (cog: TradeCog)
    ensures fresh(cog) && fresh(cog.db) && cog.Valid()
    ensures cog.alerts == [Alert(2, 8, 10.0, "NOV-24", 4000), Watched()]
  {
    cog := new TradeCog(None);
    cog.CreateAlert(2, 8, 10.0, "NOV-24", 4000);
    cog.CreateAlert(1, 7, 52.0, "DEC-24", 4000);
  }

  /** As written, the first alert's `IndexError` ends the pass after one search: the second
      alert, whose quote is above its level, is not even searched. */
  method UnmatchedExpiryStopsPass() returns (outcome: Outcome, searches: nat, notices: seq<Notice>)
    ensures outcome == NoMatch(0)
    ensures searches == 1
    ensures notices == []
  {
    var feed := OneQuote("DEC-24", 60.0);
    var cog := TwoAlerts();
    var snap := cog.alerts;
    ghost var quotes := Quotes(snap, feed);
    QuoteAt(snap, feed, 0);
    assert WithExpiry(feed(0, PutQuery(4000)), "NOV-24") == [];
    assert quotes[0] == None;
    assert Reach(quotes) == 0;
    assert |Queries(snap, 1)| == 1;
    var queries;
    outcome, queries, notices := cog.BackgroundTask(feed);
    searches := |queries|;
  }

  /** Skipping the unmatched alert instead, the pass goes on and the second alert fires. */
  method UnmatchedExpiryIsSkipped() returns (notices: seq<Notice>)
    ensures notices == [Notice(7, "DEC-24", 4000, 60.0)]
  {
    var feed := OneQuote("DEC-24", 60.0);
    var cog := TwoAlerts();
    var snap := cog.alerts;
    ghost var quotes := Quotes(snap, feed);
    QuoteAt(snap, feed, 0);
    QuoteAt(snap, feed, 1);
    assert WithExpiry(feed(0, PutQuery(4000)), "NOV-24") == [];
    assert WithExpiry(feed(1, PutQuery(4000)), "DEC-24") == feed(1, PutQuery(4000));
    assert !Fires(quotes[0], snap[0]) && Fires(quotes[1], snap[1]);
    assert Notices(snap, quotes, 1) == [];
    var queries;
    queries, notices := cog.BackgroundTaskSkipping(feed);
  }

  /** A second `alert` with a key already in the table: the insert fails, the cache takes the
      tuple anyway, and cache and table no longer agree. */
  method DuplicateKeyIsCached() returns (cached: nat, stored: nat)
    ensures cached == 2 && stored == 1
  {
    var cog := new TradeCog(None);
    cog.CreateAlert(1, 7, 52.0, "DEC-24", 4000);
    assert HasId(cog.db.rows, 1) by {
      assert cog.db.rows[0] in cog.db.rows;
    }
    cog.CreateAlert(1, 7, 48.0, "DEC-24", 3900);
    cached, stored := |cog.alerts|, |cog.db.rows|;
  }
}
