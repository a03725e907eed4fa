/** One pass of `background_task`, stated as functions of the cache at the start of the pass (the
    copy `alerts[:]`, here `snap`) and of the feed's answers. The k-th alert of the copy is the k-th
    one visited and the k-th search of the pass. */
module Polling {
  import opened Wrappers
  import opened Feed
  import opened Lists
  import opened AlertDb

  /** The query `"US 500 {strike} PUT"`. */
  function PutQuery(strike: int): string {
    SearchQuery(strike, "PUT")
  }

  /** What `result[0]` reads on the k-th visit: the first answer with the alert's expiry,
      or `None` where the source raises `IndexError`. */
  function Quote(search: Search, k: nat, a: Alert): Option<Market> {
    var result := WithExpiry(search(k, PutQuery(a.strike)), a.expiry);
    if result == [] then None else Some(result[0])
  }

  /** The quotes of the first n visits of a pass. */
  function QuotesUpTo(snap: seq<Alert>, search: Search, n: nat): (qs: seq<Option<Market>>)
    requires n <= |snap|
    ensures |qs| == n
  {
    if n == 0 then [] else QuotesUpTo(snap, search, n - 1) + [Quote(search, n - 1, snap[n - 1])]
  }

  /** The quotes of a whole pass, one per alert of the copy. */
  function Quotes(snap: seq<Alert>, search: Search): (qs: seq<Option<Market>>)
    ensures |qs| == |snap|
  {
    QuotesUpTo(snap, search, |snap|)
  }

  lemma {:induction false} QuotesUpToAt(snap: seq<Alert>, search: Search, n: nat, k: nat)
    requires k < n <= |snap|
    ensures QuotesUpTo(snap, search, n)[k] == Quote(search, k, snap[k])
  {
    if k < n - 1 {
      QuotesUpToAt(snap, search, n - 1, k);
    }
  }

  /** The k-th quote is what the k-th visit reads as `result[0]`. */
  lemma QuoteAt(snap: seq<Alert>, search: Search, k: nat)
    requires k < |snap|
    ensures Quotes(snap, search)[k] == Quote(search, k, snap[k])
  {
    QuotesUpToAt(snap, search, |snap|, k);
  }

  /** The trigger: the quoted bid is strictly above the alert's level. */
  predicate Fires(q: Option<Market>, a: Alert) {
    q.Some? && q.value.bid > a.level
  }

  /** The message sent to the owner: "<@!user> `{expiry} {strike}p` is at ${price}.". */
  datatype Notice = Notice(userId: int, expiry: string, strike: int, price: real)

  /** How a pass ends: after every alert, or at the `IndexError` of the visit with that index. */
  datatype Outcome = Completed | NoMatch(index: nat)

  /** The alerts among the first n visited that did not fire, in their order. */
  function Kept(snap: seq<Alert>, quotes: seq<Option<Market>>, n: nat): seq<Alert>
    requires n <= |snap| == |quotes|
  {
    if n == 0 then []
    else Kept(snap, quotes, n - 1) + (if Fires(quotes[n - 1], snap[n - 1]) then [] else [snap[n - 1]])
  }

  /** The alerts among the first n visited that fired, in their order. */
  function Fired(snap: seq<Alert>, quotes: seq<Option<Market>>, n: nat): seq<Alert>
    requires n <= |snap| == |quotes|
  {
    if n == 0 then []
    else Fired(snap, quotes, n - 1) + (if Fires(quotes[n - 1], snap[n - 1]) then [snap[n - 1]] else [])
  }

  /** The keys passed to `delete_alert` during the first n visits. */
  function FiredIds(snap: seq<Alert>, quotes: seq<Option<Market>>, n: nat): set<int>
    requires n <= |snap| == |quotes|
  {
    if n == 0 then {}
    else FiredIds(snap, quotes, n - 1) + (if Fires(quotes[n - 1], snap[n - 1]) then {snap[n - 1].alertId} else {})
  }

  function ReachFrom(quotes: seq<Option<Market>>, i: nat): (n: nat)
    requires i <= |quotes|
    requires forall k :: 0 <= k < i ==> quotes[k].Some?
    ensures i <= n <= |quotes|
    ensures forall k :: 0 <= k < n ==> quotes[k].Some?
    ensures n < |quotes| ==> quotes[n].None?
    decreases |quotes| - i
  {
    if i == |quotes| || quotes[i].None? then i else ReachFrom(quotes, i + 1)
  }

  /** The number of alerts a pass processes before it completes or raises: the index of the first
      alert whose search has no answer with its expiry, or all of them. */
  function Reach(quotes: seq<Option<Market>>): (n: nat)
    ensures n <= |quotes|
    ensures forall k :: 0 <= k < n ==> quotes[k].Some?
    ensures n < |quotes| ==> quotes[n].None?
  {
    ReachFrom(quotes, 0)
  }

  predicate Distinct(snap: seq<Alert>) {
    forall i, j :: 0 <= i < j < |snap| ==> snap[i] != snap[j]
  }

  /** The survivors are exactly the visited alerts that did not fire. */
  lemma {:induction false} KeptMembers(snap: seq<Alert>, quotes: seq<Option<Market>>, n: nat)
    requires n <= |snap| == |quotes|
    ensures forall x :: x in Kept(snap, quotes, n) <==>
                        exists k :: 0 <= k < n && snap[k] == x && !Fires(quotes[k], snap[k])
  {
    if n > 0 {
      KeptMembers(snap, quotes, n - 1);
    }
  }

  /** Every visited alert either fires or survives, never both and never neither. */
  lemma {:induction false} KeptAndFiredPartition(snap: seq<Alert>, quotes: seq<Option<Market>>, n: nat)
    requires n <= |snap| == |quotes|
    ensures multiset(Kept(snap, quotes, n)) + multiset(Fired(snap, quotes, n)) == multiset(snap[..n])
  {
    if n > 0 {
      KeptAndFiredPartition(snap, quotes, n - 1);
      var fires := Fires(quotes[n - 1], snap[n - 1]);
      var x := snap[n - 1];
      PrefixStep(snap, n);
      ShareOut(Kept(snap, quotes, n - 1), Fired(snap, quotes, n - 1),
               if fires then [] else [x], if fires then [x] else [], [x]);
    }
  }

  lemma PrefixStep<T>(s: seq<T>, n: nat)
    requires 0 < n <= |s|
    ensures multiset(s[..n]) == multiset(s[..n - 1]) + multiset([s[n - 1]])
  {
    assert s[..n] == s[..n - 1] + [s[n - 1]];
  }

  lemma SameMultiset<T>(x: seq<T>, y: seq<T>, z: seq<T>)
    requires x == y && multiset(y) == multiset(z)
    ensures multiset(x) == multiset(z)
  {
  }

  /** Appending the two halves of a split of `c` to two sequences adds `c` to their union. */
  lemma ShareOut<T>(k: seq<T>, f: seq<T>, a: seq<T>, b: seq<T>, c: seq<T>)
    requires multiset(a) + multiset(b) == multiset(c)
    ensures multiset(k + a) + multiset(f + b) == multiset(k) + multiset(f) + multiset(c)
  {
  }

  lemma {:induction false} FiredIdsOfFired(snap: seq<Alert>, quotes: seq<Option<Market>>, n: nat)
    requires n <= |snap| == |quotes|
    ensures forall a :: a in Fired(snap, quotes, n) ==> a.alertId in FiredIds(snap, quotes, n)
  {
    if n > 0 {
      FiredIdsOfFired(snap, quotes, n - 1);
    }
  }

  lemma {:induction false} FiredIdsAreVisited(snap: seq<Alert>, quotes: seq<Option<Market>>, n: nat)
    requires n <= |snap| == |quotes|
    ensures forall id :: id in FiredIds(snap, quotes, n) ==> exists k :: 0 <= k < n && snap[k].alertId == id
  {
    if n > 0 {
      FiredIdsAreVisited(snap, quotes, n - 1);
    }
  }

  lemma KeyNotKeptEarlier(snap: seq<Alert>, quotes: seq<Option<Market>>, n: nat)
    requires 0 < n <= |snap| == |quotes| && UniqueIds(snap)
    ensures forall b :: b in Kept(snap, quotes, n - 1) ==> b.alertId !in {snap[n - 1].alertId}
  {
    KeptMembers(snap, quotes, n - 1);
    forall b | b in Kept(snap, quotes, n - 1) ensures b.alertId !in {snap[n - 1].alertId} {
      var k :| 0 <= k < n - 1 && snap[k] == b && !Fires(quotes[k], snap[k]);
    }
  }

  lemma KeyNotLater(snap: seq<Alert>, n: nat)
    requires 0 < n <= |snap| && UniqueIds(snap)
    ensures forall b :: b in snap[n..] ==> b.alertId !in {snap[n - 1].alertId}
  {
    forall b | b in snap[n..] ensures b.alertId !in {snap[n - 1].alertId} {
      var k :| 0 <= k < |snap[n..]| && snap[n..][k] == b;
      assert snap[n + k] == b;
    }
  }

  /** Deleting a key carried only by `a` takes `a` out and keeps everything around it. */
  lemma DropOneKey(before: seq<Alert>, a: Alert, after: seq<Alert>)
    requires forall b :: b in before ==> b.alertId !in {a.alertId}
    requires forall b :: b in after ==> b.alertId !in {a.alertId}
    ensures WithoutIds(before + ([a] + after), {a.alertId}) == before + after
  {
    var one := {a.alertId};
    WithoutIdsKeepsAll(before, one);
    WithoutIdsKeepsAll(after, one);
    WithoutIdsAppend([a], after, one);
    assert WithoutIds([a], one) == [];
    assert WithoutIds([a] + after, one) == after;
    WithoutIdsAppend(before, [a] + after, one);
  }

  /** The visit with index n - 1 keeps "deleting the fired keys from the copy leaves the
      survivors and the alerts not yet visited". */
  lemma SurvivorsStep(snap: seq<Alert>, quotes: seq<Option<Market>>, n: nat)
    requires 0 < n <= |snap| == |quotes| && UniqueIds(snap)
    requires WithoutIds(snap, FiredIds(snap, quotes, n - 1)) == Kept(snap, quotes, n - 1) + snap[n - 1..]
    ensures WithoutIds(snap, FiredIds(snap, quotes, n)) == Kept(snap, quotes, n) + snap[n..]
  {
    var a := snap[n - 1];
    assert snap[n - 1..] == [a] + snap[n..];
    if Fires(quotes[n - 1], a) {
      KeyNotKeptEarlier(snap, quotes, n);
      KeyNotLater(snap, n);
      WithoutIdsTwice(snap, FiredIds(snap, quotes, n - 1), a.alertId);
      DropOneKey(Kept(snap, quotes, n - 1), a, snap[n..]);
    } else {
      assert FiredIds(snap, quotes, n) == FiredIds(snap, quotes, n - 1);
      assert Kept(snap, quotes, n) + snap[n..] == Kept(snap, quotes, n - 1) + snap[n - 1..];
    }
  }

  /** With unique keys, deleting the fired keys from the copy leaves exactly the new cache. */
  lemma {:induction false} SurvivorsAreUnfired(snap: seq<Alert>, quotes: seq<Option<Market>>, n: nat)
    requires n <= |snap| == |quotes| && UniqueIds(snap)
    ensures WithoutIds(snap, FiredIds(snap, quotes, n)) == Kept(snap, quotes, n) + snap[n..]
  {
    if n == 0 {
      WithoutIdsKeepsAll(snap, {});
    } else {
      SurvivorsAreUnfired(snap, quotes, n - 1);
      SurvivorsStep(snap, quotes, n);
    }
  }

  /** The cache/store invariant survives a pass: if the cache held the table's rows before, the new
      cache holds the rows left after the pass's deletes. */
  lemma CycleKeepsSync(snap: seq<Alert>, rows: seq<Alert>, quotes: seq<Option<Market>>, n: nat)
    requires n <= |snap| == |quotes| && UniqueIds(snap)
    requires multiset(snap) == multiset(rows)
    ensures multiset(Kept(snap, quotes, n) + snap[n..]) == multiset(WithoutIds(rows, FiredIds(snap, quotes, n)))
  {
    var ids := FiredIds(snap, quotes, n);
    SurvivorsAreUnfired(snap, quotes, n);
    forall x ensures multiset(WithoutIds(rows, ids))[x] == multiset(WithoutIds(snap, ids))[x] {
      WithoutIdsCount(rows, ids, x);
      WithoutIdsCount(snap, ids, x);
    }
    assert multiset(WithoutIds(rows, ids)) == multiset(WithoutIds(snap, ids));
  }

  /** At most one trigger per alert: after the pass, no fired key is left in the new cache or in
      the table, so no later pass can fire it again. */
  lemma RetiredAlertsAreGone(snap: seq<Alert>, rows: seq<Alert>, quotes: seq<Option<Market>>, n: nat)
    requires n <= |snap| == |quotes| && UniqueIds(snap)
    ensures forall a :: a in Fired(snap, quotes, n) ==>
              && !HasId(Kept(snap, quotes, n) + snap[n..], a.alertId)
              && !HasId(WithoutIds(rows, FiredIds(snap, quotes, n)), a.alertId)
  {
    var ids := FiredIds(snap, quotes, n);
    FiredIdsOfFired(snap, quotes, n);
    SurvivorsAreUnfired(snap, quotes, n);
    WithoutIdsMembers(snap, ids);
    WithoutIdsMembers(rows, ids);
  }

  /** The cache after the visit of the k-th alert of the copy: `list.remove` when it fires. */
  function NextCache(snap: seq<Alert>, quotes: seq<Option<Market>>, k: nat, cache: seq<Alert>): seq<Alert>
    requires k < |snap| == |quotes|
  {
    if Fires(quotes[k], snap[k]) then Remove(cache, snap[k]) else cache
  }

  /** The cache after the first i visits of a pass that started from the copy `snap`. */
  function CacheAfter(snap: seq<Alert>, quotes: seq<Option<Market>>, i: nat): seq<Alert>
    requires i <= |snap| == |quotes|
  {
    if i == 0 then snap else NextCache(snap, quotes, i - 1, CacheAfter(snap, quotes, i - 1))
  }

  /** The queries of the first n visits, in order. */
  function Queries(snap: seq<Alert>, n: nat): seq<string>
    requires n <= |snap|
  {
    if n == 0 then [] else Queries(snap, n - 1) + [PutQuery(snap[n - 1].strike)]
  }

  /** The notice for the k-th visit, when its alert fires: the owner, the alert and the bid. */
  function NoticeAt(snap: seq<Alert>, quotes: seq<Option<Market>>, k: nat): Notice
    requires k < |snap| == |quotes| && Fires(quotes[k], snap[k])
  {
    Notice(snap[k].userId, snap[k].expiry, snap[k].strike, quotes[k].value.bid)
  }

  /** The notices of the first n visits, in order. */
  function Notices(snap: seq<Alert>, quotes: seq<Option<Market>>, n: nat): seq<Notice>
    requires n <= |snap| == |quotes|
  {
    if n == 0 then []
    else Notices(snap, quotes, n - 1) + (if Fires(quotes[n - 1], snap[n - 1]) then [NoticeAt(snap, quotes, n - 1)] else [])
  }

  /** The visit with index n - 1 keeps the cache's contents equal to the survivors and the alerts
      not yet visited; in particular `list.remove` finds the alert it is given. */
  lemma CacheStepCount(snap: seq<Alert>, quotes: seq<Option<Market>>, n: nat, cache: seq<Alert>)
    requires 0 < n <= |snap| == |quotes|
    requires multiset(cache) == multiset(Kept(snap, quotes, n - 1) + snap[n - 1..])
    ensures snap[n - 1] in cache
    ensures multiset(NextCache(snap, quotes, n - 1, cache)) == multiset(Kept(snap, quotes, n) + snap[n..])
  {
    var a := snap[n - 1];
    assert snap[n - 1..] == [a] + snap[n..];
    assert Kept(snap, quotes, n - 1) + snap[n - 1..] == Kept(snap, quotes, n - 1) + [a] + snap[n..];
    assert multiset(cache)[a] > 0;
    if Fires(quotes[n - 1], a) {
      RemoveCount(cache, a);
      assert Kept(snap, quotes, n) == Kept(snap, quotes, n - 1);
    } else {
      assert Kept(snap, quotes, n) == Kept(snap, quotes, n - 1) + [a];
    }
  }

  /** Without duplicate tuples a visit also keeps the order: `list.remove` takes out the visited
      alert and no earlier one. */
  lemma CacheStepOrder(snap: seq<Alert>, quotes: seq<Option<Market>>, n: nat, cache: seq<Alert>)
    requires 0 < n <= |snap| == |quotes| && Distinct(snap)
    requires cache == Kept(snap, quotes, n - 1) + snap[n - 1..]
    ensures NextCache(snap, quotes, n - 1, cache) == Kept(snap, quotes, n) + snap[n..]
  {
    var a := snap[n - 1];
    var before := Kept(snap, quotes, n - 1);
    assert snap[n - 1..] == [a] + snap[n..];
    assert cache == before + [a] + snap[n..];
    if Fires(quotes[n - 1], a) {
      KeptMembers(snap, quotes, n - 1);
      RemoveFirstOccurrence(before, a, snap[n..]);
      assert Kept(snap, quotes, n) == before;
    } else {
      assert Kept(snap, quotes, n) == before + [a];
    }
  }

  /** The cache after n visits holds the survivors and the alerts not yet visited. */
  lemma {:induction false} CacheAfterCount(snap: seq<Alert>, quotes: seq<Option<Market>>, n: nat)
    requires n <= |snap| == |quotes|
    ensures multiset(CacheAfter(snap, quotes, n)) == multiset(Kept(snap, quotes, n) + snap[n..])
  {
    if n > 0 {
      CacheAfterCount(snap, quotes, n - 1);
      var cache := CacheAfter(snap, quotes, n - 1);
      CacheStepCount(snap, quotes, n, cache);
      SameMultiset(CacheAfter(snap, quotes, n), NextCache(snap, quotes, n - 1, cache), Kept(snap, quotes, n) + snap[n..]);
    }
  }

  /** ... in that order, when the copy has no duplicate tuples. */
  lemma {:induction false} CacheAfterOrder(snap: seq<Alert>, quotes: seq<Option<Market>>, n: nat)
    requires n <= |snap| == |quotes| && Distinct(snap)
    ensures CacheAfter(snap, quotes, n) == Kept(snap, quotes, n) + snap[n..]
  {
    if n > 0 {
      CacheAfterOrder(snap, quotes, n - 1);
      CacheStepOrder(snap, quotes, n, CacheAfter(snap, quotes, n - 1));
    }
  }

  /** `list.remove` never raises in a pass: the alert being visited is still in the cache. */
  lemma NextIsCached(snap: seq<Alert>, quotes: seq<Option<Market>>, i: nat)
    requires i < |snap| == |quotes|
    ensures snap[i] in CacheAfter(snap, quotes, i)
  {
    CacheAfterCount(snap, quotes, i);
    assert snap[i..] == [snap[i]] + snap[i + 1..];
    assert multiset(CacheAfter(snap, quotes, i))[snap[i]] > 0;
  }

  /** One visit, as the loop body performs it: the query is sent; an alert that fires is announced,
      removed from the cache and its key deleted from the table; nothing else changes. */
  lemma PassStep(snap: seq<Alert>, quotes: seq<Option<Market>>, rows0: seq<Alert>, i: nat)
    requires i < |snap| == |quotes|
    ensures Queries(snap, i + 1) == Queries(snap, i) + [PutQuery(snap[i].strike)]
    ensures CacheAfter(snap, quotes, i + 1) == NextCache(snap, quotes, i, CacheAfter(snap, quotes, i))
    ensures Fires(quotes[i], snap[i]) ==>
              && Notices(snap, quotes, i + 1) == Notices(snap, quotes, i) + [NoticeAt(snap, quotes, i)]
              && WithoutIds(rows0, FiredIds(snap, quotes, i + 1))
                 == WithoutIds(WithoutIds(rows0, FiredIds(snap, quotes, i)), {snap[i].alertId})
    ensures !Fires(quotes[i], snap[i]) ==>
              && Notices(snap, quotes, i + 1) == Notices(snap, quotes, i)
              && FiredIds(snap, quotes, i + 1) == FiredIds(snap, quotes, i)
  {
    if Fires(quotes[i], snap[i]) {
      WithoutIdsTwice(rows0, FiredIds(snap, quotes, i), snap[i].alertId);
    }
  }

  /** The k-th query sent is the one for the k-th alert of the copy. */
  lemma {:induction false} QueriesAt(snap: seq<Alert>, n: nat)
    requires n <= |snap|
    ensures |Queries(snap, n)| == n
    ensures forall k :: 0 <= k < n ==> Queries(snap, n)[k] == PutQuery(snap[k].strike)
  {
    if n > 0 {
      QueriesAt(snap, n - 1);
    }
  }

  /** One notice per alert that fired. */
  lemma {:induction false} NoticesCount(snap: seq<Alert>, quotes: seq<Option<Market>>, n: nat)
    requires n <= |snap| == |quotes|
    ensures |Notices(snap, quotes, n)| == |Fired(snap, quotes, n)|
  {
    if n > 0 {
      NoticesCount(snap, quotes, n - 1);
    }
  }

  /** The notices sent are the notices of the visits whose alert fired, with the bid that fired it. */
  lemma {:induction false} NoticesMembers(snap: seq<Alert>, quotes: seq<Option<Market>>, n: nat)
    requires n <= |snap| == |quotes|
    ensures forall m :: m in Notices(snap, quotes, n) <==>
              exists k :: 0 <= k < n && Fires(quotes[k], snap[k]) && m == NoticeAt(snap, quotes, k)
  {
    if n > 0 {
      NoticesMembers(snap, quotes, n - 1);
      var before := Notices(snap, quotes, n - 1);
      var after := Notices(snap, quotes, n);
      forall m | m in after ensures exists k :: 0 <= k < n && Fires(quotes[k], snap[k]) && m == NoticeAt(snap, quotes, k) {
        if m !in before {
          assert m == NoticeAt(snap, quotes, n - 1);
        }
      }
      forall k | 0 <= k < n && Fires(quotes[k], snap[k]) ensures NoticeAt(snap, quotes, k) in after {
        if k < n - 1 {
          assert NoticeAt(snap, quotes, k) in before;
        }
      }
    }
  }
}
