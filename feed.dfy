/** The price feed as the core sees it: `get_price` and `search_price` become oracle functions,
    and the two list comprehensions the core applies to a search answer are defined here. */
module Feed {
  import opened Decimal

  /** One entry of `search_price`'s `markets` list. */
  datatype Market = Market(epic: string, expiry: string, bid: real, instrumentName: string)

  /** The dictionary `get_price` builds from an instrument snapshot. */
  datatype Snapshot = Snapshot(name: string, expiry: string, sell: real, buy: real)

  /** `search(k, q)` is the feed's answer to the k-th search of one operation, whose query text is `q`. */
  type Search = (nat, string) -> seq<Market>

  /** `getPrice(t)` is the feed's snapshot of the instrument with code `t`. */
  type GetPrice = string -> Snapshot

  /** The query text `"US 500 {strike} {option}"`. */
  function SearchQuery(strike: int, option: string): string {
    "US 500 " + IntToString(strike) + " " + option
  }

  /** `[option for option in data if option['expiry'] == expiry]`. */
  function WithExpiry(data: seq<Market>, expiry: string): seq<Market> {
    if data == [] then []
    else (if data[0].expiry == expiry then [data[0]] else []) + WithExpiry(data[1..], expiry)
  }

  /** The filter keeps exactly the answers with that expiry. */
  lemma {:induction false} WithExpiryMembers(data: seq<Market>, expiry: string)
    ensures forall m :: m in WithExpiry(data, expiry) <==> m in data && m.expiry == expiry
  {
    if data != [] {
      WithExpiryMembers(data[1..], expiry);
      assert data == [data[0]] + data[1..];
    }
  }

  /** The head of the filtered list is the first result, in feed order, with that expiry. */
  lemma {:induction false} WithExpiryHead(data: seq<Market>, expiry: string)
    requires WithExpiry(data, expiry) != []
    ensures exists k :: 0 <= k < |data| && data[k] == WithExpiry(data, expiry)[0]
                        && forall j :: 0 <= j < k ==> data[j].expiry != expiry
  {
    if data[0].expiry != expiry {
      assert WithExpiry(data, expiry) == WithExpiry(data[1..], expiry);
      WithExpiryHead(data[1..], expiry);
      var k :| 0 <= k < |data[1..]| && data[1..][k] == WithExpiry(data[1..], expiry)[0]
               && forall j :: 0 <= j < k ==> data[1..][j].expiry != expiry;
      assert data[k + 1] == WithExpiry(data, expiry)[0];
      forall j | 0 <= j < k + 1 ensures data[j].expiry != expiry {
        if j > 0 { assert data[j] == data[1..][j - 1]; }
      }
    } else {
      assert data[0] == WithExpiry(data, expiry)[0];
    }
  }
}
