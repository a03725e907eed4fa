/** The `put`/`call` options matrix (`spx_options`): the at-the-money strike from the S&P 500
    daily snapshot, the monthly expiries of the first search, a five-strike ladder out of the
    money, and one row of bids per strike. The feed calls are the oracles of `Feed`; the table is
    returned as rows, before it is rendered. */
module OptionsChain {
  import opened Wrappers
  import opened Lists
  import opened Decimal
  import opened Feed

  /** The instrument whose snapshot gives the underlying's sell and buy prices. */
  const DailyTicker: string := "IX.D.SPTRD.DAILY.IP"

  /** The variant test `opt == 'Put'`; every other text takes the call branch. */
  predicate IsPut(opt: string) {
    opt == "Put"
  }

  /** `int((sell + buy) // 200 * 100)`, plus 100 off the put branch. */
  function AtmStrike(daily: Snapshot, opt: string): int {
    ((daily.sell + daily.buy) / 200.0).Floor * 100 + (if IsPut(opt) then 0 else 100)
  }

  /** The put strike is the highest multiple of 100 at or below the mid price; the call strike is
      the lowest multiple of 100 strictly above it. */
  lemma AtmStrikeBrackets(daily: Snapshot, opt: string)
    ensures AtmStrike(daily, opt) % 100 == 0
    ensures var mid := (daily.sell + daily.buy) / 2.0;
            var s := AtmStrike(daily, opt) as real;
            if IsPut(opt) then s <= mid < s + 100.0 else s - 100.0 <= mid < s
  {
    var f := ((daily.sell + daily.buy) / 200.0).Floor;
    assert f as real <= (daily.sell + daily.buy) / 200.0 < f as real + 1.0;
    assert (f * 100) as real == f as real * 100.0;
  }

  /** The number of values of Python's `range(start, stop, step)`. */
  function RangeLength(start: int, stop: int, step: int): nat
    requires step != 0
  {
    if step > 0 then (if start < stop then (stop - start - 1) / step + 1 else 0)
    else (if stop < start then (start - stop - 1) / (-step) + 1 else 0)
  }

  /** Python's `range(start, stop, step)` as a list. */
  function Range(start: int, stop: int, step: int): (r: seq<int>)
    requires step != 0
    ensures |r| == RangeLength(start, stop, step)
  {
    seq(RangeLength(start, stop, step), k => start + k * step)
  }

  /** An ascending range holds `start`, `start + step`, ... below `stop`, and the value after its
      last one is at or above `stop`. */
  lemma RangeAscending(start: int, stop: int, step: int)
    requires step > 0
    ensures var r := Range(start, stop, step);
            && (forall k :: 0 <= k < |r| ==> r[k] == start + k * step && start <= r[k] < stop)
            && start + |r| * step >= stop
  {
    var r := Range(start, stop, step);
    if start < stop {
      var q := (stop - start - 1) / step;
      assert q * step <= stop - start - 1;
      forall k | 0 <= k < |r| ensures start <= r[k] < stop {
        MulMonotone(k, q, step);
      }
      assert |r| * step == q * step + step;
    }
  }

  /** A descending range holds `start`, `start + step`, ... above `stop`, and the value after its
      last one is at or below `stop`. */
  lemma RangeDescending(start: int, stop: int, step: int)
    requires step < 0
    ensures var r := Range(start, stop, step);
            && (forall k :: 0 <= k < |r| ==> r[k] == start + k * step && stop < r[k] <= start)
            && start + |r| * step <= stop
  {
    var r := Range(start, stop, step);
    var d := -step;
    if stop < start {
      var q := (start - stop - 1) / d;
      assert q * d <= start - stop - 1;
      forall k | 0 <= k < |r| ensures stop < r[k] <= start {
        MulMonotone(k, q, d);
        assert r[k] == start - k * d;
      }
      assert |r| * d == q * d + d;
      assert |r| * step == -(|r| * d);
    }
  }

  lemma MulMonotone(k: nat, q: nat, d: nat)
    requires k <= q
    ensures 0 <= k * d <= q * d
  {
  }

  /** `range(strike, otm, step)`: towards the out-of-the-money side, 500 points in steps of 100. */
  function Ladder(strike: int, opt: string): seq<int> {
    if IsPut(opt) then Range(strike, strike - 500, -100) else Range(strike, strike + 500, 100)
  }

  /** The ladder has exactly five strikes, descending by 100 for a put and ascending by 100 for a
      call, starting at the at-the-money strike. */
  lemma LadderShape(strike: int, opt: string)
    ensures IsPut(opt) ==> Ladder(strike, opt) == [strike, strike - 100, strike - 200, strike - 300, strike - 400]
    ensures !IsPut(opt) ==> Ladder(strike, opt) == [strike, strike + 100, strike + 200, strike + 300, strike + 400]
  {
  }

  /** Every strike of the put ladder is at or below the mid price, every strike of the call ladder
      is above it, and the two ladders are the ten consecutive hundreds around it. */
  lemma LaddersAreOutOfTheMoney(daily: Snapshot)
    ensures var mid := (daily.sell + daily.buy) / 2.0;
            var puts := Ladder(AtmStrike(daily, "Put"), "Put");
            var calls := Ladder(AtmStrike(daily, "Call"), "Call");
            && (forall k :: 0 <= k < |puts| ==> puts[k] as real <= mid)
            && (forall k :: 0 <= k < |calls| ==> calls[k] as real > mid)
            && calls[0] == puts[0] + 100
  {
    var p := AtmStrike(daily, "Put");
    var c := AtmStrike(daily, "Call");
    AtmStrikeBrackets(daily, "Put");
    AtmStrikeBrackets(daily, "Call");
    assert !IsPut("Call");
    LadderShape(p, "Put");
    LadderShape(c, "Call");
  }

  /** `re.match(r"OP\.D\.SPX.\.\d\d\d\d[CP]\.IP", epic)`: a prefix match, where `.` is any
      character but a newline and `\d` a digit. */
  predicate MonthlyEpic(epic: string) {
    && |epic| >= 18
    && epic[..8] == "OP.D.SPX"
    && epic[8] != '\n'
    && epic[9] == '.'
    && IsDigit(epic[10]) && IsDigit(epic[11]) && IsDigit(epic[12]) && IsDigit(epic[13])
    && (epic[14] == 'C' || epic[14] == 'P')
    && epic[15..18] == ".IP"
  }

  /** The match looks at the first 18 characters only: whatever follows them is ignored. */
  lemma MonthlyEpicIsPrefixMatch(epic: string, rest: string)
    ensures MonthlyEpic(epic) <==> |epic| >= 18 && MonthlyEpic(epic[..18])
    ensures MonthlyEpic(epic) ==> MonthlyEpic(epic + rest)
  {
    if |epic| >= 18 {
      assert epic[..18][..8] == epic[..8];
      assert epic[..18][15..18] == epic[15..18];
    }
    if MonthlyEpic(epic) {
      var e := epic + rest;
      assert e[..8] == epic[..8];
      assert e[15..18] == epic[15..18];
    }
  }

  /** A monthly epic matches; a weekly one, a three-digit block and a missing `.IP` do not. */
  lemma MonthlyEpicExamples()
    ensures MonthlyEpic("OP.D.SPX3.4000P.IP")
    ensures MonthlyEpic("OP.D.SPXZ.4150C.IP.X")
    ensures !MonthlyEpic("OP.D.SPXWK1.4000P.IP")
    ensures !MonthlyEpic("OP.D.SPX3.400P.IP")
    ensures !MonthlyEpic("OP.D.SPX3.4000P.I")
    ensures !MonthlyEpic("OP.D.SPX\n.4000P.IP")
  {
    assert "OP.D.SPX3.4000P.IP"[..8] == "OP.D.SPX";
    assert "OP.D.SPX3.4000P.IP"[15..18] == ".IP";
    assert "OP.D.SPXZ.4150C.IP.X"[..8] == "OP.D.SPX";
    assert "OP.D.SPXZ.4150C.IP.X"[15..18] == ".IP";
    assert "OP.D.SPXWK1.4000P.IP"[9] == 'K';
    assert "OP.D.SPX3.400P.IP"[14] == '.';
  }

  /** `[option['expiry'] for option in data if monthly.match(option['epic'])]`. */
  function MonthlyExpiries(data: seq<Market>): seq<string> {
    if data == [] then []
    else (if MonthlyEpic(data[0].epic) then [data[0].expiry] else []) + MonthlyExpiries(data[1..])
  }

  /** The monthly expiries of a concatenation are those of each part, in result order. */
  lemma {:induction false} MonthlyExpiriesAppend(a: seq<Market>, b: seq<Market>)
    ensures MonthlyExpiries(a + b) == MonthlyExpiries(a) + MonthlyExpiries(b)
  {
    if a != [] {
      assert (a + b)[0] == a[0] && (a + b)[1..] == a[1..] + b;
      MonthlyExpiriesAppend(a[1..], b);
      var h := if MonthlyEpic(a[0].epic) then [a[0].expiry] else [];
      assert MonthlyExpiries(a + b) == h + MonthlyExpiries(a[1..] + b);
      assert MonthlyExpiries(a) == h + MonthlyExpiries(a[1..]);
    } else {
      assert a + b == b;
    }
  }

  /** An expiry is listed exactly when some monthly result carries it. */
  lemma {:induction false} MonthlyExpiriesMembers(data: seq<Market>, e: string)
    ensures e in MonthlyExpiries(data) <==> exists m :: m in data && MonthlyEpic(m.epic) && m.expiry == e
  {
    if data != [] {
      MonthlyExpiriesMembers(data[1..], e);
      assert data == [data[0]] + data[1..];
    }
  }

  /** `expiries[:3]`: the columns of the matrix. */
  function Expiries(data: seq<Market>): (r: seq<string>)
    ensures |r| <= 3
  {
    Take(MonthlyExpiries(data), 3)
  }

  /** The columns are the first three monthly expiries in result order, or all of them when there
      are fewer, and every one of them belongs to a monthly result. */
  lemma ExpiriesAreFirstMonthly(data: seq<Market>)
    ensures var all := MonthlyExpiries(data);
            && |Expiries(data)| == (if |all| < 3 then |all| else 3)
            && Expiries(data) == all[..|Expiries(data)|]
            && forall e :: e in Expiries(data) ==> exists m :: m in data && MonthlyEpic(m.epic) && m.expiry == e
  {
    forall e | e in Expiries(data)
      ensures exists m :: m in data && MonthlyEpic(m.epic) && m.expiry == e
    {
      MonthlyExpiriesMembers(data, e);
    }
  }

  /** The columns are not deduplicated: two monthly results with one expiry give two columns. */
  lemma ExpiriesKeepDuplicates()
    ensures var m := Market("OP.D.SPX3.4000P.IP", "DEC-24", 1.5, "US 500 4000 PUT");
            var w := Market("OP.D.SPXWK1.4000P.IP", "NOV-24", 0.5, "US 500 4000 PUT WEEKLY");
            Expiries([m, w, m]) == ["DEC-24", "DEC-24"]
  {
    var m := Market("OP.D.SPX3.4000P.IP", "DEC-24", 1.5, "US 500 4000 PUT");
    var w := Market("OP.D.SPXWK1.4000P.IP", "NOV-24", 0.5, "US 500 4000 PUT WEEKLY");
    MonthlyEpicExamples();
    assert [m, w, m][1..] == [w, m];
    assert [w, m][1..] == [m];
    assert [m][1..] == [];
  }

  /** `[option['bid'] for option in data if option['expiry'] == expiry]`. */
  function BidsFor(data: seq<Market>, expiry: string): seq<Option<real>> {
    var matching := WithExpiry(data, expiry);
    seq(|matching|, k requires 0 <= k < |matching| => Some(matching[k].bid))
  }

  /** One cell group of a row: every matching bid, or a single `None` when nothing matches. */
  function Cell(data: seq<Market>, expiry: string): seq<Option<real>> {
    var price := BidsFor(data, expiry);
    if price == [] then [None] else price
  }

  /** A cell group is `[None]` exactly when no result has that expiry; otherwise it has one bid,
      in result order, per result with that expiry. */
  lemma CellMeaning(data: seq<Market>, expiry: string)
    ensures var cell := Cell(data, expiry);
            var matching := WithExpiry(data, expiry);
            && (cell == [None] <==> forall m :: m in data ==> m.expiry != expiry)
            && |cell| == (if matching == [] then 1 else |matching|)
            && (matching != [] ==> forall k :: 0 <= k < |cell| ==> cell[k] == Some(matching[k].bid))
  {
    WithExpiryMembers(data, expiry);
    var matching := WithExpiry(data, expiry);
    if matching != [] {
      assert matching[0] in data;
      assert Cell(data, expiry)[0].Some?;
    }
  }

  /** `prices` after the first `n` expiries: their cell groups, concatenated. */
  function RowCells(data: seq<Market>, expiries: seq<string>, n: nat): seq<Option<real>>
    requires n <= |expiries|
  {
    if n == 0 then [] else RowCells(data, expiries, n - 1) + Cell(data, expiries[n - 1])
  }

  /** A cell group has one cell per result with its expiry, and one `None` when there is none. */
  lemma CellLength(data: seq<Market>, expiry: string)
    ensures |Cell(data, expiry)| == if WithExpiry(data, expiry) == [] then 1 else |WithExpiry(data, expiry)|
  {
  }

  /** A column's expiry is carried by at most one result of the search. */
  predicate SingleMatch(data: seq<Market>, expiry: string) {
    |WithExpiry(data, expiry)| <= 1
  }

  /** Each row has at least one cell per column, and exactly one per column precisely when no
      column's expiry is carried by two results. */
  lemma {:induction false} RowCellsLength(data: seq<Market>, expiries: seq<string>, n: nat)
    requires n <= |expiries|
    ensures |RowCells(data, expiries, n)| >= n
    ensures |RowCells(data, expiries, n)| == n <==> forall j :: 0 <= j < n ==> SingleMatch(data, expiries[j])
  {
    if n > 0 {
      RowCellsLength(data, expiries, n - 1);
      CellLength(data, expiries[n - 1]);
      var before := RowCells(data, expiries, n - 1);
      var cell := Cell(data, expiries[n - 1]);
      assert |RowCells(data, expiries, n)| == |before| + |cell|;
      assert |cell| == 1 <==> SingleMatch(data, expiries[n - 1]);
      if |before| == n - 1 && |cell| == 1 {
        assert forall j :: 0 <= j < n - 1 ==> SingleMatch(data, expiries[j]);
        forall j | 0 <= j < n ensures SingleMatch(data, expiries[j]) {
          if j == n - 1 {
            assert SingleMatch(data, expiries[n - 1]);
          }
        }
      } else if |before| != n - 1 {
        var j :| 0 <= j < n - 1 && !SingleMatch(data, expiries[j]);
      }
    }
  }

  /** The inner loop: extend `prices` with each expiry's cell group in column order. */
  method RowPrices(data: seq<Market>, expiries: seq<string>) returns (prices: seq<Option<real>>)
    ensures prices == RowCells(data, expiries, |expiries|)
  {
    prices := [];
    for j := 0 to |expiries|
      invariant prices == RowCells(data, expiries, j)
    {
      var price := BidsFor(data, expiries[j]);
      if price == [] {
        price := [None];
      }
      prices := prices + price;
    }
  }

  /** A row of the matrix: `[s] + prices`. */
  datatype Row = Row(strike: int, cells: seq<Option<real>>)

  /** What `spx_options` hands to `tabulate`, with the mid price printed under it. */
  datatype Chain = Chain(header: seq<string>, rows: seq<Row>, spx: real)

  /** `(sell + buy) * 100 // 2 / 100`. */
  function Mid(daily: Snapshot): real {
    ((daily.sell + daily.buy) * 100.0 / 2.0).Floor as real / 100.0
  }

  /** The printed mid price is the true mid cut down to whole hundredths, not rounded. */
  lemma MidTruncates(daily: Snapshot)
    ensures var mid := (daily.sell + daily.buy) / 2.0;
            Mid(daily) <= mid < Mid(daily) + 0.01
    ensures (Mid(daily) * 100.0).Floor as real == Mid(daily) * 100.0
  {
    var f := ((daily.sell + daily.buy) * 100.0 / 2.0).Floor;
    assert f as real <= (daily.sell + daily.buy) * 100.0 / 2.0 < f as real + 1.0;
    assert Mid(daily) * 100.0 == f as real;
  }

  /** Row `k` of the matrix: its strike and the cells read from its search answer. The first row
      reuses the search that fixed the columns; row `k > 0` reads the `k`-th search, made for its
      own strike. */
  function LadderRow(search: Search, opt: string, first: seq<Market>, ladder: seq<int>, expiries: seq<string>, k: nat): Row
    requires k < |ladder|
  {
    var data := if k == 0 then first else search(k, SearchQuery(ladder[k], opt));
    Row(ladder[k], RowCells(data, expiries, |expiries|))
  }

  /** `table` after the first `n` strikes of the ladder. */
  function Rows(search: Search, opt: string, first: seq<Market>, ladder: seq<int>, expiries: seq<string>, n: nat): (r: seq<Row>)
    requires n <= |ladder|
  {
    seq(n, k requires 0 <= k < n => LadderRow(search, opt, first, ladder, expiries, k))
  }

  /** One more strike of the ladder appends its row. */
  lemma RowsStep(search: Search, opt: string, first: seq<Market>, ladder: seq<int>, expiries: seq<string>, k: nat)
    requires k < |ladder|
    ensures Rows(search, opt, first, ladder, expiries, k + 1)
            == Rows(search, opt, first, ladder, expiries, k) + [LadderRow(search, opt, first, ladder, expiries, k)]
  {
    var longer := Rows(search, opt, first, ladder, expiries, k + 1);
    var shorter := Rows(search, opt, first, ladder, expiries, k);
    var appended := shorter + [LadderRow(search, opt, first, ladder, expiries, k)];
    forall j | 0 <= j < k + 1 ensures longer[j] == appended[j] {
      if j < k {
        assert appended[j] == shorter[j];
      }
    }
  }

  /** The matrix a call of `spx_options(opt)` builds from the feed's answers. */
  function ChainOf(opt: string, getPrice: GetPrice, search: Search): Chain {
    var daily := getPrice(DailyTicker);
    var strike := AtmStrike(daily, opt);
    var first := search(0, SearchQuery(strike, opt));
    var expiries := Expiries(first);
    var ladder := Ladder(strike, opt);
    Chain(["Strike"] + expiries, Rows(search, opt, first, ladder, expiries, |ladder|), Mid(daily))
  }

  /** Each row of `Rows` carries its ladder strike, reads the search answer of its own strike
      (the first row the answer that fixed the columns), and has at least one cell per column. */
  lemma RowsShape(search: Search, opt: string, first: seq<Market>, ladder: seq<int>, expiries: seq<string>)
    ensures var rows := Rows(search, opt, first, ladder, expiries, |ladder|);
            forall k :: 0 <= k < |rows| ==>
              && rows[k].strike == ladder[k]
              && rows[k].cells == RowCells(if k == 0 then first else search(k, SearchQuery(ladder[k], opt)), expiries, |expiries|)
              && |rows[k].cells| >= |expiries|
  {
    forall k | 0 <= k < |ladder| {
      RowCellsLength(if k == 0 then first else search(k, SearchQuery(ladder[k], opt)), expiries, |expiries|);
    }
  }

  /** The matrix: the header is "Strike" and the columns fixed by the first search; there is one
      row per strike of the five-strike ladder, in ladder order; the first row reads that first
      search and row `k` the `k`-th search, for its own strike; every row has at least one cell per
      column; and the mid price is the one `Mid` truncates. */
  lemma ChainShape(opt: string, getPrice: GetPrice, search: Search)
    ensures var c := ChainOf(opt, getPrice, search);
            var daily := getPrice(DailyTicker);
            var strike := AtmStrike(daily, opt);
            var first := search(0, SearchQuery(strike, opt));
            var expiries := Expiries(first);
            var ladder := Ladder(strike, opt);
            && c.header == ["Strike"] + expiries
            && |c.rows| == |ladder| == 5
            && (forall k :: 0 <= k < 5 ==> c.rows[k].strike == ladder[k])
            && c.rows[0].cells == RowCells(first, expiries, |expiries|)
            && (forall k :: 1 <= k < 5 ==>
                  c.rows[k].cells == RowCells(search(k, SearchQuery(ladder[k], opt)), expiries, |expiries|))
            && (forall k :: 0 <= k < 5 ==> |c.rows[k].cells| >= |expiries|)
            && c.spx == Mid(daily)
  {
    var daily := getPrice(DailyTicker);
    var strike := AtmStrike(daily, opt);
    var first := search(0, SearchQuery(strike, opt));
    LadderShape(strike, opt);
    RowsShape(search, opt, first, Ladder(strike, opt), Expiries(first));
  }

  /** `spx_options(opt)`: one snapshot, one search to fix the columns, then one row per strike of
      the ladder, each row after the first from a fresh search. */
  method SpxOptions(opt: string, getPrice: GetPrice, search: Search) returns (chain: Chain)
    ensures chain == ChainOf(opt, getPrice, search)
  {
    var daily := getPrice(DailyTicker);
    var strike := AtmStrike(daily, opt);
    var data := search(0, SearchQuery(strike, opt));
    ghost var first := data;
    var expiries := Expiries(data);
    var header := ["Strike"] + expiries;
    var table: seq<Row> := [];
    var otm, step;
    if IsPut(opt) {
      otm, step := strike - 500, -100;
    } else {
      otm, step := strike + 500, 100;
    }
    var ladder := Range(strike, otm, step);
    assert ladder == Ladder(strike, opt);
    var firstIter := true;
    for k := 0 to |ladder|
      invariant firstIter <==> k == 0
      invariant k == 0 ==> data == first
      invariant table == Rows(search, opt, first, ladder, expiries, k)
    {
      if !firstIter {
        data := search(k, SearchQuery(ladder[k], opt));
      } else {
        firstIter := false;
      }
      var prices := RowPrices(data, expiries);
      RowsStep(search, opt, first, ladder, expiries, k);
      table := table + [Row(ladder[k], prices)];
    }
    chain := Chain(header, table, Mid(daily));
  }

  /** The `put` command: `spx_options()`, the put matrix. */
  method PutCommand(getPrice: GetPrice, search: Search) returns (chain: Chain)
    ensures chain == ChainOf("Put", getPrice, search)
    ensures chain.rows[0].strike as real <= (getPrice(DailyTicker).sell + getPrice(DailyTicker).buy) / 2.0
  {
    chain := SpxOptions("Put", getPrice, search);
    ChainShape("Put", getPrice, search);
    AtmStrikeBrackets(getPrice(DailyTicker), "Put");
  }

  /** The `call` command: `spx_options('Call')`, the call matrix. */
  method CallCommand(getPrice: GetPrice, search: Search) returns (chain: Chain)
    ensures chain == ChainOf("Call", getPrice, search)
    ensures chain.rows[0].strike as real > (getPrice(DailyTicker).sell + getPrice(DailyTicker).buy) / 2.0
  {
    chain := SpxOptions("Call", getPrice, search);
    ChainShape("Call", getPrice, search);
    AtmStrikeBrackets(getPrice(DailyTicker), "Call");
  }
}
