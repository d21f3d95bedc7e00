// The history service (`historyPortfolio`, `historyAsset`): a daily grid,
// per-ticker cumulative quantities and prices forward-filled along the grid,
// their products summed per day, then the last value per bucket and a
// stride downsample.

module HistoryService {
  import opened Wrappers
  import opened Text
  import opened Calendar
  import opened Sorting
  import opened Tables
  import opened Series
  import opened Buckets

  // ---------------------------------------------------------------- date grid

  /**
   * `buildDateRange(startISO, endISO)` with the clock reading `today` as a
   * parameter. An empty or absent start means "start at end"; an empty or
   * absent end means today; a string `fromISO` cannot read, or one naming
   * a day past the last a `Date` can hold, gives an invalid date, which
   * compares false with everything, so no days.
   */
  function BuildDateRange(start: Option<string>, end: Option<string>, today: Day): (r: seq<Day>)
    ensures StrictlyAscending(r)
    ensures |r| > 0 ==> forall i :: 0 <= i < |r| ==> r[i] == r[0] + i
  {
    var last := if Truthy(end) then FromISO(end.value) else Some(today);
    var first := if Truthy(start) then FromISO(start.value) else last;
    if last.None? || first.None? then []
    else
      DayRangeShape(first.value, last.value);
      DayRange(first.value, last.value)
  }

  /** With readable bounds the grid is every day from start to end, both
    * included, and empty when start is after end. */
  lemma DateRangeBounds(start: string, end: string, today: Day)
    requires start != "" && end != "" && FromISO(start).Some? && FromISO(end).Some?
    ensures var r := BuildDateRange(Some(start), Some(end), today);
            var s, e := FromISO(start).value, FromISO(end).value;
            (s > e ==> r == []) &&
            (s <= e ==> |r| == e - s + 1 && r[0] == s && r[|r| - 1] == e) &&
            forall d: Day :: d in r <==> s <= d <= e
  {
    var s, e := FromISO(start).value, FromISO(end).value;
    var r := BuildDateRange(Some(start), Some(end), today);
    assert r == DayRange(s, e);
    DayRangeEnds(s, e);
  }

  lemma DayRangeEnds(s: Day, e: Day)
    ensures var r := DayRange(s, e);
            (s > e ==> r == []) &&
            (s <= e ==> |r| == e - s + 1 && r[0] == s && r[|r| - 1] == e) &&
            forall d: Day :: d in r <==> s <= d <= e
  {
    DayRangeShape(s, e);
  }

  /** Without a start the grid is the single day `end` (today by default). */
  lemma DateRangeWithoutStart(end: Option<string>, today: Day)
    requires !Truthy(end) || FromISO(end.value).Some?
    ensures BuildDateRange(None, end, today) ==
            [if Truthy(end) then FromISO(end.value).value else today]
  {
  }

  /** An end past the last day a JavaScript `Date` can hold is an Invalid
    * Date, so the grid is empty whatever the start. */
  lemma EndPastJsRangeGivesNoDays(start: Option<string>, ys: string, ms: string, ds: string, today: Day)
    requires |ys| >= 1 && |ms| >= 1 && |ds| >= 1
    requires AllDigits(ys) && AllDigits(ms) && AllDigits(ds)
    requires ValidDate(Date(DigitsValue(ys), DigitsValue(ms), DigitsValue(ds))) && DigitsValue(ys) >= 100
    requires DayNumber(Date(DigitsValue(ys), DigitsValue(ms), DigitsValue(ds))) > LastJsDay
    ensures BuildDateRange(start, Some(ys + "-" + ms + "-" + ds), today) == []
  {
    FromISOPieces(ys, ms, ds);
  }

  /** An unreadable start yields no days at all. */
  lemma DateRangeBadStart(start: string, end: Option<string>, today: Day)
    requires start != "" && FromISO(start).None?
    ensures BuildDateRange(Some(start), end, today) == []
  {
  }

  // ---------------------------------------------------------------- fetching

  /** `getOps(tickers, endISO)`: the operations on the listed tickers dated
    * no later than `end`, in table order. */
  function FetchOps(ops: seq<Operation>, universe: seq<string>, end: Day): (r: seq<Operation>)
    ensures forall o :: o in r <==> o in ops && o.ticker in universe && o.date <= end
  {
    if |ops| == 0 then []
    else
      var o := ops[0];
      var rest := FetchOps(ops[1..], universe, end);
      if o.ticker in universe && o.date <= end then [o] + rest else rest
  }

  /** `getPrices(tickers, endISO)`, likewise. */
  function FetchPrices(rows: seq<PriceRow>, universe: seq<string>, end: Day): (r: seq<PriceRow>)
    ensures forall p :: p in r <==> p in rows && p.ticker in universe && p.date <= end
  {
    if |rows| == 0 then []
    else
      var p := rows[0];
      var rest := FetchPrices(rows[1..], universe, end);
      if p.ticker in universe && p.date <= end then [p] + rest else rest
  }

  // ---------------------------------------------------------------- quantities

  /** `o.operation_type === "sell" ? -q : q`. */
  function SignedQuantity(o: Operation): real {
    if ServiceSide(o.operationType) == Sell then -o.quantity else o.quantity
  }

  /** The sort key of `ops.sort(by op_date)`. */
  function OpDateKey(o: Operation): Key {
    Key(o.date, 0)
  }

  /** A ticker's signed quantity counted when dated on or before `d`. */
  function UpTo(d: Day): Operation -> real {
    (o: Operation) => if o.date <= d then SignedQuantity(o) else 0.0
  }

  function OfTickerUpTo(t: string, d: Day): Operation -> real {
    (o: Operation) => if o.ticker == t && o.date <= d then SignedQuantity(o) else 0.0
  }

  /** The reference: ticker `t`'s net quantity over all operations dated on
    * or before `d`. */
  function HeldUpTo(ops: seq<Operation>, t: string, d: Day): real {
    SumOf(ops, OfTickerUpTo(t, d))
  }

  /** One group of `groupBy(ops, o => o.ticker)`, in order. */
  function TickerOps(ops: seq<Operation>, t: string): (r: seq<Operation>)
    ensures forall o :: o in r <==> o in ops && o.ticker == t
  {
    if |ops| == 0 then []
    else (if ops[0].ticker == t then [ops[0]] else []) + TickerOps(ops[1..], t)
  }

  /** `cumByDate`: at each operation's date, the running total reached after
    * that operation; a later operation on the same date overwrites. */
  function CumByDate(list: seq<Operation>): (m: map<Day, real>)
    ensures m.Keys == set o | o in list :: o.date
  {
    if |list| == 0 then map[]
    else
      var p := list[..|list| - 1];
      var o := list[|list| - 1];
      assert list == p + [o];
      CumByDate(p)[o.date := SumOf(list, SignedQuantity)]
  }

  /** The days with an event of ticker `t`, and their end-of-day totals. */
  function KnownQuantities(ops: seq<Operation>, t: string): map<Day, real> {
    CumByDate(TickerOps(SortBy(ops, OpDateKey), t))
  }

  /** `buildCumQuantities(ops, dates).get(t)` along the grid. */
  function QuantitySeries(ops: seq<Operation>, t: string, grid: seq<Day>): (r: seq<real>)
    ensures |r| == |grid|
  {
    ForwardFill(grid, KnownQuantities(ops, t))
  }

  lemma {:induction false} SumOfCons<T>(x: T, s: seq<T>, f: T -> real)
    ensures SumOf([x] + s, f) == f(x) + SumOf(s, f)
  {
    assert ([x] + s)[1..] == s;
  }

  lemma {:induction false} SumAllUpTo(list: seq<Operation>, d: Day)
    requires forall i :: 0 <= i < |list| ==> list[i].date <= d
    ensures SumOf(list, SignedQuantity) == SumOf(list, UpTo(d))
    decreases |list|
  {
    if |list| > 0 {
      SumAllUpTo(list[1..], d);
    }
  }

  /** On a date-sorted list, the value recorded for day `d` is the sum of
    * every operation dated on or before `d`. */
  lemma {:induction false} CumByDateRunningTotal(list: seq<Operation>, d: Day)
    requires SortedBy(list, OpDateKey) && d in CumByDate(list)
    ensures CumByDate(list)[d] == SumOf(list, UpTo(d))
    decreases |list|
  {
    var p := list[..|list| - 1];
    var x := list[|list| - 1];
    SumOfLast(list, UpTo(d));
    if x.date == d {
      forall i | 0 <= i < |list| ensures list[i].date <= d {
        DatedBeforeLast(list, i);
      }
      SumAllUpTo(list, d);
    } else {
      SortedDropLast(list, OpDateKey);
      DayBeforeLast(list, d);
      CumByDateRunningTotal(p, d);
    }
  }

  /** In a date-sorted list no operation is later than the last. */
  lemma DatedBeforeLast(list: seq<Operation>, i: int)
    requires SortedBy(list, OpDateKey) && 0 <= i < |list|
    ensures list[i].date <= list[|list| - 1].date
  {
    if i < |list| - 1 {
      assert KeyLe(OpDateKey(list[i]), OpDateKey(list[|list| - 1]));
    }
  }

  /** A day recorded before the last operation is not after its date. */
  lemma DayBeforeLast(list: seq<Operation>, d: Day)
    requires SortedBy(list, OpDateKey) && |list| > 0 && d in CumByDate(list[..|list| - 1])
    ensures d <= list[|list| - 1].date
  {
    var p := list[..|list| - 1];
    var o :| o in p && o.date == d;
    var m :| 0 <= m < |p| && p[m] == o;
    DatedBeforeLast(list, m);
  }

  lemma {:induction false} TickerOpsSum(s: seq<Operation>, t: string, d: Day)
    ensures SumOf(TickerOps(s, t), UpTo(d)) == SumOf(s, OfTickerUpTo(t, d))
    decreases |s|
  {
    if |s| > 0 {
      TickerOpsSum(s[1..], t, d);
      var rest := TickerOps(s[1..], t);
      if s[0].ticker == t {
        SumOfCons(s[0], rest, UpTo(d));
      } else {
        assert TickerOps(s, t) == rest;
      }
    }
  }

  lemma {:induction false} TickerOpsSorted(s: seq<Operation>, t: string)
    requires SortedBy(s, OpDateKey)
    ensures SortedBy(TickerOps(s, t), OpDateKey)
    decreases |s|
  {
    if |s| > 0 {
      assert SortedBy(s[1..], OpDateKey) by {
        forall a, b | 0 <= a < b < |s| - 1 ensures KeyLe(OpDateKey(s[1..][a]), OpDateKey(s[1..][b])) {
          assert s[1..][a] == s[a + 1] && s[1..][b] == s[b + 1];
        }
      }
      TickerOpsSorted(s[1..], t);
      var rest := TickerOps(s[1..], t);
      if s[0].ticker == t && |rest| > 0 {
        assert rest[0] in s[1..];
        var m :| 0 <= m < |s[1..]| && s[1..][m] == rest[0];
        assert s[m + 1] == rest[0];
        PrependSorted(s[0], rest, OpDateKey);
      }
    }
  }

  /** The day a ticker's quantity is recorded on holds exactly its net
    * quantity over all operations up to that day, whatever order the rows
    * came in. */
  lemma KnownQuantityIsHeld(ops: seq<Operation>, t: string, d: Day)
    requires d in KnownQuantities(ops, t)
    ensures KnownQuantities(ops, t)[d] == HeldUpTo(ops, t, d)
  {
    var sorted := SortBy(ops, OpDateKey);
    TickerOpsSorted(sorted, t);
    CumByDateRunningTotal(TickerOps(sorted, t), d);
    TickerOpsSum(sorted, t, d);
    SortBySum(ops, OpDateKey, OfTickerUpTo(t, d));
  }

  /** A day carries a recorded quantity exactly when an operation on the
    * ticker is dated that day. */
  lemma KnownQuantityDays(ops: seq<Operation>, t: string, d: Day)
    ensures d in KnownQuantities(ops, t) <==> exists o :: o in ops && o.ticker == t && o.date == d
  {
    var sorted := SortBy(ops, OpDateKey);
    if d in KnownQuantities(ops, t) {
      var o :| o in TickerOps(sorted, t) && o.date == d;
      SortByMember(ops, OpDateKey, o);
    }
    if exists o :: o in ops && o.ticker == t && o.date == d {
      var o :| o in ops && o.ticker == t && o.date == d;
      SortByMember(ops, OpDateKey, o);
      assert o in TickerOps(sorted, t);
    }
  }

  /** An event of ticker `t` on a grid day. */
  predicate EventOn(ops: seq<Operation>, t: string, d: Day) {
    exists o :: o in ops && o.ticker == t && o.date == d
  }

  /**
   * The quantity on grid day k: let j be the latest grid index at or before
   * k on whose day some operation of t falls; the quantity is the net
   * quantity of all operations dated up to grid[j], or 0 when there is no
   * such j. Operations before the grid count only once an in-grid event
   * brings them in.
   */
  lemma {:induction false} QuantityOnGridDay(ops: seq<Operation>, t: string, grid: seq<Day>, k: nat)
    requires k < |grid|
    ensures var j := LastKnownIndex(grid, KnownQuantities(ops, t), k);
            QuantitySeries(ops, t, grid)[k] == (if j < 0 then 0.0 else HeldUpTo(ops, t, grid[j])) &&
            (j >= 0 ==> EventOn(ops, t, grid[j])) &&
            (forall i :: j < i <= k ==> !EventOn(ops, t, grid[i]))
  {
    var known := KnownQuantities(ops, t);
    var j := LastKnownIndex(grid, known, k);
    ForwardFillLooksBack(grid, known, k);
    if j >= 0 {
      KnownQuantityIsHeld(ops, t, grid[j]);
      KnownQuantityDays(ops, t, grid[j]);
    }
    forall i | j < i <= k ensures !EventOn(ops, t, grid[i]) {
      KnownQuantityDays(ops, t, grid[i]);
    }
  }

  /** Holdings bought before the grid and untouched inside it read as 0. */
  lemma PreGridQuantityNotCarried(ops: seq<Operation>, t: string, grid: seq<Day>, k: nat)
    requires k < |grid| && StrictlyAscending(grid)
    requires forall o :: o in ops && o.ticker == t ==> o.date < grid[0]
    ensures QuantitySeries(ops, t, grid)[k] == 0.0
  {
    QuantityOnGridDay(ops, t, grid, k);
  }

  // ---------------------------------------------------------------- prices

  function PriceDateKey(p: PriceRow): Key {
    Key(p.date, 0)
  }

  /** One group of `groupBy(prices, p => p.ticker)`, in order. */
  function TickerPrices(rows: seq<PriceRow>, t: string): (r: seq<PriceRow>)
    ensures forall p :: p in r <==> p in rows && p.ticker == t
  {
    if |rows| == 0 then []
    else (if rows[0].ticker == t then [rows[0]] else []) + TickerPrices(rows[1..], t)
  }

  /** `priceByDate`: each row sets its day's price, so the last row of a day
    * wins. */
  function PriceByDate(list: seq<PriceRow>): (m: map<Day, real>)
    ensures m.Keys == set p | p in list :: p.date
  {
    if |list| == 0 then map[]
    else
      var p := list[..|list| - 1];
      var x := list[|list| - 1];
      assert list == p + [x];
      PriceByDate(p)[x.date := x.closingPrice]
  }

  function KnownPrices(rows: seq<PriceRow>, t: string): map<Day, real> {
    PriceByDate(TickerPrices(SortBy(rows, PriceDateKey), t))
  }

  /** `buildForwardPrices(prices, dates).get(t)` along the grid. */
  function PriceSeries(rows: seq<PriceRow>, t: string, grid: seq<Day>): (r: seq<real>)
    ensures |r| == |grid|
  {
    ForwardFill(grid, KnownPrices(rows, t))
  }

  /** The reference: the rows of ticker `t` dated `d`, in table order. */
  function RowsOn(rows: seq<PriceRow>, t: string, d: Day): (r: seq<PriceRow>)
    ensures forall p :: p in r <==> p in rows && p.ticker == t && p.date == d
  {
    if |rows| == 0 then []
    else (if rows[0].ticker == t && rows[0].date == d then [rows[0]] else []) + RowsOn(rows[1..], t, d)
  }

  lemma {:induction false} RowsOnAppend(a: seq<PriceRow>, b: seq<PriceRow>, t: string, d: Day)
    ensures RowsOn(a + b, t, d) == RowsOn(a, t, d) + RowsOn(b, t, d)
    decreases |a|
  {
    if |a| > 0 {
      assert (a + b)[1..] == a[1..] + b;
      RowsOnAppend(a[1..], b, t, d);
    } else {
      assert a + b == b;
    }
  }

  /** On one ticker's rows, the price recorded for day `d` is that of the
    * last row dated `d`. */
  lemma {:induction false} PriceByDateIsLastRow(list: seq<PriceRow>, t: string, d: Day)
    requires forall p :: p in list ==> p.ticker == t
    requires d in PriceByDate(list)
    ensures |RowsOn(list, t, d)| > 0
    ensures PriceByDate(list)[d] == RowsOn(list, t, d)[|RowsOn(list, t, d)| - 1].closingPrice
    decreases |list|
  {
    var p := list[..|list| - 1];
    var x := list[|list| - 1];
    assert list == p + [x];
    RowsOnAppend(p, [x], t, d);
    assert RowsOn([x], t, d) == if x.date == d then [x] else [] by {
      assert [x][1..] == [];
    }
    if x.date != d {
      assert forall q :: q in p ==> q in list;
      PriceByDateIsLastRow(p, t, d);
    }
  }

  lemma {:induction false} RowsOnOfTicker(rows: seq<PriceRow>, t: string, d: Day)
    ensures RowsOn(TickerPrices(rows, t), t, d) == RowsOn(rows, t, d)
    decreases |rows|
  {
    if |rows| > 0 {
      RowsOnOfTicker(rows[1..], t, d);
      var rest := TickerPrices(rows[1..], t);
      if rows[0].ticker == t {
        assert ([rows[0]] + rest)[1..] == rest;
      } else {
        assert TickerPrices(rows, t) == rest;
      }
    }
  }

  lemma {:induction false} RowsOnOfDay(rows: seq<PriceRow>, t: string, d: Day)
    ensures RowsOn(WithKey(rows, PriceDateKey, Key(d, 0)), t, d) == RowsOn(rows, t, d)
    decreases |rows|
  {
    if |rows| > 0 {
      RowsOnOfDay(rows[1..], t, d);
      var rest := WithKey(rows[1..], PriceDateKey, Key(d, 0));
      if rows[0].date == d {
        assert Keep(rows[0], PriceDateKey, Key(d, 0)) == [rows[0]];
        assert ([rows[0]] + rest)[1..] == rest;
      } else {
        assert Keep(rows[0], PriceDateKey, Key(d, 0)) == [];
        assert WithKey(rows, PriceDateKey, Key(d, 0)) == rest;
      }
    }
  }

  /** A day carries a recorded price exactly when the ticker has a row that
    * day, and the price is that of the last such row in table order (the
    * sort by date is stable). */
  lemma {:induction false} KnownPriceIsLastRow(rows: seq<PriceRow>, t: string, d: Day)
    ensures d in KnownPrices(rows, t) <==> |RowsOn(rows, t, d)| > 0
    ensures d in KnownPrices(rows, t) ==>
              KnownPrices(rows, t)[d] == RowsOn(rows, t, d)[|RowsOn(rows, t, d)| - 1].closingPrice
  {
    var sorted := SortBy(rows, PriceDateKey);
    var list := TickerPrices(sorted, t);
    RowsOnOfTicker(sorted, t, d);
    RowsOnOfDay(sorted, t, d);
    RowsOnOfDay(rows, t, d);
    SortByStable(rows, PriceDateKey, Key(d, 0));
    assert RowsOn(list, t, d) == RowsOn(rows, t, d);
    if d in KnownPrices(rows, t) {
      PriceByDateIsLastRow(list, t, d);
    }
    if |RowsOn(rows, t, d)| > 0 {
      var p := RowsOn(list, t, d)[0];
      assert p in list && p.date == d;
    }
  }

  /** The price on grid day k is that of the latest grid day at or before k
    * with a price row for the ticker (its last row), or 0 when none. */
  lemma {:induction false} PriceOnGridDay(rows: seq<PriceRow>, t: string, grid: seq<Day>, k: nat)
    requires k < |grid|
    ensures var j := LastKnownIndex(grid, KnownPrices(rows, t), k);
            var on := if j < 0 then [] else RowsOn(rows, t, grid[j]);
            (j >= 0 ==> |on| > 0) &&
            PriceSeries(rows, t, grid)[k] == (if j < 0 then 0.0 else on[|on| - 1].closingPrice) &&
            (forall i :: j < i <= k ==> RowsOn(rows, t, grid[i]) == [])
  {
    var known := KnownPrices(rows, t);
    var j := LastKnownIndex(grid, known, k);
    ForwardFillLooksBack(grid, known, k);
    PriceOnKnownDay(rows, t, grid, j);
    NoRowsOnQuietDays(rows, t, grid, j, k);
  }

  /** The grid day found looking back carries the price of its last row. */
  lemma {:induction false} PriceOnKnownDay(rows: seq<PriceRow>, t: string, grid: seq<Day>, j: int)
    requires j < |grid| && (j >= 0 ==> grid[j] in KnownPrices(rows, t))
    ensures j >= 0 ==> var on := RowsOn(rows, t, grid[j]);
                       |on| > 0 && KnownPrices(rows, t)[grid[j]] == on[|on| - 1].closingPrice
  {
    if j >= 0 {
      KnownPriceIsLastRow(rows, t, grid[j]);
    }
  }

  /** The grid days passed over looking back have no price rows. */
  lemma {:induction false} NoRowsOnQuietDays(rows: seq<PriceRow>, t: string, grid: seq<Day>, j: int, k: nat)
    requires -1 <= j && k < |grid| && forall i :: j < i <= k ==> grid[i] !in KnownPrices(rows, t)
    ensures forall i :: j < i <= k ==> RowsOn(rows, t, grid[i]) == []
  {
    forall i | j < i <= k ensures RowsOn(rows, t, grid[i]) == [] {
      KnownPriceIsLastRow(rows, t, grid[i]);
    }
  }

  // ---------------------------------------------------------------- daily value

  /** `q * p` of one ticker on grid day k. */
  function ValueOn(t: string, ops: seq<Operation>, rows: seq<PriceRow>, grid: seq<Day>, k: nat): real
    requires k < |grid|
  {
    QuantitySeries(ops, t, grid)[k] * PriceSeries(rows, t, grid)[k]
  }

  /** `Σ_t q_t * p_t` on grid day k, over the universe in order (a ticker
    * listed twice counts twice). */
  function TotalOn(universe: seq<string>, ops: seq<Operation>, rows: seq<PriceRow>, grid: seq<Day>, k: nat): real
    requires k < |grid|
  {
    if |universe| == 0 then 0.0
    else
      var t := universe[|universe| - 1];
      TotalOn(universe[..|universe| - 1], ops, rows, grid, k) + ValueOn(t, ops, rows, grid, k)
  }

  /** The daily series: one point per grid day. */
  function Daily(universe: seq<string>, ops: seq<Operation>, rows: seq<PriceRow>, grid: seq<Day>): (r: seq<Point>)
    ensures |r| == |grid|
    ensures forall k :: 0 <= k < |grid| ==> r[k].date == grid[k] && r[k].value == TotalOn(universe, ops, rows, grid, k)
  {
    seq(|grid|, k requires 0 <= k < |grid| => Point(grid[k], TotalOn(universe, ops, rows, grid, k)))
  }

  /** The tickers of `current_assets`, each once. */
  function HeldTickers(ps: seq<Position>): (r: seq<string>)
    ensures forall t :: t in r <==> exists p :: p in ps && p.ticker == t
    ensures forall i, j :: 0 <= i < j < |r| ==> r[i] != r[j]
  {
    if |ps| == 0 then []
    else
      var rest := HeldTickers(ps[..|ps| - 1]);
      var t := ps[|ps| - 1].ticker;
      assert forall p :: p in ps[..|ps| - 1] ==> p in ps;
      assert forall p :: p in ps ==> p in ps[..|ps| - 1] || p == ps[|ps| - 1];
      if t in rest then rest else rest + [t]
  }

  /** `getUniverseTickers(tickers)`: an explicit non-empty list as given,
    * otherwise every ticker held. */
  function Universe(db: Db, tickers: seq<string>): (r: seq<string>)
    ensures |tickers| > 0 ==> r == tickers
    ensures |tickers| == 0 ==> forall t :: t in r <==> exists p :: p in db.currentAssets && p.ticker == t
  {
    if |tickers| > 0 then tickers else HeldTickers(db.currentAssets)
  }

  /** The query of the service. `maxPoints` is `Number(maxPoints)` when
    * given. */
  datatype Query = Query(
    start: Option<string>,
    end: Option<string>,
    tickers: seq<string>,
    group: Option<string>,
    maxPoints: Option<int>)

  /** A negative limit makes the stride loop run forever; every other
    * limit is accepted. */
  predicate ValidLimit(maxPoints: Option<int>) {
    maxPoints.None? || maxPoints.value >= 0
  }

  /** Step 6: regroup unless the group is "day", then downsample. */
  function Shape(daily: seq<Point>, group: Option<string>, maxPoints: Option<int>): (r: seq<Point>)
    requires ValidLimit(maxPoints)
    ensures |r| <= PointLimit(maxPoints) + 1
  {
    var n := PointLimit(maxPoints);
    var g := GroupName(group);
    if g != "day" then Downsample(RegroupLast(daily, BucketOf(ParseGrouping(g))), n)
    else Downsample(daily, n)
  }

  /** `historyPortfolio`. */
  function HistoryPortfolio(db: Db, q: Query, today: Day): (r: seq<Point>)
    requires ValidLimit(q.maxPoints)
    ensures BuildDateRange(q.start, q.end, today) == [] ==> r == []
    ensures Universe(db, q.tickers) == [] ==> r == []
    ensures |r| <= PointLimit(q.maxPoints) + 1
  {
    var grid := BuildDateRange(q.start, q.end, today);
    if |grid| == 0 then []
    else
      var universe := Universe(db, q.tickers);
      if |universe| == 0 then []
      else
        var end := grid[|grid| - 1];
        var ops := FetchOps(db.operations, universe, end);
        var rows := FetchPrices(db.prices, universe, end);
        Shape(Daily(universe, ops, rows, grid), q.group, q.maxPoints)
  }

  /** One ticker's value per grid day: its quantity times its price. */
  function TickerDaily(t: string, ops: seq<Operation>, rows: seq<PriceRow>, grid: seq<Day>): (r: seq<Point>)
    ensures |r| == |grid|
    ensures forall k :: 0 <= k < |grid| ==>
              r[k] == Point(grid[k], ValueOn(t, ops, rows, grid, k))
  {
    seq(|grid|, k requires 0 <= k < |grid| => Point(grid[k], ValueOn(t, ops, rows, grid, k)))
  }

  /** `historyAsset` for one ticker. */
  function HistoryAsset(db: Db, ticker: string, start: Option<string>, end: Option<string>,
                        group: Option<string>, maxPoints: Option<int>, today: Day): (r: seq<Point>)
    requires ValidLimit(maxPoints)
    ensures BuildDateRange(start, end, today) == [] ==> r == []
    ensures |r| <= PointLimit(maxPoints) + 1
  {
    var grid := BuildDateRange(start, end, today);
    if |grid| == 0 then []
    else
      var last := grid[|grid| - 1];
      var ops := FetchOps(db.operations, [ticker], last);
      var rows := FetchPrices(db.prices, [ticker], last);
      Shape(TickerDaily(ticker, ops, rows, grid), group, maxPoints)
  }

  /** `historyAsset` is `historyPortfolio` with the one ticker as the
    * explicit universe. */
  lemma AssetIsOneTickerPortfolio(db: Db, ticker: string, start: Option<string>, end: Option<string>,
                                  group: Option<string>, maxPoints: Option<int>, today: Day)
    requires ValidLimit(maxPoints)
    ensures HistoryAsset(db, ticker, start, end, group, maxPoints, today) ==
            HistoryPortfolio(db, Query(start, end, [ticker], group, maxPoints), today)
  {
    var grid := BuildDateRange(start, end, today);
    if |grid| > 0 {
      var last := grid[|grid| - 1];
      OneTickerDaily(ticker, FetchOps(db.operations, [ticker], last), FetchPrices(db.prices, [ticker], last), grid);
    }
  }

  lemma OneTickerDaily(ticker: string, ops: seq<Operation>, rows: seq<PriceRow>, grid: seq<Day>)
    ensures Daily([ticker], ops, rows, grid) == TickerDaily(ticker, ops, rows, grid)
  {
    var a, b := Daily([ticker], ops, rows, grid), TickerDaily(ticker, ops, rows, grid);
    forall k | 0 <= k < |grid| ensures a[k] == b[k] {
      assert [ticker][..0] == [];
      assert TotalOn([ticker], ops, rows, grid, k) == b[k].value;
    }
  }

  /** A group other than week, month or year gives the daily points,
    * downsampled. */
  lemma {:induction false} UnknownGroupIsDaily(daily: seq<Point>, group: Option<string>, maxPoints: Option<int>)
    requires ValidLimit(maxPoints) && StrictlyAscending(DatesOf(daily))
    requires GroupName(group) != "week" && GroupName(group) != "month" && GroupName(group) != "year"
    ensures Shape(daily, group, maxPoints) == Downsample(daily, PointLimit(maxPoints))
  {
    if GroupName(group) != "day" {
      RegroupDailyIsIdentity(daily);
    }
  }

  /** The daily points are dated by the grid, so they ascend strictly. */
  lemma DailyAscends(universe: seq<string>, ops: seq<Operation>, rows: seq<PriceRow>, grid: seq<Day>)
    requires StrictlyAscending(grid)
    ensures StrictlyAscending(DatesOf(Daily(universe, ops, rows, grid)))
  {
  }

  /** With a day grouping and a grid within the limit, the portfolio
    * history is the daily series itself: one point per grid day, valued at
    * the sum over the universe of quantity times price. */
  lemma PortfolioDailyPoints(db: Db, q: Query, today: Day)
    requires ValidLimit(q.maxPoints) && GroupName(q.group) == "day"
    requires var grid := BuildDateRange(q.start, q.end, today);
             |grid| > 0 && |grid| <= PointLimit(q.maxPoints) && |Universe(db, q.tickers)| > 0
    ensures var grid := BuildDateRange(q.start, q.end, today);
            var universe := Universe(db, q.tickers);
            var end := grid[|grid| - 1];
            var r := HistoryPortfolio(db, q, today);
            |r| == |grid| &&
            forall k :: 0 <= k < |grid| ==>
              r[k].date == grid[k] &&
              r[k].value == TotalOn(universe, FetchOps(db.operations, universe, end),
                                    FetchPrices(db.prices, universe, end), grid, k)
  {
  }

  /** Fetching only the universe up to the grid's end loses no operation
    * the grid can see. */
  lemma {:induction false} FetchKeepsHeld(ops: seq<Operation>, universe: seq<string>, end: Day, t: string, d: Day)
    requires t in universe && d <= end
    ensures HeldUpTo(FetchOps(ops, universe, end), t, d) == HeldUpTo(ops, t, d)
    decreases |ops|
  {
    if |ops| > 0 {
      FetchKeepsHeld(ops[1..], universe, end, t, d);
      var rest := FetchOps(ops[1..], universe, end);
      if ops[0].ticker in universe && ops[0].date <= end {
        SumOfCons(ops[0], rest, OfTickerUpTo(t, d));
      }
    }
  }

  /** Likewise for the price rows of a grid day. */
  lemma {:induction false} FetchKeepsRows(rows: seq<PriceRow>, universe: seq<string>, end: Day, t: string, d: Day)
    requires t in universe && d <= end
    ensures RowsOn(FetchPrices(rows, universe, end), t, d) == RowsOn(rows, t, d)
    decreases |rows|
  {
    if |rows| > 0 {
      FetchKeepsRows(rows[1..], universe, end, t, d);
      var rest := FetchPrices(rows[1..], universe, end);
      if rows[0].ticker in universe && rows[0].date <= end {
        assert ([rows[0]] + rest)[1..] == rest;
      }
    }
  }
}
