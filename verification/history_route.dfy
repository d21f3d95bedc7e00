// GET /api/history/portfolio and /api/history/asset/:ticker: the same
// valuation pipeline as the history service, expressed as one SQL query per
// route. Each query is modelled by its meaning over the in-memory tables:
// a grid of tickers × days, the holdings and the latest price at or before
// each grid day, their products summed per day, then SUMMED per bucket.

module HistoryRoute {
  import opened Wrappers
  import opened Text
  import opened Calendar
  import opened Sorting
  import opened Tables
  import opened Series
  import opened Buckets
  import opened HistoryService

  // ---------------------------------------------------------------- parameters

  /** The query string; `maxPoints` is `Number(maxPoints || 100)`. */
  datatype RouteQuery = RouteQuery(
    group: Option<string>,
    start: Option<string>,
    end: Option<string>,
    tickers: Option<string>,
    maxPoints: Option<int>)

  /** The response: the points, or the 500 the handler sends when the query
    * fails (a start or end the `::date` cast refuses). */
  datatype Response = Served(points: seq<Point>) | Failed

  /** `bucketExpr(group)`: week, month or year in any letter case truncate to
    * that unit; everything else, absence included, keeps the day. */
  function BucketExpr(group: Option<string>): (g: Grouping)
    ensures g == Weekly <==> group.Some? && ToLower(group.value) == "week"
    ensures g == Monthly <==> group.Some? && ToLower(group.value) == "month"
    ensures g == Yearly <==> group.Some? && ToLower(group.value) == "year"
  {
    ParseGrouping(GroupName(group))
  }

  /** Upper- and lower-case spellings pick the same bucket. */
  lemma {:induction false} BucketExprIgnoresCase(s: string)
    ensures BucketExpr(Some(ToUpper(s))) == BucketExpr(Some(s))
  {
    ToLowerCaseInsensitive(s, "week");
    ToLowerCaseInsensitive(s, "month");
    ToLowerCaseInsensitive(s, "year");
  }

  /** The Kelvin sign lower-cases to k, so it spells the weekly bucket. */
  lemma KelvinSpellsWeek()
    ensures BucketExpr(Some("WEE" + [KelvinSign])) == Weekly
  {
  }

  /** One entry of the `tickers` list after `trim`, kept when non-empty. */
  function TrimmedNonEmpty(parts: seq<string>): (r: seq<string>)
    ensures forall t :: t in r <==> t != "" && exists p :: p in parts && Trim(p) == t
    ensures forall t :: t in r ==> Trim(t) == t
  {
    if |parts| == 0 then []
    else
      var rest := TrimmedNonEmpty(parts[1..]);
      TrimmedNonEmptyStep(parts, rest);
      TrimTwice(parts[0]);
      if Trim(parts[0]) == "" then rest else [Trim(parts[0])] + rest
  }

  lemma TrimmedNonEmptyStep(parts: seq<string>, rest: seq<string>)
    requires |parts| > 0
    requires forall t :: t in rest <==> t != "" && exists p :: p in parts[1..] && Trim(p) == t
    ensures forall t :: (t != "" && exists p :: p in parts && Trim(p) == t) <==>
              (t != "" && t == Trim(parts[0])) || t in rest
  {
    assert forall p :: p in parts <==> p == parts[0] || p in parts[1..];
  }

  lemma TrimTwice(s: string)
    ensures Trim(Trim(s)) == Trim(s)
  {
    TrimIdentity(Trim(s));
  }

  /** `(tickers || "").split(",").map(s => s.trim()).filter(Boolean)`. */
  function ParseTickers(tickers: Option<string>): (r: seq<string>)
    ensures forall t :: t in r ==> t != "" && Trim(t) == t
    ensures !Truthy(tickers) ==> r == []
  {
    if !Truthy(tickers) then [] else TrimmedNonEmpty(Split(tickers.value, ','))
  }

  /** A listed ticker reaches the filter exactly when some comma-separated
    * piece trims to it. */
  lemma {:induction false} ParseTickersMembers(tickers: string, t: string)
    requires tickers != ""
    ensures t in ParseTickers(Some(tickers)) <==>
              t != "" && exists p :: p in Split(tickers, ',') && Trim(p) == t
  {
  }

  /** `t_sel`: the distinct tickers of `current_assets`, kept only when listed
    * if a list was given. */
  function Selected(ps: seq<Position>, listed: seq<string>): (r: seq<string>)
    ensures forall t :: t in r <==>
              (exists p :: p in ps && p.ticker == t) && (|listed| == 0 || t in listed)
    ensures forall i, j :: 0 <= i < j < |r| ==> r[i] != r[j]
  {
    FilterListed(HeldTickers(ps), listed)
  }

  function FilterListed(ts: seq<string>, listed: seq<string>): (r: seq<string>)
    requires forall i, j :: 0 <= i < j < |ts| ==> ts[i] != ts[j]
    ensures forall t :: t in r <==> t in ts && (|listed| == 0 || t in listed)
    ensures forall i, j :: 0 <= i < j < |r| ==> r[i] != r[j]
  {
    if |ts| == 0 then []
    else
      var rest := FilterListed(ts[1..], listed);
      assert forall t :: t in ts <==> t == ts[0] || t in ts[1..];
      assert ts[0] !in ts[1..];
      if |listed| == 0 || ts[0] in listed then [ts[0]] + rest else rest
  }

  // ---------------------------------------------------------------- grid

  /** `MIN(op_date)` over some operations; None (NULL) when there are none. */
  function EarliestDate(ops: seq<Operation>): (r: Option<Day>)
    ensures r.None? <==> |ops| == 0
    ensures r.Some? ==> (exists o :: o in ops && o.date == r.value) &&
                        forall o :: o in ops ==> r.value <= o.date
  {
    if |ops| == 0 then None
    else
      var rest := EarliestDate(ops[1..]);
      assert forall o :: o in ops <==> o == ops[0] || o in ops[1..];
      if rest.None? || ops[0].date <= rest.value then Some(ops[0].date) else rest
  }

  /** The `bounds` and `dates` CTEs: from the start (or `fallback`, the
    * earliest operation) to the end (or today), every day. A start or end
    * the cast refuses fails the query; with no start at all the series is
    * empty. */
  function RouteGrid(start: Option<string>, end: Option<string>, fallback: Option<Day>, today: Day)
    : (r: Option<seq<Day>>)
    ensures r.None? <==> (Truthy(start) && DateLiteral(start.value).None?) ||
                         (Truthy(end) && DateLiteral(end.value).None?)
    ensures r.Some? ==> StrictlyAscending(r.value)
  {
    var s := if Truthy(start) then DateLiteral(start.value) else fallback;
    var e := if Truthy(end) then DateLiteral(end.value) else Some(today);
    if (Truthy(start) && s.None?) || e.None? then None
    else if s.None? then Some([])
    else
      DayRangeShape(s.value, e.value);
      Some(DayRange(s.value, e.value))
  }

  /** The grid covers exactly the days between its bounds; without a start
    * it begins at the fallback day, the earliest operation. */
  lemma RouteGridDays(start: Option<string>, end: Option<string>, fallback: Option<Day>, today: Day, d: Day)
    requires RouteGrid(start, end, fallback, today).Some?
    ensures var s := if Truthy(start) then DateLiteral(start.value) else fallback;
            var e := if Truthy(end) then DateLiteral(end.value).value else today;
            d in RouteGrid(start, end, fallback, today).value <==> s.Some? && s.value <= d <= e
  {
    var s := if Truthy(start) then DateLiteral(start.value) else fallback;
    var e := if Truthy(end) then DateLiteral(end.value) else Some(today);
    if s.Some? {
      DayRangeShape(s.value, e.value);
    }
  }

  // ---------------------------------------------------------------- latest day

  /** The `LATERAL (… WHERE date <= g ORDER BY date DESC LIMIT 1)` lookup:
    * the latest of `days` at or before `g`. */
  function LatestAtOrBefore(days: set<Day>, g: Day): (r: Option<Day>)
    ensures r.Some? ==> r.value in days && r.value <= g &&
                        forall d :: d in days && d <= g ==> d <= r.value
    ensures r.None? ==> forall d :: d in days ==> d > g
    decreases g
  {
    if g in days then Some(g)
    else if g == 0 then None
    else LatestAtOrBefore(days, g - 1)
  }

  // ---------------------------------------------------------------- holdings

  /** `CASE WHEN o.side='BUY' THEN q ELSE -q END`. */
  function RouteSigned(o: Operation): real {
    if RouteSide(o.side) == Buy then o.quantity else -o.quantity
  }

  function RouteUpTo(t: string, d: Day): Operation -> real {
    (o: Operation) => if o.ticker == t && o.date <= d then RouteSigned(o) else 0.0
  }

  /** `ops_cum` at day `e`: the running total of the per-day deltas of `t`
    * over every day up to `e`, that is, the signed quantities of all its
    * operations dated on or before `e`. */
  function CumQty(ops: seq<Operation>, t: string, e: Day): real {
    SumOf(ops, RouteUpTo(t, e))
  }

  /** The days of `ops_by_day` for ticker `t`. */
  function OpDays(ops: seq<Operation>, t: string): set<Day> {
    set o | o in ops && o.ticker == t :: o.date
  }

  /** `holdings`: the cumulative quantity on the latest operation day at or
    * before `g`, or 0. */
  function Holdings(ops: seq<Operation>, t: string, g: Day): real {
    match LatestAtOrBefore(OpDays(ops, t), g)
    case None => 0.0
    case Some(e) => CumQty(ops, t, e)
  }

  lemma {:induction false} NothingYetIsZero(ops: seq<Operation>, t: string, g: Day)
    requires forall o :: o in ops && o.ticker == t ==> o.date > g
    ensures SumOf(ops, RouteUpTo(t, g)) == 0.0
    decreases |ops|
  {
    if |ops| > 0 {
      assert forall o :: o in ops[1..] ==> o in ops;
      NothingYetIsZero(ops[1..], t, g);
    }
  }

  lemma {:induction false} QuietDaysAddNothing(ops: seq<Operation>, t: string, e: Day, g: Day)
    requires e <= g
    requires forall o :: o in ops && o.ticker == t && o.date <= g ==> o.date <= e
    ensures SumOf(ops, RouteUpTo(t, e)) == SumOf(ops, RouteUpTo(t, g))
    decreases |ops|
  {
    if |ops| > 0 {
      assert forall o :: o in ops[1..] ==> o in ops;
      QuietDaysAddNothing(ops[1..], t, e, g);
    }
  }

  /** The holdings on a grid day are the net signed quantity of every
    * operation of the ticker dated on or before that day, those before the
    * grid included. */
  lemma {:induction false} HoldingsAreNetUpTo(ops: seq<Operation>, t: string, g: Day)
    ensures Holdings(ops, t, g) == SumOf(ops, RouteUpTo(t, g))
  {
    match LatestAtOrBefore(OpDays(ops, t), g)
    case None =>
      forall o | o in ops && o.ticker == t ensures o.date > g {
        assert o.date in OpDays(ops, t);
      }
      NothingYetIsZero(ops, t, g);
    case Some(e) =>
      forall o | o in ops && o.ticker == t && o.date <= g ensures o.date <= e {
        assert o.date in OpDays(ops, t);
      }
      QuietDaysAddNothing(ops, t, e, g);
  }

  // ---------------------------------------------------------------- prices

  function PriceDays(rows: seq<PriceRow>, t: string): set<Day> {
    set p | p in rows && p.ticker == t :: p.date
  }

  /** `COALESCE(prices_ff.price, 0)`: the closing price of the latest row of
    * `t` dated on or before `g`, 0 when there is none. Among rows sharing
    * that date the first in table order is taken. */
  function PriceAt(rows: seq<PriceRow>, t: string, g: Day): (r: real)
    ensures (forall p :: p in rows && p.ticker == t ==> p.date > g) ==> r == 0.0
    ensures (exists p :: p in rows && p.ticker == t && p.date <= g) ==>
              exists e: Day :: e <= g && |RowsOn(rows, t, e)| > 0 && r == RowsOn(rows, t, e)[0].closingPrice &&
                forall p :: p in rows && p.ticker == t && p.date <= g ==> p.date <= e
  {
    match LatestAtOrBefore(PriceDays(rows, t), g)
    case None =>
      assert forall p :: p in rows && p.ticker == t ==> p.date in PriceDays(rows, t);
      0.0
    case Some(e) =>
      var p :| p in rows && p.ticker == t && p.date == e;
      assert p in RowsOn(rows, t, e);
      assert forall q :: q in rows && q.ticker == t ==> q.date in PriceDays(rows, t);
      var r := RowsOn(rows, t, e)[0].closingPrice;
      assert |RowsOn(rows, t, e)| > 0 && r == RowsOn(rows, t, e)[0].closingPrice &&
             forall p :: p in rows && p.ticker == t && p.date <= g ==> p.date <= e;
      r
  }

  // ---------------------------------------------------------------- per day

  /** `h.qty * COALESCE(pf.price, 0)` for one ticker and day. */
  function RouteValueOn(ops: seq<Operation>, rows: seq<PriceRow>, t: string, g: Day): real {
    Holdings(ops, t, g) * PriceAt(rows, t, g)
  }

  /** `per_day.total_value`: the sum over the selected tickers. */
  function DayTotal(universe: seq<string>, ops: seq<Operation>, rows: seq<PriceRow>, g: Day): real {
    if |universe| == 0 then 0.0
    else RouteValueOn(ops, rows, universe[0], g) + DayTotal(universe[1..], ops, rows, g)
  }

  /** `per_day`: one row per grid day when some ticker is selected, none
    * otherwise (the ticker × day grid is empty). */
  function PerDay(universe: seq<string>, ops: seq<Operation>, rows: seq<PriceRow>, grid: seq<Day>): (r: seq<Point>)
    ensures |universe| == 0 ==> r == []
    ensures |universe| > 0 ==> |r| == |grid|
    ensures |universe| > 0 ==>
              forall k :: 0 <= k < |grid| ==> r[k] == Point(grid[k], DayTotal(universe, ops, rows, grid[k]))
  {
    if |universe| == 0 then []
    else seq(|grid|, k requires 0 <= k < |grid| => Point(grid[k], DayTotal(universe, ops, rows, grid[k])))
  }

  /** The final `SELECT bucket, SUM(total_value) … GROUP BY 1 ORDER BY 1`,
    * then `downsample`. */
  function Pipeline(universe: seq<string>, db: Db, grid: seq<Day>, q: RouteQuery): (r: seq<Point>)
    requires ValidLimit(q.maxPoints)
    ensures |r| <= PointLimit(q.maxPoints) + 1
  {
    var daily := PerDay(universe, db.operations, db.prices, grid);
    Downsample(BucketTotals(daily, BucketOf(BucketExpr(q.group))), PointLimit(q.maxPoints))
  }

  /** GET /portfolio. */
  function PortfolioRoute(db: Db, q: RouteQuery, today: Day): (r: Response)
    requires ValidLimit(q.maxPoints)
    ensures r.Failed? <==> (Truthy(q.start) && DateLiteral(q.start.value).None?) ||
                           (Truthy(q.end) && DateLiteral(q.end.value).None?)
    ensures r.Served? && |db.operations| == 0 && !Truthy(q.start) ==> r.points == []
    ensures r.Served? ==> |r.points| <= PointLimit(q.maxPoints) + 1
  {
    match RouteGrid(q.start, q.end, EarliestDate(db.operations), today)
    case None => Failed
    case Some(grid) =>
      var universe := Selected(db.currentAssets, ParseTickers(q.tickers));
      Served(Pipeline(universe, db, grid, q))
  }

  /** GET /asset/:ticker, as the query evidently intends: the same pipeline
    * over the one (trimmed) ticker, held or not, with the grid starting by
    * default at that ticker's earliest operation. */
  function AssetRoute(db: Db, ticker: Option<string>, q: RouteQuery, today: Day): (r: Response)
    requires ValidLimit(q.maxPoints)
    ensures r.Failed? <==> (Truthy(q.start) && DateLiteral(q.start.value).None?) ||
                           (Truthy(q.end) && DateLiteral(q.end.value).None?)
    ensures r.Served? ==> |r.points| <= PointLimit(q.maxPoints) + 1
    ensures var t := if Truthy(ticker) then Trim(ticker.value) else "";
            r.Served? && !Truthy(q.start) && |TickerOps(db.operations, t)| == 0 ==> r.points == []
  {
    var t := if Truthy(ticker) then Trim(ticker.value) else "";
    match RouteGrid(q.start, q.end, EarliestDate(TickerOps(db.operations, t)), today)
    case None => Failed
    case Some(grid) => Served(Pipeline([t], db, grid, q))
  }

  // ---------------------------------------------------------------- the asset query as written

  /** An entry of a FROM clause: a relation and its optional alias. */
  datatype FromEntry = FromEntry(relation: string, alias: Option<string>)

  /** The name the rest of the query knows an entry by: once aliased, a
    * relation is reachable only through its alias (PostgreSQL manual,
    * section 7.2.1.2, "Table and Column Aliases"). */
  function VisibleName(e: FromEntry): (n: string)
    ensures e.alias.Some? ==> n == e.alias.value
    ensures e.alias.None? ==> n == e.relation
  {
    match e.alias
    case Some(a) => a
    case None => e.relation
  }

  /** A qualified column `q.col` resolves when some entry goes by `q`. */
  predicate Resolves(qualifier: string, from: seq<FromEntry>) {
    exists i :: 0 <= i < |from| && VisibleName(from[i]) == qualifier
  }

  predicate AllResolve(qualifiers: seq<string>, from: seq<FromEntry>) {
    forall i :: 0 <= i < |qualifiers| ==> Resolves(qualifiers[i], from)
  }

  /** The final SELECT reads `FROM per_day pd`. */
  const AssetFrom: seq<FromEntry> := [FromEntry("per_day", Some("pd"))]

  /** The qualifiers of the final SELECT as written, the same for every
    * grouping: each bucket expression reads `pd.date`, and the sum reads
    * `per_day.total_value`. */
  const AssetQualifiers: seq<string> := ["pd", "per_day"]

  /** The same SELECT with the sum reading `pd.total_value`. */
  const IntendedAssetQualifiers: seq<string> := ["pd", "pd"]

  /** GET /asset/:ticker as written: PostgreSQL resolves every column before
    * it runs a statement, so a reference that does not resolve fails the
    * query, and the catch answers 500; otherwise the answer is the one the
    * query intends. */
  function AssetRouteAsWritten(db: Db, ticker: Option<string>, q: RouteQuery, today: Day): (r: Response)
    requires ValidLimit(q.maxPoints)
    ensures !AllResolve(AssetQualifiers, AssetFrom) ==> r == Failed
    ensures r.Served? ==> r == AssetRoute(db, ticker, q, today)
  {
    if AllResolve(AssetQualifiers, AssetFrom) then AssetRoute(db, ticker, q, today)
    else Failed
  }

  /** As written, `per_day` is hidden behind its alias, so every request
    * fails, whatever the ticker, grouping and dates. */
  lemma AssetRouteAlwaysFails(db: Db, ticker: Option<string>, q: RouteQuery, today: Day)
    requires ValidLimit(q.maxPoints)
    ensures AssetRouteAsWritten(db, ticker, q, today) == Failed
  {
    assert !Resolves("per_day", AssetFrom) by {
      assert VisibleName(AssetFrom[0]) == "pd";
    }
    assert AssetQualifiers[1] == "per_day";
  }

  /** With the sum reading `pd.total_value` every column resolves, so the
    * route answers as AssetRoute does. */
  lemma IntendedAssetQueryResolves()
    ensures AllResolve(IntendedAssetQualifiers, AssetFrom)
  {
    assert VisibleName(AssetFrom[0]) == "pd";
  }

  // ---------------------------------------------------------------- properties

  /** Each returned bucket (before downsampling) holds the SUM of the daily
    * totals of its days, and every day with a total lands in a bucket. */
  lemma BucketsSumDays(universe: seq<string>, db: Db, grid: seq<Day>, g: Grouping)
    requires |universe| > 0
    ensures var daily := PerDay(universe, db.operations, db.prices, grid);
            var r := BucketTotals(daily, BucketOf(g));
            StrictlyAscending(DatesOf(r)) &&
            (forall i :: 0 <= i < |r| ==> r[i].value == BucketTotal(daily, BucketOf(g), r[i].date)) &&
            (forall k :: 0 <= k < |grid| ==> BucketStart(g, grid[k]) in DatesOf(r))
  {
    var daily := PerDay(universe, db.operations, db.prices, grid);
    forall k | 0 <= k < |grid| ensures BucketStart(g, grid[k]) in DatesOf(BucketTotals(daily, BucketOf(g))) {
      assert daily[k].date == grid[k];
    }
  }

  /** With day buckets over a grid of distinct days, a bucket's sum is the
    * single day's total. */
  lemma {:induction false} DayBucketIsDayTotal(s: seq<Point>, j: nat)
    requires StrictlyAscending(DatesOf(s)) && j < |s|
    ensures BucketTotal(s, BucketOf(Daily), s[j].date) == s[j].value
    decreases |s|
  {
    if j == 0 {
      OtherDaysAddNothing(s[1..], s[0].date);
    } else {
      assert DatesOf(s[1..]) == DatesOf(s)[1..];
      assert s[0].date < s[j].date;
      DayBucketIsDayTotal(s[1..], j - 1);
    }
  }

  lemma {:induction false} OtherDaysAddNothing(s: seq<Point>, d: Day)
    requires forall i :: 0 <= i < |s| ==> s[i].date > d
    ensures BucketTotal(s, BucketOf(Daily), d) == 0.0
    decreases |s|
  {
    if |s| > 0 {
      OtherDaysAddNothing(s[1..], d);
    }
  }

  /** Every ticker the route values is held, whatever the list asks for. */
  lemma OnlyHeldTickersValued(db: Db, q: RouteQuery, t: string)
    requires t in Selected(db.currentAssets, ParseTickers(q.tickers))
    ensures exists p :: p in db.currentAssets && p.ticker == t
  {
  }

  /** A ticker no position holds is valued by the asset route but not by
    * the portfolio route, even when the list names it. */
  lemma {:induction false} UnheldTickerNotSelected(db: Db, t: string)
    requires t != "" && Trim(t) == t && Count(t, ',') == 0
    requires forall p :: p in db.currentAssets ==> p.ticker != t
    ensures ParseTickers(Some(t)) == [t]
    ensures Selected(db.currentAssets, ParseTickers(Some(t))) == []
  {
    OneTickerParsed(t);
    var held := HeldTickers(db.currentAssets);
    forall i | 0 <= i < |held| ensures held[i] !in [t] {
      assert held[i] in held;
    }
    NoneListed(held, [t]);
  }

  lemma {:induction false} NoneListed(ts: seq<string>, listed: seq<string>)
    requires forall i, j :: 0 <= i < j < |ts| ==> ts[i] != ts[j]
    requires |listed| > 0 && forall i :: 0 <= i < |ts| ==> ts[i] !in listed
    ensures FilterListed(ts, listed) == []
    decreases |ts|
  {
    if |ts| > 0 {
      NoneListed(ts[1..], listed);
    }
  }

  lemma {:induction false} OneTickerParsed(t: string)
    requires t != "" && Trim(t) == t && Count(t, ',') == 0
    ensures ParseTickers(Some(t)) == [t]
  {
    SplitNoSep(t, ',');
    assert TrimmedNonEmpty([t]) == [t] by {
      assert [t][1..] == [];
    }
  }

  // ---------------------------------------------------------------- route vs service

  /** A buy dated before a one-day grid: the route carries it in, the
    * service reads 0 until an in-grid event. */
  lemma PreGridBuyCarriedByRouteOnly(buy: Operation, g: Day)
    requires buy.date < g && buy.side == Some("BUY")
    ensures Holdings([buy], buy.ticker, g) == buy.quantity
    ensures QuantitySeries([buy], buy.ticker, [g])[0] == 0.0
  {
    HoldingsAreNetUpTo([buy], buy.ticker, g);
    assert SumOf([buy], RouteUpTo(buy.ticker, g)) == buy.quantity;
    PreGridQuantityNotCarried([buy], buy.ticker, [g], 0);
  }

  /** Two days of one week, Monday `d` and the Tuesday after: the route adds
    * their values, the service keeps the later one. */
  lemma WeekSumVersusLast(d: Day, a: real, b: real)
    requires Weekday(d) == 1
    ensures BucketTotals([Point(d, a), Point(d + 1, b)], BucketOf(Weekly)) == [Point(d, a + b)]
    ensures RegroupLast([Point(d, a), Point(d + 1, b)], BucketOf(Weekly)) == [Point(d, b)]
  {
    var s := [Point(d, a), Point(d + 1, b)];
    assert BucketStart(Weekly, s[0].date) == d && BucketStart(Weekly, s[1].date) == d by {
      assert WeekStart(d) == d;
      assert (d + 2) % 7 == 2;
      assert WeekStart(d + 1) == d;
    }
    WeekSum(s, d, a, b);
    WeekLast(s, d, a, b);
  }

  lemma WeekSum(s: seq<Point>, d: Day, a: real, b: real)
    requires s == [Point(d, a), Point(d + 1, b)]
    requires BucketStart(Weekly, s[0].date) == d && BucketStart(Weekly, s[1].date) == d
    ensures BucketTotals(s, BucketOf(Weekly)) == [Point(d, a + b)]
  {
    var r := BucketTotals(s, BucketOf(Weekly));
    assert d in DatesOf(r);
    InOneBucket(r, s, d);
    assert s[1..][1..] == [] && s[1..][0] == s[1];
    assert BucketTotal(s[1..], BucketOf(Weekly), d) == b;
    assert BucketTotal(s, BucketOf(Weekly), d) == a + b;
  }

  lemma WeekLast(s: seq<Point>, d: Day, a: real, b: real)
    requires s == [Point(d, a), Point(d + 1, b)]
    requires BucketStart(Weekly, s[0].date) == d && BucketStart(Weekly, s[1].date) == d
    ensures RegroupLast(s, BucketOf(Weekly)) == [Point(d, b)]
  {
    var r := RegroupLast(s, BucketOf(Weekly));
    assert d in DatesOf(r);
    InOneBucket(r, s, d);
    var l := LatestInBucket(s, BucketOf(Weekly), d);
    assert s[1].date <= l.value.date;
  }

  /** Every point of a bucketed series is dated at a bucket some input
    * point falls in; here that is day `d` only. */
  lemma {:induction false} InOneBucket(r: seq<Point>, s: seq<Point>, d: Day)
    requires |s| == 2 && BucketStart(Weekly, s[0].date) == d && BucketStart(Weekly, s[1].date) == d
    requires StrictlyAscending(DatesOf(r)) && d in DatesOf(r)
    requires forall i :: 0 <= i < |r| ==> LatestInBucket(s, BucketOf(Weekly), r[i].date).Some?
    ensures |r| == 1 && r[0].date == d
  {
    forall i | 0 <= i < |r| ensures r[i].date == d {
      var l := LatestInBucket(s, BucketOf(Weekly), r[i].date);
      assert l.value == s[0] || l.value == s[1];
    }
  }

  /** The asset route is the portfolio route filtered to that one ticker,
    * when the ticker is held and the two grids start on the same day: a
    * start is given, or the ticker's first operation is the earliest one. */
  lemma AssetIsOneTickerPortfolioRoute(db: Db, t: string, q: RouteQuery, today: Day)
    requires ValidLimit(q.maxPoints)
    requires t != "" && Trim(t) == t && Count(t, ',') == 0
    requires exists p :: p in db.currentAssets && p.ticker == t
    requires Truthy(q.start) || EarliestDate(TickerOps(db.operations, t)) == EarliestDate(db.operations)
    ensures AssetRoute(db, Some(t), q, today) == PortfolioRoute(db, q.(tickers := Some(t)), today)
  {
    OneTickerParsed(t);
    FilterOne(HeldTickers(db.currentAssets), t);
  }

  /** Listing one held ticker selects exactly that ticker. */
  lemma {:induction false} FilterOne(ts: seq<string>, t: string)
    requires forall i, j :: 0 <= i < j < |ts| ==> ts[i] != ts[j]
    requires t in ts
    ensures FilterListed(ts, [t]) == [t]
  {
    assert forall u :: u in ts <==> u == ts[0] || u in ts[1..];
    if ts[0] == t {
      assert ts[0] !in ts[1..];
      FilterNone(ts[1..], [t]);
    } else {
      FilterOne(ts[1..], t);
    }
  }

  /** Listing only tickers that are not held selects nothing. */
  lemma {:induction false} FilterNone(ts: seq<string>, listed: seq<string>)
    requires forall i, j :: 0 <= i < j < |ts| ==> ts[i] != ts[j]
    requires |listed| > 0 && forall u :: u in ts ==> u !in listed
    ensures FilterListed(ts, listed) == []
  {
    if |ts| > 0 {
      assert ts[0] in ts;
      FilterNone(ts[1..], listed);
    }
  }
}
