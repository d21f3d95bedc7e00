// The portfolio summary (`GET /api/metrics`): the invested amount and the
// market value of the `current_assets` snapshot, priced at each ticker's
// latest closing price, and the gain or loss between them.

module Metrics {
  import opened Wrappers
  import opened Calendar
  import opened Sorting
  import opened Tables
  import PriceTable

  // ------------------------------------------------------ latest prices

  /** The latest date among the price rows of `t` (`MAX(date) ... GROUP BY
    * ticker`); None when the ticker has no price. */
  function MaxDate(prices: seq<PriceRow>, t: string): (m: Option<Day>)
    ensures m.None? <==> forall i :: 0 <= i < |prices| ==> prices[i].ticker != t
    ensures m.Some? ==> exists i :: 0 <= i < |prices| && prices[i].ticker == t && prices[i].date == m.value
    ensures m.Some? ==> forall i :: 0 <= i < |prices| && prices[i].ticker == t ==> prices[i].date <= m.value
  {
    if |prices| == 0 then None
    else
      var rest := MaxDate(prices[1..], t);
      assert forall i :: 1 <= i < |prices| ==> prices[i] == prices[1..][i - 1];
      if prices[0].ticker != t then rest
      else if rest.Some? && rest.value >= prices[0].date then rest
      else Some(prices[0].date)
  }

  /** The closing prices of the rows of `s` with ticker `t` on day `d`, in
    * table order. */
  function RowsOn(s: seq<PriceRow>, t: string, d: Day): (r: seq<real>)
    ensures |r| <= |s|
  {
    if |s| == 0 then []
    else (if s[0].ticker == t && s[0].date == d then [s[0].closingPrice] else []) + RowsOn(s[1..], t, d)
  }

  /** The rows of the `last_price` view a position of ticker `t` joins:
    * every price row of `t` on its latest date, so one row per duplicate. */
  function Matches(prices: seq<PriceRow>, t: string): (r: seq<real>)
  {
    match MaxDate(prices, t)
    case None => []
    case Some(d) => RowsOn(prices, t, d)
  }

  // --------------------------------------------------------- the query

  /** One row of `current_assets LEFT JOIN last_price`: the position and the
    * joined closing price, None for the NULL an unmatched position gets. */
  datatype JoinRow = JoinRow(position: Position, closing: Option<real>)

  function JoinOne(p: Position, m: seq<real>): (r: seq<JoinRow>)
    ensures |m| == 0 ==> r == [JoinRow(p, None)]
    ensures |m| > 0 ==> |r| == |m| && forall k :: 0 <= k < |m| ==> r[k] == JoinRow(p, Some(m[k]))
  {
    if |m| == 0 then [JoinRow(p, None)]
    else
      var r := seq(|m|, k requires 0 <= k < |m| => JoinRow(p, Some(m[k])));
      r
  }

  /** The left join, position by position. */
  function Join(assets: seq<Position>, prices: seq<PriceRow>): seq<JoinRow> {
    if |assets| == 0 then []
    else JoinOne(assets[0], Matches(prices, assets[0].ticker)) + Join(assets[1..], prices)
  }

  /** `ca.average_price * ca.quantity` of a joined row. */
  function CostOf(j: JoinRow): real {
    j.position.averagePrice * j.position.quantity
  }

  /** `CASE WHEN lp.closing_price IS NOT NULL THEN lp.closing_price *
    * ca.quantity END`, with the NULL read as contributing nothing. */
  function WorthOf(j: JoinRow): real {
    match j.closing
    case Some(c) => c * j.position.quantity
    case None => 0.0
  }

  /** The response body. */
  datatype Summary = Summary(totalInvestment: real, totalValue: real, gainLoss: real, gainLossPct: real)

  /** The handler: both sums over the joined rows (`COALESCE(SUM(..), 0)`
    * makes the sum of no rows 0), the gain as their difference and the
    * percentage guarded against a zero or negative investment. */
  function ComputeMetrics(assets: seq<Position>, prices: seq<PriceRow>): (r: Summary)
    ensures r.gainLoss == r.totalValue - r.totalInvestment
    ensures r.totalInvestment > 0.0 ==> r.gainLossPct * r.totalInvestment == r.gainLoss * 100.0
    ensures r.totalInvestment <= 0.0 ==> r.gainLossPct == 0.0
    ensures |assets| == 0 ==> r == Summary(0.0, 0.0, 0.0, 0.0)
  {
    var rows := Join(assets, prices);
    var investment := SumOf(rows, CostOf);
    var value := SumOf(rows, WorthOf);
    var gain := value - investment;
    PercentScales(gain, investment);
    Summary(investment, value, gain, if investment > 0.0 then gain / investment * 100.0 else 0.0)
  }

  /** A percentage of a positive base times that base is the part times 100. */
  lemma PercentScales(part: real, base: real)
    ensures base > 0.0 ==> part / base * 100.0 * base == part * 100.0
  {
    if base > 0.0 {
      assert part / base * base == part;
    }
  }

  // ------------------------------------------- the one-row-per-key reading

  /** No two price rows share a (ticker, date) key. */
  predicate UniqueKeys(prices: seq<PriceRow>) {
    forall i, j :: 0 <= i < j < |prices| ==>
      prices[i].ticker != prices[j].ticker || prices[i].date != prices[j].date
  }

  /** The closing price of the first row of `t` on day `d`. */
  function ClosingOn(s: seq<PriceRow>, t: string, d: Day): (r: Option<real>)
    ensures r.Some? <==> exists i :: 0 <= i < |s| && s[i].ticker == t && s[i].date == d
  {
    if |s| == 0 then None
    else if s[0].ticker == t && s[0].date == d then Some(s[0].closingPrice)
    else
      assert forall i :: 1 <= i < |s| ==> s[i] == s[1..][i - 1];
      ClosingOn(s[1..], t, d)
  }

  /** The ticker's latest closing price, None when it has no price. */
  function LatestClose(prices: seq<PriceRow>, t: string): (r: Option<real>)
    ensures r.None? <==> forall i :: 0 <= i < |prices| ==> prices[i].ticker != t
  {
    match MaxDate(prices, t)
    case None => None
    case Some(d) => ClosingOn(prices, t, d)
  }

  /** A position's cost, counted once. */
  function Invested(p: Position): real {
    p.averagePrice * p.quantity
  }

  /** A position's market value, counted once; 0 without a price. */
  function Valued(prices: seq<PriceRow>): Position -> real {
    (p: Position) => match LatestClose(prices, p.ticker)
         case Some(c) => c * p.quantity
         case None => 0.0
  }

  /** With unique keys only one row of the view is joined per position, and
    * it carries the ticker's latest closing price. */
  lemma {:induction false} RowsOnUnique(s: seq<PriceRow>, t: string, d: Day)
    requires UniqueKeys(s)
    ensures RowsOn(s, t, d) == match ClosingOn(s, t, d) case Some(c) => [c] case None => []
  {
    if |s| > 0 {
      assert UniqueKeys(s[1..]);
      RowsOnUnique(s[1..], t, d);
      if s[0].ticker == t && s[0].date == d {
        assert forall i :: 0 <= i < |s[1..]| ==> s[1..][i] == s[i + 1];
        assert ClosingOn(s[1..], t, d).None?;
      }
    }
  }

  /** The joined rows of one position add up to its cost and value,
    * counted once. */
  lemma JoinOneUnique(p: Position, prices: seq<PriceRow>)
    requires UniqueKeys(prices)
    ensures SumOf(JoinOne(p, Matches(prices, p.ticker)), CostOf) == Invested(p)
    ensures SumOf(JoinOne(p, Matches(prices, p.ticker)), WorthOf) == Valued(prices)(p)
  {
    var m := Matches(prices, p.ticker);
    var head := JoinOne(p, m);
    match MaxDate(prices, p.ticker)
    case None =>
      assert head == [JoinRow(p, None)];
      SumOfSingle(head[0], CostOf);
      SumOfSingle(head[0], WorthOf);
    case Some(d) =>
      RowsOnUnique(prices, p.ticker, d);
      var c := ClosingOn(prices, p.ticker, d).value;
      assert m == [c];
      assert head == [JoinRow(p, Some(c))];
      SumOfSingle(head[0], CostOf);
      SumOfSingle(head[0], WorthOf);
  }

  lemma {:induction false} JoinUnique(assets: seq<Position>, prices: seq<PriceRow>)
    requires UniqueKeys(prices)
    ensures SumOf(Join(assets, prices), CostOf) == SumOf(assets, Invested)
    ensures SumOf(Join(assets, prices), WorthOf) == SumOf(assets, Valued(prices))
  {
    if |assets| > 0 {
      var head := JoinOne(assets[0], Matches(prices, assets[0].ticker));
      var tail := Join(assets[1..], prices);
      assert Join(assets, prices) == head + tail;
      JoinUnique(assets[1..], prices);
      JoinOneUnique(assets[0], prices);
      SumOfAppend(head, tail, CostOf);
      SumOfAppend(head, tail, WorthOf);
    }
  }

  /** Under unique (ticker, date) keys the query counts every position once:
    * its cost, and its quantity at the latest closing price. */
  lemma {:induction false} UniqueKeysCountOnce(assets: seq<Position>, prices: seq<PriceRow>)
    requires UniqueKeys(prices)
    ensures ComputeMetrics(assets, prices).totalInvestment == SumOf(assets, Invested)
    ensures ComputeMetrics(assets, prices).totalValue == SumOf(assets, Valued(prices))
  {
    JoinUnique(assets, prices);
  }

  /** Two rows for a ticker's latest day join the position twice: both its
    * cost and its value are counted double. */
  lemma DuplicateCountsTwice(p: Position, row: PriceRow)
    requires row.ticker == p.ticker
    ensures var r := ComputeMetrics([p], [row, row]);
            r.totalInvestment == 2.0 * Invested(p) &&
            r.totalValue == 2.0 * row.closingPrice * p.quantity
  {
    var prices := [row, row];
    var c := row.closingPrice;
    assert MaxDate(prices, p.ticker) == Some(row.date);
    assert prices[1..] == [row];
    assert RowsOn([row], p.ticker, row.date) == [c] by {
      assert [row][1..] == [];
    }
    assert Matches(prices, p.ticker) == [c, c];
    var head := JoinOne(p, [c, c]);
    assert head == [JoinRow(p, Some(c)), JoinRow(p, Some(c))];
    assert Join([p], prices) == head by {
      assert [p][1..] == [];
    }
    assert head[1..] == [JoinRow(p, Some(c))];
    assert head[1..][1..] == [];
    assert SumOf(head[1..], CostOf) == Invested(p) + SumOf(head[1..][1..], CostOf);
    assert SumOf(head, CostOf) == Invested(p) + SumOf(head[1..], CostOf);
    assert SumOf(head[1..], WorthOf) == c * p.quantity + SumOf(head[1..][1..], WorthOf);
    assert SumOf(head, WorthOf) == c * p.quantity + SumOf(head[1..], WorthOf);
  }

  /** Positions without any price add their cost but no value: with no
    * price for any held ticker the loss is the whole investment. */
  lemma {:induction false} UnpricedAddNothing(assets: seq<Position>, prices: seq<PriceRow>)
    requires forall k, i :: 0 <= k < |assets| && 0 <= i < |prices| ==> prices[i].ticker != assets[k].ticker
    ensures ComputeMetrics(assets, prices).totalValue == 0.0
    ensures ComputeMetrics(assets, prices).gainLoss == -ComputeMetrics(assets, prices).totalInvestment
  {
    if |assets| > 0 {
      var p := assets[0];
      assert MaxDate(prices, p.ticker).None?;
      var head := JoinOne(p, Matches(prices, p.ticker));
      assert head == [JoinRow(p, None)];
      SumOfAppend(head, Join(assets[1..], prices), WorthOf);
      assert forall k, i :: 0 <= k < |assets[1..]| && 0 <= i < |prices| ==> prices[i].ticker != assets[1..][k].ticker by {
        forall k | 0 <= k < |assets[1..]| ensures assets[1..][k] == assets[k + 1] { }
      }
      UnpricedAddNothing(assets[1..], prices);
    }
  }

  /** `insertPriceIfMissing` keeps the keys unique. The price run appends
    * directly, after its own check for an existing (ticker, date) row. */
  lemma InsertKeepsKeysUnique(prices: seq<PriceRow>, ticker: Option<string>, date: PriceTable.DateArg, unitPrice: Option<real>)
    requires UniqueKeys(prices)
    requires PriceTable.InsertPriceIfMissing(prices, ticker, date, unitPrice).Some?
    ensures UniqueKeys(PriceTable.InsertPriceIfMissing(prices, ticker, date, unitPrice).value)
  {
  }
}
