// The database tables of the investment app as in-memory rows, and the
// small conversions every handler shares: the spellings of an operation's
// direction, PostgreSQL's `::date` cast of a text literal and JavaScript's
// `Number()` of a JSON value.

module Tables {
  import opened Wrappers
  import opened Text
  import opened JsNumber
  import opened Calendar

  /** A row of `operations`. `operationType` is the `operation_type` column
    * the position aggregator and the history service read; `side` is the
    * column the POST handler writes and the history routes read. Either may
    * be NULL, modelled as None. */
  datatype Operation = Operation(
    id: nat,
    name: string,
    ticker: string,
    assetType: string,
    operationType: Option<string>,
    side: Option<string>,
    date: Day,
    price: real,
    quantity: real)

  /** A row of `prices`. */
  datatype PriceRow = PriceRow(ticker: string, date: Day, closingPrice: real)

  /** A row of `current_assets`, the positions snapshot. */
  datatype Position = Position(
    name: string,
    ticker: string,
    assetType: string,
    averagePrice: real,
    quantity: real)

  /** The three tables the portfolio logic reads and writes. */
  datatype Db = Db(operations: seq<Operation>, currentAssets: seq<Position>, prices: seq<PriceRow>)

  // ---------------------------------------------------------------- sides

  /** The abstract direction of an operation; each reader of the tables has
    * its own spelling, decoded by one classifier below. */
  datatype Side = Buy | Sell | Neither

  /** The aggregator's reading of `operation_type`: exactly "buy" or "sell",
    * anything else (including NULL) is neither. */
  function AggregatorSide(operationType: Option<string>): (r: Side)
    ensures r == Buy <==> operationType == Some("buy")
    ensures r == Sell <==> operationType == Some("sell")
  {
    if operationType == Some("buy") then Buy
    else if operationType == Some("sell") then Sell
    else Neither
  }

  /** The history service's reading of `operation_type`: "sell" subtracts,
    * every other value (including NULL and "BUY") adds. */
  function ServiceSide(operationType: Option<string>): (r: Side)
    ensures r != Neither
    ensures r == Sell <==> operationType == Some("sell")
  {
    if operationType == Some("sell") then Sell else Buy
  }

  /** The history routes' reading of `side`: 'BUY' adds, every other value
    * (including NULL and "buy") subtracts. */
  function RouteSide(side: Option<string>): (r: Side)
    ensures r != Neither
    ensures r == Buy <==> side == Some("BUY")
  {
    if side == Some("BUY") then Buy else Sell
  }

  /** `String(side)` of a request field: an absent field prints as
    * "undefined". */
  function JsString(v: Option<string>): (r: string)
    ensures v.Some? ==> r == v.value
  {
    match v
    case None => "undefined"
    case Some(s) => s
  }

  /** The POST handler's reading of a request's `side`: SELL exactly when
    * its upper-case form is "SELL", BUY otherwise (absent included). */
  function RequestSide(side: Option<string>): (r: Side)
    ensures r != Neither
    ensures r == Sell <==> side.Some? && ToUpper(side.value) == "SELL"
  {
    if ToUpper(JsString(side)) == "SELL" then Sell else Buy
  }

  /** The text the POST handler stores in `side`. */
  function SideText(s: Side): (r: string)
    ensures r == "SELL" || r == "BUY"
  {
    if s == Sell then "SELL" else "BUY"
  }

  /** "sell" in any letter case is a sell. */
  lemma SellSpellings()
    ensures RequestSide(Some("sell")) == Sell && RequestSide(Some("Sell")) == Sell
    ensures RequestSide(Some("SELL")) == Sell
  {
  }

  /** The long s upper-cases to S, so "ſell" is a sell too. */
  lemma LongSSell()
    ensures RequestSide(Some([LongS] + "ell")) == Sell
  {
  }

  /** A missing or empty side is a buy: `String(undefined)` is "undefined". */
  lemma MissingSideIsBuy()
    ensures RequestSide(None) == Buy && RequestSide(Some("")) == Buy
  {
    assert JsString(None) == "undefined";
    assert |ToUpper("undefined")| == 9;
  }

  /** Any other word is a buy. */
  lemma OtherSideIsBuy()
    ensures RequestSide(Some("short")) == Buy
  {
    assert ToUpper("short")[0] == 'S' && ToUpper("short")[1] == 'H';
  }

  /** The rows the POST handler writes carry `side`, and only the history
    * routes read `side`: the aggregator treats them as neither buy nor sell
    * and the history service as buys, whatever their direction. */
  lemma HandlerRowsReadDifferently(s: Side)
    requires s != Neither
    ensures AggregatorSide(None) == Neither
    ensures ServiceSide(None) == Buy
    ensures RouteSide(Some(SideText(s))) == s
  {
  }

  // ---------------------------------------------------------------- date cast

  /** PostgreSQL's `$1::date` of a 'Y-M-D' literal: three non-empty digit
    * groups naming a valid calendar date. None is the error the cast raises. */
  function DateLiteral(s: string): (r: Option<Day>)
    ensures r.Some? ==> exists d :: ValidDate(d) && r.value == DayNumber(d)
  {
    var parts := Split(s, '-');
    if |parts| != 3 then None
    else if !(|parts[0]| > 0 && AllDigits(parts[0]) && |parts[1]| > 0 && AllDigits(parts[1])
              && |parts[2]| > 0 && AllDigits(parts[2])) then None
    else
      var d := Date(DigitsValue(parts[0]), DigitsValue(parts[1]), DigitsValue(parts[2]));
      if ValidDate(d) then Some(DayNumber(d)) else None
  }

  /** The cast reads back every date `toISO` prints. */
  lemma DateLiteralOfISO(n: Day)
    ensures DateLiteral(ToISO(n)) == Some(n)
  {
    var d := CivilDate(n);
    var ys, ms, ds := NatToDecimal(d.year), Pad2(d.month), Pad2(d.day);
    DecimalThenDigits(d.year);
    Pad2Value(d.month);
    Pad2Value(d.day);
    DigitsHaveNoDash(ys);
    DigitsHaveNoDash(ms);
    DigitsHaveNoDash(ds);
    SplitThree(ys, ms, ds, '-');
    assert ToISO(n) == ys + ['-'] + ms + ['-'] + ds;
  }

  // ---------------------------------------------------------------- JSON numbers

  /** A scalar of a JSON request body. */
  datatype JsonScalar = JNumber(n: real) | JString(s: string) | JBool(b: bool)

  /** `Number(v)` for a JSON scalar; None is NaN or an infinity, which
    * `Number.isFinite` refuses. */
  function JsonNumber(v: JsonScalar): (r: Option<real>)
    ensures v.JNumber? ==> r == Some(v.n)
    ensures v.JString? ==> r == NumberOf(v.s)
    ensures v.JBool? ==> r == Some(if v.b then 1.0 else 0.0)
  {
    match v
    case JNumber(n) => Some(n)
    case JString(s) => NumberOf(s)
    case JBool(b) => Some(if b then 1.0 else 0.0)
  }

  /** JavaScript truthiness of an optional string: absent and "" are falsy. */
  predicate Truthy(v: Option<string>) {
    v.Some? && v.value != ""
  }

  /** JavaScript truthiness of an optional JSON scalar: absent, null, "", 0
    * and false are falsy. */
  predicate JsonTruthy(v: Option<JsonScalar>) {
    v.Some? &&
    match v.value
    case JString(s) => s != ""
    case JNumber(n) => n != 0.0
    case JBool(b) => b
  }
}
