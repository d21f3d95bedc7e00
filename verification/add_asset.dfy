// The add-asset form: its number parser, which reads Spanish-formatted
// numbers (dots group thousands, a comma is the decimal point), and the
// check that decides whether the form posts a buy operation.

module AddAsset {
  import opened Wrappers
  import opened Text
  import opened JsNumber
  import opened Tables
  import PriceIngest
  import OperationsRoute

  // ----------------------------------------------------------- numbers

  /** `parseLocaleNumber(input)`: null for null and "", otherwise every dot
    * deleted, the first comma made the point, and the finite result of
    * `Number`, or null. */
  function ParseLocaleNumber(input: Option<string>): (r: Option<real>)
    ensures input.None? || input == Some("") ==> r.None?
    ensures input.Some? && input.value != "" ==>
              r == NumberOf(ReplaceFirst(DeleteAll(input.value, '.'), ',', '.'))
  {
    if input.None? || input.value == "" then None
    else NumberOf(ReplaceFirst(DeleteAll(input.value, '.'), ',', '.'))
  }

  /** Dots carry no value: the text with its dots deleted reads the same,
    * as long as something is left of it. */
  lemma DotsIgnored(s: string)
    requires DeleteAll(s, '.') != ""
    ensures ParseLocaleNumber(Some(s)) == ParseLocaleNumber(Some(DeleteAll(s, '.')))
  {
    DeleteAllTwice(s, '.');
  }

  /** Text made only of dots is the empty string to `Number`, which is 0. */
  lemma OnlyDotsReadZero()
    ensures ParseLocaleNumber(Some(".")) == Some(0.0)
  {
    assert DeleteAll(".", '.') == "";
    assert ReplaceFirst("", ',', '.') == "";
  }

  lemma {:induction false} DeleteAllTwice(s: string, c: char)
    ensures DeleteAll(DeleteAll(s, c), c) == DeleteAll(s, c)
    decreases |s|
  {
    if |s| > 0 {
      DeleteAllTwice(s[1..], c);
    }
  }

  /** A thousands dot and a decimal comma: "1.234,56" is 1234.56. */
  lemma GroupedDecimal(a: string, b: string, c: string)
    requires AllDigits(a) && AllDigits(b) && AllDigits(c) && |a| + |b| + |c| > 0
    ensures ParseLocaleNumber(Some(a + "." + b + "," + c)) == Some(PointedValue(a + b, c))
  {
    PriceIngest.DigitsLack(a);
    PriceIngest.DigitsLack(b);
    PriceIngest.DigitsLack(c);
    var x := a + ['.'] + b;
    assert x + [','] + c == a + "." + b + "," + c;
    PriceIngest.DeleteAround(x, ',', c, '.');
    PriceIngest.DeleteSeparator(a, '.', b);
    assert PriceIngest.Lacks(a + b, ',');
    PriceIngest.ReplaceFirstAt(a + b, ',', c);
    NumberOfPointed(a + b, c);
  }

  /** A lone comma is the decimal point: "12,5" is 12.5. */
  lemma CommaDecimal(a: string, c: string)
    requires AllDigits(a) && AllDigits(c) && |a| + |c| > 0
    ensures ParseLocaleNumber(Some(a + "," + c)) == Some(PointedValue(a, c))
  {
    PriceIngest.DigitsLack(a);
    PriceIngest.DigitsLack(c);
    PriceIngest.LacksJoin(a, ',', c, '.');
    PriceIngest.DeleteAllAbsent(a + [','] + c, '.');
    PriceIngest.ReplaceFirstAt(a, ',', c);
    NumberOfPointed(a, c);
  }

  /** A dot is never a decimal point: "1.5" is 15. */
  lemma {:induction false} DotIsGrouping(a: string, b: string)
    requires AllDigits(a) && AllDigits(b) && |a| + |b| > 0
    ensures ParseLocaleNumber(Some(a + "." + b)) == Some(DigitsValue(a + b) as real)
  {
    PriceIngest.DigitsLack(a);
    PriceIngest.DigitsLack(b);
    PriceIngest.DeleteSeparator(a, '.', b);
    IndexOfNone(a + b, ',');
    NumberOfDigits(a + b);
  }

  /** Only the first comma becomes a point, so a second one makes the text
    * unreadable: "1,2,3" is null. */
  lemma TwoCommasRejected(a: string, b: string, c: string)
    requires |a| > 0 && |c| > 0 && AllDigits(a) && AllDigits(b) && AllDigits(c)
    ensures ParseLocaleNumber(Some(a + "," + b + "," + c)) == None
  {
    PriceIngest.DigitsLack(a);
    PriceIngest.DigitsLack(b);
    PriceIngest.DigitsLack(c);
    var tail := b + [','] + c;
    var s := a + [','] + tail;
    assert s == a + "," + b + "," + c;
    PriceIngest.LacksJoin(b, ',', c, '.');
    PriceIngest.LacksJoin(a, ',', tail, '.');
    PriceIngest.DeleteAllAbsent(s, '.');
    PriceIngest.ReplaceFirstAt(a, ',', tail);
    assert a + "." + tail == a + "." + b + "," + c;
    PriceIngest.UnreadableMantissa(a, b, c);
  }

  /** The form and the price ingestion read a single dot differently: the
    * form takes it for a thousands separator, the ingestion for the point. */
  lemma {:induction false} SingleDotReadsDifferently(a: string, b: string)
    requires AllDigits(a) && AllDigits(b) && |a| > 0 && |b| > 0
    ensures ParseLocaleNumber(Some(a + "." + b)) == Some(DigitsValue(a + b) as real)
    ensures PriceIngest.ParseLocaleNumber(Some(a + "." + b)) == Some(PointedValue(a, b))
  {
    DotIsGrouping(a, b);
    PriceIngest.DigitsLack(a);
    PriceIngest.DigitsLack(b);
    PriceIngest.DotOnlyDecimal(a, b);
    PriceIngest.DeleteAllAbsent(a, '.');
    NumberOfPointed(a, b);
  }

  // -------------------------------------------------------------- submit

  /** The form's state: every field is the text of its input. */
  datatype Form = Form(name: string, ticker: string, assetType: string, opDate: string, price: string, quantity: string)

  /** The JSON body the form posts to `/api/operations`. */
  datatype Body = Body(name: string, ticker: string, assetType: string, operationType: string,
                       opDate: string, price: real, quantity: real)

  /** What submitting does: show the error message, or post a body. */
  datatype Submitted = Refused | Posted(body: Body)

  /** `submit`: refuse when a text field is empty or a number unreadable,
    * otherwise post the fields as a buy. */
  function Submit(f: Form): (r: Submitted)
    ensures r.Posted? <==> f.name != "" && f.ticker != "" && f.opDate != "" &&
                           ParseLocaleNumber(Some(f.price)).Some? && ParseLocaleNumber(Some(f.quantity)).Some?
    ensures r.Posted? ==> r.body.operationType == "buy" &&
                          r.body.name == f.name && r.body.ticker == f.ticker &&
                          r.body.assetType == f.assetType && r.body.opDate == f.opDate &&
                          Some(r.body.price) == ParseLocaleNumber(Some(f.price)) &&
                          Some(r.body.quantity) == ParseLocaleNumber(Some(f.quantity))
  {
    var price := ParseLocaleNumber(Some(f.price));
    var qty := ParseLocaleNumber(Some(f.quantity));
    if f.name == "" || f.ticker == "" || f.opDate == "" || price.None? || qty.None? then Refused
    else Posted(Body(f.name, f.ticker, f.assetType, "buy", f.opDate, price.value, qty.value))
  }

  /** The body as the operations handler receives it: it has no `side`
    * field, and its `operation_type` is not one the handler reads. */
  function AsRequest(b: Body): (req: OperationsRoute.Request)
    ensures req.side.None?
  {
    OperationsRoute.Request(Some(JString(b.name)), Some(JString(b.ticker)), Some(JString(b.assetType)), None, Some(b.opDate),
                            Some(JNumber(b.price)), Some(JNumber(b.quantity)))
  }

  /** A posted form reaches the handler as a buy. (The row the handler then
    * stores carries no `operation_type`; see `HandlerRowsReadDifferently`.) */
  lemma PostedIsBuy(f: Form)
    requires Submit(f).Posted?
    ensures RequestSide(AsRequest(Submit(f).body).side) == Buy
  {
  }

  /** The form accepts a zero price, which the handler refuses with 400. */
  lemma ZeroPriceRefusedByHandler(db: Db, f: Form)
    requires f.name != "" && f.ticker != "" && f.assetType != "" && f.opDate != ""
    requires f.price == "0" && ParseLocaleNumber(Some(f.quantity)).Some?
    ensures Submit(f).Posted?
    ensures OperationsRoute.PostOperation(db, AsRequest(Submit(f).body)).status == 400
  {
    NumberOfDigits("0");
    assert DeleteAll("0", '.') == "0";
    IndexOfNone("0", ',');
  }
}
