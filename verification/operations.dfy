// POST /api/operations: validate a new operation, refuse oversells against
// the current snapshot, append the row and recompute the positions.

module OperationsRoute {
  import opened Wrappers
  import opened Text
  import opened Calendar
  import opened Tables
  import opened Positions

  /** The JSON body; an absent or null field is None. The text fields may
    * hold any JSON scalar, since nothing checks their type. */
  datatype Request = Request(
    name: Option<JsonScalar>,
    ticker: Option<JsonScalar>,
    assetType: Option<JsonScalar>,
    side: Option<string>,
    opDate: Option<string>,
    price: Option<JsonScalar>,
    quantity: Option<JsonScalar>)

  /** The status code, the error text ("" on success) and the tables after
    * the call. */
  datatype Outcome = Outcome(status: nat, error: string, db: Db)

  const MissingFields := "Missing required fields"
  const InvalidNumbers := "Invalid price or quantity"
  const Oversell := "Cannot sell more than current quantity"
  const CreateFailed := "Failed to create operation"

  /** The first check: a falsy text field or a null number. */
  predicate MissingRequired(req: Request) {
    !JsonTruthy(req.name) || !JsonTruthy(req.ticker) || !JsonTruthy(req.assetType) || !Truthy(req.opDate)
    || req.price.None? || req.quantity.None?
  }

  /** Whether a field holds a string; `.trim()` of anything else throws a
    * TypeError. */
  predicate IsText(v: Option<JsonScalar>) {
    v.Some? && v.value.JString?
  }

  /** Name, ticker and asset type are all strings. */
  predicate TextFields(req: Request) {
    IsText(req.name) && IsText(req.ticker) && IsText(req.assetType)
  }

  /** The oversell refusal: a sell of a string ticker for more than the
    * snapshot holds. */
  predicate Oversells(db: Db, req: Request)
    requires !MissingRequired(req)
  {
    RequestSide(req.side) == Sell && IsText(req.ticker) &&
    JsonNumber(req.quantity.value).Some? &&
    JsonNumber(req.quantity.value).value > HeldQuantity(db.currentAssets, Trim(req.ticker.value.s))
  }

  /** `Number.isFinite(x) && x > 0` of `Number(v)`. */
  predicate PositiveNumber(v: JsonScalar) {
    JsonNumber(v).Some? && JsonNumber(v).value > 0.0
  }

  /** The quantity the snapshot holds for `t`, 0 when there is no row. */
  function HeldQuantity(ps: seq<Position>, t: string): (r: real)
    ensures PositionOf(ps, t).None? ==> r == 0.0
    ensures PositionOf(ps, t).Some? ==> r == PositionOf(ps, t).value.quantity
  {
    match PositionOf(ps, t)
    case None => 0.0
    case Some(p) => p.quantity
  }

  /** The id the table's serial column hands out next: above every id in use. */
  function NextId(ops: seq<Operation>): (r: nat)
    ensures forall i :: 0 <= i < |ops| ==> ops[i].id < r
  {
    if |ops| == 0 then 1
    else
      var rest := NextId(ops[..|ops| - 1]);
      var id := ops[|ops| - 1].id + 1;
      if id > rest then id else rest
  }

  /** The row an accepted request stores: trimmed texts, the normalised
    * side, and no `operation_type`. */
  function NewRow(db: Db, req: Request, date: Day, price: real, qty: real): (r: Operation)
    requires TextFields(req)
    ensures r.name == Trim(req.name.value.s) && r.ticker == Trim(req.ticker.value.s)
    ensures r.assetType == Trim(req.assetType.value.s)
    ensures r.operationType.None? && r.side == Some(SideText(RequestSide(req.side)))
    ensures forall i :: 0 <= i < |db.operations| ==> db.operations[i].id != r.id
  {
    Operation(NextId(db.operations), Trim(req.name.value.s), Trim(req.ticker.value.s),
              Trim(req.assetType.value.s), None, Some(SideText(RequestSide(req.side))),
              date, price, qty)
  }

  /** The handler. Every refusal leaves the tables as they were; an accepted
    * operation is appended and the snapshot recomputed from the whole log. */
  function PostOperation(db: Db, req: Request): (r: Outcome)
    ensures r.status == 201 || r.status == 400 || r.status == 409 || r.status == 500
    ensures r.status != 201 ==> r.db == db
    ensures r.status == 400 && r.error == MissingFields <==> MissingRequired(req)
    ensures r.status == 400 && r.error == InvalidNumbers <==>
              !MissingRequired(req) && !(PositiveNumber(req.price.value) && PositiveNumber(req.quantity.value))
    ensures r.status == 409 <==>
              !MissingRequired(req) && PositiveNumber(req.price.value) && PositiveNumber(req.quantity.value)
              && Oversells(db, req)
    ensures r.status == 500 <==>
              !MissingRequired(req) && PositiveNumber(req.price.value) && PositiveNumber(req.quantity.value)
              && !Oversells(db, req) && (!TextFields(req) || DateLiteral(req.opDate.value).None?)
    ensures r.status == 201 <==>
              !MissingRequired(req) && PositiveNumber(req.price.value) && PositiveNumber(req.quantity.value)
              && !Oversells(db, req) && TextFields(req) && DateLiteral(req.opDate.value).Some?
    ensures r.status == 201 ==>
              TextFields(req) && DateLiteral(req.opDate.value).Some? &&
              var row := NewRow(db, req, DateLiteral(req.opDate.value).value,
                                JsonNumber(req.price.value).value, JsonNumber(req.quantity.value).value);
              r.db.operations == db.operations + [row] && r.db.prices == db.prices &&
              r.db.currentAssets == Snapshot(r.db.operations)
  {
    if MissingRequired(req) then Outcome(400, MissingFields, db)
    else
      var side := RequestSide(req.side);
      if !PositiveNumber(req.quantity.value) || !PositiveNumber(req.price.value) then
        Outcome(400, InvalidNumbers, db)
      else
        var qty := JsonNumber(req.quantity.value).value;
        var p := JsonNumber(req.price.value).value;
        if side == Sell && !IsText(req.ticker) then
          // `ticker.trim()` for the holding query throws
          Outcome(500, CreateFailed, db)
        else if side == Sell && qty > HeldQuantity(db.currentAssets, Trim(req.ticker.value.s)) then
          Outcome(409, Oversell, db)
        else if !TextFields(req) then
          // `name.trim()`, `ticker.trim()` or `asset_type.trim()` for the insert throws
          Outcome(500, CreateFailed, db)
        else
          match DateLiteral(req.opDate.value)
          case None => Outcome(500, CreateFailed, db)
          case Some(date) =>
            var row := NewRow(db, req, date, p, qty);
            Outcome(201, "", Recompute(db.(operations := db.operations + [row])))
  }

  /** Selling exactly the held quantity passes the oversell guard. */
  lemma SellWholeHoldingAllowed(db: Db, req: Request)
    requires !MissingRequired(req) && RequestSide(req.side) == Sell
    requires PositiveNumber(req.price.value) && PositiveNumber(req.quantity.value)
    requires TextFields(req)
    requires JsonNumber(req.quantity.value).value == HeldQuantity(db.currentAssets, Trim(req.ticker.value.s))
    requires DateLiteral(req.opDate.value).Some?
    ensures PostOperation(db, req).status == 201
  {
  }

  /** A sell of a ticker the snapshot does not hold is always refused. */
  lemma SellUnheldRefused(db: Db, req: Request)
    requires !MissingRequired(req) && RequestSide(req.side) == Sell
    requires PositiveNumber(req.price.value) && PositiveNumber(req.quantity.value)
    requires IsText(req.ticker) && PositionOf(db.currentAssets, Trim(req.ticker.value.s)).None?
    ensures PostOperation(db, req).status == 409 && PostOperation(db, req).db == db
  {
  }

  /** Text fields are checked for emptiness before they are trimmed: a name
    * of spaces is accepted and stored empty. */
  lemma BlankNameStoredEmpty(db: Db, req: Request)
    requires req.name == Some(JString(" ")) && JsonTruthy(req.ticker) && JsonTruthy(req.assetType) && Truthy(req.opDate)
    requires IsText(req.ticker) && IsText(req.assetType)
    requires req.price.Some? && req.quantity.Some?
    requires PositiveNumber(req.price.value) && PositiveNumber(req.quantity.value)
    requires RequestSide(req.side) == Buy && DateLiteral(req.opDate.value).Some?
    ensures PostOperation(db, req).status == 201
    ensures Last(PostOperation(db, req).db.operations).name == ""
  {
    TrimSpace();
    assert !MissingRequired(req) && RequestSide(req.side) != Sell;
    var out := PostOperation(db, req);
    assert out.status == 201;
    var row := NewRow(db, req, DateLiteral(req.opDate.value).value,
                      JsonNumber(req.price.value).value, JsonNumber(req.quantity.value).value);
    assert out.db.operations == db.operations + [row];
  }

  /** A truthy name that is not a string (a JSON number, say) passes the
    * first check, and `name.trim()` then throws: the answer is 500 and
    * nothing is stored, even for a valid buy. */
  lemma NonTextNameFails(db: Db, req: Request)
    requires !MissingRequired(req) && !IsText(req.name)
    requires PositiveNumber(req.price.value) && PositiveNumber(req.quantity.value)
    requires RequestSide(req.side) == Buy
    ensures PostOperation(db, req) == Outcome(500, CreateFailed, db)
  {
  }

  /** On a sell, a ticker that is not a string throws before the holding
    * is looked up, so even an oversell answers 500 rather than 409. */
  lemma NonTextTickerSellFails(db: Db, req: Request)
    requires !MissingRequired(req) && !IsText(req.ticker)
    requires PositiveNumber(req.price.value) && PositiveNumber(req.quantity.value)
    requires RequestSide(req.side) == Sell
    ensures PostOperation(db, req) == Outcome(500, CreateFailed, db)
  {
  }

  /** The JSON number 5 as a name is truthy and not a string. */
  lemma NumberNameIsTruthy()
    ensures JsonTruthy(Some(JNumber(5.0))) && !IsText(Some(JNumber(5.0)))
  {
  }

  lemma TrimSpace()
    ensures Trim(" ") == ""
  {
    assert IsJsWhitespace(' ');
  }

  function Last<T>(s: seq<T>): T
    requires |s| > 0
  {
    s[|s| - 1]
  }
}
