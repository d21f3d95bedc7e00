// The asset list (`/api/assets`): rows of the `assets` table, each with its
// invested amount and, when the asset has a price, its latest price, market
// value and profit or loss; and the insert behind `POST /api/assets`.

module Assets {
  import opened Wrappers
  import opened Calendar
  import opened Sorting

  /** A row of `assets`. */
  datatype AssetRow = AssetRow(
    id: nat,
    name: string,
    ticker: string,
    assetType: string,
    purchaseDate: Day,
    purchasePrice: real,
    quantity: real)

  /** A price row as this route reads it: keyed by the asset's id. */
  datatype AssetPrice = AssetPrice(assetId: nat, date: Day, closingPrice: real)

  /** A row of the response: the asset's own columns and the derived ones,
    * None where the query yields NULL. */
  datatype AssetView = AssetView(
    asset: AssetRow,
    invested: real,
    currentPrice: Option<real>,
    currentValue: Option<real>,
    pnlAbs: Option<real>,
    pnlPct: Option<real>)

  // ---------------------------------------------------- the latest price

  /** The asset's latest-dated price row (`ORDER BY p.date DESC LIMIT 1`),
    * the first in table order among rows on that date. */
  function Latest(prices: seq<AssetPrice>, id: nat): (r: Option<AssetPrice>)
    ensures r.None? <==> forall i :: 0 <= i < |prices| ==> prices[i].assetId != id
    ensures r.Some? ==> r.value in prices && r.value.assetId == id
    ensures r.Some? ==> forall i :: 0 <= i < |prices| && prices[i].assetId == id ==> prices[i].date <= r.value.date
  {
    if |prices| == 0 then None
    else
      var rest := Latest(prices[1..], id);
      assert forall i :: 1 <= i < |prices| ==> prices[i] == prices[1..][i - 1];
      if prices[0].assetId != id then rest
      else if rest.Some? && rest.value.date > prices[0].date then rest
      else Some(prices[0])
  }

  /** `lp.closing_price`: NULL when the lateral subquery finds no row. */
  function CurrentPrice(prices: seq<AssetPrice>, id: nat): (r: Option<real>)
    ensures r.None? <==> forall i :: 0 <= i < |prices| ==> prices[i].assetId != id
    ensures r.Some? ==> exists i :: 0 <= i < |prices| && prices[i].assetId == id && prices[i].closingPrice == r.value &&
                          forall j :: 0 <= j < |prices| && prices[j].assetId == id ==> prices[j].date <= prices[i].date
  {
    match Latest(prices, id)
    case None => None
    case Some(p) => Some(p.closingPrice)
  }

  // ------------------------------------------------------ derived columns

  /** One response row. Every column that needs the price is NULL without
    * one; the percentage is NULL as well when the purchase price is not
    * positive. */
  function ViewOf(a: AssetRow, prices: seq<AssetPrice>): (v: AssetView)
    ensures v.asset == a
    ensures v.invested == a.purchasePrice * a.quantity
    ensures v.currentPrice == CurrentPrice(prices, a.id)
    ensures v.currentValue.Some? <==> v.currentPrice.Some?
    ensures v.pnlAbs.Some? <==> v.currentPrice.Some?
    ensures v.pnlPct.Some? <==> v.currentPrice.Some? && a.purchasePrice > 0.0
    ensures v.currentPrice.Some? ==> v.currentValue.value == v.currentPrice.value * a.quantity
    ensures v.pnlAbs.Some? ==> v.pnlAbs.value == v.currentValue.value - v.invested
    ensures v.pnlPct.Some? ==>
              v.pnlPct.value == (v.currentPrice.value - a.purchasePrice) / a.purchasePrice * 100.0
  {
    var invested := a.purchasePrice * a.quantity;
    match CurrentPrice(prices, a.id)
    case None => AssetView(a, invested, None, None, None, None)
    case Some(c) =>
      var pnl := (c - a.purchasePrice) * a.quantity;
      var pct := if a.purchasePrice > 0.0 then Some((c - a.purchasePrice) / a.purchasePrice * 100.0) else None;
      AssetView(a, invested, Some(c), Some(c * a.quantity), Some(pnl), pct)
  }

  /** The percentage is the absolute profit or loss over the invested
    * amount, whenever that amount is not zero. */
  lemma PctIsPnlOverInvested(a: AssetRow, prices: seq<AssetPrice>)
    requires ViewOf(a, prices).pnlPct.Some? && a.quantity != 0.0
    ensures var v := ViewOf(a, prices);
            v.invested != 0.0 && v.pnlPct.value == v.pnlAbs.value / v.invested * 100.0
  {
    var v := ViewOf(a, prices);
    var c, p, q := v.currentPrice.value, a.purchasePrice, a.quantity;
    assert v.pnlAbs.value == (c - p) * q;
    assert (c - p) * q / (p * q) == (c - p) / p;
  }

  /** A price newer than every price the asset had becomes its current
    * price, wherever it is stored. */
  lemma NewerPriceWins(prices: seq<AssetPrice>, k: nat, row: AssetPrice)
    requires k <= |prices|
    requires forall i :: 0 <= i < |prices| && prices[i].assetId == row.assetId ==> prices[i].date < row.date
    ensures CurrentPrice(prices[..k] + [row] + prices[k..], row.assetId) == Some(row.closingPrice)
  {
    var s := prices[..k] + [row] + prices[k..];
    var l := Latest(s, row.assetId);
    assert s[k] == row;
    assert l.value.date >= row.date;
    assert forall x :: x in s ==> x == row || x in prices;
    assert l.value == row;
  }

  // ---------------------------------------------------------- the list

  function IdKey(a: AssetRow): Key {
    Key(a.id, 0)
  }

  /** The list handler: every asset once, in ascending id order, with its
    * derived columns. */
  function ListAssets(assets: seq<AssetRow>, prices: seq<AssetPrice>): (r: seq<AssetView>)
    ensures |r| == |assets|
    ensures forall i, j :: 0 <= i < j < |r| ==> r[i].asset.id <= r[j].asset.id
    ensures forall i :: 0 <= i < |r| ==> r[i] == ViewOf(r[i].asset, prices)
  {
    var sorted := SortBy(assets, IdKey);
    var r := seq(|sorted|, i requires 0 <= i < |sorted| => ViewOf(sorted[i], prices));
    assert forall i, j :: 0 <= i < j < |r| ==> KeyLe(IdKey(sorted[i]), IdKey(sorted[j]));
    r
  }

  /** The list holds exactly the table's rows, with their multiplicities. */
  lemma ListIsTable(assets: seq<AssetRow>, prices: seq<AssetPrice>)
    ensures var r := ListAssets(assets, prices);
            multiset(seq(|r|, i requires 0 <= i < |r| => r[i].asset)) == multiset(assets)
  {
    var r := ListAssets(assets, prices);
    var sorted := SortBy(assets, IdKey);
    assert seq(|r|, i requires 0 <= i < |r| => r[i].asset) == sorted;
    SortByPermutes(assets, IdKey);
  }

  // ---------------------------------------------------------- the insert

  /** The id the `SERIAL` column gives the next row: one past the largest. */
  function NextId(assets: seq<AssetRow>): (n: nat)
    ensures forall i :: 0 <= i < |assets| ==> assets[i].id < n
  {
    if |assets| == 0 then 1
    else
      var rest := NextId(assets[1..]);
      assert forall i :: 1 <= i < |assets| ==> assets[i] == assets[1..][i - 1];
      if assets[0].id >= rest then assets[0].id + 1 else rest
  }

  /** `POST /api/assets`: insert the body's fields and return the stored
    * row. */
  function CreateAsset(assets: seq<AssetRow>, name: string, ticker: string, assetType: string,
                       purchaseDate: Day, purchasePrice: real, quantity: real)
    : (r: (seq<AssetRow>, AssetRow))
    ensures r.0 == assets + [r.1]
    ensures r.1 == AssetRow(r.1.id, name, ticker, assetType, purchaseDate, purchasePrice, quantity)
    ensures forall i :: 0 <= i < |assets| ==> assets[i].id != r.1.id
  {
    var row := AssetRow(NextId(assets), name, ticker, assetType, purchaseDate, purchasePrice, quantity);
    (assets + [row], row)
  }

  /** In ascending id order, a row whose id exceeds every other comes last. */
  lemma {:induction false} GreatestIdLast(table: seq<AssetRow>, row: AssetRow)
    requires |table| > 0 && table[|table| - 1] == row
    requires forall i :: 0 <= i < |table| - 1 ==> table[i].id < row.id
    ensures var sorted := SortBy(table, IdKey); sorted[|sorted| - 1] == row
  {
    var sorted := SortBy(table, IdKey);
    SortByPermutes(table, IdKey);
    var last := sorted[|sorted| - 1];
    assert row in multiset(sorted) by {
      assert row in table;
    }
    var k :| 0 <= k < |sorted| && sorted[k] == row;
    assert KeyLe(IdKey(row), IdKey(last)) by {
      if k < |sorted| - 1 { }
    }
    assert last in multiset(table) by {
      assert last in sorted;
    }
    var j :| 0 <= j < |table| && table[j] == last;
  }

  /** A created asset is listed, after every older asset, with its invested
    * amount and no price yet. */
  lemma {:induction false} CreatedIsListedLast(assets: seq<AssetRow>, prices: seq<AssetPrice>, name: string, ticker: string,
                            assetType: string, purchaseDate: Day, purchasePrice: real, quantity: real)
    requires forall i :: 0 <= i < |prices| ==> prices[i].assetId < NextId(assets)
    ensures var (table, row) := CreateAsset(assets, name, ticker, assetType, purchaseDate, purchasePrice, quantity);
            var r := ListAssets(table, prices);
            |r| > 0 && r[|r| - 1] == AssetView(row, purchasePrice * quantity, None, None, None, None)
  {
    var (table, row) := CreateAsset(assets, name, ticker, assetType, purchaseDate, purchasePrice, quantity);
    GreatestIdLast(table, row);
    assert CurrentPrice(prices, row.id).None?;
  }
}
