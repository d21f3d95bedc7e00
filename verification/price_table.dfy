// `insertPriceIfMissing`: record an operation's unit price as the closing
// price of its (ticker, day) unless that key already has a price.

module PriceTable {
  import opened Wrappers
  import opened Text
  import opened JsNumber
  import opened Calendar
  import opened Tables

  /** The `date` argument: absent, a string, or a `Date` object (read as
    * the calendar day it falls on; a day past `LastJsDay` stands for an
    * Invalid Date). */
  datatype DateArg = NoDate | DateText(text: string) | DateValue(day: Day)

  /** JavaScript truthiness of the date argument: only "" and absence are
    * falsy; a `Date` object always is truthy. */
  predicate DateGiven(d: DateArg) {
    !d.NoDate? && (d.DateText? ==> d.text != "")
  }

  /** `s.slice(0, 10)`. */
  function Slice10(s: string): (r: string)
    ensures |r| == if |s| < 10 then |s| else 10
    ensures r == s[..|r|]
  {
    if |s| < 10 then s else s[..10]
  }

  /** `k` zeros. */
  function Zeros(k: nat): (r: string)
    ensures |r| == k && AllDigits(r)
    ensures forall i :: 0 <= i < k ==> r[i] == '0'
  {
    if k == 0 then "" else Zeros(k - 1) + "0"
  }

  /** `s.padStart(w, "0")`. */
  function PadStart(s: string, w: nat): (r: string)
    ensures |r| == if |s| < w then w else |s|
  {
    if |s| < w then Zeros(w - |s|) + s else s
  }

  /**
   * `Date.prototype.toISOString` of the day, at UTC midnight: the year has
   * four digits up to 9999 and is written as a sign and six digits from
   * 10000 on.
   */
  function ToISOString(n: Day): (r: string)
    ensures CivilDate(n).year > 9999 ==> |r| > 0 && r[0] == '+'
  {
    var d := CivilDate(n);
    var year := if d.year <= 9999 then PadStart(NatToDecimal(d.year), 4)
                else "+" + PadStart(NatToDecimal(d.year), 6);
    year + "-" + Pad2(d.month) + "-" + Pad2(d.day) + "T00:00:00.000Z"
  }

  /** The day the `$2::date` cast yields. None is the error the cast raises,
    * or the RangeError `toISOString` throws on an Invalid Date. */
  function DayOf(d: DateArg): (r: Option<Day>)
    requires !d.NoDate?
    ensures d.DateValue? ==> (r.Some? <==> CivilDate(d.day).year <= 9999)
    ensures d.DateValue? && r.Some? ==> r.value == d.day
    ensures d.DateText? ==> r == DateLiteral(Slice10(d.text))
  {
    match d
    case DateText(s) => DateLiteral(Slice10(s))
    case DateValue(n) =>
      ISOStringCast(n);
      if n > LastJsDay then None else DateLiteral(Slice10(ToISOString(n)))
  }

  /** The cast reads back the first ten characters `toISOString` prints
    * exactly when the year has four digits; a `+0YYYYY` year is rejected. */
  lemma ISOStringCast(n: Day)
    ensures DateLiteral(Slice10(ToISOString(n))) == if CivilDate(n).year <= 9999 then Some(n) else None
    ensures CivilDate(n).year <= 9999 ==> n <= LastJsDay
  {
    var d := CivilDate(n);
    if d.year <= 9999 {
      FourDigitYearFits(d);
      ISOStringReadBack(n);
    } else {
      ExpandedYearRejected(n);
    }
  }

  /** Zeros in front do not change the value of a digit string. */
  lemma {:induction false} ZerosValue(k: nat, s: string)
    requires AllDigits(s)
    ensures AllDigits(Zeros(k) + s) && DigitsValue(Zeros(k) + s) == DigitsValue(s)
    decreases |s|, k
  {
    var z := Zeros(k) + s;
    if |s| == 0 {
      assert z == Zeros(k);
      if k > 0 {
        assert z[..|z| - 1] == Zeros(k - 1) + "";
        ZerosValue(k - 1, "");
      }
    } else {
      assert z[..|z| - 1] == Zeros(k) + s[..|s| - 1];
      ZerosValue(k, s[..|s| - 1]);
    }
  }

  /** A number below `10^k` prints with at most `k` digits. */
  lemma {:induction false} DecimalLength(n: nat, k: nat)
    requires k >= 1 && n < Pow10(k)
    ensures |NatToDecimal(n)| <= k
    decreases n
  {
    if n >= 10 {
      DecimalLength(n / 10, k - 1);
    }
  }

  /** A four-digit year reads back through `toISOString` and the cast. */
  lemma ISOStringReadBack(n: Day)
    requires CivilDate(n).year <= 9999
    ensures DateLiteral(Slice10(ToISOString(n))) == Some(n)
  {
    var d := CivilDate(n);
    var dec := NatToDecimal(d.year);
    assert Pow10(4) == 10000;
    DecimalLength(d.year, 4);
    var ys, ms, ds := PadStart(dec, 4), Pad2(d.month), Pad2(d.day);
    ZerosValue(4 - |dec|, dec);
    DecimalThenDigits(d.year);
    assert AllDigits(ys) && DigitsValue(ys) == d.year;
    Pad2Value(d.month);
    Pad2Value(d.day);
    var text := ys + "-" + ms + "-" + ds;
    assert ToISOString(n) == text + "T00:00:00.000Z";
    assert Slice10(ToISOString(n)) == text;
    DigitsHaveNoDash(ys);
    DigitsHaveNoDash(ms);
    DigitsHaveNoDash(ds);
    SplitThree(ys, ms, ds, '-');
    assert text == ys + ['-'] + ms + ['-'] + ds;
  }

  /** From year 10000 on the first ten characters start with a sign,
    * which the cast rejects. */
  lemma ExpandedYearRejected(n: Day)
    requires CivilDate(n).year > 9999
    ensures DateLiteral(Slice10(ToISOString(n))) == None
  {
    var s := Slice10(ToISOString(n));
    assert s[0] == '+';
    SplitCons(s, '-');
    var parts := Split(s, '-');
    assert parts[0][0] == '+';
    assert !AllDigits(parts[0]);
  }

  predicate HasKey(prices: seq<PriceRow>, ticker: string, day: Day) {
    exists i :: 0 <= i < |prices| && prices[i].ticker == ticker && prices[i].date == day
  }

  /** The insert. None is the error the query raises on an unreadable date;
    * a missing argument makes the call return before any query. */
  function InsertPriceIfMissing(prices: seq<PriceRow>, ticker: Option<string>, date: DateArg, unitPrice: Option<real>)
    : (r: Option<seq<PriceRow>>)
    ensures !Truthy(ticker) || !DateGiven(date) || unitPrice.None? ==> r == Some(prices)
    ensures r.None? <==> Truthy(ticker) && DateGiven(date) && unitPrice.Some? && DayOf(date).None?
    ensures r.Some? && Truthy(ticker) && DateGiven(date) && unitPrice.Some? ==>
              var day := DayOf(date).value;
              HasKey(r.value, ticker.value, day) &&
              (HasKey(prices, ticker.value, day) ==> r.value == prices) &&
              (!HasKey(prices, ticker.value, day) ==>
                 r.value == prices + [PriceRow(ticker.value, day, unitPrice.value)])
  {
    if !Truthy(ticker) || !DateGiven(date) || unitPrice.None? then Some(prices)
    else
      match DayOf(date)
      case None => None
      case Some(day) =>
        if HasKey(prices, ticker.value, day) then Some(prices)
        else
          var row := PriceRow(ticker.value, day, unitPrice.value);
          assert (prices + [row])[|prices|] == row;
          Some(prices + [row])
  }

  /** Calling twice with the same arguments leaves the table as calling once. */
  lemma InsertIdempotent(prices: seq<PriceRow>, ticker: Option<string>, date: DateArg, unitPrice: Option<real>)
    requires InsertPriceIfMissing(prices, ticker, date, unitPrice).Some?
    ensures var once := InsertPriceIfMissing(prices, ticker, date, unitPrice).value;
            InsertPriceIfMissing(once, ticker, date, unitPrice) == Some(once)
  {
  }

  /** Existing rows are never changed or removed, whatever the arguments. */
  lemma InsertKeepsRows(prices: seq<PriceRow>, ticker: Option<string>, date: DateArg, unitPrice: Option<real>)
    requires InsertPriceIfMissing(prices, ticker, date, unitPrice).Some?
    ensures var r := InsertPriceIfMissing(prices, ticker, date, unitPrice).value;
            |prices| <= |r| <= |prices| + 1 && r[..|prices|] == prices
  {
  }

  /** A unit price of 0 is a price: only null and undefined are skipped.
    * (A `Date` past year 9999 fails in the cast whatever the price.) */
  lemma ZeroPriceInserted(prices: seq<PriceRow>, ticker: string, day: Day)
    requires ticker != "" && !HasKey(prices, ticker, day)
    ensures InsertPriceIfMissing(prices, Some(ticker), DateValue(day), Some(0.0)) ==
            if CivilDate(day).year <= 9999 then Some(prices + [PriceRow(ticker, day, 0.0)]) else None
  {
  }

  /** A timestamp string names the same key as its date part. */
  lemma TimestampTruncated(prices: seq<PriceRow>, ticker: Option<string>, n: Day, rest: string, unitPrice: Option<real>)
    requires |ToISO(n)| == 10
    ensures InsertPriceIfMissing(prices, ticker, DateText(ToISO(n) + rest), unitPrice) ==
            InsertPriceIfMissing(prices, ticker, DateValue(n), unitPrice)
  {
    var s := ToISO(n) + rest;
    assert Slice10(s) == ToISO(n);
    DateLiteralOfISO(n);
    FourDigitsPrinted(n);
  }

  /** `toISO` prints ten characters only for a year of four digits. */
  lemma FourDigitsPrinted(n: Day)
    requires |ToISO(n)| == 10
    ensures CivilDate(n).year <= 9999
  {
    var d := CivilDate(n);
    Pad2Value(d.month);
    Pad2Value(d.day);
    var dec := NatToDecimal(d.year);
    assert |dec| == 4;
    DecimalThenDigits(d.year);
    DigitsBelow(dec);
    assert Pow10(4) == 10000;
  }
}
