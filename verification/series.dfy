/**
 * Day grids, forward filling and stride downsampling of value series, shared
 * by backend/src/services/historyService.js and backend/src/routes/history.js.
 * A series point is dated by a day number; its ISO rendering is `ToISO`.
 */
module Series {
  import opened Wrappers
  import opened Text
  import opened Calendar

  /** A `{date, value}` point of a history series. */
  datatype Point = Point(date: Day, value: real)

  predicate StrictlyAscending(ds: seq<Day>) {
    forall i, j :: 0 <= i < j < |ds| ==> ds[i] < ds[j]
  }

  function DatesOf(s: seq<Point>): (ds: seq<Day>)
    ensures |ds| == |s|
    ensures forall i :: 0 <= i < |s| ==> ds[i] == s[i].date
  {
    if |s| == 0 then [] else [s[0].date] + DatesOf(s[1..])
  }

  // ---------------------------------------------------------------- the day grid

  /** Every day from `first` to `last` inclusive, one step of one day at a time. */
  function DayRange(first: Day, last: Day): (r: seq<Day>)
    ensures |r| == if first <= last then last - first + 1 else 0
    ensures forall i :: 0 <= i < |r| ==> r[i] == first + i
    decreases last + 1 - first
  {
    if first > last then [] else [first] + DayRange(first + 1, last)
  }

  /** A day range is strictly ascending and holds exactly the days between its ends. */
  lemma {:induction false} DayRangeShape(first: Day, last: Day)
    ensures StrictlyAscending(DayRange(first, last))
    ensures forall d: Day :: d in DayRange(first, last) <==> first <= d <= last
  {
    var r := DayRange(first, last);
    forall d: Day | first <= d <= last
      ensures d in r
    {
      assert r[d - first] == d;
    }
  }

  // ---------------------------------------------------------------- forward filling

  /**
   * The grid walk `last = 0; for (iso of dates) { if (known.has(iso)) last =
   * known.get(iso); out.set(iso, last) }`, carrying `last` along.
   */
  function FillFrom(dates: seq<Day>, known: map<Day, real>, last: real): (r: seq<real>)
    ensures |r| == |dates|
  {
    if |dates| == 0 then []
    else
      var v := if dates[0] in known then known[dates[0]] else last;
      [v] + FillFrom(dates[1..], known, v)
  }

  function ForwardFill(dates: seq<Day>, known: map<Day, real>): (r: seq<real>)
    ensures |r| == |dates|
  {
    FillFrom(dates, known, 0.0)
  }

  /**
   * The latest grid position at or before `k` whose day has a known value,
   * or -1 when there is none.
   */
  function LastKnownIndex(dates: seq<Day>, known: map<Day, real>, k: int): (j: int)
    requires -1 <= k < |dates|
    ensures -1 <= j <= k
    ensures j >= 0 ==> dates[j] in known
    ensures forall i :: j < i <= k ==> dates[i] !in known
    decreases k + 1
  {
    if k < 0 then -1
    else if dates[k] in known then k
    else LastKnownIndex(dates, known, k - 1)
  }

  lemma {:induction false} FillFromLooksBack(dates: seq<Day>, known: map<Day, real>, last: real, k: nat)
    requires k < |dates|
    ensures FillFrom(dates, known, last)[k] ==
            (var j := LastKnownIndex(dates, known, k); if j < 0 then last else known[dates[j]])
    decreases k
  {
    var v := if dates[0] in known then known[dates[0]] else last;
    if k > 0 {
      var t := dates[1..];
      FillFromLooksBack(t, known, v, k - 1);
      ShiftedLastKnown(dates, known, k);
    }
  }

  /** Looking back from position `k` in `dates[1..]` is looking back from `k + 1` in `dates`, down to 1. */
  lemma {:induction false} ShiftedLastKnown(dates: seq<Day>, known: map<Day, real>, k: nat)
    requires 0 < k < |dates|
    ensures LastKnownIndex(dates[1..], known, k - 1) ==
            (var j := LastKnownIndex(dates, known, k); if j <= 0 then -1 else j - 1)
    decreases k
  {
    if dates[k] !in known && k > 1 {
      ShiftedLastKnown(dates, known, k - 1);
    }
  }

  /**
   * Forward filling reads, at each grid position, the value of the latest
   * grid day at or before it that has a known value, and 0 before the first.
   */
  lemma {:induction false} ForwardFillLooksBack(dates: seq<Day>, known: map<Day, real>, k: nat)
    requires k < |dates|
    ensures ForwardFill(dates, known)[k] ==
            (var j := LastKnownIndex(dates, known, k); if j < 0 then 0.0 else known[dates[j]])
  {
    FillFromLooksBack(dates, known, 0.0, k);
  }

  // ---------------------------------------------------------------- grouping

  /** How a history request groups its days. */
  datatype Grouping = Daily | Weekly | Monthly | Yearly

  /** `(group || "day").toLowerCase()`: an absent or empty group means "day". */
  function GroupName(group: Option<string>): (name: string)
    ensures group.None? || group.value == [] ==> name == "day"
    ensures group.Some? && group.value != [] ==> name == ToLower(group.value)
  {
    if group.None? || group.value == [] then "day" else ToLower(group.value)
  }

  /** "week", "month" and "year" select their unit; every other name falls back to days. */
  function ParseGrouping(name: string): (g: Grouping)
    ensures g == Weekly <==> name == "week"
    ensures g == Monthly <==> name == "month"
    ensures g == Yearly <==> name == "year"
  {
    if name == "week" then Weekly
    else if name == "month" then Monthly
    else if name == "year" then Yearly
    else Daily
  }

  /** The first day of the bucket holding `n`: the Monday of its week, the 1st of its month or year. */
  function BucketStart(g: Grouping, n: Day): (r: Day)
    ensures r <= n
    ensures g == Daily ==> r == n
    ensures g == Weekly ==> n - 6 <= r && Weekday(r) == 1
  {
    match g
    case Daily => n
    case Weekly => WeekStart(n)
    case Monthly => MonthStart(n)
    case Yearly => YearStart(n)
  }

  /** A bucket start lies in its own bucket. */
  lemma BucketStartIdempotent(g: Grouping, n: Day)
    ensures BucketStart(g, BucketStart(g, n)) == BucketStart(g, n)
  {
    match g
    case Daily =>
    case Weekly => WeekStartIdempotent(n);
    case Monthly => MonthStartIdempotent(n);
    case Yearly => YearStartIdempotent(n);
  }

  /** Month and year buckets start on the first day of the month or year. */
  lemma BucketStartCalendar(g: Grouping, n: Day)
    ensures g == Monthly ==> CivilDate(BucketStart(g, n)) ==
                             Date(CivilDate(n).year, CivilDate(n).month, 1)
    ensures g == Yearly ==> CivilDate(BucketStart(g, n)) == Date(CivilDate(n).year, 1, 1)
  {
    MonthStartIsFirst(n);
    YearStartIsFirst(n);
  }

  /** The service's month key `${y}-${mm}-01` is the ISO rendering of the month bucket's start. */
  lemma MonthKeyIsISO(n: Day)
    ensures ToISO(BucketStart(Monthly, n)) ==
            NatToDecimal(CivilDate(n).year) + "-" + Pad2(CivilDate(n).month) + "-01"
  {
    MonthStartIsFirst(n);
    FirstOfMonthISO(MonthStart(n), CivilDate(n).year, CivilDate(n).month);
  }

  /** The service's year key `${y}-01-01` is the ISO rendering of the year bucket's start. */
  lemma YearKeyIsISO(n: Day)
    ensures ToISO(BucketStart(Yearly, n)) == NatToDecimal(CivilDate(n).year) + "-01-01"
  {
    YearStartIsFirst(n);
    FirstOfMonthISO(YearStart(n), CivilDate(n).year, 1);
    JanuarySuffix(NatToDecimal(CivilDate(n).year));
  }

  lemma JanuarySuffix(ys: string)
    ensures ys + "-" + Pad2(1) + "-01" == ys + "-01-01"
  {
    assert Pad2(1) == "01";
  }

  lemma {:induction false} FirstOfMonthISO(m: Day, year: nat, month: nat)
    requires CivilDate(m) == Date(year, month, 1)
    ensures ToISO(m) == NatToDecimal(year) + "-" + Pad2(month) + "-01"
  {
    assert Pad2(1) == "01";
  }

  // ---------------------------------------------------------------- downsampling

  /** `Number(maxPoints) || 100`: NaN (`None`) and 0 fall back to 100. */
  function PointLimit(maxPoints: Option<int>): (n: int)
    ensures maxPoints.None? || maxPoints.value == 0 ==> n == 100
    ensures maxPoints.Some? && maxPoints.value != 0 ==> n == maxPoints.value
  {
    if maxPoints.None? || maxPoints.value == 0 then 100 else maxPoints.value
  }

  /** The positions `i, i + step, i + 2*step, ...` below `len`. */
  function StrideIndices(len: nat, step: nat, i: nat): (r: seq<nat>)
    requires step >= 1
    ensures forall k :: 0 <= k < |r| ==> r[k] == i + k * step && r[k] < len
    ensures i < len ==> |r| >= 1
    decreases len - i
  {
    if i >= len then []
    else
      var rest := StrideIndices(len, step, i + step);
      assert forall k :: 1 <= k < |rest| + 1 ==> rest[k - 1] == i + k * step by {
        forall k | 1 <= k < |rest| + 1 ensures rest[k - 1] == i + k * step {
          assert (k - 1) * step + step == k * step;
        }
      }
      [i] + rest
  }

  /** The positions `downsample` keeps: every `step`-th, plus the last when its date is new. */
  function KeptIndices(s: seq<Point>, n: int): (idx: seq<nat>)
    requires n >= 1
  {
    if |s| <= n then seq(|s|, i => i)
    else
      var step := (|s| + n - 1) / n;
      var picks := StrideIndices(|s|, step, 0);
      if s[picks[|picks| - 1]].date != s[|s| - 1].date then picks + [|s| - 1] else picks
  }

  function Pick(s: seq<Point>, idx: seq<nat>): (r: seq<Point>)
    requires forall k :: 0 <= k < |idx| ==> idx[k] < |s|
    ensures |r| == |idx|
    ensures forall k :: 0 <= k < |idx| ==> r[k] == s[idx[k]]
  {
    seq(|idx|, k requires 0 <= k < |idx| => s[idx[k]])
  }

  /**
   * `downsample(series, maxPoints)` with `n = Number(maxPoints) || 100`:
   * the input when it is short enough, otherwise every `ceil(len / n)`-th
   * point from the first, plus the last point when its date is not the date
   * of the last pick.
   */
  function Downsample(s: seq<Point>, n: int): (r: seq<Point>)
    requires n >= 1
    ensures |s| <= n ==> r == s
    ensures |s| > 0 ==> |r| > 0 && r[0] == s[0] && r[|r| - 1].date == s[|s| - 1].date
    ensures |r| <= n + 1
  {
    var idx := KeptIndices(s, n);
    KeptIndicesShape(s, n);
    Pick(s, idx)
  }

  lemma KeptIndicesShape(s: seq<Point>, n: int)
    requires n >= 1
    ensures forall k :: 0 <= k < |KeptIndices(s, n)| ==> KeptIndices(s, n)[k] < |s|
    ensures forall a, b :: 0 <= a < b < |KeptIndices(s, n)| ==> KeptIndices(s, n)[a] < KeptIndices(s, n)[b]
    ensures |s| > 0 ==> |KeptIndices(s, n)| > 0 && KeptIndices(s, n)[0] == 0
    ensures |s| > 0 ==> s[KeptIndices(s, n)[|KeptIndices(s, n)| - 1]].date == s[|s| - 1].date
    ensures |s| <= n ==> KeptIndices(s, n) == seq(|s|, i => i)
    ensures |KeptIndices(s, n)| <= n + 1
  {
    if |s| > n {
      var len := |s|;
      var step := (len + n - 1) / n;
      StepCoversLength(len, n);
      var picks := StrideIndices(len, step, 0);
      var last := |picks| - 1;
      assert picks[last] == last * step;
      StrideCount(last, step, n, len);
      forall a, b | 0 <= a < b < |picks| ensures picks[a] < picks[b] {
        MulStrict(a, b, step);
      }
    }
  }

  /** `ceil(len / n)` steps of length `step` cover `len`. */
  lemma StepCoversLength(len: nat, n: int)
    requires n >= 1 && len > n
    ensures (len + n - 1) / n >= 1
    ensures (len + n - 1) / n * n >= len
  {
    var q := (len + n - 1) / n;
    var m := (len + n - 1) % n;
    assert q * n + m == len + n - 1;
    assert q * n >= len;
  }

  lemma StrideCount(last: nat, step: nat, n: int, len: nat)
    requires step >= 1 && n >= 1 && step * n >= len && last * step < len
    ensures last + 1 <= n
  {
  }

  lemma MulStrict(a: nat, b: nat, step: nat)
    requires a < b && step >= 1
    ensures a * step < b * step
  {
    assert b * step == a * step + (b - a) * step;
  }

  /**
   * The downsampled series is an order-preserving selection of the input:
   * it is the input read at strictly increasing positions.
   */
  lemma DownsampleIsSelection(s: seq<Point>, n: int)
    requires n >= 1
    ensures var idx := KeptIndices(s, n);
            (forall a, b :: 0 <= a < b < |idx| ==> idx[a] < idx[b]) &&
            (forall k :: 0 <= k < |idx| ==> idx[k] < |s|) &&
            Downsample(s, n) == Pick(s, idx)
  {
    KeptIndicesShape(s, n);
  }

  /** With 8 points and a limit of 3 the result has 4 points: the bound `n + 1` is reached. */
  lemma {:induction false} DownsampleCanExceedLimit(s: seq<Point>)
    requires |s| == 8 && StrictlyAscending(DatesOf(s))
    ensures |Downsample(s, 3)| == 4
  {
    var picks := StrideIndices(8, 3, 0);
    assert picks == [0, 3, 6] by {
      assert StrideIndices(8, 3, 9) == [];
      assert StrideIndices(8, 3, 6) == [6];
      assert StrideIndices(8, 3, 3) == [3, 6];
    }
    assert DatesOf(s)[6] < DatesOf(s)[7];
    assert KeptIndices(s, 3) == [0, 3, 6, 7];
  }
}
