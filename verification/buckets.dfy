/**
 * Bucketing a daily series by week, month or year.
 *
 * The service keeps the LAST point of each bucket
 * (`regroupByBucketLast`, backend/src/services/historyService.js); the SQL
 * route SUMs the daily totals of each bucket (`GROUP BY bucket`,
 * backend/src/routes/history.js). Both collect one slot per bucket key in
 * first-seen order and then order the slots by key.
 */
module Buckets {
  import opened Wrappers
  import opened Calendar
  import opened Sorting
  import opened Series

  /** The key a grouping files a day under: the start of its bucket. The
    * bucketing below is written for any such key function. */
  function BucketOf(g: Grouping): Day -> Day {
    (n: Day) => BucketStart(g, n)
  }

  /** One entry of the per-bucket `Map` (or SQL group): its key, and the date and value kept. */
  datatype Slot = Slot(key: Day, date: Day, value: real)

  function SlotKey(sl: Slot): Key {
    Key(sl.key, 0)
  }

  predicate DistinctSlots(slots: seq<Slot>) {
    forall i, j :: 0 <= i < j < |slots| ==> slots[i].key != slots[j].key
  }

  /** `map.get(key)`: the position of the slot for `key`, or `|slots|` when there is none. */
  function SlotIndex(slots: seq<Slot>, key: Day): (i: nat)
    ensures i <= |slots|
    ensures i < |slots| ==> slots[i].key == key
    ensures forall j :: 0 <= j < i ==> slots[j].key != key
  {
    if |slots| == 0 then 0
    else if slots[0].key == key then 0
    else 1 + SlotIndex(slots[1..], key)
  }

  function Lookup(slots: seq<Slot>, key: Day): (r: Option<Slot>)
    ensures r.Some? ==> r.value in slots && r.value.key == key
    ensures r.None? ==> forall j :: 0 <= j < |slots| ==> slots[j].key != key
  {
    var i := SlotIndex(slots, key);
    if i < |slots| then Some(slots[i]) else None
  }

  /** `map.set(sl.key, sl)`: an existing key is overwritten in place, a new key goes last. */
  function SetSlot(slots: seq<Slot>, sl: Slot): (r: seq<Slot>)
    requires DistinctSlots(slots)
    ensures DistinctSlots(r)
    ensures forall k :: Lookup(r, k) == if k == sl.key then Some(sl) else Lookup(slots, k)
  {
    var i := SlotIndex(slots, sl.key);
    var r := if i < |slots| then slots[i := sl] else slots + [sl];
    SetSlotFacts(slots, sl, i, r);
    r
  }

  lemma {:induction false} SetSlotFacts(slots: seq<Slot>, sl: Slot, i: nat, r: seq<Slot>)
    requires DistinctSlots(slots) && i == SlotIndex(slots, sl.key)
    requires r == if i < |slots| then slots[i := sl] else slots + [sl]
    ensures DistinctSlots(r)
    ensures forall k :: Lookup(r, k) == if k == sl.key then Some(sl) else Lookup(slots, k)
  {
    assert forall j :: 0 <= j < |slots| && j != i ==> r[j] == slots[j];
    assert r[i] == sl;
    assert DistinctSlots(r);
    forall k ensures Lookup(r, k) == if k == sl.key then Some(sl) else Lookup(slots, k) {
      if k == sl.key {
        LookupDistinct(r, k);
      } else if Lookup(slots, k).Some? {
        var x := Lookup(slots, k).value;
        var j :| 0 <= j < |slots| && slots[j] == x;
        assert r[j] == x;
        LookupDistinct(r, k);
      } else {
        assert forall j :: 0 <= j < |r| ==> r[j].key != k;
      }
    }
  }

  /** With distinct keys, a key's slot is the one slot carrying that key. */
  lemma LookupDistinct(slots: seq<Slot>, key: Day)
    requires DistinctSlots(slots)
    ensures forall j :: 0 <= j < |slots| && slots[j].key == key ==> Lookup(slots, key) == Some(slots[j])
  {
  }

  /** Setting a key that is not there yet appends its slot. */
  lemma SetSlotNew(slots: seq<Slot>, sl: Slot)
    requires DistinctSlots(slots) && Lookup(slots, sl.key).None?
    ensures SetSlot(slots, sl) == slots + [sl]
  {
  }

  /** The slots as points dated by their bucket key. */
  function SlotsToPoints(slots: seq<Slot>): (r: seq<Point>)
    ensures |r| == |slots|
    ensures forall i :: 0 <= i < |slots| ==> r[i] == Point(slots[i].key, slots[i].value)
  {
    seq(|slots|, i requires 0 <= i < |slots| => Point(slots[i].key, slots[i].value))
  }

  /**
   * `Array.from(buckets.entries()).sort(by key).map(...)`, or SQL `ORDER BY
   * bucket`: the slots ordered by key, as points.
   */
  function OrderedPoints(slots: seq<Slot>): (r: seq<Point>)
    requires DistinctSlots(slots)
    ensures StrictlyAscending(DatesOf(r))
    ensures forall i :: 0 <= i < |r| ==>
              Lookup(slots, r[i].date).Some? && Lookup(slots, r[i].date).value.value == r[i].value
    ensures forall j :: 0 <= j < |slots| ==> slots[j].key in DatesOf(r)
  {
    var sorted := SortBy(slots, SlotKey);
    var r := SlotsToPoints(sorted);
    OrderedAscending(slots, sorted, r);
    OrderedFromSlots(slots, sorted, r);
    OrderedCoversSlots(slots, sorted, r);
    r
  }

  lemma {:induction false} OrderedAscending(slots: seq<Slot>, sorted: seq<Slot>, r: seq<Point>)
    requires DistinctSlots(slots) && sorted == SortBy(slots, SlotKey) && r == SlotsToPoints(sorted)
    ensures StrictlyAscending(DatesOf(r))
  {
    SortByDistinct(slots, SlotKey);
    var ds := DatesOf(r);
    forall a, b | 0 <= a < b < |ds| ensures ds[a] < ds[b] {
      assert KeyLe(SlotKey(sorted[a]), SlotKey(sorted[b]));
      assert SlotKey(sorted[a]) != SlotKey(sorted[b]);
    }
  }

  lemma {:induction false} OrderedFromSlots(slots: seq<Slot>, sorted: seq<Slot>, r: seq<Point>)
    requires DistinctSlots(slots) && sorted == SortBy(slots, SlotKey) && r == SlotsToPoints(sorted)
    ensures forall i :: 0 <= i < |r| ==>
              Lookup(slots, r[i].date).Some? && Lookup(slots, r[i].date).value.value == r[i].value
  {
    forall i | 0 <= i < |r|
      ensures Lookup(slots, r[i].date).Some? && Lookup(slots, r[i].date).value.value == r[i].value
    {
      SortByMember(slots, SlotKey, sorted[i]);
      var j :| 0 <= j < |slots| && slots[j] == sorted[i];
      LookupDistinct(slots, sorted[i].key);
    }
  }

  lemma {:induction false} OrderedCoversSlots(slots: seq<Slot>, sorted: seq<Slot>, r: seq<Point>)
    requires DistinctSlots(slots) && sorted == SortBy(slots, SlotKey) && r == SlotsToPoints(sorted)
    ensures forall j :: 0 <= j < |slots| ==> slots[j].key in DatesOf(r)
  {
    var ds := DatesOf(r);
    forall j | 0 <= j < |slots| ensures slots[j].key in ds {
      SortByMember(slots, SlotKey, slots[j]);
      var i :| 0 <= i < |sorted| && sorted[i] == slots[j];
      assert ds[i] == slots[j].key;
    }
  }

  // ---------------------------------------------------------------- last value per bucket

  /**
   * Reference: the point of `s` in bucket `k` with the latest date (the
   * earliest of equals), or `None` when the bucket is empty.
   */
  function LatestInBucket(s: seq<Point>, key: Day -> Day, k: Day): (r: Option<Point>)
    ensures r.None? <==> forall i :: 0 <= i < |s| ==> key(s[i].date) != k
    ensures r.Some? ==> r.value in s && key(r.value.date) == k
    ensures r.Some? ==> forall i :: 0 <= i < |s| && key(s[i].date) == k ==> s[i].date <= r.value.date
  {
    if |s| == 0 then None
    else
      var prev := LatestInBucket(s[..|s| - 1], key, k);
      var p := s[|s| - 1];
      assert forall i :: 0 <= i < |s| - 1 ==> s[..|s| - 1][i] == s[i];
      if key(p.date) == k && (prev.None? || p.date > prev.value.date) then Some(p)
      else prev
  }

  /** The slot kept for bucket `k`: the latest point, if any. */
  function LatestSlot(s: seq<Point>, key: Day -> Day, k: Day): Option<Slot> {
    match LatestInBucket(s, key, k)
    case None => None
    case Some(q) => Some(Slot(k, q.date, q.value))
  }

  /**
   * The loop of `regroupByBucketLast`: a point replaces its bucket's entry
   * when the bucket is new or the point's date is later.
   */
  function KeepLatest(s: seq<Point>, key: Day -> Day): (slots: seq<Slot>)
    ensures DistinctSlots(slots)
    ensures forall k :: Lookup(slots, k) == LatestSlot(s, key, k)
  {
    if |s| == 0 then []
    else
      var slots := KeepLatest(s[..|s| - 1], key);
      var p := s[|s| - 1];
      var k := key(p.date);
      var prev := Lookup(slots, k);
      if prev.None? || p.date > prev.value.date then SetSlot(slots, Slot(k, p.date, p.value))
      else slots
  }

  /**
   * `regroupByBucketLast(series, group)`: one point per bucket, dated at the
   * bucket start and valued at the bucket's latest point, in ascending order.
   */
  function RegroupLast(s: seq<Point>, key: Day -> Day): (r: seq<Point>)
    ensures StrictlyAscending(DatesOf(r))
    ensures forall i :: 0 <= i < |r| ==>
              LatestInBucket(s, key, r[i].date).Some? && r[i].value == LatestInBucket(s, key, r[i].date).value.value
    ensures forall j :: 0 <= j < |s| ==> key(s[j].date) in DatesOf(r)
  {
    var slots := KeepLatest(s, key);
    var r := OrderedPoints(slots);
    forall j | 0 <= j < |s| ensures key(s[j].date) in DatesOf(r) {
      var k := key(s[j].date);
      assert LatestSlot(s, key, k).Some?;
      assert Lookup(slots, k).Some?;
      assert Lookup(slots, k).value in slots;
    }
    r
  }

  function DailySlots(s: seq<Point>): (slots: seq<Slot>)
    ensures |slots| == |s|
    ensures forall i :: 0 <= i < |s| ==> slots[i] == Slot(s[i].date, s[i].date, s[i].value)
  {
    seq(|s|, i requires 0 <= i < |s| => Slot(s[i].date, s[i].date, s[i].value))
  }

  lemma DailySlotsSnoc(s: seq<Point>)
    requires |s| > 0
    ensures DailySlots(s) == DailySlots(s[..|s| - 1]) + [Slot(s[|s| - 1].date, s[|s| - 1].date, s[|s| - 1].value)]
  {
  }

  /** A point opening a new bucket appends that bucket's slot. */
  lemma {:induction false} KeepLatestNewBucket(s: seq<Point>, key: Day -> Day)
    requires |s| > 0
    requires Lookup(KeepLatest(s[..|s| - 1], key), key(s[|s| - 1].date)).None?
    ensures KeepLatest(s, key) ==
            KeepLatest(s[..|s| - 1], key) + [Slot(key(s[|s| - 1].date), s[|s| - 1].date, s[|s| - 1].value)]
  {
    var slots := KeepLatest(s[..|s| - 1], key);
    var p := s[|s| - 1];
    var sl := Slot(key(p.date), p.date, p.value);
    assert KeepLatest(s, key) == SetSlot(slots, sl);
    SetSlotNew(slots, sl);
  }

  /** On a strictly ascending series, each point is the latest of its own day. */
  lemma {:induction false} KeepLatestDaily(s: seq<Point>)
    requires StrictlyAscending(DatesOf(s))
    ensures KeepLatest(s, BucketOf(Daily)) == DailySlots(s)
  {
    if |s| > 0 {
      var p := s[..|s| - 1];
      assert StrictlyAscending(DatesOf(p)) by {
        forall a, b | 0 <= a < b < |p| ensures DatesOf(p)[a] < DatesOf(p)[b] {
          assert DatesOf(s)[a] < DatesOf(s)[b];
        }
      }
      KeepLatestDaily(p);
      var slots := KeepLatest(p, BucketOf(Daily));
      var last := s[|s| - 1];
      forall j | 0 <= j < |slots| ensures slots[j].key != last.date {
        assert DatesOf(s)[j] < DatesOf(s)[|s| - 1];
      }
      assert Lookup(slots, last.date).None?;
      KeepLatestNewBucket(s, BucketOf(Daily));
      DailySlotsSnoc(s);
    }
  }

  /**
   * An unknown group name buckets by day, and regrouping a strictly
   * ascending daily series by day gives the series back.
   */
  lemma {:induction false} RegroupDailyIsIdentity(s: seq<Point>)
    requires StrictlyAscending(DatesOf(s))
    ensures RegroupLast(s, BucketOf(Daily)) == s
  {
    KeepLatestDaily(s);
    var slots := DailySlots(s);
    assert RegroupLast(s, BucketOf(Daily)) == OrderedPoints(slots);
    DailySlotsSorted(s);
    OrderedPointsOfSorted(slots);
    DailySlotsToPoints(s);
  }

  /** Slots already in key order are only converted to points. */
  lemma OrderedPointsOfSorted(slots: seq<Slot>)
    requires DistinctSlots(slots) && SortedBy(slots, SlotKey)
    ensures OrderedPoints(slots) == SlotsToPoints(slots)
  {
    SortBySorted(slots, SlotKey);
  }

  lemma DailySlotsToPoints(s: seq<Point>)
    ensures SlotsToPoints(DailySlots(s)) == s
  {
  }

  lemma {:induction false} DailySlotsSorted(s: seq<Point>)
    requires StrictlyAscending(DatesOf(s))
    ensures SortedBy(DailySlots(s), SlotKey)
  {
    var slots := DailySlots(s);
    forall a, b | 0 <= a < b < |slots| ensures KeyLe(SlotKey(slots[a]), SlotKey(slots[b])) {
      assert DatesOf(s)[a] < DatesOf(s)[b];
    }
  }

  // ---------------------------------------------------------------- sum per bucket

  /** Reference: the sum of the values of the points in bucket `k`. */
  function BucketTotal(s: seq<Point>, key: Day -> Day, k: Day): real {
    if |s| == 0 then 0.0
    else (if key(s[0].date) == k then s[0].value else 0.0) + BucketTotal(s[1..], key, k)
  }

  lemma {:induction false} BucketTotalSnoc(s: seq<Point>, key: Day -> Day, k: Day)
    requires |s| > 0
    ensures BucketTotal(s, key, k) ==
            BucketTotal(s[..|s| - 1], key, k) + (if key(s[|s| - 1].date) == k then s[|s| - 1].value else 0.0)
  {
    if |s| > 1 {
      BucketTotalSnoc(s[1..], key, k);
      assert s[1..][..|s| - 2] == s[..|s| - 1][1..];
    }
  }

  function TotalSlot(s: seq<Point>, key: Day -> Day, k: Day): Option<Slot> {
    if LatestInBucket(s, key, k).None? then None else Some(Slot(k, k, BucketTotal(s, key, k)))
  }

  /** `GROUP BY bucket` with `SUM(total_value)`, one slot per bucket in first-seen order. */
  function AddUp(s: seq<Point>, key: Day -> Day): (slots: seq<Slot>)
    ensures DistinctSlots(slots)
    ensures forall k :: Lookup(slots, k) == TotalSlot(s, key, k)
  {
    if |s| == 0 then []
    else
      var slots := AddUp(s[..|s| - 1], key);
      var p := s[|s| - 1];
      var k := key(p.date);
      var prev := Lookup(slots, k);
      var total := (if prev.None? then 0.0 else prev.value.value) + p.value;
      assert total == BucketTotal(s[..|s| - 1], key, k) + p.value by {
        if prev.None? {
          NoPointsNoTotal(s[..|s| - 1], key, k);
        }
      }
      TotalStep(s, key, k, total);
      SetSlot(slots, Slot(k, k, total))
  }

  /** Adding the last point changes the total of its own bucket only. */
  lemma {:induction false} TotalStep(s: seq<Point>, key: Day -> Day, k: Day, total: real)
    requires |s| > 0 && k == key(s[|s| - 1].date)
    requires total == BucketTotal(s[..|s| - 1], key, k) + s[|s| - 1].value
    ensures forall k' :: TotalSlot(s, key, k') == if k' == k then Some(Slot(k, k, total)) else TotalSlot(s[..|s| - 1], key, k')
  {
    forall k' ensures TotalSlot(s, key, k') == if k' == k then Some(Slot(k, k, total)) else TotalSlot(s[..|s| - 1], key, k') {
      BucketTotalSnoc(s, key, k');
      LatestNoneSnoc(s, key, k');
    }
  }

  /** A bucket is empty after the last point exactly when it was empty
    * before and the last point lies elsewhere. */
  lemma {:induction false} LatestNoneSnoc(s: seq<Point>, key: Day -> Day, k: Day)
    requires |s| > 0
    ensures LatestInBucket(s, key, k).None? <==>
            LatestInBucket(s[..|s| - 1], key, k).None? && key(s[|s| - 1].date) != k
  {
  }

  lemma {:induction false} NoPointsNoTotal(s: seq<Point>, key: Day -> Day, k: Day)
    requires forall i :: 0 <= i < |s| ==> key(s[i].date) != k
    ensures BucketTotal(s, key, k) == 0.0
  {
    if |s| > 0 {
      NoPointsNoTotal(s[1..], key, k);
    }
  }

  /**
   * The route's bucketing: one point per bucket, dated at the bucket start
   * and valued at the sum of the bucket's daily values, in ascending order.
   */
  function BucketTotals(s: seq<Point>, key: Day -> Day): (r: seq<Point>)
    ensures StrictlyAscending(DatesOf(r))
    ensures forall i :: 0 <= i < |r| ==>
              LatestInBucket(s, key, r[i].date).Some? && r[i].value == BucketTotal(s, key, r[i].date)
    ensures forall j :: 0 <= j < |s| ==> key(s[j].date) in DatesOf(r)
  {
    var slots := AddUp(s, key);
    var r := OrderedPoints(slots);
    forall j | 0 <= j < |s| ensures key(s[j].date) in DatesOf(r) {
      var k := key(s[j].date);
      assert TotalSlot(s, key, k).Some?;
      assert Lookup(slots, k).value in slots;
    }
    r
  }
}
