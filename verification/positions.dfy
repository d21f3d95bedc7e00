// The position aggregator (`recomputeCurrentAssets`): it replays the whole
// operation log in (op_date, id) order into one running holding per ticker
// (quantity and weighted-average cost), then replaces `current_assets` with
// the holdings whose quantity is positive.

module Positions {
  import opened Wrappers
  import opened Calendar
  import opened Sorting
  import opened Tables

  /** The running state of one ticker during the replay. */
  datatype Holding = Holding(name: string, ticker: string, assetType: string, avg: real, qty: real)

  /** The state a ticker starts from at its first operation. */
  function Fresh(o: Operation): Holding {
    Holding(o.name, o.ticker, o.assetType, 0.0, 0.0)
  }

  /** One step of the replay. A buy moves the average cost so that
    * avg*qty grows by exactly price*quantity; a sell lowers the quantity,
    * never below zero, and keeps the average; an operation of any other
    * type leaves both alone. Name and asset type are filled only while
    * empty. */
  function ApplyOp(h: Holding, o: Operation): (r: Holding)
    ensures r.ticker == h.ticker
    ensures r.name == (if h.name != "" then h.name else o.name)
    ensures r.assetType == (if h.assetType != "" then h.assetType else o.assetType)
    ensures AggregatorSide(o.operationType) == Buy ==>
              r.qty == h.qty + o.quantity &&
              (r.qty > 0.0 ==> r.avg * r.qty == h.avg * h.qty + o.price * o.quantity) &&
              (r.qty <= 0.0 ==> r.avg == 0.0)
    ensures AggregatorSide(o.operationType) == Sell ==>
              r.avg == h.avg && r.qty >= 0.0 &&
              (h.qty >= o.quantity ==> r.qty == h.qty - o.quantity) &&
              (h.qty < o.quantity ==> r.qty == 0.0)
    ensures AggregatorSide(o.operationType) == Neither ==> r.avg == h.avg && r.qty == h.qty
  {
    var moved :=
      match AggregatorSide(o.operationType)
      case Buy =>
        var q := h.qty + o.quantity;
        h.(qty := q, avg := if q > 0.0 then (h.avg * h.qty + o.price * o.quantity) / q else 0.0)
      case Sell =>
        var q := h.qty - o.quantity;
        h.(qty := if q < 0.0 then 0.0 else q)
      case Neither => h;
    moved.(name := if h.name != "" then h.name else o.name,
           assetType := if h.assetType != "" then h.assetType else o.assetType)
  }

  /** After selling everything, the next buy of a positive quantity sets
    * the average cost to exactly its price. */
  lemma SellOutThenBuy(h: Holding, sell: Operation, buy: Operation)
    requires AggregatorSide(sell.operationType) == Sell && sell.quantity >= h.qty
    requires AggregatorSide(buy.operationType) == Buy && buy.quantity > 0.0
    ensures ApplyOp(ApplyOp(h, sell), buy).qty == buy.quantity
    ensures ApplyOp(ApplyOp(h, sell), buy).avg == buy.price
  {
    var s := ApplyOp(h, sell);
    assert s.qty == 0.0;
    var r := ApplyOp(s, buy);
    assert r.avg * buy.quantity == buy.price * buy.quantity;
  }

  // ---------------------------------------------------------------- per ticker

  /** The reference: the state of ticker `t` after replaying `ops` in
    * sequence order, looking only at that ticker's operations; None when
    * the ticker never occurs. */
  function Replay(ops: seq<Operation>, t: string): (r: Option<Holding>)
    ensures r.Some? ==> r.value.ticker == t
  {
    if |ops| == 0 then None
    else
      var prev := Replay(ops[..|ops| - 1], t);
      var o := ops[|ops| - 1];
      if o.ticker != t then prev
      else Some(ApplyOp(if prev.Some? then prev.value else Fresh(o), o))
  }

  /** The first non-empty name among the operations on `t`, or "". */
  function FirstName(ops: seq<Operation>, t: string): string {
    if |ops| == 0 then ""
    else if ops[0].ticker == t && ops[0].name != "" then ops[0].name
    else FirstName(ops[1..], t)
  }

  lemma {:induction false} FirstNameSnoc(ops: seq<Operation>, o: Operation, t: string)
    ensures FirstName(ops + [o], t) ==
            if FirstName(ops, t) != "" then FirstName(ops, t)
            else if o.ticker == t then o.name else ""
    decreases |ops|
  {
    if |ops| == 0 {
      assert (ops + [o])[1..] == [];
    } else {
      assert (ops + [o])[1..] == ops[1..] + [o];
      FirstNameSnoc(ops[1..], o, t);
    }
  }

  /** A ticker's name is the first non-empty name any of its operations
    * supplied; later operations never overwrite it. */
  lemma {:induction false} ReplayName(ops: seq<Operation>, t: string)
    requires Replay(ops, t).Some?
    ensures Replay(ops, t).value.name == FirstName(ops, t)
    decreases |ops|
  {
    var p, o := ops[..|ops| - 1], ops[|ops| - 1];
    assert ops == p + [o];
    FirstNameSnoc(p, o, t);
    if Replay(p, t).Some? {
      ReplayName(p, t);
    } else {
      assert FirstName(p, t) == "" by {
        ReplayNoneIff(p, t);
        FirstNameAbsent(p, t);
      }
    }
  }

  /** A ticker has no state exactly when no operation names it. */
  lemma {:induction false} ReplayNoneIff(ops: seq<Operation>, t: string)
    ensures Replay(ops, t).None? <==> forall i :: 0 <= i < |ops| ==> ops[i].ticker != t
    decreases |ops|
  {
    if |ops| > 0 {
      var p := ops[..|ops| - 1];
      ReplayNoneIff(p, t);
      assert forall i :: 0 <= i < |p| ==> p[i] == ops[i];
    }
  }

  lemma {:induction false} FirstNameAbsent(ops: seq<Operation>, t: string)
    requires forall i :: 0 <= i < |ops| ==> ops[i].ticker != t
    ensures FirstName(ops, t) == ""
    decreases |ops|
  {
    if |ops| > 0 {
      FirstNameAbsent(ops[1..], t);
    }
  }

  /** When no buy has a negative quantity, no ticker's quantity is ever
    * negative, and neither is its average cost when no buy has a negative
    * price. */
  lemma {:induction false} ReplayNonNegative(ops: seq<Operation>, t: string)
    requires forall i :: 0 <= i < |ops| && AggregatorSide(ops[i].operationType) == Buy ==>
               ops[i].quantity >= 0.0 && ops[i].price >= 0.0
    ensures Replay(ops, t).Some? ==> Replay(ops, t).value.qty >= 0.0 && Replay(ops, t).value.avg >= 0.0
    decreases |ops|
  {
    if |ops| > 0 {
      var p, o := ops[..|ops| - 1], ops[|ops| - 1];
      ReplayNonNegative(p, t);
      if o.ticker == t {
        var h := if Replay(p, t).Some? then Replay(p, t).value else Fresh(o);
        if AggregatorSide(o.operationType) == Buy {
          var q := h.qty + o.quantity;
          if q > 0.0 {
            assert h.avg >= 0.0 && h.qty >= 0.0;
            WeightedNonNegative(h.avg, h.qty, o.price, o.quantity);
            DivNonNegative(h.avg * h.qty + o.price * o.quantity, q);
          }
        }
      }
    }
  }

  lemma WeightedNonNegative(a: real, b: real, c: real, d: real)
    requires a >= 0.0 && b >= 0.0 && c >= 0.0 && d >= 0.0
    ensures a * b + c * d >= 0.0
  {
    assert a * b >= 0.0;
    assert c * d >= 0.0;
  }

  lemma DivNonNegative(a: real, b: real)
    requires a >= 0.0 && b > 0.0
    ensures a / b >= 0.0
  {
  }

  // ---------------------------------------------------------------- the fold

  predicate DistinctTickers(hs: seq<Holding>) {
    forall i, j :: 0 <= i < j < |hs| ==> hs[i].ticker != hs[j].ticker
  }

  /** Position of ticker `t` in `hs`, or |hs| when absent. */
  function TickerIndex(hs: seq<Holding>, t: string): (i: nat)
    ensures i <= |hs|
    ensures i < |hs| ==> hs[i].ticker == t
    ensures forall j :: 0 <= j < i ==> hs[j].ticker != t
  {
    if |hs| == 0 then 0
    else if hs[0].ticker == t then 0
    else 1 + TickerIndex(hs[1..], t)
  }

  /** `map.get(t)`. */
  function Find(hs: seq<Holding>, t: string): Option<Holding> {
    var i := TickerIndex(hs, t);
    if i < |hs| then Some(hs[i]) else None
  }

  /** The JavaScript `Map` after replaying `ops`: one entry per ticker, in
    * order of first appearance, each holding the ticker's replayed state. */
  function Fold(ops: seq<Operation>): (hs: seq<Holding>)
    ensures DistinctTickers(hs)
    ensures forall t :: Find(hs, t) == Replay(ops, t)
  {
    if |ops| == 0 then []
    else
      var prev := Fold(ops[..|ops| - 1]);
      var o := ops[|ops| - 1];
      var i := TickerIndex(prev, o.ticker);
      var h := if i < |prev| then ApplyOp(prev[i], o) else ApplyOp(Fresh(o), o);
      var next := if i < |prev| then prev[i := h] else prev + [h];
      FoldStep(ops, prev, i, h, next);
      next
  }

  lemma {:induction false} FoldStep(ops: seq<Operation>, prev: seq<Holding>, i: nat, h: Holding, next: seq<Holding>)
    requires |ops| > 0 && DistinctTickers(prev)
    requires forall t :: Find(prev, t) == Replay(ops[..|ops| - 1], t)
    requires i == TickerIndex(prev, ops[|ops| - 1].ticker)
    requires h == if i < |prev| then ApplyOp(prev[i], ops[|ops| - 1]) else ApplyOp(Fresh(ops[|ops| - 1]), ops[|ops| - 1])
    requires i < |prev| ==> next == prev[i := h]
    requires i == |prev| ==> next == prev + [h]
    ensures DistinctTickers(next)
    ensures forall t :: Find(next, t) == Replay(ops, t)
  {
    var o := ops[|ops| - 1];
    assert h.ticker == o.ticker;
    FoldStepDistinct(prev, i, h, next);
    assert Find(prev, o.ticker) == Replay(ops[..|ops| - 1], o.ticker);
    forall t ensures Find(next, t) == Replay(ops, t) {
      FoldStepAt(ops, prev, next, i, h, t);
    }
  }

  lemma FoldStepDistinct(prev: seq<Holding>, i: nat, h: Holding, next: seq<Holding>)
    requires DistinctTickers(prev) && i <= |prev|
    requires i < |prev| ==> prev[i].ticker == h.ticker && next == prev[i := h]
    requires i == |prev| ==> next == prev + [h] && forall k :: 0 <= k < |prev| ==> prev[k].ticker != h.ticker
    ensures DistinctTickers(next)
  {
  }

  lemma FoldStepAt(ops: seq<Operation>, prev: seq<Holding>, next: seq<Holding>, i: nat, h: Holding, t: string)
    requires |ops| > 0 && DistinctTickers(prev)
    requires Find(prev, t) == Replay(ops[..|ops| - 1], t)
    requires Find(prev, ops[|ops| - 1].ticker) == Replay(ops[..|ops| - 1], ops[|ops| - 1].ticker)
    requires i == TickerIndex(prev, ops[|ops| - 1].ticker)
    requires h == if i < |prev| then ApplyOp(prev[i], ops[|ops| - 1]) else ApplyOp(Fresh(ops[|ops| - 1]), ops[|ops| - 1])
    requires i < |prev| ==> next == prev[i := h]
    requires i == |prev| ==> next == prev + [h]
    ensures Find(next, t) == Replay(ops, t)
  {
    var o := ops[|ops| - 1];
    assert h.ticker == o.ticker;
    TickerIndexAgrees(prev, next, t);
    if t == o.ticker {
      if i == |prev| {
        assert next[|prev|] == h;
      }
      assert TickerIndex(next, t) == i;
    } else if TickerIndex(prev, t) == |prev| && i == |prev| {
      assert next[|prev|].ticker != t;
    }
  }

  /** Two sequences whose tickers agree on the first |a| positions find `t`
    * at the same place when `a` has it, and not before |a| otherwise. */
  lemma {:induction false} TickerIndexAgrees(a: seq<Holding>, b: seq<Holding>, t: string)
    requires |a| <= |b|
    requires forall k :: 0 <= k < |a| ==> (a[k].ticker == t <==> b[k].ticker == t)
    ensures TickerIndex(a, t) < |a| ==> TickerIndex(b, t) == TickerIndex(a, t)
    ensures TickerIndex(a, t) == |a| ==> TickerIndex(b, t) >= |a|
    decreases |a|
  {
    if |a| > 0 && a[0].ticker != t {
      TickerIndexAgrees(a[1..], b[1..], t);
    }
  }

  lemma {:induction false} TickerIndexNone(b: seq<Holding>, t: string)
    requires forall k :: 0 <= k < |b| ==> b[k].ticker != t
    ensures TickerIndex(b, t) == |b|
    decreases |b|
  {
    if |b| > 0 {
      TickerIndexNone(b[1..], t);
    }
  }

  // ---------------------------------------------------------------- snapshot

  /** `ORDER BY op_date ASC, id ASC`. */
  function LogKey(o: Operation): Key {
    Key(o.date, o.id)
  }

  /** The operation log in the order the aggregator reads it. */
  function OrderedLog(ops: seq<Operation>): (r: seq<Operation>)
    ensures SortedBy(r, LogKey) && multiset(r) == multiset(ops)
  {
    SortByPermutes(ops, LogKey);
    SortBy(ops, LogKey)
  }

  function AsPosition(h: Holding): Position {
    Position(h.name, h.ticker, h.assetType, h.avg, h.qty)
  }

  predicate DistinctPositions(ps: seq<Position>) {
    forall i, j :: 0 <= i < j < |ps| ==> ps[i].ticker != ps[j].ticker
  }

  /** The `current_assets` row of ticker `t`, if any. */
  function PositionOf(ps: seq<Position>, t: string): (r: Option<Position>)
    ensures r.Some? ==> r.value in ps && r.value.ticker == t
    ensures r.None? <==> forall i :: 0 <= i < |ps| ==> ps[i].ticker != t
  {
    if |ps| == 0 then None
    else if ps[0].ticker == t then Some(ps[0])
    else PositionOf(ps[1..], t)
  }

  /** What the emitting loop inserts for one holding. */
  function Emitted(h: Option<Holding>): Option<Position> {
    if h.Some? && h.value.qty > 0.0 then Some(AsPosition(h.value)) else None
  }

  /** The emitting loop: the holdings with a positive quantity, in map order. */
  function Positive(hs: seq<Holding>): (r: seq<Position>)
    requires DistinctTickers(hs)
    ensures DistinctPositions(r)
    ensures forall t :: PositionOf(r, t) == Emitted(Find(hs, t))
  {
    if |hs| == 0 then []
    else
      var rest := Positive(hs[1..]);
      var r := (if hs[0].qty > 0.0 then [AsPosition(hs[0])] else []) + rest;
      PositiveStep(hs, rest, r);
      r
  }

  lemma {:induction false} PositiveStep(hs: seq<Holding>, rest: seq<Position>, r: seq<Position>)
    requires |hs| > 0 && DistinctTickers(hs) && DistinctPositions(rest)
    requires forall t :: PositionOf(rest, t) == Emitted(Find(hs[1..], t))
    requires r == (if hs[0].qty > 0.0 then [AsPosition(hs[0])] else []) + rest
    ensures DistinctPositions(r)
    ensures forall t :: PositionOf(r, t) == Emitted(Find(hs, t))
  {
    var t0 := hs[0].ticker;
    assert Find(hs[1..], t0).None? by {
      TickerIndexNone(hs[1..], t0);
    }
    assert PositionOf(rest, t0).None?;
    forall t ensures PositionOf(r, t) == Emitted(Find(hs, t)) {
      if t != t0 {
        assert TickerIndex(hs, t) == 1 + TickerIndex(hs[1..], t);
        assert Find(hs, t) == Find(hs[1..], t);
        if hs[0].qty > 0.0 {
          assert r[1..] == rest;
        } else {
          assert r == rest;
        }
        assert PositionOf(r, t) == PositionOf(rest, t);
      }
    }
    if hs[0].qty > 0.0 {
      assert r[1..] == rest;
      forall i, j | 0 <= i < j < |r| ensures r[i].ticker != r[j].ticker {
        if i == 0 {
          assert r[j] == rest[j - 1];
        } else {
          assert r[i] == rest[i - 1] && r[j] == rest[j - 1];
        }
      }
    }
  }

  /** `recomputeCurrentAssets` on the log `ops`: the new `current_assets`. */
  function Snapshot(ops: seq<Operation>): (r: seq<Position>)
    ensures DistinctPositions(r)
    ensures forall t :: PositionOf(r, t) == Emitted(Replay(OrderedLog(ops), t))
  {
    Positive(Fold(OrderedLog(ops)))
  }

  /** The aggregator replaces the snapshot wholesale and touches nothing
    * else. */
  function Recompute(db: Db): (r: Db)
    ensures r.operations == db.operations && r.prices == db.prices
    ensures DistinctPositions(r.currentAssets)
    ensures forall t :: PositionOf(r.currentAssets, t).Some? <==>
              Replay(OrderedLog(db.operations), t).Some? && Replay(OrderedLog(db.operations), t).value.qty > 0.0
  {
    db.(currentAssets := Snapshot(db.operations))
  }

  /** The snapshot depends only on the log, not on the snapshot it replaces:
    * recomputing twice is recomputing once. */
  lemma RecomputeIdempotent(db: Db)
    ensures Recompute(Recompute(db)) == Recompute(db)
  {
  }

  /** Operation ids are unique, so the replay order, and with it the
    * snapshot, does not depend on the order the table returns its rows in. */
  lemma SnapshotIgnoresRowOrder(ops1: seq<Operation>, ops2: seq<Operation>)
    requires multiset(ops1) == multiset(ops2)
    requires forall i, j :: 0 <= i < j < |ops1| ==> ops1[i].id != ops1[j].id
    ensures Snapshot(ops1) == Snapshot(ops2)
  {
    SortByCanonical(ops1, ops2, LogKey);
  }

  /** Buy 10 at 100, buy 10 at 120, sell 5: 15 units at an average of 110. */
  lemma WeightedAverageExample()
    ensures var b1 := Operation(1, "Fund", "F1", "fund", Some("buy"), None, 10, 100.0, 10.0);
            var b2 := Operation(2, "", "F1", "", Some("buy"), None, 11, 120.0, 10.0);
            var s1 := Operation(3, "Other", "F1", "", Some("sell"), None, 12, 0.0, 5.0);
            Replay([b1, b2, s1], "F1") == Some(Holding("Fund", "F1", "fund", 110.0, 15.0))
  {
    var b1 := Operation(1, "Fund", "F1", "fund", Some("buy"), None, 10, 100.0, 10.0);
    var b2 := Operation(2, "", "F1", "", Some("buy"), None, 11, 120.0, 10.0);
    var s1 := Operation(3, "Other", "F1", "", Some("sell"), None, 12, 0.0, 5.0);
    var ops := [b1, b2, s1];
    assert ops[..2] == [b1, b2] && [b1, b2][..1] == [b1] && [b1][..0] == [];
    assert Replay([b1], "F1") == Some(Holding("Fund", "F1", "fund", 100.0, 10.0));
    assert Replay([b1, b2], "F1") == Some(Holding("Fund", "F1", "fund", 110.0, 20.0));
  }
}
