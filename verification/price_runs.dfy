// POST /api/updateLastPrices and its /secure twin: a cron secret guards the
// second, a `price_update_runs` row per day keeps the update to once a day
// unless forced, and the row records how the run ended.

module PriceRuns {
  import opened Wrappers
  import opened Text
  import opened Calendar
  import opened Tables
  import opened PriceIngest

  // ---------------------------------------------------------------- secret

  datatype Gate = Pass | Refused(status: nat, error: string)

  /** `requireCronSecret`: no secret configured is a server error; the key
    * comes from the `x-cron-key` header, else from `?key=`, and must equal it. */
  function RequireCronSecret(expected: Option<string>, header: Option<string>, key: Option<string>): (g: Gate)
    ensures !Truthy(expected) <==> g == Refused(500, "CRON_SECRET is not set on server")
    ensures g == Pass <==>
              Truthy(expected) && (if Truthy(header) then header == expected else Truthy(key) && key == expected)
    ensures g.Refused? ==> g.status == 500 || g.status == 401
  {
    if !Truthy(expected) then Refused(500, "CRON_SECRET is not set on server")
    else
      var provided := if Truthy(header) then header else key;
      if !Truthy(provided) || provided != expected then Refused(401, "Unauthorized") else Pass
  }

  /** The header wins: a wrong header is refused even when `?key=` is right. */
  lemma HeaderShadowsKey(expected: string, header: string)
    requires expected != "" && header != "" && header != expected
    ensures RequireCronSecret(Some(expected), Some(header), Some(expected)) == Refused(401, "Unauthorized")
  {
  }

  // ---------------------------------------------------------------- runs table

  datatype Status = Pending | Ok | Error

  /** A row of `price_update_runs`; `run_date` is unique. */
  datatype Run = Run(id: nat, runDate: Day, status: Status, updatedCount: Option<nat>)

  predicate HasRun(runs: seq<Run>, day: Day) {
    exists i :: 0 <= i < |runs| && runs[i].runDate == day
  }

  /** The serial id the next insert receives: positive and above every id. */
  function NextRunId(runs: seq<Run>): (r: nat)
    ensures r >= 1
    ensures forall i :: 0 <= i < |runs| ==> runs[i].id < r
  {
    if |runs| == 0 then 1
    else
      var rest := NextRunId(runs[..|runs| - 1]);
      var id := runs[|runs| - 1].id + 1;
      if id > rest then id else rest
  }

  /** The id of the day's row. */
  function RunIdOn(runs: seq<Run>, day: Day): (r: Option<nat>)
    ensures r.None? <==> !HasRun(runs, day)
    ensures r.Some? ==> exists i :: 0 <= i < |runs| && runs[i].runDate == day && runs[i].id == r.value
  {
    if |runs| == 0 then None
    else if runs[0].runDate == day then Some(runs[0].id)
    else
      var rest := RunIdOn(runs[1..], day);
      assert forall i :: 1 <= i < |runs| ==> runs[i] == runs[1..][i - 1];
      if rest.Some? then
        var j :| 0 <= j < |runs[1..]| && runs[1..][j].runDate == day && runs[1..][j].id == rest.value;
        assert runs[j + 1] == runs[1..][j];
        rest
      else rest
  }

  /** `tryCreatePending`: insert the day's row as pending unless one exists
    * (`ON CONFLICT DO NOTHING`), returning the new id or null. */
  function TryCreatePending(runs: seq<Run>, day: Day): (r: (seq<Run>, Option<nat>))
    ensures HasRun(runs, day) ==> r == (runs, None)
    ensures !HasRun(runs, day) ==>
              r.1.Some? && r.1.value >= 1 && r.0 == runs + [Run(r.1.value, day, Pending, None)] &&
              forall i :: 0 <= i < |runs| ==> runs[i].id != r.1.value
  {
    if HasRun(runs, day) then (runs, None)
    else
      var id := NextRunId(runs);
      (runs + [Run(id, day, Pending, None)], Some(id))
  }

  /** The forced upsert: insert the day's row as pending, or set the existing
    * row back to pending (`ON CONFLICT DO UPDATE SET status`), returning its id. */
  function UpsertPending(runs: seq<Run>, day: Day): (r: (seq<Run>, nat))
    ensures RunIdOn(r.0, day) == Some(r.1)
    ensures HasRun(runs, day) ==> |r.0| == |runs| && Some(r.1) == RunIdOn(runs, day)
    ensures !HasRun(runs, day) ==>
              r.0 == runs + [Run(r.1, day, Pending, None)] && forall i :: 0 <= i < |runs| ==> runs[i].id != r.1
    ensures forall i :: 0 <= i < |r.0| && r.0[i].runDate == day ==> r.0[i].status == Pending
    ensures forall i :: 0 <= i < |runs| && runs[i].runDate != day ==> r.0[i] == runs[i]
  {
    if HasRun(runs, day) then
      var r := SetPending(runs, day);
      RunIdOnSameKeys(runs, r, day);
      (r, RunIdOn(runs, day).value)
    else
      var id := NextRunId(runs);
      RunIdOnAppend(runs, Run(id, day, Pending, None));
      (runs + [Run(id, day, Pending, None)], id)
  }

  /** The day's id depends only on the rows' ids and dates. */
  lemma {:induction false} RunIdOnSameKeys(a: seq<Run>, b: seq<Run>, day: Day)
    requires |a| == |b|
    requires forall i :: 0 <= i < |a| ==> a[i].id == b[i].id && a[i].runDate == b[i].runDate
    ensures RunIdOn(a, day) == RunIdOn(b, day)
  {
    if |a| > 0 && a[0].runDate != day {
      RunIdOnSameKeys(a[1..], b[1..], day);
    }
  }

  /** A row appended for a day with no row is that day's row. */
  lemma {:induction false} RunIdOnAppend(runs: seq<Run>, row: Run)
    requires !HasRun(runs, row.runDate)
    ensures RunIdOn(runs + [row], row.runDate) == Some(row.id)
  {
    if |runs| > 0 {
      assert (runs + [row])[1..] == runs[1..] + [row];
      assert forall k :: 0 <= k < |runs[1..]| ==> runs[1..][k] == runs[k + 1];
      RunIdOnAppend(runs[1..], row);
    }
  }

  /** Every row of the day set to pending; in a table with unique run dates
    * this touches only the conflicting row. */
  function SetPending(runs: seq<Run>, day: Day): (r: seq<Run>)
    ensures |r| == |runs|
    ensures forall i :: 0 <= i < |runs| ==>
              r[i] == if runs[i].runDate == day then runs[i].(status := Pending) else runs[i]
  {
    if |runs| == 0 then [] else
      [if runs[0].runDate == day then runs[0].(status := Pending) else runs[0]] + SetPending(runs[1..], day)
  }

  /** The run's report as `finalizeRun` reads it. */
  function UpdatedCount(rep: Report): (n: nat)
    ensures n == rep.updated
  {
    // `Number(report.updated || report.updatedCount || 0)`: a falsy 0 falls
    // through to the absent `updatedCount` and then to 0 again.
    if rep.updated != 0 then rep.updated else 0
  }

  /** `finalizeRun`: with no id nothing changes; otherwise the row with that
    * id is marked ok with the updated count, or error. */
  function FinalizeRun(runs: seq<Run>, id: Option<nat>, outcome: Option<Report>): (r: seq<Run>)
    ensures id.None? ==> r == runs
    ensures |r| == |runs|
    ensures forall i :: 0 <= i < |runs| ==>
              r[i] == if id.Some? && runs[i].id == id.value then
                        (match outcome
                         case Some(rep) => runs[i].(status := Ok, updatedCount := Some(rep.updated))
                         case None => runs[i].(status := Error))
                      else runs[i]
  {
    if id.None? || |runs| == 0 then runs
    else
      var row := runs[0];
      var row' := if row.id != id.value then row
                  else match outcome
                       case Some(rep) => row.(status := Ok, updatedCount := Some(UpdatedCount(rep)))
                       case None => row.(status := Error);
      [row'] + FinalizeRun(runs[1..], id, outcome)
  }

  // ---------------------------------------------------------------- handler

  /** The query string; an absent parameter is None. */
  datatype RunQuery = RunQuery(ticker: Option<string>, force: Option<string>)

  datatype Response =
    | AlreadyRan(runDate: Day)          // 200 { ok: false, skipped: true }
    | Ran(runDate: Day, report: Report) // 200 { ok: true, ...report }
    | Failed                            // 500
    | Denied(status: nat, error: string) // the secret check refused

  /** `String(force) === "1" || String(force).toLowerCase() === "true"`. */
  predicate Forced(force: Option<string>) {
    JsString(force) == "1" || ToLower(JsString(force)) == "true"
  }

  /** The tables and the runs table after a request, with the response. */
  datatype Outcome = Outcome(response: Response, db: Db, runs: seq<Run>)

  /**
   * `handleRun` with the updater's argument chosen by `argOf`. `day` is
   * the run date. The updater itself never raises (its catch-all keeps the
   * rows it inserted), so the one query that can fail after the claim is
   * `finalizeRun`'s UPDATE; `fails` says that it did. The catch then marks
   * the day's row error and answers 500, and the inserted prices stay.
   */
  function HandleWith(argOf: Option<string> -> Arg, db: Db, runs: seq<Run>, q: RunQuery,
                      scrape: string -> seq<Option<Scraped>>, day: Day, fails: bool): (o: Outcome)
    ensures !Forced(q.force) && HasRun(runs, day) ==> o == Outcome(AlreadyRan(day), db, runs)
    ensures o.response.AlreadyRan? <==> !Forced(q.force) && HasRun(runs, day)
    ensures o.response.Ran? ==> o.response.runDate == day && !fails
    ensures o.response.Failed? <==> fails && (Forced(q.force) || !HasRun(runs, day))
    ensures o.response.Ran? || o.response.Failed? || o.response.AlreadyRan?
    ensures o.response.Ran? ==> MarkedOn(o.runs, day, Ok, Some(o.response.report.updated))
    ensures o.response.Ran? ==> o.response.report == RunUpdateLastPrices(db, argOf(q.ticker), scrape, day).0
    ensures o.response.Failed? ==> FailedOn(o.runs, day)
    ensures KeepsPrices(db, o.db)
    ensures AddsOnlyFor(db, o.db, TickerOf(argOf(q.ticker)))
  {
    var (runs1, id) := Claim(runs, q.force, day);
    if id.None? then Outcome(AlreadyRan(day), db, runs)
    else if fails then FailClaimed(db, runs1, argOf(q.ticker), scrape, day)
    else RunClaimed(db, runs1, id.value, argOf(q.ticker), scrape, day)
  }

  /** The price rows before are kept, in order, as a prefix. */
  predicate KeepsPrices(before: Db, after: Db) {
    |after.prices| >= |before.prices| && after.prices[..|before.prices|] == before.prices
  }

  /** With a ticker named, every added price row is for a held position with
    * that ticker. */
  predicate AddsOnlyFor(before: Db, after: Db, ticker: string) {
    ticker != "" ==>
      forall k :: |before.prices| <= k < |after.prices| ==>
        exists p :: p in before.currentAssets && p.ticker == ticker && after.prices[k].ticker == Trim(p.ticker)
  }

  /** The update ran and marking it ok raised: the catch looks the day's
    * row up, marks it error and answers 500. The update's inserts stay. */
  function FailClaimed(db: Db, runs: seq<Run>, arg: Arg, scrape: string -> seq<Option<Scraped>>, day: Day)
    : (o: Outcome)
    requires RunIdOn(runs, day).Some?
    ensures o.response == Failed
    ensures FailedOn(o.runs, day)
    ensures |o.runs| == |runs|
    ensures forall i :: 0 <= i < |runs| && runs[i].id != RunIdOn(runs, day).value ==> o.runs[i] == runs[i]
    ensures KeepsPrices(db, o.db)
    ensures AddsOnlyFor(db, o.db, TickerOf(arg))
  {
    var (_, db') := RunUpdateLastPrices(db, arg, scrape, day);
    var dayId := RunIdOn(runs, day);
    FinalizeMarks(runs, day, dayId.value, None);
    Outcome(Failed, db', FinalizeRun(runs, dayId, None))
  }

  /** The update ran: its report is the answer and the claimed row is
    * marked ok with the report's count. */
  function RunClaimed(db: Db, runs: seq<Run>, id: nat, arg: Arg, scrape: string -> seq<Option<Scraped>>, day: Day)
    : (o: Outcome)
    requires RunIdOn(runs, day) == Some(id)
    ensures o.response.Ran? && o.response.runDate == day
    ensures o.response.report == RunUpdateLastPrices(db, arg, scrape, day).0
    ensures MarkedOn(o.runs, day, Ok, Some(o.response.report.updated))
    ensures KeepsPrices(db, o.db)
    ensures AddsOnlyFor(db, o.db, TickerOf(arg))
  {
    var (rep, db') := RunUpdateLastPrices(db, arg, scrape, day);
    FinalizeMarks(runs, day, id, Some(rep));
    Outcome(Ran(day, rep), db', FinalizeRun(runs, Some(id), Some(rep)))
  }

  /** A failure to mark the run ok loses no price: the tables are those a
    * run that marked it ok leaves. */
  lemma FailureKeepsInserts(argOf: Option<string> -> Arg, db: Db, runs: seq<Run>, q: RunQuery,
                            scrape: string -> seq<Option<Scraped>>, day: Day)
    ensures HandleWith(argOf, db, runs, q, scrape, day, true).db == HandleWith(argOf, db, runs, q, scrape, day, false).db
  {
  }

  /** The day's row before the update: upserted when forced, otherwise
    * created unless it exists. The id is that of a row of the day. */
  function Claim(runs: seq<Run>, force: Option<string>, day: Day): (r: (seq<Run>, Option<nat>))
    ensures r.1.None? <==> !Forced(force) && HasRun(runs, day)
    ensures r.1.None? ==> r.0 == runs
    ensures r.1.Some? ==> RunIdOn(r.0, day) == r.1
  {
    if Forced(force) then
      var (rs, i) := UpsertPending(runs, day);
      (rs, Some(i))
    else
      var (rs, i) := TryCreatePending(runs, day);
      if i.Some? then RunIdOnAppend(runs, Run(i.value, day, Pending, None)); (rs, i)
      else (rs, i)
  }

  /** Some row of the day has the status and the count. */
  predicate MarkedOn(runs: seq<Run>, day: Day, status: Status, count: Option<nat>) {
    exists i :: 0 <= i < |runs| && runs[i].runDate == day && runs[i].status == status && runs[i].updatedCount == count
  }

  /** Some row of the day is marked error. */
  predicate FailedOn(runs: seq<Run>, day: Day) {
    exists i :: 0 <= i < |runs| && runs[i].runDate == day && runs[i].status == Error
  }

  /** Finalising the id of a row of the day marks that row. */
  lemma {:induction false} FinalizeMarks(runs: seq<Run>, day: Day, id: nat, outcome: Option<Report>)
    requires RunIdOn(runs, day) == Some(id)
    ensures var r := FinalizeRun(runs, Some(id), outcome);
            match outcome
            case Some(rep) => MarkedOn(r, day, Ok, Some(rep.updated))
            case None => FailedOn(r, day)
  {
    var i :| 0 <= i < |runs| && runs[i].runDate == day && runs[i].id == id;
    var r := FinalizeRun(runs, Some(id), outcome);
    match outcome {
      case Some(rep) =>
        assert r[i].runDate == day && r[i].status == Ok && r[i].updatedCount == Some(rep.updated);
      case None =>
        assert r[i] == runs[i].(status := Error);
        assert r[i].runDate == day && r[i].status == Error;
    }
  }

  /** The argument as written: `ticker ? String(ticker) : undefined`. */
  function BareTicker(ticker: Option<string>): (a: Arg)
    ensures TickerOf(a) == ""
  {
    if Truthy(ticker) then Bare(ticker.value) else NoArg
  }

  /** The argument the service destructures: `{ ticker }`. */
  function TickerOption(ticker: Option<string>): (a: Arg)
    ensures TickerOf(a) == if Truthy(ticker) then ticker.value else ""
  {
    if Truthy(ticker) then Options(Some(ticker.value)) else NoArg
  }

  /** `handleRun` as written, the handler both routes mount: whatever the
    * ticker, a run that gets past the claim updates every due fund, and the
    * day's row records how it ended. */
  function HandleRunAsWritten(db: Db, runs: seq<Run>, q: RunQuery, scrape: string -> seq<Option<Scraped>>,
                              day: Day, fails: bool): (o: Outcome)
    ensures o.response.AlreadyRan? <==> !Forced(q.force) && HasRun(runs, day)
    ensures o.response.AlreadyRan? ==> o.db == db && o.runs == runs
    ensures !o.response.AlreadyRan? ==> o.db == RunUpdateLastPrices(db, NoArg, scrape, day).1
    ensures o.response.Ran? ==> MarkedOn(o.runs, day, Ok, Some(o.response.report.updated))
    ensures o.response.Ran? ==> o.response.report == RunUpdateLastPrices(db, NoArg, scrape, day).0
    ensures o.response.Failed? <==> fails && !o.response.AlreadyRan?
    ensures o.response.Failed? ==> FailedOn(o.runs, day)
    ensures KeepsPrices(db, o.db)
  {
    BareTickerRunsAll(db, q.ticker, scrape, day);
    HandleWith(BareTicker, db, runs, q, scrape, day, fails)
  }

  /** The update a bare ticker starts is the update of every due fund. */
  lemma BareTickerRunsAll(db: Db, ticker: Option<string>, scrape: string -> seq<Option<Scraped>>, day: Day)
    ensures RunUpdateLastPrices(db, BareTicker(ticker), scrape, day) == RunUpdateLastPrices(db, NoArg, scrape, day)
  {
  }

  /** `handleRun` with the ticker passed as an option: a request naming a
    * ticker adds prices for that fund only. */
  function HandleRun(db: Db, runs: seq<Run>, q: RunQuery, scrape: string -> seq<Option<Scraped>>,
                     day: Day, fails: bool): (o: Outcome)
    ensures |o.db.prices| >= |db.prices| && o.db.prices[..|db.prices|] == db.prices
    ensures Truthy(q.ticker) ==>
              forall k :: |db.prices| <= k < |o.db.prices| ==> o.db.prices[k].ticker == Trim(q.ticker.value)
  {
    var o := HandleWith(TickerOption, db, runs, q, scrape, day, fails);
    assert Truthy(q.ticker) ==> TickerOf(TickerOption(q.ticker)) == q.ticker.value;
    o
  }

  /** As written, the ticker of the request is dropped: the run is the one
    * a request without a ticker makes. */
  lemma AsWrittenIgnoresTicker(db: Db, runs: seq<Run>, q: RunQuery, scrape: string -> seq<Option<Scraped>>,
                               day: Day, fails: bool)
    ensures HandleRunAsWritten(db, runs, q, scrape, day, fails) ==
            HandleRunAsWritten(db, runs, q.(ticker := None), scrape, day, fails)
  {
  }

  /** Two due funds, "A" and "B", and a request for "A": as written both are
    * checked, with the option only "A" is. */
  lemma AsWrittenChecksOtherFunds(scrape: string -> seq<Option<Scraped>>, day: Day)
    ensures var db := Db([], [Position("a", "A", "fund", 1.0, 1.0), Position("b", "B", "fund", 1.0, 1.0)], []);
            RunUpdateLastPrices(db, BareTicker(Some("A")), scrape, day).0.checked == 2 &&
            RunUpdateLastPrices(db, TickerOption(Some("A")), scrape, day).0.checked == 1
  {
    var ps := [Position("a", "A", "fund", 1.0, 1.0), Position("b", "B", "fund", 1.0, 1.0)];
    assert ps[1..][1..] == [];
    assert SelectFunds(ps[1..][1..], [], "", day) == [];
    assert SelectFunds(ps[1..], [], "", day) == [Fund("B", None)];
    assert SelectFunds(ps, [], "", day) == [Fund("A", None), Fund("B", None)];
    assert SelectFunds(ps[1..][1..], [], "A", day) == [];
    assert SelectFunds(ps[1..], [], "A", day) == [];
    assert SelectFunds(ps, [], "A", day) == [Fund("A", None)];
  }

  /** A day runs once: after a run that ran or failed, an unforced request
    * on the same day answers that it already ran and changes nothing. */
  lemma OncePerDay(db: Db, runs: seq<Run>, q: RunQuery, scrape: string -> seq<Option<Scraped>>, day: Day, fails: bool,
                   q2: RunQuery, scrape2: string -> seq<Option<Scraped>>, fails2: bool)
    requires !HandleRunAsWritten(db, runs, q, scrape, day, fails).response.AlreadyRan?
    requires !Forced(q2.force)
    ensures var o := HandleRunAsWritten(db, runs, q, scrape, day, fails);
            HandleRunAsWritten(o.db, o.runs, q2, scrape2, day, fails2) == Outcome(AlreadyRan(day), o.db, o.runs)
  {
    var o := HandleRunAsWritten(db, runs, q, scrape, day, fails);
    assert HasRun(o.runs, day) by {
      if o.response.Ran? {
        var i :| 0 <= i < |o.runs| && o.runs[i].runDate == day && o.runs[i].status == Ok
                 && o.runs[i].updatedCount == Some(o.response.report.updated);
      } else {
        var i :| 0 <= i < |o.runs| && o.runs[i].runDate == day && o.runs[i].status == Error;
      }
    }
  }

  // ---------------------------------------------------------------- the secure route

  /** POST /secure: the secret check, then the handler as written. */
  function SecureRun(expected: Option<string>, header: Option<string>, key: Option<string>,
                     db: Db, runs: seq<Run>, q: RunQuery, scrape: string -> seq<Option<Scraped>>,
                     day: Day, fails: bool): (o: Outcome)
    ensures o.response.Denied? <==> RequireCronSecret(expected, header, key).Refused?
    ensures o.response.Denied? ==> o.db == db && o.runs == runs
    ensures !o.response.Denied? ==> o == HandleRunAsWritten(db, runs, q, scrape, day, fails)
  {
    match RequireCronSecret(expected, header, key)
    case Refused(status, error) => Outcome(Denied(status, error), db, runs)
    case Pass => HandleRunAsWritten(db, runs, q, scrape, day, fails)
  }
}
