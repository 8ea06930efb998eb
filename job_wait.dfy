/** `wait_until_finished`: polls a created object until its status shows
    `succeeded == 1` or `failed == 1`. The loop has no time test of its own:
    the deadline is enforced only by the client library's timeout context,
    which shows up as a fetch error flagged as a timeout. Every pass sleeps
    one second, and whenever more than 20 seconds of clock have passed since
    the last report it takes 20 seconds off the remaining budget and reports. */
module JobWait {
  import opened Common
  import opened Timeouts

  /** The seconds of clock between progress reports, and the amount each
      report takes off the budget. */
  const ReportInterval: nat := 20

  /** What one fetch of the object gives. */
  datatype Fetch =
    | Fetched(succeeded: Option<int>, failed: Option<int>)  // the status counts, None where a field is missing
    | FetchTimedOut  // the library's exception, with the timeout flag of its first action set
    | FetchFailed    // any other exception from the library

  /** One pass of the polling loop: the fetch, and the clock read after the
      one-second sleep (used only on a pass that goes on polling). */
  datatype Tick = Tick(fetch: Fetch, now: nat)

  /** How a finished wait ended. */
  datatype Verdict = Succeeded | Failed | TimedOut

  /** A finished wait, an exception, or a wait still polling when the
      observations run out. */
  datatype WaitOutcome = Finished(verdict: Verdict) | Raised(error: Error) | Pending

  /** The boolean `wait_until_finished` returns for a finished wait. */
  function ReturnValue(v: Verdict): bool {
    v == Succeeded
  }

  /** A pass after which the loop goes on polling. */
  predicate InFlight(t: Tick) {
    t.fetch.Fetched? && t.fetch.succeeded != Some(1) && t.fetch.failed != Some(1)
  }

  /** The pass at which the loop leaves, or `|ticks|` if it never does. */
  function FirstStop(ticks: seq<Tick>): (k: nat)
    ensures k <= |ticks|
    ensures forall i :: 0 <= i < k ==> InFlight(ticks[i])
    ensures k < |ticks| ==> !InFlight(ticks[k])
  {
    if ticks == [] || !InFlight(ticks[0]) then 0 else 1 + FirstStop(ticks[1..])
  }

  /** What the loop does at the pass where it leaves; `succeeded` is tested
      before `failed`. */
  function StopOutcome(t: Tick): (r: WaitOutcome)
    requires !InFlight(t)
    ensures r != Pending
    ensures r == Finished(Succeeded) <==> t.fetch.Fetched? && t.fetch.succeeded == Some(1)
    ensures r == Finished(Failed) <==> t.fetch.Fetched? && t.fetch.succeeded != Some(1) && t.fetch.failed == Some(1)
    ensures r == Finished(TimedOut) <==> t.fetch.FetchTimedOut?
    ensures r == Raised(ApiError) <==> t.fetch.FetchFailed?
  {
    match t.fetch
    case FetchTimedOut => Finished(TimedOut)
    case FetchFailed => Raised(ApiError)
    case Fetched(succeeded, _) => if succeeded == Some(1) then Finished(Succeeded) else Finished(Failed)
  }

  /** The outcome of a wait, stated by the first pass that leaves the loop. */
  function WaitSpec(timeout: string, ticks: seq<Tick>): WaitOutcome {
    match ParseTimeout(timeout)
    case Err(e) => Raised(e)
    case Ok(Text(_)) => Raised(TypeError)
    case Ok(Seconds(_)) => PollSpec(ticks)
  }

  function Clocks(ticks: seq<Tick>): (c: seq<nat>)
    ensures |c| == |ticks|
    ensures forall i :: 0 <= i < |ticks| ==> c[i] == ticks[i].now
  {
    seq(|ticks|, i requires 0 <= i < |ticks| => ticks[i].now)
  }

  /** The time of the last report, or the start if there was none. */
  function LastReport(start: nat, reports: seq<nat>): nat {
    if reports == [] then start else reports[|reports| - 1]
  }

  /** The clock readings at which progress is reported, over a run of
      readings that began at `start`. */
  function Reports(start: nat, clocks: seq<nat>): seq<nat> {
    if clocks == [] then []
    else
      var earlier := Reports(start, clocks[..|clocks| - 1]);
      var now := clocks[|clocks| - 1];
      if now - LastReport(start, earlier) > ReportInterval then earlier + [now] else earlier
  }

  /** The outcome of the polling loop alone, for an integer timeout. */
  function PollSpec(ticks: seq<Tick>): WaitOutcome {
    var k := FirstStop(ticks);
    if k == |ticks| then Pending else StopOutcome(ticks[k])
  }

  /** `wait_until_finished` on one object. `start` is the clock when the
      wait begins; `ticks` are the passes of the polling loop. The budget
      and the reports are returned for the progress log. */
  method WaitUntilFinished(timeout: string, start: nat, ticks: seq<Tick>)
    returns (outcome: WaitOutcome, budget: int, reports: seq<nat>)
    ensures outcome == WaitSpec(timeout, ticks)
    ensures ParseTimeout(timeout).Ok? && ParseTimeout(timeout).value.Seconds? ==>
      reports == Reports(start, Clocks(ticks[..FirstStop(ticks)])) &&
      budget == ParseTimeout(timeout).value.seconds - ReportInterval * |reports|
  {
    reports := [];
    budget := 0;
    var parsed := ParseTimeout(timeout);
    if parsed.Err? {
      return Raised(parsed.error), budget, reports;
    }
    if parsed.value.Text? {
      // `dt.timedelta(seconds=timeout_s)` on a string
      return Raised(TypeError), budget, reports;
    }
    outcome, budget, reports := Poll(parsed.value.seconds, start, ticks);
  }

  /** The `while True` loop of `wait_until_finished`, with `timeout_s` an integer. */
  method Poll(timeoutS: int, start: nat, ticks: seq<Tick>)
    returns (outcome: WaitOutcome, budget: int, reports: seq<nat>)
    ensures outcome == PollSpec(ticks)
    ensures reports == Reports(start, Clocks(ticks[..FirstStop(ticks)]))
    ensures budget == timeoutS - ReportInterval * |reports|
  {
    reports := [];
    var returnValue := false;
    var last := start;
    budget := timeoutS;
    var i := 0;
    while i < |ticks|
      invariant 0 <= i <= |ticks|
      invariant forall j :: 0 <= j < i ==> InFlight(ticks[j])
      invariant reports == Reports(start, Clocks(ticks[..i]))
      invariant last == LastReport(start, reports)
      invariant budget == timeoutS - ReportInterval * |reports|
    {
      var t := ticks[i];
      match t.fetch {
        case FetchTimedOut =>
          FirstStopAt(ticks, i);
          return Finished(TimedOut), budget, reports;
        case FetchFailed =>
          FirstStopAt(ticks, i);
          return Raised(ApiError), budget, reports;
        case Fetched(succeeded, failed) =>
          if succeeded == Some(1) {
            returnValue := true;
            break;
          }
          if failed == Some(1) {
            // the source assigns a misspelt `return_Value`; `return_value` stays False
            break;
          }
      }
      var now := t.now;
      ReportsStep(start, ticks, i);
      if now - last > ReportInterval {
        budget := budget - ReportInterval;
        reports := reports + [now];
        last := now;
      }
      i := i + 1;
    }
    if i == |ticks| {
      assert ticks[..i] == ticks;
      return Pending, budget, reports;
    }
    FirstStopAt(ticks, i);
    outcome := Finished(if returnValue then Succeeded else Failed);
  }

  lemma FirstStopAt(ticks: seq<Tick>, k: nat)
    requires k <= |ticks|
    requires forall i :: 0 <= i < k ==> InFlight(ticks[i])
    requires k < |ticks| ==> !InFlight(ticks[k])
    ensures FirstStop(ticks) == k
  {
  }

  lemma ReportsStep(start: nat, ticks: seq<Tick>, i: nat)
    requires i < |ticks|
    ensures var earlier := Reports(start, Clocks(ticks[..i]));
      var now := ticks[i].now;
      Reports(start, Clocks(ticks[..i + 1])) ==
        if now - LastReport(start, earlier) > ReportInterval then earlier + [now] else earlier
  {
    var c := Clocks(ticks[..i + 1]);
    assert c[..i] == Clocks(ticks[..i]);
  }

  /** The loop leaves at the first pass that is not in flight, and what it
      does there is all that decides the outcome. */
  lemma WaitStopsAtFirstTerminal(timeout: string, ticks: seq<Tick>, k: nat)
    requires ParseTimeout(timeout).Ok? && ParseTimeout(timeout).value.Seconds?
    requires k < |ticks| && !InFlight(ticks[k])
    requires forall i :: 0 <= i < k ==> InFlight(ticks[i])
    ensures WaitSpec(timeout, ticks) == StopOutcome(ticks[k])
  {
  }

  /** The wait returns True exactly when the first status that leaves the
      loop has `succeeded == 1`, whatever its `failed` count. */
  lemma WaitTrueIff(timeout: string, ticks: seq<Tick>)
    requires ParseTimeout(timeout).Ok? && ParseTimeout(timeout).value.Seconds?
    ensures WaitSpec(timeout, ticks) == Finished(Succeeded) <==>
      exists k :: 0 <= k < |ticks| && (forall i :: 0 <= i < k ==> InFlight(ticks[i])) &&
        ticks[k].fetch.Fetched? && ticks[k].fetch.succeeded == Some(1)
  {
    if exists k :: 0 <= k < |ticks| && (forall i :: 0 <= i < k ==> InFlight(ticks[i])) &&
        ticks[k].fetch.Fetched? && ticks[k].fetch.succeeded == Some(1) {
      var k :| 0 <= k < |ticks| && (forall i :: 0 <= i < k ==> InFlight(ticks[i])) &&
        ticks[k].fetch.Fetched? && ticks[k].fetch.succeeded == Some(1);
      WaitStopsAtFirstTerminal(timeout, ticks, k);
    }
  }

  /** Without a terminal status or a fetch error the wait is still polling,
      whatever the clock says: the loop has no time test of its own. */
  lemma PendingIffAllInFlight(timeout: string, ticks: seq<Tick>)
    requires ParseTimeout(timeout).Ok? && ParseTimeout(timeout).value.Seconds?
    ensures WaitSpec(timeout, ticks) == Pending <==> forall i :: 0 <= i < |ticks| ==> InFlight(ticks[i])
  {
  }

  /** The outcome depends on the fetches only, not on the clock readings. */
  lemma {:induction false} OutcomeIgnoresClock(timeout: string, ticks: seq<Tick>, other: seq<Tick>)
    requires |ticks| == |other|
    requires forall i :: 0 <= i < |ticks| ==> ticks[i].fetch == other[i].fetch
    ensures WaitSpec(timeout, ticks) == WaitSpec(timeout, other)
  {
    SameFirstStop(ticks, other);
  }

  lemma {:induction false} SameFirstStop(ticks: seq<Tick>, other: seq<Tick>)
    requires |ticks| == |other|
    requires forall i :: 0 <= i < |ticks| ==> ticks[i].fetch == other[i].fetch
    ensures FirstStop(ticks) == FirstStop(other)
  {
    if ticks != [] && InFlight(ticks[0]) {
      SameFirstStop(ticks[1..], other[1..]);
    }
  }

  /** Reports are spaced: each comes more than 20 seconds after the previous
      one (the first, after the start), and each is a clock reading of the run. */
  lemma {:induction false} ReportsSpaced(start: nat, clocks: seq<nat>)
    ensures var r := Reports(start, clocks);
      (|r| > 0 ==> r[0] > start + ReportInterval) &&
      (forall i :: 0 < i < |r| ==> r[i] > r[i - 1] + ReportInterval) &&
      (forall x :: x in r ==> x in clocks)
  {
    if clocks != [] {
      var init := clocks[..|clocks| - 1];
      ReportsSpaced(start, init);
      forall x | x in Reports(start, init) ensures x in clocks {
        assert x in init;
      }
    }
  }

  /** A reading reported is one more than 20 seconds after the last report
      before it, and a reading more than 20 seconds after it is reported. */
  lemma ReportIffInterval(start: nat, clocks: seq<nat>)
    requires clocks != []
    ensures var earlier := Reports(start, clocks[..|clocks| - 1]);
      var now := clocks[|clocks| - 1];
      (Reports(start, clocks) == earlier + [now]) <==> now > LastReport(start, earlier) + ReportInterval
  {
    var earlier := Reports(start, clocks[..|clocks| - 1]);
    var now := clocks[|clocks| - 1];
    if Reports(start, clocks) == earlier + [now] {
      assert |Reports(start, clocks)| != |earlier|;
    }
  }
}
