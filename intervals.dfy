/**
 * Interval reduction: from a member's chronological log of "start channel"
 * and "end channel" events to the hours of presence inside a window.
 *
 * A log that opens with an end event is charged from the window start to
 * that event; a log that closes with a start event is charged from that
 * event to `now`; the events in between are paired up. calc_total_time
 * pairs consecutive positions; get_total_time_for_window pairs the k-th
 * start with the k-th end after filtering by category.
 */
module Intervals {
  import opened Common

  datatype Category = StartChannel | EndChannel

  /** One logged event: its creation time (seconds) and category. */
  datatype Event = Event(time: int, category: Category)

  datatype Failure =
    | IndexOutOfRange    // calc_total_time reads past the end of the log
    | ShapeMismatch      // numpy cannot broadcast the end times against the start times
    | StudyTimeBelowZero // the "study time below zero" exception
    | NoStartFunction    // get_start_fn left at its default None, then called

  /** A number of seconds, in hours (timedelta_to_hours). */
  function Hours(seconds: int): (h: real)
    ensures h * 3600.0 == seconds as real
    ensures h >= 0.0 <==> seconds >= 0
  {
    seconds as real / 3600.0
  }

  function InHours(r: Result<int, Failure>): Result<real, Failure> {
    match r
    case Ok(seconds) => Ok(Hours(seconds))
    case Err(e) => Err(e)
  }

  function Shift(r: Result<int, Failure>, k: int): Result<int, Failure> {
    match r
    case Ok(v) => Ok(v + k)
    case Err(e) => Err(e)
  }

  predicate OpensWithEnd(log: seq<Event>) {
    |log| > 0 && log[0].category == EndChannel
  }

  predicate ClosesWithStart(log: seq<Event>) {
    |log| > 0 && log[|log| - 1].category == StartChannel
  }

  /** The first position of the pairing pass. */
  function PairFrom(log: seq<Event>): nat {
    if OpensWithEnd(log) then 1 else 0
  }

  /** One past the last position of the pairing pass. */
  function PairTo(log: seq<Event>): (to: nat)
    ensures PairFrom(log) <= to <= |log|
  {
    if ClosesWithStart(log) then |log| - 1 else |log|
  }

  /** The events the pairing pass covers. */
  function Middle(log: seq<Event>): seq<Event> {
    log[PairFrom(log)..PairTo(log)]
  }

  /**
   * Seconds charged for a session already open at the window start and for
   * one still open at `now`.
   */
  function BoundaryCharge(log: seq<Event>, windowStart: int, now: int): int {
    (if OpensWithEnd(log) then log[0].time - windowStart else 0)
    + (if ClosesWithStart(log) then now - log[|log| - 1].time else 0)
  }

  /**
   * The pairing loop of calc_total_time from position `i`: each of the
   * positions i, i + 2, ... below `to` is paired with the position after it,
   * whatever the two categories; reading past the log raises.
   */
  function StridePairs(log: seq<Event>, i: nat, to: nat): (r: Result<int, Failure>)
    requires to <= |log|
    ensures r.Err? ==> r.error == IndexOutOfRange
    ensures r.Err? <==> i < to == |log| && (to - i) % 2 == 1
    decreases if i < to then to - i else 0
  {
    if i >= to then Ok(0)
    else if i + 1 >= |log| then Err(IndexOutOfRange)
    else Shift(StridePairs(log, i + 2, to), log[i + 1].time - log[i].time)
  }

  /** What calc_total_time computes, in seconds, with the window starting at `windowStart`. */
  function CalcTotalSeconds(log: seq<Event>, windowStart: int, now: int): (r: Result<int, Failure>)
    ensures r.Err? ==> r.error == IndexOutOfRange
    ensures r.Err? <==> !ClosesWithStart(log) && |Middle(log)| % 2 == 1
  {
    if |log| == 0 then Ok(0)
    else Shift(StridePairs(log, PairFrom(log), PairTo(log)), BoundaryCharge(log, windowStart, now))
  }

  /**
   * calc_total_time. The window starts at the start of the business month:
   * `monthStart` is the value get_month_start() reads from the clock, that is
   * Windows.MonthStart(t, offset) for the instant t of that read, and `now` is
   * the value of get_time().
   */
  method CalcTotalTime(log: seq<Event>, monthStart: int, now: int) returns (r: Result<real, Failure>)
    ensures r == InHours(CalcTotalSeconds(log, monthStart, now))
  {
    if |log| == 0 {
      return Ok(0.0);
    }
    var windowStart := monthStart;
    var total := 0;
    var startIdx := 0;
    var endIdx := |log| - 1;
    if log[0].category == EndChannel {
      total := total + (log[0].time - windowStart);
      startIdx := 1;
    }
    if log[|log| - 1].category == StartChannel {
      total := total + (now - log[|log| - 1].time);
      endIdx := endIdx - 1;
    }
    assert startIdx == PairFrom(log) && endIdx + 1 == PairTo(log);
    assert total == BoundaryCharge(log, windowStart, now);
    ghost var to: nat := endIdx + 1;
    var idx := startIdx;
    while idx < endIdx + 1
      invariant to == endIdx + 1 == PairTo(log) && idx <= to + 1
      invariant Shift(StridePairs(log, idx, to), total) == CalcTotalSeconds(log, windowStart, now)
      decreases endIdx + 1 - idx
    {
      if idx + 1 >= |log| {
        return Err(IndexOutOfRange);
      }
      total := total + (log[idx + 1].time - log[idx].time);
      idx := idx + 2;
    }
    r := Ok(Hours(total));
  }

  /** The times of the events of category `c`, in log order. */
  function Times(log: seq<Event>, c: Category): (times: seq<int>)
    ensures |times| <= |log|
    ensures forall t :: t in times <==> exists i :: 0 <= i < |log| && log[i].category == c && log[i].time == t
  {
    if |log| == 0 then []
    else
      var rest := Times(log[1..], c);
      assert forall i :: 1 <= i < |log| ==> log[1..][i - 1] == log[i];
      (if log[0].category == c then [log[0].time] else []) + rest
  }

  function Sum(xs: seq<int>): int {
    if |xs| == 0 then 0 else xs[0] + Sum(xs[1..])
  }

  function Differences(xs: seq<int>, ys: seq<int>): (d: seq<int>)
    requires |xs| == |ys|
    ensures |d| == |xs| && forall i :: 0 <= i < |d| ==> d[i] == xs[i] - ys[i]
  {
    if |xs| == 0 then [] else [xs[0] - ys[0]] + Differences(xs[1..], ys[1..])
  }

  function Minus(x: int, ys: seq<int>): (d: seq<int>)
    ensures |d| == |ys| && forall i :: 0 <= i < |d| ==> d[i] == x - ys[i]
  {
    if |ys| == 0 then [] else [x - ys[0]] + Minus(x, ys[1..])
  }

  function MinusEach(xs: seq<int>, y: int): (d: seq<int>)
    ensures |d| == |xs| && forall i :: 0 <= i < |d| ==> d[i] == xs[i] - y
  {
    if |xs| == 0 then [] else [xs[0] - y] + MinusEach(xs[1..], y)
  }

  /**
   * numpy's `xs - ys` on one-dimensional arrays: elementwise when the lengths
   * agree, a length-one operand repeated against the other, and otherwise
   * the operands cannot be broadcast.
   */
  function Subtract(xs: seq<int>, ys: seq<int>): (r: Option<seq<int>>)
    ensures r.Some? <==> |xs| == |ys| || |xs| == 1 || |ys| == 1
    ensures r.Some? ==> |r.value| == (if |xs| == |ys| || |ys| == 1 then |xs| else |ys|)
    ensures r.Some? ==> forall i :: 0 <= i < |r.value| ==>
              r.value[i] == xs[if |xs| == 1 then 0 else i] - ys[if |ys| == 1 then 0 else i]
  {
    if |xs| == |ys| then Some(Differences(xs, ys))
    else if |xs| == 1 then Some(Minus(xs[0], ys))
    else if |ys| == 1 then Some(MinusEach(xs, ys[0]))
    else None
  }

  /**
   * get_total_time_for_window, on the log once sorted by creation time.
   * `startFn` is the value get_start_fn() returns, or None when the caller
   * left get_start_fn at its default; calling it then raises, but only when
   * the log opens with an end event. A negative total raises.
   */
  function TotalTimeForWindow(log: seq<Event>, startFn: Option<int>, now: int): (r: Result<real, Failure>)
    requires Sorted(log)
    ensures r.Ok? ==> r.value >= 0.0
    ensures r.Err? ==> r.error != IndexOutOfRange
    ensures r == Err(NoStartFunction) <==> OpensWithEnd(log) && startFn.None?
  {
    if OpensWithEnd(log) && startFn.None? then Err(NoStartFunction)
    else
      var windowStart := if startFn.Some? then startFn.value else 0;
      var middle := Middle(log);
      match Subtract(Times(middle, EndChannel), Times(middle, StartChannel))
      case None => Err(ShapeMismatch)
      case Some(durations) =>
        var hours := Hours(BoundaryCharge(log, windowStart, now) + Sum(durations));
        if hours < 0.0 then Err(StudyTimeBelowZero) else Ok(hours)
  }

  /** Events in non-decreasing time order. */
  predicate Sorted(log: seq<Event>) {
    forall i, j :: 0 <= i < j < |log| ==> log[i].time <= log[j].time
  }

  /** Every event is followed by one of the other category. */
  predicate Alternating(log: seq<Event>) {
    forall i :: 0 <= i < |log| - 1 ==> log[i].category != log[i + 1].category
  }

  /** Start, end, start, end, ..., end. */
  predicate Paired(s: seq<Event>) {
    && |s| % 2 == 0
    && forall i :: 0 <= i < |s| ==> s[i].category == (if i % 2 == 0 then StartChannel else EndChannel)
  }

  /** Every event lies between the window start and now. */
  predicate InWindow(log: seq<Event>, windowStart: int, now: int) {
    forall i :: 0 <= i < |log| ==> windowStart <= log[i].time <= now
  }

  lemma {:induction false} AlternatingFrom(log: seq<Event>, i: nat, j: nat)
    requires Alternating(log) && i <= j < |log|
    ensures log[j].category == (if (j - i) % 2 == 0 then log[i].category
                                else if log[i].category == StartChannel then EndChannel else StartChannel)
  {
    if i < j {
      AlternatingFrom(log, i, j - 1);
    }
  }

  /** In an alternating log, what lies between the boundary events is start/end pairs. */
  lemma AlternatingLogIsPaired(log: seq<Event>)
    requires Alternating(log)
    ensures Paired(Middle(log))
  {
    var from, to := PairFrom(log), PairTo(log);
    var s := Middle(log);
    if from < to {
      assert log[from].category == StartChannel by {
        if from == 1 { AlternatingFrom(log, 0, 1); }
      }
      assert log[to - 1].category == EndChannel by {
        if to == |log| - 1 { AlternatingFrom(log, to - 1, to); }
      }
      forall k | 0 <= k < |s|
        ensures s[k].category == (if k % 2 == 0 then StartChannel else EndChannel)
      {
        AlternatingFrom(log, from, from + k);
      }
      AlternatingFrom(log, from, to - 1);
    }
  }

  /** A paired run has as many starts as ends. */
  lemma {:induction false} PairedCounts(s: seq<Event>)
    requires Paired(s)
    ensures |Times(s, StartChannel)| == |Times(s, EndChannel)| == |s| / 2
  {
    if |s| > 0 {
      PairedTail(s);
      PairedCounts(s[2..]);
      assert s[1..][1..] == s[2..];
    }
  }

  lemma PairedTail(s: seq<Event>)
    requires Paired(s) && |s| > 0
    ensures Paired(s[2..])
    ensures Times(s, StartChannel) == [s[0].time] + Times(s[2..], StartChannel)
    ensures Times(s, EndChannel) == [s[1].time] + Times(s[2..], EndChannel)
  {
    assert s[0].category == StartChannel && s[1].category == EndChannel;
    assert s[1..][1..] == s[2..];
    forall k | 0 <= k < |s| - 2
      ensures s[2..][k].category == (if k % 2 == 0 then StartChannel else EndChannel)
    {
      assert s[2..][k] == s[k + 2];
    }
  }

  /** On a paired run, the pairing loop sums the end times less the start times. */
  lemma {:induction false} PairedStride(log: seq<Event>, from: nat, to: nat)
    requires from <= to <= |log| && Paired(log[from..to])
    ensures StridePairs(log, from, to)
            == Ok(Sum(Times(log[from..to], EndChannel)) - Sum(Times(log[from..to], StartChannel)))
    decreases (to as int) - from
  {
    var s := log[from..to];
    if from < to {
      PairedTail(s);
      assert s[2..] == log[from + 2..to];
      PairedStride(log, from + 2, to);
    }
  }

  lemma {:induction false} SumOfDifferences(xs: seq<int>, ys: seq<int>)
    requires |xs| == |ys|
    ensures Sum(Differences(xs, ys)) == Sum(xs) - Sum(ys)
  {
    if |xs| > 0 {
      SumOfDifferences(xs[1..], ys[1..]);
      var rest := Differences(xs[1..], ys[1..]);
      assert ([xs[0] - ys[0]] + rest)[1..] == rest;
    }
  }

  /**
   * On a paired middle, the two reductions agree: both charge the boundary
   * sessions and the end times less the start times; get_total_time_for_window
   * raises where that total is negative.
   */
  lemma CalcAgreesWithWindow(log: seq<Event>, windowStart: int, now: int)
    requires Sorted(log) && Paired(Middle(log))
    ensures var total := BoundaryCharge(log, windowStart, now)
                         + Sum(Times(Middle(log), EndChannel)) - Sum(Times(Middle(log), StartChannel));
            && CalcTotalSeconds(log, windowStart, now) == Ok(total)
            && TotalTimeForWindow(log, Some(windowStart), now)
               == if total < 0 then Err(StudyTimeBelowZero) else Ok(Hours(total))
  {
    var middle := Middle(log);
    PairedStride(log, PairFrom(log), PairTo(log));
    PairedCounts(middle);
    SumOfDifferences(Times(middle, EndChannel), Times(middle, StartChannel));
  }

  /** On sorted events, every pair the loop forms is non-negative. */
  lemma {:induction false} StrideNonNegative(log: seq<Event>, i: nat, to: nat)
    requires to <= |log| && Sorted(log)
    ensures StridePairs(log, i, to).Ok? ==> StridePairs(log, i, to).value >= 0
    decreases if i < to then to - i else 0
  {
    if i < to && i + 1 < |log| {
      StrideNonNegative(log, i + 2, to);
    }
  }

  /** calc_total_time never reports negative time for a sorted log inside its window. */
  lemma CalcNonNegative(log: seq<Event>, windowStart: int, now: int)
    requires Sorted(log) && InWindow(log, windowStart, now)
    ensures CalcTotalSeconds(log, windowStart, now).Ok? ==> CalcTotalSeconds(log, windowStart, now).value >= 0
  {
    if |log| > 0 {
      StrideNonNegative(log, PairFrom(log), PairTo(log));
    }
  }

  /**
   * A sorted, alternating log inside the window: calc_total_time does not
   * fail, get_total_time_for_window does not raise, and both give the same
   * non-negative number of hours.
   */
  lemma WellFormedLog(log: seq<Event>, windowStart: int, now: int)
    requires Sorted(log) && Alternating(log) && InWindow(log, windowStart, now)
    ensures CalcTotalSeconds(log, windowStart, now).Ok?
    ensures CalcTotalSeconds(log, windowStart, now).value >= 0
    ensures TotalTimeForWindow(log, Some(windowStart), now) == Ok(Hours(CalcTotalSeconds(log, windowStart, now).value))
  {
    AlternatingLogIsPaired(log);
    CalcAgreesWithWindow(log, windowStart, now);
    CalcNonNegative(log, windowStart, now);
  }

  /** An empty log accrues nothing. */
  lemma EmptyLog(windowStart: int, now: int)
    ensures CalcTotalSeconds([], windowStart, now) == Ok(0)
    ensures TotalTimeForWindow([], Some(windowStart), now) == Ok(0.0)
  {
  }

  /** End at T-2h, start at T-1h, end at T, window from T-3h: two hours. */
  lemma TwoHourExample(t: int, now: int)
    ensures TotalTimeForWindow([Event(t - 7200, EndChannel), Event(t - 3600, StartChannel), Event(t, EndChannel)],
                               Some(t - 10800), now) == Ok(2.0)
  {
    var log := [Event(t - 7200, EndChannel), Event(t - 3600, StartChannel), Event(t, EndChannel)];
    assert Middle(log) == log[1..];
    assert Times(log[1..], EndChannel) == [t];
    assert Times(log[1..], StartChannel) == [t - 3600];
    assert Sum(Differences([t], [t - 3600])) == 3600;
    assert BoundaryCharge(log, t - 10800, now) == 3600;
  }

  /** An end event logged before the window opens gives a negative total, which raises. */
  lemma EndBeforeWindowRaises(t: int, now: int)
    ensures TotalTimeForWindow([Event(t, EndChannel)], Some(t + 60), now) == Err(StudyTimeBelowZero)
  {
    var log := [Event(t, EndChannel)];
    assert Middle(log) == [];
    assert BoundaryCharge(log, t + 60, now) == -60;
  }

  /** Without a start function, a log opening with an end event raises before anything is summed. */
  lemma MissingStartFunctionRaises(t: int, now: int)
    ensures TotalTimeForWindow([Event(t, EndChannel), Event(t + 60, StartChannel)], None, now) == Err(NoStartFunction)
    ensures TotalTimeForWindow([Event(t, StartChannel), Event(t + 60, EndChannel)], None, now) == Ok(Hours(60))
  {
    var log := [Event(t, StartChannel), Event(t + 60, EndChannel)];
    assert Middle(log) == log;
    assert Times(log, EndChannel) == [t + 60];
    assert Times(log, StartChannel) == [t];
    assert Sum(Differences([t + 60], [t])) == 60;
  }
}
