/** The poll cadence of utils/polling.js: the interval chosen from the hour of the day, and
    the timer that `setupPolling` arms and re-arms.

    The clock is a parameter: each firing of a timer is a call of `Poller.Fire` (or a step
    of `Tick`) with the hour that `new Date().getHours()` reads once that firing's fetch has
    finished. The fetch itself is recorded as an event; what it does is the news cycle. */
module Polling {
  import opened Text

  type Hour = h: int | 0 <= h < 24

  const DayInterval: nat := 10 * 60 * 1000
  const NightInterval: nat := 2 * 60 * 60 * 1000

  /** `getCurrentPollInterval`: two hours from 22:00 to 04:59, ten minutes otherwise. */
  function PollInterval(hour: Hour): (ms: nat)
    ensures ms == NightInterval <==> hour >= 22 || hour < 5
    ensures ms == DayInterval <==> 5 <= hour <= 21
    ensures ms == DayInterval || ms == 12 * DayInterval
  {
    if hour >= 22 || hour < 5 then NightInterval else DayInterval
  }

  /** The two callbacks: the first timer's fetches and then looks at the clock again; the
      replacement timer's only fetches. */
  datatype Callback = FetchThenRecheck | FetchOnly

  /** An armed `setInterval`: its period in milliseconds and its callback. */
  datatype Timer = Timer(period: nat, callback: Callback)

  datatype PollEvent = Armed(timer: Timer) | Cleared(timer: Timer) | Fetched

  /** The closure state of `setupPolling` (`interval`, `timer`) and what it has done. */
  datatype PollState = PollState(interval: nat, timer: Timer, log: seq<PollEvent>)

  /** The timer runs at the current interval, and that interval is one the clock gives. */
  predicate Valid(s: PollState) {
    && s.timer.period == s.interval
    && (s.interval == DayInterval || s.interval == NightInterval)
  }

  /** `setupPolling` itself: one timer with the recheck callback at the current interval. */
  function Setup(hour: Hour): (s: PollState)
    ensures Valid(s)
    ensures s.interval == PollInterval(hour) && s.timer.callback == FetchThenRecheck
    ensures s.log == [Armed(s.timer)]
  {
    var t := Timer(PollInterval(hour), FetchThenRecheck);
    PollState(t.period, t, [Armed(t)])
  }

  /** One firing of the current timer; `hour` is read after the fetch. */
  function Tick(s: PollState, hour: Hour): (r: PollState)
    ensures |r.log| > |s.log| && r.log[..|s.log| + 1] == s.log + [Fetched]
    ensures r.timer != s.timer <==> s.timer.callback == FetchThenRecheck && PollInterval(hour) != s.interval
    ensures r.timer == s.timer ==> r.interval == s.interval && r.log == s.log + [Fetched]
    ensures r.timer != s.timer ==>
      && r.interval == PollInterval(hour)
      && r.timer == Timer(r.interval, FetchOnly)
      && r.log == s.log + [Fetched, Cleared(s.timer), Armed(r.timer)]
  {
    var fetched := s.log + [Fetched];
    match s.timer.callback
    case FetchOnly => s.(log := fetched)
    case FetchThenRecheck =>
      var n := PollInterval(hour);
      if n == s.interval then s.(log := fetched)
      else
        var t := Timer(n, FetchOnly);
        assert (fetched + [Cleared(s.timer), Armed(t)])[..|s.log| + 1] == fetched;
        PollState(n, t, fetched + [Cleared(s.timer), Armed(t)])
  }

  /** The timer firing once per hour reading in `hours`, in order. */
  function Run(s: PollState, hours: seq<Hour>): PollState
    decreases |hours|
  {
    if |hours| == 0 then s else Run(Tick(s, hours[0]), hours[1..])
  }

  /** The number of firings in a run that replaced the timer. */
  function Swaps(s: PollState, hours: seq<Hour>): nat
    decreases |hours|
  {
    if |hours| == 0 then 0
    else (if Tick(s, hours[0]).timer != s.timer then 1 else 0) + Swaps(Tick(s, hours[0]), hours[1..])
  }

  /** The number of fetches recorded in a log. */
  function FetchCount(log: seq<PollEvent>): nat
    decreases |log|
  {
    if |log| == 0 then 0 else FetchCount(log[..|log| - 1]) + (if log[|log| - 1] == Fetched then 1 else 0)
  }

  /** The first firing whose hour gives an interval other than `interval`. */
  function FirstChange(interval: nat, hours: seq<Hour>): (r: Option<nat>)
    ensures r.Some? ==> r.value < |hours| && PollInterval(hours[r.value]) != interval
    ensures r.Some? ==> forall i :: 0 <= i < r.value ==> PollInterval(hours[i]) == interval
    ensures r.None? ==> forall i :: 0 <= i < |hours| ==> PollInterval(hours[i]) == interval
    decreases |hours|
  {
    if |hours| == 0 then None
    else if PollInterval(hours[0]) != interval then Some(0)
    else match FirstChange(interval, hours[1..])
      case None => None
      case Some(i) => Some(i + 1)
  }

  /** The timer always runs at the current interval, and the interval is always one of the
      two the clock gives. */
  lemma {:induction false} RunValid(s: PollState, hours: seq<Hour>)
    requires Valid(s)
    ensures Valid(Run(s, hours))
    decreases |hours|
  {
    if |hours| > 0 {
      RunValid(Tick(s, hours[0]), hours[1..]);
    }
  }

  /** Once the replacement timer is armed nothing changes any more: the interval is fixed
      for good, whatever the clock says. */
  lemma {:induction false} FetchOnlyIsFinal(s: PollState, hours: seq<Hour>)
    requires s.timer.callback == FetchOnly
    ensures Run(s, hours).timer == s.timer && Run(s, hours).interval == s.interval
    ensures Swaps(s, hours) == 0
    decreases |hours|
  {
    if |hours| > 0 {
      FetchOnlyIsFinal(Tick(s, hours[0]), hours[1..]);
    }
  }

  /** The timer is replaced at most once in any run, and never once it only fetches. */
  lemma {:induction false} AtMostOneSwap(s: PollState, hours: seq<Hour>)
    ensures Swaps(s, hours) <= (if s.timer.callback == FetchThenRecheck then 1 else 0)
    decreases |hours|
  {
    if |hours| > 0 {
      var t := Tick(s, hours[0]);
      if t.timer != s.timer {
        FetchOnlyIsFinal(t, hours[1..]);
      } else {
        AtMostOneSwap(t, hours[1..]);
      }
    }
  }

  /** Where a run with the recheck callback ends: as long as every hour gives the current
      interval the timer is kept; at the first hour that gives another interval the timer is
      replaced by a fetch-only timer at that interval, which then stays. */
  lemma {:induction false} RunFromRecheck(s: PollState, hours: seq<Hour>)
    requires s.timer.callback == FetchThenRecheck
    ensures FirstChange(s.interval, hours).None? ==>
      Run(s, hours).timer == s.timer && Run(s, hours).interval == s.interval
    ensures FirstChange(s.interval, hours).Some? ==>
      var i := FirstChange(s.interval, hours).value;
      && Run(s, hours).interval == PollInterval(hours[i])
      && Run(s, hours).timer == Timer(PollInterval(hours[i]), FetchOnly)
    decreases |hours|
  {
    if |hours| > 0 {
      var t := Tick(s, hours[0]);
      if PollInterval(hours[0]) != s.interval {
        FetchOnlyIsFinal(t, hours[1..]);
      } else {
        RunFromRecheck(t, hours[1..]);
      }
    }
  }

  lemma {:induction false} FetchCountAppend(log: seq<PollEvent>, more: seq<PollEvent>)
    ensures FetchCount(log + more) == FetchCount(log) + FetchCount(more)
    decreases |more|
  {
    if |more| > 0 {
      var m := more[..|more| - 1];
      assert (log + more)[..|log + more| - 1] == log + m;
      assert (log + more)[|log + more| - 1] == more[|more| - 1];
      FetchCountAppend(log, m);
    } else {
      assert log + more == log;
    }
  }

  /** Every firing fetches exactly once, whichever timer fires. */
  lemma {:induction false} OneFetchPerFiring(s: PollState, hours: seq<Hour>)
    ensures FetchCount(Run(s, hours).log) == FetchCount(s.log) + |hours|
    decreases |hours|
  {
    if |hours| > 0 {
      var t := Tick(s, hours[0]);
      OneFetchPerFiring(t, hours[1..]);
      FetchCountAppend(s.log, t.log[|s.log|..]);
      assert s.log + t.log[|s.log|..] == t.log;
      var extra := t.log[|s.log|..];
      assert extra == [Fetched] || extra == [Fetched, Cleared(s.timer), Armed(t.timer)];
      assert FetchCount([Fetched]) == 1;
      assert [Fetched, Cleared(s.timer), Armed(t.timer)][..2] == [Fetched, Cleared(s.timer)];
      assert [Fetched, Cleared(s.timer)][..1] == [Fetched];
    }
  }

  /** The mutable closure of `setupPolling`. */
  class Poller {
    var interval: nat
    var timer: Timer
    var log: seq<PollEvent>

    function State(): PollState
      reads this
    {
      PollState(interval, timer, log)
    }

    /** `setupPolling(fetchAndPostNews)` at clock hour `hour`. */
    constructor (hour: Hour)
      ensures State() == Setup(hour)
    {
      interval := PollInterval(hour);
      timer := Timer(interval, FetchThenRecheck);
      log := [Armed(timer)];
    }

    /** The current timer fires: its callback fetches, and the recheck callback then reads
        the clock (`hour`) and swaps the timer when the interval differs. */
    method Fire(hour: Hour)
      modifies this
      ensures State() == Tick(old(State()), hour)
    {
      log := log + [Fetched];
      if timer.callback == FetchThenRecheck {
        var newInterval := PollInterval(hour);
        if newInterval != interval {
          log := log + [Cleared(timer)];
          interval := newInterval;
          timer := Timer(interval, FetchOnly);
          log := log + [Armed(timer)];
        }
      }
    }
  }
}
