/** The market-hours scheduler: whether an iteration of the run loop scans,
    how the run counter moves, and when the loop wakes next.

    Local time is a day number (day 0 is a Monday, so `day % 7` is the
    weekday with Monday as 0) and the microseconds since midnight.  Time zone
    conversion and daylight-saving effects are not modelled.
 */
module Scheduler {

  const MicrosPerSecond: int := 1_000_000
  const MicrosPerMinute: int := 60 * MicrosPerSecond
  const MicrosPerHour: int := 60 * MicrosPerMinute
  const MicrosPerDay: int := 24 * MicrosPerHour

  /** Market-hours window, both ends inclusive: 08:30:00 to 15:59:00. */
  const StartTime: int := 8 * MicrosPerHour + 30 * MicrosPerMinute
  const EndTime: int := 15 * MicrosPerHour + 59 * MicrosPerMinute

  /** Wait between scans inside the day. */
  const PollInterval: int := 5 * MicrosPerMinute

  /** The sleep after a failed scan. */
  const ErrorBackoff: int := 300 * MicrosPerSecond

  datatype Moment = Moment(day: int, micros: int)

  predicate Valid(m: Moment) {
    0 <= m.micros < MicrosPerDay
  }

  /** Monday is 0, Sunday 6. */
  function Weekday(day: int): int {
    day % 7
  }

  /** Microseconds since the start of day 0. */
  function Timeline(m: Moment): int {
    m.day * MicrosPerDay + m.micros
  }

  function FromTimeline(t: int): (m: Moment)
    ensures Valid(m) && Timeline(m) == t
  {
    Moment(t / MicrosPerDay, t % MicrosPerDay)
  }

  /** A valid moment survives the trip to the timeline and back. */
  lemma TimelineRoundTrip(m: Moment)
    requires Valid(m)
    ensures FromTimeline(Timeline(m)) == m
  {
  }

  /** Monday to Friday, between the start and end times inclusive. */
  predicate MarketHours(now: Moment) {
    0 <= Weekday(now.day) <= 4 && StartTime <= now.micros <= EndTime
  }

  /** The first iteration of the loop always scans; later ones only in
      market hours. */
  predicate Eligible(runCount: int, now: Moment) {
    runCount == 1 || MarketHours(now)
  }

  /** When the loop wakes next.  After the end time: the next day plus 30
      minutes, with the clock then set to the start time.  Otherwise: five
      minutes on, with the seconds dropped. */
  function NextRun(now: Moment): (next: Moment)
    requires Valid(now)
    ensures Valid(next)
    ensures now.micros > EndTime ==>
              next == Moment(now.day + (if now.micros >= 23 * MicrosPerHour + 30 * MicrosPerMinute then 2 else 1),
                             StartTime)
    ensures now.micros <= EndTime ==>
              && next.micros % MicrosPerMinute == 0
              && 240 * MicrosPerSecond < Timeline(next) - Timeline(now) <= 300 * MicrosPerSecond
  {
    if now.micros > EndTime then
      var t := FromTimeline(Timeline(now) + MicrosPerDay + 30 * MicrosPerMinute);
      Moment(t.day, StartTime)
    else
      var t := FromTimeline(Timeline(now) + PollInterval);
      Moment(t.day, t.micros - t.micros % MicrosPerMinute)
  }

  /** The sleep before the next iteration is always positive, so the
      program never asks to sleep for a negative time. */
  lemma NextRunIsLater(now: Moment)
    requires Valid(now)
    ensures Timeline(NextRun(now)) > Timeline(now)
  {
    if now.micros > EndTime {
      assert NextRun(now).day >= now.day + 1;
    }
  }

  /** One pass of the loop at time `now`; `faulted` says whether the scan,
      if one runs, raises. */
  datatype Iteration = Iteration(now: Moment, faulted: bool)

  datatype StepResult = StepResult(scanned: bool, runCount: int, sleep: int)

  /** One pass: the run count goes up when the iteration is eligible (before
      the scan starts, so a failing scan keeps the increment); a failing scan
      sleeps for the backoff, anything else until the next run. */
  function Step(runCount: int, it: Iteration): (o: StepResult)
    requires Valid(it.now)
    ensures o.scanned <==> Eligible(runCount, it.now)
    ensures o.runCount == runCount + (if o.scanned then 1 else 0)
    ensures o.sleep > 0
    ensures o.scanned && it.faulted ==> o.sleep == ErrorBackoff
    ensures !(o.scanned && it.faulted) ==> FromTimeline(Timeline(it.now) + o.sleep) == NextRun(it.now)
  {
    var eligible := Eligible(runCount, it.now);
    var count := if eligible then runCount + 1 else runCount;
    if eligible && it.faulted then StepResult(true, count, ErrorBackoff)
    else
      NextRunIsLater(it.now);
      TimelineRoundTrip(NextRun(it.now));
      StepResult(eligible, count, Timeline(NextRun(it.now)) - Timeline(it.now))
  }

  predicate AllValid(its: seq<Iteration>) {
    forall i :: 0 <= i < |its| ==> Valid(its[i].now)
  }

  /** Which iterations of a run scanned, starting from `runCount`. */
  function Scans(runCount: int, its: seq<Iteration>): (flags: seq<bool>)
    requires AllValid(its)
    ensures |flags| == |its|
    decreases |its|
  {
    if |its| == 0 then []
    else [Step(runCount, its[0]).scanned] + Scans(Step(runCount, its[0]).runCount, its[1..])
  }

  /** The run count after the iterations. */
  function FinalCount(runCount: int, its: seq<Iteration>): int
    requires AllValid(its)
    decreases |its|
  {
    if |its| == 0 then runCount
    else FinalCount(Step(runCount, its[0]).runCount, its[1..])
  }

  function CountTrue(flags: seq<bool>): nat {
    if |flags| == 0 then 0 else (if flags[0] then 1 else 0) + CountTrue(flags[1..])
  }

  /** Past the first scan, eligibility is exactly market hours. */
  lemma {:induction false} ScansAfterBootstrap(runCount: int, its: seq<Iteration>)
    requires AllValid(its)
    requires runCount >= 2
    ensures forall i :: 0 <= i < |its| ==> Scans(runCount, its)[i] == MarketHours(its[i].now)
    decreases |its|
  {
    if |its| > 0 {
      var o := Step(runCount, its[0]);
      ScansAfterBootstrap(o.runCount, its[1..]);
      var flags := Scans(runCount, its);
      assert flags[1..] == Scans(o.runCount, its[1..]);
      forall i | 1 <= i < |its| ensures flags[i] == MarketHours(its[i].now) {
        assert flags[i] == flags[1..][i - 1];
        assert its[i] == its[1..][i - 1];
      }
    }
  }

  /** From a fresh start, the first iteration scans whatever the time, and
      every later one scans exactly in market hours: the bootstrap exception
      fires once. */
  lemma BootstrapOnce(its: seq<Iteration>)
    requires AllValid(its) && |its| > 0
    ensures Scans(1, its)[0]
    ensures forall i :: 1 <= i < |its| ==> Scans(1, its)[i] == MarketHours(its[i].now)
  {
    var o := Step(1, its[0]);
    ScansAfterBootstrap(o.runCount, its[1..]);
    var flags := Scans(1, its);
    forall i | 1 <= i < |its| ensures flags[i] == MarketHours(its[i].now) {
      assert flags[i] == Scans(o.runCount, its[1..])[i - 1];
      assert its[i] == its[1..][i - 1];
    }
  }

  /** The run count only moves on scanning iterations, by one each time. */
  lemma {:induction false} CountTracksScans(runCount: int, its: seq<Iteration>)
    requires AllValid(its)
    ensures FinalCount(runCount, its) == runCount + CountTrue(Scans(runCount, its))
    decreases |its|
  {
    if |its| > 0 {
      var o := Step(runCount, its[0]);
      CountTracksScans(o.runCount, its[1..]);
      assert Scans(runCount, its)[1..] == Scans(o.runCount, its[1..]);
    }
  }
}
