/** The timer's clock as a value: the seven fields `start`, `updateTimer`,
    `confirmStop`, the resume branch of `hideConfirmDialog`, `stop` and `reset`
    read and write, and each of those steps as a function of the old value and
    the wall-clock reading `now` (epoch milliseconds). */
module TimerClock {
  import opened JsSemantics
  import opened History

  /** The last minute before the deadline is shown as a warning. */
  const WarningSeconds := 60

  /** The name a record gets when the speaker box is blank. */
  const UnnamedSpeaker := "未命名"

  /** `startTime`, `overtimeStart` and `pauseTime` are epoch milliseconds or
      null; `initialTime` and `timeLeft` are seconds. */
  datatype Clock = Clock(
    startTime: Option<int>,
    initialTime: int,
    timeLeft: int,
    isRunning: bool,
    isOvertime: bool,
    overtimeStart: Option<int>,
    pauseTime: Option<int>)

  /** The values the constructor gives the clock fields. */
  const Initial := Clock(None, 0, 0, false, false, None, None)

  /** What a tick does to the timer's look: the normal colour, the last-minute
      warning animation, switching to the overtime animation, or (already in
      overtime) only refreshing the overtime animation. */
  datatype Style = Normal | Warning | OvertimeEntered | OvertimeContinued

  /** The two numbers on the face, before zero padding. */
  datatype Digits = Digits(minutes: int, seconds: int)

  /** The timer's own invariant: overtime always has a start. */
  predicate Consistent(c: Clock)
  {
    c.isOvertime ==> c.overtimeStart.Some?
  }

  /** `Math.floor((now - startTime) / 1000)`: whole seconds since the origin. */
  function Elapsed(c: Clock, now: int): (e: int)
    ensures e * 1000 <= now - ToNumber(c.startTime) < e * 1000 + 1000
  {
    (now - ToNumber(c.startTime)) / 1000
  }

  // ---------------------------------------------------------------------------
  // start
  // ---------------------------------------------------------------------------

  /** The duration `start` reads from the two boxes, given their values as
      `parseInt(box) || 0`: minutes at least 0, seconds clamped to 0..59. */
  function RequestedDuration(minutes: int, seconds: int): (d: int)
    ensures d >= 0
    ensures d == 0 <==> minutes <= 0 && seconds <= 0
  {
    Max(0, minutes) * 60 + Max(0, Min(59, seconds))
  }

  /** The duration splits back into the minutes (at least 0) and the seconds
      (clamped to 0..59) it was read from. */
  lemma RequestedDurationSplits(minutes: int, seconds: int)
    ensures var d := RequestedDuration(minutes, seconds);
      d / 60 == Max(0, minutes) && d % 60 == Max(0, Min(59, seconds))
  {
  }

  /** `start` refuses (and alerts) when the clock is stopped and the requested
      duration is not positive. */
  predicate StartRejected(c: Clock, minutes: int, seconds: int)
  {
    !c.isRunning && RequestedDuration(minutes, seconds) <= 0
  }

  /** `start`. A running clock is left as it is. Otherwise `timeLeft` takes the
      requested duration; a duration of 0 stops there, and a positive one
      becomes `initialTime`, the origin moves to `now` and the clock runs.
      Overtime and pause fields are not touched. */
  function Start(c: Clock, minutes: int, seconds: int, now: int): (r: Clock)
    ensures c.isRunning ==> r == c
    ensures StartRejected(c, minutes, seconds) ==> r == c.(timeLeft := 0)
    ensures !c.isRunning && !StartRejected(c, minutes, seconds) ==>
      var d := RequestedDuration(minutes, seconds);
      r == c.(timeLeft := d, initialTime := d, startTime := Some(now), isRunning := true)
    ensures r.isRunning <==> !StartRejected(c, minutes, seconds)
  {
    if c.isRunning then c
    else
      var asked := c.(timeLeft := RequestedDuration(minutes, seconds));
      if asked.timeLeft <= 0 then asked
      else
        var timed := asked.(initialTime := asked.timeLeft);
        timed.(startTime := Some(now - (timed.initialTime - timed.timeLeft) * 1000), isRunning := true)
  }

  // ---------------------------------------------------------------------------
  // updateTimer
  // ---------------------------------------------------------------------------

  /** `updateTimer`, the once-a-second tick. Before overtime, `timeLeft` counts
      down from `initialTime`; the first tick that reaches 0 or below enters
      overtime at `now` and shows the excess. In overtime `timeLeft` is the
      distance from the deadline. */
  function Tick(c: Clock, now: int): (r: Clock)
    ensures r.startTime == c.startTime && r.initialTime == c.initialTime
    ensures r.isRunning == c.isRunning && r.pauseTime == c.pauseTime
    ensures !c.isOvertime && c.initialTime - Elapsed(c, now) > 0 ==>
      !r.isOvertime && r.overtimeStart == c.overtimeStart
      && r.timeLeft == c.initialTime - Elapsed(c, now)
    ensures !c.isOvertime && c.initialTime - Elapsed(c, now) <= 0 ==>
      r.isOvertime && r.overtimeStart == Some(now)
      && r.timeLeft == Elapsed(c, now) - c.initialTime
    ensures c.isOvertime ==>
      r.isOvertime && r.overtimeStart == c.overtimeStart
      && r.timeLeft == Abs(c.initialTime - Elapsed(c, now))
    ensures r.isOvertime ==> r.timeLeft >= 0
  {
    var elapsedSeconds := Elapsed(c, now);
    if !c.isOvertime then
      var counted := c.(timeLeft := c.initialTime - elapsedSeconds);
      if counted.timeLeft <= 0 then
        counted.(isOvertime := true, overtimeStart := Some(now), timeLeft := Abs(counted.timeLeft))
      else counted
    else
      c.(timeLeft := Abs(c.initialTime - elapsedSeconds))
  }

  /** How the tick restyles the timer. The warning applies exactly when the
      tick leaves the clock out of overtime with 1 to 60 seconds left. */
  function TickStyle(c: Clock, now: int): (s: Style)
    ensures s == OvertimeContinued <==> c.isOvertime
    ensures s == OvertimeEntered <==> !c.isOvertime && Tick(c, now).isOvertime
    ensures s == Warning <==> !Tick(c, now).isOvertime && 0 < Tick(c, now).timeLeft <= WarningSeconds
    ensures s == Normal <==> !Tick(c, now).isOvertime && Tick(c, now).timeLeft > WarningSeconds
  {
    if c.isOvertime then OvertimeContinued
    else
      var left := c.initialTime - Elapsed(c, now);
      if left <= 0 then OvertimeEntered
      else if left <= WarningSeconds then Warning
      else Normal
  }

  /** A run of ticks at the given readings, in order. */
  function Ticks(c: Clock, times: seq<int>): Clock
    decreases |times|
  {
    if times == [] then c else Ticks(Tick(c, times[0]), times[1..])
  }

  // ---------------------------------------------------------------------------
  // confirmStop, resume, reset and the face
  // ---------------------------------------------------------------------------

  /** `confirmStop`: freeze at `now` and stop; the confirmation dialog follows. */
  function Pause(c: Clock, now: int): (r: Clock)
    ensures !r.isRunning && r.pauseTime == Some(now)
    ensures r.(isRunning := c.isRunning, pauseTime := c.pauseTime) == c
  {
    c.(pauseTime := Some(now), isRunning := false)
  }

  /** The resume branch of `hideConfirmDialog` (the dialog was cancelled): the
      origin moves forward by the length of the pause and the clock runs
      again. `pauseTime` keeps its value. */
  function Resume(c: Clock, now: int): (r: Clock)
    ensures r.isRunning && r.startTime.Some?
    ensures ToNumber(r.startTime) - ToNumber(c.startTime) == now - ToNumber(c.pauseTime)
    ensures r.(isRunning := c.isRunning, startTime := c.startTime) == c
  {
    c.(startTime := Some(ToNumber(c.startTime) + now - ToNumber(c.pauseTime)), isRunning := true)
  }

  /** `reset`: every timing field back to rest; only `initialTime` survives. */
  function Cleared(c: Clock): (r: Clock)
    ensures r == Initial.(initialTime := c.initialTime)
    ensures Consistent(r)
  {
    c.(isRunning := false, isOvertime := false, timeLeft := 0,
       overtimeStart := None, startTime := None, pauseTime := None)
  }

  /** The number of seconds `updateDisplay` shows: `timeLeft`, except while
      paused with both timestamps set, when it is recomputed from the pause. */
  function DisplaySeconds(c: Clock): (d: int)
    ensures !(!c.isRunning && Truthy(c.pauseTime) && Truthy(c.startTime)) ==> d == c.timeLeft
    ensures !c.isRunning && Truthy(c.pauseTime) && Truthy(c.startTime) ==>
      var elapsed := Elapsed(c, c.pauseTime.value);
      d == if c.isOvertime then Abs(c.initialTime - elapsed) else c.initialTime - elapsed
  {
    if !c.isRunning && Truthy(c.pauseTime) && Truthy(c.startTime) then
      var elapsed := (c.pauseTime.value - c.startTime.value) / 1000;
      if c.isOvertime then Abs(c.initialTime - elapsed) else c.initialTime - elapsed
    else c.timeLeft
  }

  /** `Math.floor(d / 60)` and `d % 60` with JavaScript's truncating `%`. For a
      non-negative count this is minutes and seconds; for a negative count that
      is not a whole minute the face is one minute further negative than the
      count, with negative seconds. */
  function Split(d: int): (r: Digits)
    ensures d >= 0 ==> 0 <= r.seconds < 60 && r.minutes * 60 + r.seconds == d
    ensures d < 0 && d % 60 == 0 ==> r.seconds == 0 && r.minutes * 60 == d
    ensures d < 0 && d % 60 != 0 ==> -60 < r.seconds < 0 && r.minutes * 60 + r.seconds == d - 60
  {
    Digits(d / 60, JsRem60(d))
  }

  /** The face `updateDisplay` writes. A clock that is not paused shows
      `timeLeft`, in whole minutes and seconds when that is not negative. */
  function Display(c: Clock): (r: Digits)
    ensures c.isRunning && c.timeLeft >= 0 ==>
      0 <= r.seconds < 60 && r.minutes * 60 + r.seconds == c.timeLeft
    ensures !c.isRunning && Truthy(c.pauseTime) && Truthy(c.startTime) && !c.isOvertime ==>
      r.minutes * 60 + r.seconds ==
        (if LeftAt(c, c.pauseTime.value) >= 0 || LeftAt(c, c.pauseTime.value) % 60 == 0
         then LeftAt(c, c.pauseTime.value) else LeftAt(c, c.pauseTime.value) - 60)
  {
    Split(DisplaySeconds(c))
  }

  /** The two texts on the face: each number in decimal, padded on the left
      with `0` to at least two characters. */
  function FaceText(d: Digits): (t: (string, string))
    ensures |t.0| >= 2 && |t.1| >= 2
  {
    (PadStart2(IntToString(d.minutes)), PadStart2(IntToString(d.seconds)))
  }

  /** The padded texts still read as the numbers they show, signs included. */
  lemma FaceTextReadsBack(d: Digits)
    ensures ParseInt(FaceText(d).0) == Some(d.minutes)
    ensures ParseInt(FaceText(d).1) == Some(d.seconds)
  {
    ParseIntOfPadded(d.minutes);
    ParseIntOfPadded(d.seconds);
  }

  // ---------------------------------------------------------------------------
  // stop
  // ---------------------------------------------------------------------------

  /** The record name: the trimmed speaker box, or the placeholder when that is
      blank. */
  function SpeakerLabel(nameField: string): (r: string)
    ensures r != []
    ensures AllSpace(nameField) ==> r == UnnamedSpeaker
    ensures !AllSpace(nameField) ==> r == Trim(nameField)
  {
    var trimmed := Trim(nameField);
    if trimmed == [] then UnnamedSpeaker else trimmed
  }

  /** The record `stop` pushes: the whole seconds from the origin to the pause,
      the part of them past `initialTime`, the speaker's name, the label. */
  function StopRecord(c: Clock, nameField: string, stamp: string): (r: Record)
    ensures r.totalTime == Elapsed(c, ToNumber(c.pauseTime))
    ensures r.overtimeSeconds >= 0 && r.overtimeSeconds >= r.totalTime - c.initialTime
    ensures r.overtimeSeconds == 0 || r.overtimeSeconds == r.totalTime - c.initialTime
    ensures r.speakerName == SpeakerLabel(nameField) && r.timestamp == stamp
  {
    var endTime := ToNumber(c.pauseTime);
    var totalTime := (endTime - ToNumber(c.startTime)) / 1000;
    var overtimeSeconds := Max(0, totalTime - c.initialTime);
    Record(SpeakerLabel(nameField), totalTime, overtimeSeconds, stamp)
  }

  // ---------------------------------------------------------------------------
  // Properties
  // ---------------------------------------------------------------------------

  /** Right after a successful start, a tick shows the whole duration. */
  lemma StartThenTickShowsDuration(c: Clock, minutes: int, seconds: int, now: int)
    requires !c.isRunning && !c.isOvertime && !StartRejected(c, minutes, seconds)
    ensures var t := Tick(Start(c, minutes, seconds, now), now);
      && t.timeLeft == RequestedDuration(minutes, seconds)
      && !t.isOvertime && t.isRunning
  {
  }

  /** Ticking `e` whole seconds (plus a fraction) into a fresh run of `d`
      seconds: before the deadline the face counts `d - e` and is in the warning
      style exactly in the last minute; at or after it, overtime begins at that
      reading and shows `e - d`. */
  lemma TickDuringFirstRun(c: Clock, minutes: int, seconds: int, now: int, e: int, frac: int)
    requires !c.isRunning && !c.isOvertime && !StartRejected(c, minutes, seconds)
    requires e >= 0 && 0 <= frac < 1000
    ensures var d := RequestedDuration(minutes, seconds);
      var s := Start(c, minutes, seconds, now);
      var at := now + e * 1000 + frac;
      && Elapsed(s, at) == e
      && (e < d ==> Tick(s, at).timeLeft == d - e && !Tick(s, at).isOvertime
                    && TickStyle(s, at) == (if d - e <= WarningSeconds then Warning else Normal))
      && (e >= d ==> Tick(s, at).isOvertime && Tick(s, at).overtimeStart == Some(at)
                     && Tick(s, at).timeLeft == e - d && TickStyle(s, at) == OvertimeEntered)
  {
    var s := Start(c, minutes, seconds, now);
    assert ToNumber(s.startTime) == now;
  }

  /** `start` on a stopped clock still in overtime (Space pressed while the
      stop dialog of an overtime run is open) begins the new run in overtime:
      the pause is kept, and every tick shows the distance from the new
      deadline in overtime style instead of counting down. */
  lemma StartDuringOvertimeKeepsOvertime(c: Clock, minutes: int, seconds: int, now: int, e: int, frac: int)
    requires !c.isRunning && c.isOvertime && !StartRejected(c, minutes, seconds)
    requires e >= 0 && 0 <= frac < 1000
    ensures var d := RequestedDuration(minutes, seconds);
      var s := Start(c, minutes, seconds, now);
      var t := Tick(s, now + e * 1000 + frac);
      && s.isRunning && s.isOvertime && s.pauseTime == c.pauseTime
      && s.overtimeStart == c.overtimeStart
      && t.isOvertime && t.timeLeft == Abs(d - e)
      && TickStyle(s, now + e * 1000 + frac) == OvertimeContinued
  {
    var s := Start(c, minutes, seconds, now);
    assert Elapsed(s, now + e * 1000 + frac) == e;
  }

  /** Overtime is sticky: no run of ticks leaves it or moves its start, the
      origin and duration stay, and the face shows the distance from the
      deadline. */
  lemma {:induction false} TicksKeepOvertime(c: Clock, times: seq<int>)
    requires c.isOvertime
    ensures var r := Ticks(c, times);
      && r.isOvertime && r.overtimeStart == c.overtimeStart
      && r.startTime == c.startTime && r.initialTime == c.initialTime
      && (times != [] ==> r.timeLeft == Abs(c.initialTime - Elapsed(c, times[|times| - 1])))
    decreases |times|
  {
    if times != [] {
      var next := Tick(c, times[0]);
      TicksKeepOvertime(next, times[1..]);
      if |times| > 1 {
        assert times[1..][|times[1..]| - 1] == times[|times| - 1];
      }
    }
  }

  /** A remaining time computed from a fixed origin. */
  function LeftAt(c: Clock, t: int): int
  {
    c.initialTime - Elapsed(c, t)
  }

  /** Overtime is entered exactly once, by the first tick whose remaining time
      is not positive: its reading becomes `overtimeStart` for good. */
  lemma {:induction false} TicksEnterOvertimeAtFirstDeadline(c: Clock, times: seq<int>, k: int)
    requires !c.isOvertime
    requires 0 <= k < |times| && LeftAt(c, times[k]) <= 0
    requires forall j :: 0 <= j < k ==> LeftAt(c, times[j]) > 0
    ensures Ticks(c, times).isOvertime && Ticks(c, times).overtimeStart == Some(times[k])
    decreases |times|
  {
    var next := Tick(c, times[0]);
    if k == 0 {
      TicksKeepOvertime(next, times[1..]);
    } else {
      assert LeftAt(c, times[0]) > 0;
      forall j | 0 <= j < k - 1 ensures LeftAt(next, times[1..][j]) > 0 {
        assert times[1..][j] == times[j + 1];
      }
      TicksEnterOvertimeAtFirstDeadline(next, times[1..], k - 1);
    }
  }

  /** While every tick still has time left, overtime is not entered and the
      face shows the last remaining time. */
  lemma {:induction false} TicksBeforeDeadline(c: Clock, times: seq<int>)
    requires !c.isOvertime
    requires forall j :: 0 <= j < |times| ==> LeftAt(c, times[j]) > 0
    ensures var r := Ticks(c, times);
      && !r.isOvertime && r.overtimeStart == c.overtimeStart && r.startTime == c.startTime
      && (times != [] ==> r.timeLeft == LeftAt(c, times[|times| - 1]))
    decreases |times|
  {
    if times != [] {
      var next := Tick(c, times[0]);
      assert LeftAt(c, times[0]) > 0;
      forall j | 0 <= j < |times[1..]| ensures LeftAt(next, times[1..][j]) > 0 {
        assert times[1..][j] == times[j + 1];
      }
      TicksBeforeDeadline(next, times[1..]);
      if |times| > 1 {
        assert times[1..][|times[1..]| - 1] == times[|times| - 1];
      }
    }
  }

  /** Pausing at `p` and resuming at `r` freezes the elapsed time: at the
      resume it reads what it read at the pause, and any later reading `t`
      counts as `t - (r - p)` did before. */
  lemma PauseResumeFreezesElapsed(c: Clock, p: int, r: int, t: int)
    ensures Elapsed(Resume(Pause(c, p), r), r) == Elapsed(c, p)
    ensures Elapsed(Resume(Pause(c, p), r), t) == Elapsed(c, t - (r - p))
  {
  }

  /** So a tick after the resume counts down as if the pause never happened. */
  lemma ResumedTickSkipsPause(c: Clock, p: int, r: int, t: int)
    ensures Tick(Resume(Pause(c, p), r), t).timeLeft == Tick(c, t - (r - p)).timeLeft
    ensures Tick(Resume(Pause(c, p), r), t).isOvertime == Tick(c, t - (r - p)).isOvertime
  {
    PauseResumeFreezesElapsed(c, p, r, t);
  }

  /** The resumed clock runs with `pauseTime` still set: "paused implies not
      running" is not an invariant of the timer. */
  lemma ResumeKeepsPauseTime(c: Clock, p: int, r: int)
    ensures Resume(Pause(c, p), r).isRunning && Resume(Pause(c, p), r).pauseTime == Some(p)
  {
  }

  /** Every step keeps overtime paired with its start. */
  lemma StepsKeepConsistent(c: Clock, minutes: int, seconds: int, now: int)
    requires Consistent(c)
    ensures Consistent(Start(c, minutes, seconds, now))
    ensures Consistent(Tick(c, now)) && Consistent(Pause(c, now)) && Consistent(Resume(c, now))
    ensures Consistent(Cleared(c))
  {
  }

  /** The face while paused agrees with the tick at the pause as long as that
      tick would not have been the one to enter overtime. */
  lemma PausedFaceMatchesTick(c: Clock, p: int)
    requires Truthy(c.startTime) && p != 0
    requires c.isOvertime || LeftAt(c, p) > 0
    ensures DisplaySeconds(Pause(c, p)) == Tick(c, p).timeLeft
  {
  }

  /** When the deadline passed with no tick in between (a throttled tab), the
      paused face counts below zero: 10 seconds planned, paused at 12.5 s,
      shows minute -1 and second -2. */
  lemma PausedPastDeadlineShowsNegative()
    ensures var c := Clock(Some(1000), 10, 1, true, false, None, None);
      && DisplaySeconds(Pause(c, 13500)) == -2
      && Display(Pause(c, 13500)) == Digits(-1, -2)
  {
  }

  /** A ten-minute run stopped 650 seconds in gives a record of 650 seconds
      with 50 over. */
  lemma StopAfterOvertimeRecord(c: Clock, now: int, name: string, stamp: string)
    requires !c.isRunning && !c.isOvertime
    ensures var s := Start(c, 10, 0, now);
      var paused := Pause(Tick(s, now + 650000), now + 650000);
      && StopRecord(paused, name, stamp).totalTime == 650
      && StopRecord(paused, name, stamp).overtimeSeconds == 50
  {
  }

  /** A record's times follow from the run: `e` whole seconds between origin
      and pause give `e` in total and whatever exceeds the plan as overtime. */
  lemma RecordOfRun(c: Clock, e: int, frac: int, name: string, stamp: string)
    requires c.pauseTime.Some? && 0 <= frac < 1000
    requires c.pauseTime.value == ToNumber(c.startTime) + e * 1000 + frac
    ensures StopRecord(c, name, stamp).totalTime == e
    ensures StopRecord(c, name, stamp).overtimeSeconds == Max(0, e - c.initialTime)
  {
  }
}
