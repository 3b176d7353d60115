/** What the timer keeps in the browser's storage and how it reads it back:
    the snapshot `saveState` writes when the page is hidden or closed, the
    policy `restoreState` applies to it on the next load, and the history
    list `loadRecords` reads. Storage itself is a slot that is missing, holds
    something unreadable, or holds a value. */
module PersistenceStore {
  import opened JsSemantics
  import opened History
  import opened TimerClock
  import opened AgendaSequencer

  /** A storage key: absent (or empty), present but not parseable, or a value. */
  datatype Slot<T> = Missing | Corrupt | Stored(value: T)

  /** The `timerState` object. `timeLeft` is not part of it. */
  datatype Snapshot = Snapshot(
    startTime: Option<int>,
    initialTime: int,
    isRunning: bool,
    isOvertime: bool,
    overtimeStart: Option<int>,
    pauseTime: Option<int>,
    currentSpeakerIndex: int,
    isAgendaMode: bool,
    speakerName: string,
    minutes: string,
    seconds: string,
    timestamp: int)

  /** What a failed write reports: the error's `name` and legacy `code`. */
  datatype StorageError = StorageError(name: string, code: int)

  /** The two alerts `saveRecords` can raise. */
  datatype Alert = QuotaAlert | GenericSaveAlert

  /** A snapshot older than twelve hours is discarded. */
  const ExpiryMs := 12 * 60 * 60 * 1000

  /** `saveRecords`' error branch: the quota message for a quota error, under
      either its standard name or its old numeric code, the generic one
      otherwise. */
  function AlertFor(e: StorageError): (r: Alert)
    ensures r == QuotaAlert <==> e.name == "QuotaExceededError" || e.code == 22
    ensures r == GenericSaveAlert <==> e.name != "QuotaExceededError" && e.code != 22
  {
    if e.name == "QuotaExceededError" || e.code == 22 then QuotaAlert else GenericSaveAlert
  }

  /** `loadRecords`: the stored list, or an empty one when there is nothing
      readable. */
  function LoadRecords(slot: Slot<seq<Record>>): (r: seq<Record>)
    ensures slot.Stored? ==> r == slot.value
    ensures !slot.Stored? ==> r == []
  {
    match slot
    case Stored(v) => v
    case _ => []
  }

  /** The guard at the top of `saveState`: nothing is written for a timer that
      has never started outside agenda mode. */
  function ShouldSave(c: Clock, a: Agenda): (r: bool)
    ensures a.active ==> r
    ensures !a.active ==> (r <==> c.startTime.Some? && c.startTime.value != 0)
  {
    Truthy(c.startTime) || a.active
  }

  /** The snapshot `saveState` builds at `now`. */
  function Capture(c: Clock, a: Agenda, now: int): (s: Snapshot)
    ensures s.startTime == c.startTime && s.initialTime == c.initialTime
    ensures s.isRunning == c.isRunning && s.isOvertime == c.isOvertime
    ensures s.overtimeStart == c.overtimeStart && s.pauseTime == c.pauseTime
    ensures s.currentSpeakerIndex == a.index && s.isAgendaMode == a.active
    ensures s.speakerName == a.fields.name && s.minutes == a.fields.minutes
    ensures s.seconds == a.fields.seconds && s.timestamp == now
  {
    Snapshot(c.startTime, c.initialTime, c.isRunning, c.isOvertime, c.overtimeStart,
             c.pauseTime, a.index, a.active, a.fields.name, a.fields.minutes,
             a.fields.seconds, now)
  }

  /** The twelve-hour check in `restoreState`: a snapshot is dropped once more
      than 43 200 000 ms have passed since it was saved, and kept at exactly
      twelve hours. */
  function Expired(s: Snapshot, now: int): (r: bool)
    ensures r <==> now > s.timestamp + 43_200_000
    ensures now == s.timestamp + 43_200_000 ==> !r
  {
    now - s.timestamp > ExpiryMs
  }

  /** The four timing fields `restoreState` copies before it looks at whether
      the snapshot was running. */
  function Copied(c: Clock, s: Snapshot): Clock
  {
    c.(initialTime := s.initialTime, startTime := s.startTime,
       overtimeStart := s.overtimeStart, pauseTime := s.pauseTime)
  }

  /** The running branch before its immediate tick: a snapshot saved before
      overtime whose deadline has passed by `now` is put into overtime from
      the deadline itself. */
  function CaughtUp(c: Clock, s: Snapshot, now: int): (r: Clock)
    ensures r.isRunning && r.timeLeft == c.timeLeft
    ensures r.startTime == s.startTime && r.initialTime == s.initialTime
    ensures r.pauseTime == s.pauseTime
    ensures !s.isOvertime && Elapsed(Copied(c, s), now) >= s.initialTime ==>
      r.isOvertime && r.overtimeStart == Some(ToNumber(s.startTime) + s.initialTime * 1000)
    ensures !(!s.isOvertime && Elapsed(Copied(c, s), now) >= s.initialTime) ==>
      r.isOvertime == c.isOvertime && r.overtimeStart == s.overtimeStart
  {
    var running := Copied(c, s).(isRunning := true);
    if !s.isOvertime && Elapsed(running, now) >= running.initialTime then
      running.(isOvertime := true,
               overtimeStart := Some(ToNumber(running.startTime) + running.initialTime * 1000))
    else running
  }

  /** The clock after `restoreState` applied a snapshot that was not expired,
      starting from the clock `c` the constructor left. A running snapshot
      runs again and is ticked at once; a paused one stays paused with its
      overtime flag; any other keeps the copied fields only. `timeLeft` is
      never read from the snapshot. */
  function RestoredClock(c: Clock, s: Snapshot, now: int): (r: Clock)
    ensures r.startTime == s.startTime && r.initialTime == s.initialTime
    ensures r.pauseTime == s.pauseTime
    ensures s.isRunning ==> r.isRunning
    ensures s.isRunning && !s.isOvertime && Elapsed(Copied(c, s), now) >= s.initialTime ==>
      && r.isOvertime && r.overtimeStart == Some(ToNumber(s.startTime) + s.initialTime * 1000)
      && r.timeLeft == Elapsed(Copied(c, s), now) - s.initialTime
    ensures s.isRunning && !c.isOvertime && Elapsed(Copied(c, s), now) < s.initialTime ==>
      && !r.isOvertime && r.overtimeStart == s.overtimeStart
      && r.timeLeft == s.initialTime - Elapsed(Copied(c, s), now)
    ensures !s.isRunning && Truthy(s.pauseTime) ==>
      !r.isRunning && r.isOvertime == s.isOvertime && r.overtimeStart == s.overtimeStart
      && r.timeLeft == c.timeLeft
    ensures !s.isRunning && !Truthy(s.pauseTime) ==> r == Copied(c, s)
  {
    if s.isRunning then Tick(CaughtUp(c, s, now), now)
    else if Truthy(s.pauseTime) then Copied(c, s).(isRunning := false, isOvertime := s.isOvertime)
    else Copied(c, s)
  }

  /** `restoreState` shows the stop-confirmation dialog again for a snapshot
      that was paused. */
  function RestorePrompts(s: Snapshot): (r: bool)
    ensures r ==> !s.isRunning && s.pauseTime.Some?
    ensures r <==> !s.isRunning && s.pauseTime.Some? && s.pauseTime.value != 0
  {
    !s.isRunning && Truthy(s.pauseTime)
  }

  /** `state.minutes || 10` and `state.seconds || 0` written into a text box. */
  function TextOr(v: string, fallback: string): (r: string)
    ensures v != "" ==> r == v
    ensures v == "" ==> r == fallback
  {
    if v == "" then fallback else v
  }

  /** The agenda after `restoreState`: mode, index and the three boxes come
      from the snapshot, the speaker list stays as `initializeAgenda` built it,
      and an empty duration box falls back to 10 minutes or 0 seconds. */
  function RestoredAgenda(a: Agenda, s: Snapshot): (r: Agenda)
    ensures r.speakers == a.speakers
    ensures r.active == s.isAgendaMode && r.index == s.currentSpeakerIndex
    ensures r.fields.name == s.speakerName
    ensures r.fields.minutes == (if s.minutes == "" then "10" else s.minutes)
    ensures r.fields.seconds == (if s.seconds == "" then "0" else s.seconds)
  {
    a.(active := s.isAgendaMode, index := s.currentSpeakerIndex,
       fields := Fields(s.speakerName, TextOr(s.minutes, "10"), TextOr(s.seconds, "0")))
  }

  // ---------------------------------------------------------------------------
  // Properties
  // ---------------------------------------------------------------------------

  /** Closing and reopening a running timer before its deadline loses
      nothing: the restored clock is the clock as its next tick would have
      left it, and the agenda boxes come back as they were. */
  lemma RestoreRunningBeforeDeadline(b: Clock, c: Clock, a: Agenda, saved: int, now: int)
    requires c.isRunning && !c.isOvertime && !b.isOvertime
    requires Elapsed(c, now) < c.initialTime
    requires a.fields.minutes != "" && a.fields.seconds != ""
    ensures RestoredClock(b, Capture(c, a, saved), now) == Tick(c, now)
    ensures RestoredAgenda(a, Capture(c, a, saved)) == a
  {
    var s := Capture(c, a, saved);
    assert Elapsed(Copied(b, s), now) == Elapsed(c, now);
  }

  /** A running timer whose deadline passed while the page was closed comes
      back in overtime counted from the deadline, showing the seconds past it. */
  lemma RestoreCatchesUpOnDeadline(b: Clock, c: Clock, a: Agenda, saved: int, now: int)
    requires c.isRunning && !c.isOvertime
    requires Elapsed(c, now) >= c.initialTime
    ensures var r := RestoredClock(b, Capture(c, a, saved), now);
      && r.isRunning && r.isOvertime
      && r.overtimeStart == Some(ToNumber(c.startTime) + c.initialTime * 1000)
      && r.timeLeft == Elapsed(c, now) - c.initialTime
  {
    var s := Capture(c, a, saved);
    assert Elapsed(Copied(b, s), now) == Elapsed(c, now);
  }

  /** A snapshot taken in overtime does not carry the flag back: the
      immediate tick enters overtime anew and dates it at the reload, so the
      saved start of overtime is replaced by `now`. */
  lemma RestoreOvertimeRestartsAtReload(c: Clock, a: Agenda, saved: int, now: int)
    requires c.isRunning && c.isOvertime && c.overtimeStart.Some?
    requires Elapsed(c, now) >= c.initialTime
    ensures var r := RestoredClock(Initial, Capture(c, a, saved), now);
      && r.isRunning && r.isOvertime && r.overtimeStart == Some(now)
      && r.timeLeft == Elapsed(c, now) - c.initialTime
      && (c.overtimeStart != Some(now) ==> r.overtimeStart != c.overtimeStart)
  {
    var s := Capture(c, a, saved);
    assert Elapsed(Copied(Initial, s), now) == Elapsed(c, now);
  }

  /** The save guard after the clock's steps: a timer reset outside agenda
      mode writes no snapshot, and one that has just started writes one
      (unless the clock reads exactly 0, which `startTime` takes as unset). */
  lemma SaveGuardAfterSteps(c: Clock, a: Agenda, minutes: int, seconds: int, now: int)
    ensures ShouldSave(Cleared(c), a) <==> a.active
    ensures !c.isRunning && !StartRejected(c, minutes, seconds) && now != 0 ==>
      ShouldSave(Start(c, minutes, seconds, now), a)
  {
  }

  /** Restoring keeps the clock's invariant: overtime always has a start. */
  lemma RestoreKeepsConsistent(c: Clock, a: Agenda, saved: int, now: int)
    requires Consistent(c)
    ensures Consistent(RestoredClock(Initial, Capture(c, a, saved), now))
  {
  }

  /** A snapshot saved exactly twelve hours ago is restored; one a millisecond
      older is dropped. */
  lemma ExpiryBoundary(s: Snapshot)
    ensures !Expired(s, s.timestamp + 12 * 60 * 60 * 1000)
    ensures Expired(s, s.timestamp + 12 * 60 * 60 * 1000 + 1)
  {
  }

  /** A timer saved while its stop dialog was open comes back paused, on the
      same face, and asks again. */
  lemma RestorePausedShowsSameFace(b: Clock, c: Clock, a: Agenda, saved: int, now: int)
    requires !c.isRunning && Truthy(c.pauseTime) && Truthy(c.startTime)
    ensures var r := RestoredClock(b, Capture(c, a, saved), now);
      && !r.isRunning && r.isOvertime == c.isOvertime
      && r.(timeLeft := c.timeLeft) == c
      && Display(r) == Display(c)
    ensures RestorePrompts(Capture(c, a, saved))
  {
  }
}
