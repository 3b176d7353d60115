/** The `Timer` object: the clock fields, the history list, the agenda fields
    and the three input boxes, updated in place by the handlers. Every method
    is tied to the value-level step it performs (`TimerClock`,
    `AgendaSequencer`, `History`, `PersistenceStore`); the properties proved
    there carry over to the object through those contracts. */
module TimeKeeper {
  import opened JsSemantics
  import opened History
  import opened TimerClock
  import opened AgendaSequencer
  import opened PersistenceStore

  /** The browser storage, with the two keys the timer reads and writes. */
  class Storage {
    var timerRecords: Slot<seq<Record>>
    var timerState: Slot<Snapshot>

    constructor(records: Slot<seq<Record>>, state: Slot<Snapshot>)
      ensures timerRecords == records && timerState == state
    {
      timerRecords := records;
      timerState := state;
    }
  }

  class Timer {
    var timeLeft: int
    var initialTime: int
    var isRunning: bool
    var isOvertime: bool
    var startTime: Option<int>
    var overtimeStart: Option<int>
    var pauseTime: Option<int>
    var records: seq<Record>
    var agendaSpeakers: seq<Speaker>
    var currentSpeakerIndex: int
    var isAgendaMode: bool
    var isStateRestored: bool
    /** The text of the speaker, minutes and seconds boxes. */
    var speakerNameInput: string
    var minutesInput: string
    var secondsInput: string
    const store: Storage

    /** The seven clock fields as one value. */
    function ClockState(): Clock
      reads this
    {
      Clock(startTime, initialTime, timeLeft, isRunning, isOvertime, overtimeStart, pauseTime)
    }

    /** The agenda fields and the three boxes as one value. */
    function AgendaState(): Agenda
      reads this
    {
      Agenda(agendaSpeakers, currentSpeakerIndex, isAgendaMode,
             Fields(speakerNameInput, minutesInput, secondsInput))
    }

    /** The constructor with its calls: the history list is loaded, the
        agenda is set up from the configured speakers, and a saved snapshot
        is applied. The boxes start with the page's own values. */
    constructor(store: Storage, config: seq<Speaker>, name: string, minutes: string,
                seconds: string, now: int)
      modifies store
      ensures this.store == store
      ensures records == LoadRecords(old(store.timerRecords))
      ensures store.timerRecords == old(store.timerRecords)
      ensures var a := Initialize(Agenda([], 0, false, Fields(name, minutes, seconds)), config);
        match old(store.timerState)
        case Stored(s) =>
          if Expired(s, now) then
            && ClockState() == Initial && AgendaState() == a && !isStateRestored
            && store.timerState == Missing
          else
            && ClockState() == RestoredClock(Initial, s, now)
            && AgendaState() == RestoredAgenda(a, s) && isStateRestored
            && store.timerState == old(store.timerState)
        case _ =>
          && ClockState() == Initial && AgendaState() == a && !isStateRestored
          && store.timerState == Missing
    {
      timeLeft := 0;
      initialTime := 0;
      isRunning := false;
      isOvertime := false;
      startTime := None;
      records := LoadRecords(store.timerRecords);
      pauseTime := None;
      overtimeStart := None;
      agendaSpeakers := [];
      currentSpeakerIndex := 0;
      isAgendaMode := false;
      isStateRestored := false;
      speakerNameInput := name;
      minutesInput := minutes;
      secondsInput := seconds;
      this.store := store;
      new;
      InitializeAgenda(config);
      var prompt := RestoreState(now);
    }

    // -------------------------------------------------------------------------
    // The clock
    // -------------------------------------------------------------------------

    /** `start`, reading the duration from the boxes. `rejected` is the
        "set a valid time" alert. */
    method Start(now: int) returns (rejected: bool)
      modifies this
      ensures var minutes := IntOr0(ParseInt(old(minutesInput)));
        var seconds := IntOr0(ParseInt(old(secondsInput)));
        && ClockState() == TimerClock.Start(old(ClockState()), minutes, seconds, now)
        && rejected == StartRejected(old(ClockState()), minutes, seconds)
      ensures AgendaState() == old(AgendaState()) && records == old(records)
      ensures isStateRestored == old(isStateRestored)
    {
      var minutes := IntOr0(ParseInt(minutesInput));
      var seconds := IntOr0(ParseInt(secondsInput));
      rejected := StartFor(minutes, seconds, now);
    }

    /** The body of `start` once `parseInt(...) || 0` has read the two boxes. */
    method StartFor(m: int, sec: int, now: int) returns (rejected: bool)
      modifies this
      ensures ClockState() == TimerClock.Start(old(ClockState()), m, sec, now)
      ensures rejected == StartRejected(old(ClockState()), m, sec)
      ensures AgendaState() == old(AgendaState()) && records == old(records)
      ensures isStateRestored == old(isStateRestored)
    {
      rejected := false;
      if !isRunning {
        var minutes := Max(0, m);
        var seconds := Max(0, Min(59, sec));
        timeLeft := minutes * 60 + seconds;
        if timeLeft <= 0 {
          rejected := true;
          return;
        }
        initialTime := timeLeft;
        startTime := Some(now - (initialTime - timeLeft) * 1000);
      }
      isRunning := true;
    }

    /** `updateTimer` at the reading `now`: the clock steps as `Tick` says,
        the style is the one the tick applies and the face is redrawn. */
    method UpdateTimer(now: int) returns (style: Style, face: Digits)
      modifies this
      ensures ClockState() == Tick(old(ClockState()), now)
      ensures style == TickStyle(old(ClockState()), now)
      ensures face == Display(ClockState())
      ensures AgendaState() == old(AgendaState()) && records == old(records)
      ensures isStateRestored == old(isStateRestored)
    {
      var elapsedSeconds := (now - ToNumber(startTime)) / 1000;
      if !isOvertime {
        timeLeft := initialTime - elapsedSeconds;
        if timeLeft <= 0 {
          isOvertime := true;
          overtimeStart := Some(now);
          timeLeft := Abs(timeLeft);
          style := OvertimeEntered;
        } else if timeLeft <= WarningSeconds {
          style := Warning;
        } else {
          style := Normal;
        }
      } else {
        timeLeft := Abs(initialTime - elapsedSeconds);
        style := OvertimeContinued;
      }
      face := UpdateDisplay();
    }

    /** `updateDisplay`: the numbers on the face and their padded texts. */
    method UpdateDisplay() returns (face: Digits)
      ensures face == Display(ClockState())
      ensures face.minutes * 60 + face.seconds ==
        (if DisplaySeconds(ClockState()) >= 0 || DisplaySeconds(ClockState()) % 60 == 0
         then DisplaySeconds(ClockState()) else DisplaySeconds(ClockState()) - 60)
    {
      var displaySeconds := timeLeft;
      if !isRunning && Truthy(pauseTime) && Truthy(startTime) {
        var elapsed := (pauseTime.value - startTime.value) / 1000;
        if isOvertime {
          displaySeconds := Abs(initialTime - elapsed);
        } else {
          displaySeconds := initialTime - elapsed;
        }
      }
      face := Digits(displaySeconds / 60, JsRem60(displaySeconds));
    }

    /** `confirmStop`: the clock freezes at `now` and the face shows the time
        at the pause. */
    method ConfirmStop(now: int) returns (face: Digits)
      modifies this
      ensures ClockState() == Pause(old(ClockState()), now)
      ensures face == Display(ClockState())
      ensures AgendaState() == old(AgendaState()) && records == old(records)
      ensures isStateRestored == old(isStateRestored)
    {
      pauseTime := Some(now);
      isRunning := false;
      face := UpdateDisplay();
    }

    /** The cancel path of the stop dialog (the resume branch of
        `hideConfirmDialog`). */
    method Resume(now: int)
      modifies this
      ensures ClockState() == TimerClock.Resume(old(ClockState()), now)
      ensures AgendaState() == old(AgendaState()) && records == old(records)
      ensures isStateRestored == old(isStateRestored)
    {
      startTime := Some(ToNumber(startTime) + now - ToNumber(pauseTime));
      isRunning := true;
    }

    /** `reset`: the saved snapshot is removed, the clock is cleared, and the
        speaker box is emptied outside agenda mode. */
    method Reset()
      modifies this, store
      ensures ClockState() == Cleared(old(ClockState()))
      ensures AgendaState() == AfterReset(old(AgendaState()))
      ensures store.timerState == Missing && store.timerRecords == old(store.timerRecords)
      ensures records == old(records) && isStateRestored == old(isStateRestored)
    {
      store.timerState := Missing;
      isRunning := false;
      isOvertime := false;
      timeLeft := 0;
      overtimeStart := None;
      startTime := None;
      pauseTime := None;
      if !isAgendaMode {
        speakerNameInput := "";
      }
    }

    /** `stop` after a confirmed stop dialog: the run is appended to the
        history and saved, the clock is reset, and in agenda mode the next
        speaker comes up (or the agenda ends). `alert` is what saving the
        history reported; `fault` is the write error storage raises, if any. */
    method Stop(stamp: string, fault: Option<StorageError>) returns (alert: Option<Alert>)
      modifies this, store
      ensures records == old(records) + [StopRecord(old(ClockState()), old(speakerNameInput), stamp)]
      ensures fault.None? ==> store.timerRecords == Stored(records) && alert == None
      ensures fault.Some? ==>
        store.timerRecords == old(store.timerRecords) && alert == Some(AlertFor(fault.value))
      ensures ClockState() == Cleared(old(ClockState()))
      ensures AgendaState() == Advance(AfterReset(old(AgendaState())))
      ensures store.timerState == Missing && isStateRestored == old(isStateRestored)
    {
      var endTime := ToNumber(pauseTime);
      var totalTime := (endTime - ToNumber(startTime)) / 1000;
      var overtimeSeconds := Max(0, totalTime - initialTime);
      var trimmed := Trim(speakerNameInput);
      var speakerName := if trimmed == [] then UnnamedSpeaker else trimmed;
      records := records + [Record(speakerName, totalTime, overtimeSeconds, stamp)];
      alert := SaveRecords(fault);
      Reset();
      if isAgendaMode {
        AutoNextSpeaker();
      }
    }

    // -------------------------------------------------------------------------
    // The history list
    // -------------------------------------------------------------------------

    /** `saveRecords`: a successful write stores the whole list; a failed one
        leaves storage as it was and yields the alert for the error. */
    method SaveRecords(fault: Option<StorageError>) returns (alert: Option<Alert>)
      modifies store
      ensures fault.None? ==> store.timerRecords == Stored(records) && alert == None
      ensures fault.Some? ==>
        store.timerRecords == old(store.timerRecords) && alert == Some(AlertFor(fault.value))
      ensures store.timerState == old(store.timerState)
    {
      if fault.None? {
        store.timerRecords := Stored(records);
        alert := None;
      } else {
        alert := Some(AlertFor(fault.value));
      }
    }

    /** `executeDeleteRecord` for the entry the user picked: `splice(index, 1)`
        and a save. A listed index removes exactly that entry. */
    method ExecuteDeleteRecord(index: int, fault: Option<StorageError>) returns (alert: Option<Alert>)
      modifies this, store
      ensures records == SpliceOne(old(records), index)
      ensures 0 <= index < |old(records)| ==>
        records == old(records)[..index] + old(records)[index + 1..]
      ensures fault.None? ==> store.timerRecords == Stored(records) && alert == None
      ensures fault.Some? ==>
        store.timerRecords == old(store.timerRecords) && alert == Some(AlertFor(fault.value))
      ensures store.timerState == old(store.timerState)
      ensures ClockState() == old(ClockState()) && AgendaState() == old(AgendaState())
      ensures isStateRestored == old(isStateRestored)
    {
      records := SpliceOne(records, index);
      alert := SaveRecords(fault);
    }

    /** `executeClearRecords`: the list becomes empty and is saved. */
    method ExecuteClearRecords(fault: Option<StorageError>) returns (alert: Option<Alert>)
      modifies this, store
      ensures records == []
      ensures fault.None? ==> store.timerRecords == Stored([]) && alert == None
      ensures fault.Some? ==>
        store.timerRecords == old(store.timerRecords) && alert == Some(AlertFor(fault.value))
      ensures store.timerState == old(store.timerState)
      ensures ClockState() == old(ClockState()) && AgendaState() == old(AgendaState())
      ensures isStateRestored == old(isStateRestored)
    {
      records := [];
      alert := SaveRecords(fault);
    }

    // -------------------------------------------------------------------------
    // Saving and restoring the clock
    // -------------------------------------------------------------------------

    /** `saveState` at `now`: nothing for a timer that never started outside
        agenda mode; otherwise the snapshot, when the write succeeds (a
        failure is silent). */
    method SaveState(now: int, writeOk: bool)
      modifies store
      ensures ShouldSave(ClockState(), AgendaState()) && writeOk ==>
        store.timerState == Stored(Capture(ClockState(), AgendaState(), now))
      ensures !(ShouldSave(ClockState(), AgendaState()) && writeOk) ==>
        store.timerState == old(store.timerState)
      ensures store.timerRecords == old(store.timerRecords)
    {
      if !Truthy(startTime) && !isAgendaMode {
        return;
      }
      if writeOk {
        store.timerState := Stored(Snapshot(startTime, initialTime, isRunning, isOvertime,
          overtimeStart, pauseTime, currentSpeakerIndex, isAgendaMode, speakerNameInput,
          minutesInput, secondsInput, now));
      }
    }

    /** `restoreState` at `now`. Nothing stored: nothing happens. Unreadable
        or older than twelve hours: the key is removed and nothing else
        happens. Otherwise the snapshot is applied; `prompt` says the stop
        dialog is shown again. */
    method RestoreState(now: int) returns (prompt: bool)
      modifies this, store
      ensures old(store.timerState).Stored? && !Expired(old(store.timerState).value, now) ==>
        var s := old(store.timerState).value;
        && ClockState() == RestoredClock(old(ClockState()), s, now)
        && AgendaState() == RestoredAgenda(old(AgendaState()), s)
        && isStateRestored && prompt == RestorePrompts(s)
        && store.timerState == old(store.timerState)
      ensures !(old(store.timerState).Stored? && !Expired(old(store.timerState).value, now)) ==>
        && ClockState() == old(ClockState()) && AgendaState() == old(AgendaState())
        && isStateRestored == old(isStateRestored) && !prompt
        && store.timerState == Missing
      ensures records == old(records) && store.timerRecords == old(store.timerRecords)
    {
      prompt := false;
      var saved := store.timerState;
      if !saved.Stored? {
        store.timerState := Missing;
        return;
      }
      var state := saved.value;
      if now - state.timestamp > ExpiryMs {
        store.timerState := Missing;
        return;
      }
      CopyClock(state);
      CopyAgenda(state);
      if state.isRunning {
        isRunning := true;
        if !state.isOvertime {
          var elapsed := (now - ToNumber(startTime)) / 1000;
          if elapsed >= initialTime {
            isOvertime := true;
            overtimeStart := Some(ToNumber(startTime) + initialTime * 1000);
          }
        }
        var style, face := UpdateTimer(now);
      } else if Truthy(state.pauseTime) {
        isRunning := false;
        isOvertime := state.isOvertime;
        var face := UpdateDisplay();
        prompt := true;
      }
    }

    /** The part of `restoreState` that copies the snapshot's timing fields,
        before it looks at whether the snapshot was running. */
    method CopyClock(state: Snapshot)
      modifies this
      ensures ClockState() == Copied(old(ClockState()), state)
      ensures AgendaState() == old(AgendaState()) && records == old(records)
      ensures isStateRestored == old(isStateRestored)
    {
      initialTime := state.initialTime;
      startTime := state.startTime;
      overtimeStart := state.overtimeStart;
      pauseTime := state.pauseTime;
    }

    /** The part of `restoreState` that copies the agenda mode, the index and
        the three boxes, and marks the state as restored. */
    method CopyAgenda(state: Snapshot)
      modifies this
      ensures AgendaState() == RestoredAgenda(old(AgendaState()), state)
      ensures ClockState() == old(ClockState()) && records == old(records)
      ensures isStateRestored
    {
      isAgendaMode := state.isAgendaMode;
      currentSpeakerIndex := state.currentSpeakerIndex;
      speakerNameInput := state.speakerName;
      minutesInput := TextOr(state.minutes, "10");
      secondsInput := TextOr(state.seconds, "0");
      isStateRestored := true;
    }

    // -------------------------------------------------------------------------
    // The agenda
    // -------------------------------------------------------------------------

    /** `initializeAgenda` with the configured speakers. */
    method InitializeAgenda(config: seq<Speaker>)
      modifies this
      ensures AgendaState() == Initialize(old(AgendaState()), config)
      ensures ClockState() == old(ClockState()) && records == old(records)
      ensures isStateRestored == old(isStateRestored)
    {
      if |config| > 0 {
        agendaSpeakers := config;
        isAgendaMode := true;
        SetCurrentSpeaker(0);
      } else {
        isAgendaMode := false;
      }
    }

    /** `setCurrentSpeaker(index)`. */
    method SetCurrentSpeaker(index: int)
      modifies this
      ensures AgendaState() == SetSpeaker(old(AgendaState()), index)
      ensures ClockState() == old(ClockState()) && records == old(records)
      ensures isStateRestored == old(isStateRestored)
    {
      if !isAgendaMode || index < 0 || index >= |agendaSpeakers| {
        return;
      }
      currentSpeakerIndex := index;
      var speaker := agendaSpeakers[index];
      speakerNameInput := speaker.name;
      minutesInput := IntToString(speaker.minutes);
      secondsInput := PadStart2(IntToString(speaker.seconds));
    }

    /** `syncToAgenda`, run on every edit of a box. */
    method SyncToAgenda()
      modifies this
      ensures AgendaState() == Sync(old(AgendaState()))
      ensures ClockState() == old(ClockState()) && records == old(records)
      ensures isStateRestored == old(isStateRestored)
    {
      if isAgendaMode && 0 <= currentSpeakerIndex < |agendaSpeakers| {
        var speaker := Speaker(speakerNameInput, IntOr0(ParseInt(minutesInput)),
                               IntOr0(ParseInt(secondsInput)));
        agendaSpeakers := agendaSpeakers[currentSpeakerIndex := speaker];
      }
    }

    /** `autoNextSpeaker`, with its one-second delay taken as elapsed. */
    method AutoNextSpeaker()
      modifies this
      ensures AgendaState() == Advance(old(AgendaState()))
      ensures ClockState() == old(ClockState()) && records == old(records)
      ensures isStateRestored == old(isStateRestored)
    {
      if isAgendaMode {
        if currentSpeakerIndex < |agendaSpeakers| - 1 {
          SetCurrentSpeaker(currentSpeakerIndex + 1);
        } else {
          ExitAgendaMode();
        }
      }
    }

    /** `exitAgendaMode`. */
    method ExitAgendaMode()
      modifies this
      ensures AgendaState() == FreeForm
      ensures ClockState() == old(ClockState()) && records == old(records)
      ensures isStateRestored == old(isStateRestored)
    {
      isAgendaMode := false;
      currentSpeakerIndex := 0;
      agendaSpeakers := [];
      speakerNameInput := "";
      minutesInput := "10";
      secondsInput := "00";
    }
  }
}
