/** The agenda: an ordered list of speakers loaded at start-up, the index of
    the active one, and the three input boxes (name, minutes, seconds) that the
    agenda fills in and that live edits are copied back from. */
module AgendaSequencer {
  import opened JsSemantics
  import TimerClock

  /** One configured speaker; `minutes` and `seconds` are numbers. */
  datatype Speaker = Speaker(name: string, minutes: int, seconds: int)

  /** The text in the three input boxes. */
  datatype Fields = Fields(name: string, minutes: string, seconds: string)

  /** `isAgendaMode` is `active`, `currentSpeakerIndex` is `index`. */
  datatype Agenda = Agenda(speakers: seq<Speaker>, index: int, active: bool, fields: Fields)

  /** What `exitAgendaMode` leaves: no list, free-form mode, a blank name and
      a 10:00 duration. */
  const FreeForm := Agenda([], 0, false, Fields("", "10", "00"))

  /** What `setCurrentSpeaker` writes into the boxes for a speaker: the name,
      the minutes, and the seconds padded to two digits. */
  function FieldsFor(s: Speaker): (f: Fields)
    ensures f.name == s.name
    ensures |f.seconds| >= 2
  {
    Fields(s.name, IntToString(s.minutes), PadStart2(IntToString(s.seconds)))
  }

  /** What `syncToAgenda` reads from the boxes: unreadable numbers count as 0. */
  function SpeakerFrom(f: Fields): (r: Speaker)
    ensures r.name == f.name
    ensures ParseInt(f.minutes).Some? ==> r.minutes == ParseInt(f.minutes).value
    ensures ParseInt(f.minutes).None? ==> r.minutes == 0
    ensures ParseInt(f.seconds).Some? ==> r.seconds == ParseInt(f.seconds).value
    ensures ParseInt(f.seconds).None? ==> r.seconds == 0
  {
    Speaker(f.name, IntOr0(ParseInt(f.minutes)), IntOr0(ParseInt(f.seconds)))
  }

  /** The boxes filled in for a speaker read back as that speaker: the minutes
      and the padded seconds parse to the configured numbers. */
  lemma FieldsReadBack(s: Speaker)
    ensures SpeakerFrom(FieldsFor(s)) == s
  {
    ParseIntOfIntToString(s.minutes);
    ParseIntOfPadded(s.seconds);
  }

  /** `agendaSpeakers[currentSpeakerIndex]` names an entry. */
  predicate HasCurrent(a: Agenda)
  {
    0 <= a.index < |a.speakers|
  }

  /** `setCurrentSpeaker(i)`: nothing happens unless agenda mode is on and `i`
      is a position of the list; then `i` becomes current and the boxes show
      that speaker, in a form that reads back as the same speaker. */
  function SetSpeaker(a: Agenda, i: int): (r: Agenda)
    ensures r.speakers == a.speakers && r.active == a.active
    ensures !(a.active && 0 <= i < |a.speakers|) ==> r == a
    ensures a.active && 0 <= i < |a.speakers| ==>
      r.index == i && r.fields == FieldsFor(a.speakers[i])
  {
    if !a.active || i < 0 || i >= |a.speakers| then a
    else a.(index := i, fields := FieldsFor(a.speakers[i]))
  }

  /** `initializeAgenda`: a non-empty configured list turns agenda mode on and
      shows its first speaker; otherwise agenda mode is off. */
  function Initialize(a: Agenda, config: seq<Speaker>): (r: Agenda)
    ensures |config| > 0 ==>
      r.active && r.speakers == config && r.index == 0 && r.fields == FieldsFor(config[0])
    ensures |config| == 0 ==> r == a.(active := false)
  {
    if |config| > 0 then SetSpeaker(a.(speakers := config, active := true), 0)
    else a.(active := false)
  }

  /** `syncToAgenda`: in agenda mode, the boxes overwrite the current entry;
      the other entries, the index and the boxes stay. */
  function Sync(a: Agenda): (r: Agenda)
    ensures !(a.active && HasCurrent(a)) ==> r == a
    ensures a.active && HasCurrent(a) ==>
      && |r.speakers| == |a.speakers|
      && r.speakers[a.index] == SpeakerFrom(a.fields)
      && (forall j :: 0 <= j < |a.speakers| && j != a.index ==> r.speakers[j] == a.speakers[j])
      && r.(speakers := a.speakers) == a
  {
    if a.active && HasCurrent(a) then
      a.(speakers := a.speakers[a.index := SpeakerFrom(a.fields)])
    else a
  }

  /** `autoNextSpeaker`, with the one-second delay taken as done: move to the
      next entry while there is one, otherwise leave agenda mode. */
  function Advance(a: Agenda): (r: Agenda)
    ensures !a.active ==> r == a
    ensures a.active && -1 <= a.index < |a.speakers| - 1 ==>
      && r.active && r.index == a.index + 1 && r.speakers == a.speakers
      && r.fields == FieldsFor(a.speakers[a.index + 1])
    ensures a.active && a.index >= |a.speakers| - 1 ==> r == FreeForm
  {
    if a.active then
      if a.index < |a.speakers| - 1 then SetSpeaker(a, a.index + 1) else FreeForm
    else a
  }

  /** The part of `reset` that touches the boxes: outside agenda mode the name
      is cleared. */
  function AfterReset(a: Agenda): (r: Agenda)
    ensures a.active ==> r == a
    ensures !a.active ==>
      r.fields.name == "" && r.(fields := a.fields) == a && r.fields.(name := a.fields.name) == a.fields
  {
    if a.active then a else a.(fields := a.fields.(name := ""))
  }

  /** `k` advances in a row. */
  function AdvanceTimes(a: Agenda, k: nat): Agenda
    decreases k
  {
    if k == 0 then a else AdvanceTimes(Advance(a), k - 1)
  }

  // ---------------------------------------------------------------------------
  // Properties
  // ---------------------------------------------------------------------------

  /** A live edit of a speaker just shown changes nothing: the boxes read back
      as the entry they came from. */
  lemma SyncAfterSetSpeaker(a: Agenda, i: int)
    requires a.active && 0 <= i < |a.speakers|
    ensures Sync(SetSpeaker(a, i)) == SetSpeaker(a, i)
  {
    var r := SetSpeaker(a, i);
    FieldsReadBack(a.speakers[i]);
    assert r.speakers[r.index := SpeakerFrom(r.fields)] == r.speakers;
  }

  /** Starting from a listed speaker, `k` advances that stay inside the list
      keep agenda mode on and the list unchanged, and move the index by `k`. */
  lemma {:induction false} AdvanceStaysInList(a: Agenda, k: nat)
    requires a.active && HasCurrent(a) && a.index + k < |a.speakers|
    ensures var r := AdvanceTimes(a, k);
      r.active && r.index == a.index + k && r.speakers == a.speakers
    decreases k
  {
    if k > 0 {
      assert AdvanceTimes(a, k) == AdvanceTimes(Advance(a), k - 1);
      AdvanceStaysInList(Advance(a), k - 1);
    }
  }

  /** `k` advances from a listed speaker, staying inside the list, show the
      `k`-th speaker after it in the boxes. */
  lemma AdvanceWalksTheList(a: Agenda, k: nat)
    requires a.active && HasCurrent(a) && 0 < k && a.index + k < |a.speakers|
    ensures var r := AdvanceTimes(a, k);
      && r.active && r.index == a.index + k && r.speakers == a.speakers
      && r.fields == FieldsFor(a.speakers[a.index + k])
  {
    AdvanceStaysInList(a, k - 1);
    AdvanceTimesSplit(a, k - 1);
  }

  /** One advance per remaining speaker ends agenda mode. */
  lemma AdvanceFinishesTheList(a: Agenda)
    requires a.active && HasCurrent(a)
    ensures AdvanceTimes(a, |a.speakers| - a.index) == FreeForm
  {
    var k := |a.speakers| - a.index - 1;
    AdvanceStaysInList(a, k);
    AdvanceTimesSplit(a, k);
  }

  /** `k + 1` advances are `k` advances and then one more. */
  lemma {:induction false} AdvanceTimesSplit(a: Agenda, k: nat)
    ensures AdvanceTimes(a, k + 1) == Advance(AdvanceTimes(a, k))
    decreases k
  {
    if k > 0 {
      AdvanceTimesSplit(Advance(a), k - 1);
    }
  }

  /** A three-speaker agenda: the first stop moves to the second speaker, the
      second to the third, the third ends agenda mode with the boxes at 10:00. */
  lemma ThreeSpeakers(a: Agenda, x: Speaker, y: Speaker, z: Speaker)
    ensures var s := Initialize(a, [x, y, z]);
      && s.index == 0 && SpeakerFrom(s.fields) == x
      && Advance(s).index == 1 && SpeakerFrom(Advance(s).fields) == y
      && Advance(Advance(s)).index == 2 && SpeakerFrom(Advance(Advance(s)).fields) == z
      && Advance(Advance(Advance(s))) == FreeForm
      && FreeForm.fields.minutes == "10" && FreeForm.fields.seconds == "00"
  {
    FieldsReadBack(x);
    FieldsReadBack(y);
    FieldsReadBack(z);
  }

  /** The duration `start` reads after a speaker has been shown is that
      speaker's configured duration. */
  lemma StartReadsSpeakerDuration(a: Agenda, i: int)
    requires a.active && 0 <= i < |a.speakers|
    ensures var f := SetSpeaker(a, i).fields;
      TimerClock.RequestedDuration(IntOr0(ParseInt(f.minutes)), IntOr0(ParseInt(f.seconds)))
      == TimerClock.RequestedDuration(a.speakers[i].minutes, a.speakers[i].seconds)
  {
    FieldsReadBack(a.speakers[i]);
  }
}
