/** The history list: records appended by a confirmed stop, removed one at a
    time with `splice` or all at once. */
module History {
  import opened JsSemantics

  /** One history entry as `stop` pushes it. `timestamp` is the
      `toLocaleString()` label, which the model receives as text. */
  datatype Record = Record(speakerName: string, totalTime: int, overtimeSeconds: int, timestamp: string)

  /** The position `splice(start, 1)` starts at: a negative start counts from
      the end, and both ends are clamped to the list. */
  function SpliceStart(len: nat, start: int): (k: nat)
    ensures k <= len
    ensures 0 <= start <= len ==> k == start
    ensures -(len as int) <= start < 0 ==> k == len + start
    ensures start > len ==> k == len
    ensures start < -(len as int) ==> k == 0
  {
    if start < 0 then (if len + start < 0 then 0 else len + start)
    else if start > len then len
    else start
  }

  /** `s.splice(start, 1)` on the list itself: the entry at the start position
      goes, when there is one. */
  function SpliceOne<T>(s: seq<T>, start: int): (r: seq<T>)
    ensures |r| == if SpliceStart(|s|, start) < |s| then |s| - 1 else |s|
    ensures multiset(r) <= multiset(s)
    ensures SpliceStart(|s|, start) < |s| ==>
      r == s[..SpliceStart(|s|, start)] + s[SpliceStart(|s|, start) + 1..]
    ensures SpliceStart(|s|, start) == |s| ==> r == s
  {
    var k := SpliceStart(|s|, start);
    if k < |s| then
      assert s == s[..k] + [s[k]] + s[k + 1..];
      s[..k] + s[k + 1..]
    else s
  }

  /** Deleting a listed entry removes exactly that entry: everything before it
      stays in place, everything after it moves up by one, and nothing else is
      lost. */
  lemma SpliceRemovesExactlyOne<T>(s: seq<T>, i: int)
    requires 0 <= i < |s|
    ensures var r := SpliceOne(s, i);
      && |r| == |s| - 1
      && (forall j :: 0 <= j < i ==> r[j] == s[j])
      && (forall j :: i <= j < |r| ==> r[j] == s[j + 1])
      && multiset(r) + multiset{s[i]} == multiset(s)
  {
    var r := SpliceOne(s, i);
    assert r == s[..i] + s[i + 1..];
    assert s == s[..i] + [s[i]] + s[i + 1..];
  }

  /** Confirming the deletion of entry `requested`, as the handlers are written:
      `hideConfirmDialog` runs first and deletes `recordIndexToDelete`, so
      `executeDeleteRecord` calls `splice(undefined, 1)`, and `splice` reads an
      `undefined` start as 0. Whichever entry was requested, the first goes. */
  function ConfirmDeleteAsWritten(records: seq<Record>, requested: int): (r: seq<Record>)
    ensures records != [] ==> r == records[1..]
    ensures records == [] ==> r == []
  {
    SpliceOne(records, 0)
  }

  /** Two records, the second one asked for: the confirmed deletion removes the
      first one and keeps the one the user picked. */
  lemma ConfirmDeleteAsWrittenRemovesWrongEntry()
    ensures var a := Record("A", 300, 0, "t1");
      var b := Record("B", 650, 50, "t2");
      && ConfirmDeleteAsWritten([a, b], 1) == [b]
      && SpliceOne([a, b], 1) == [a]
  {
    var a := Record("A", 300, 0, "t1");
    var b := Record("B", 650, 50, "t2");
    assert [a, b][1..] == [b];
    assert [a, b][..1] == [a];
  }
}
