/** Device snapshots: their text, and the events between two of them. */
module DeviceStates {
  import opened Net
  import opened Strings

  datatype DeviceState = StateInvalid | StateUnauthorized | StateAuthorizing | StateDisconnected
                       | StateOffline | StateOnline | StateHost

  type States = map<string, DeviceState>

  datatype Event = Event(serial: string, oldState: DeviceState, newState: DeviceState)

  // ----------------------------------------------------------------- parsing

  function ParseDeviceState(s: string): (DeviceState, Option<Error>) {
    if s == "" then (StateDisconnected, None)
    else if s == "offline" then (StateOffline, None)
    else if s == "device" then (StateOnline, None)
    else if s == "unauthorized" then (StateUnauthorized, None)
    else if s == "authorizing" then (StateAuthorizing, None)
    else if s == "host" then (StateHost, None)
    else (StateInvalid, Some(ParseError))
  }

  /** The loop over the lines; `err` is overwritten by every line that has two fields. */
  function ParseLines(lines: seq<string>, states: States, err: Option<Error>): (r: (States, Option<Error>))
    ensures err == None || err == Some(ParseError) ==> r.1 == None || r.1 == Some(ParseError)
  {
    if lines == [] then (states, err)
    else if lines[0] == "" then ParseLines(lines[1..], states, err)
    else
      var fields := Split(lines[0], '\t');
      if |fields| != 2 then (states, Some(ParseError))
      else
        var (state, e) := ParseDeviceState(fields[1]);
        ParseLines(lines[1..], states[fields[0] := state], e)
  }

  function Snapshot(msg: string): (States, Option<Error>) {
    ParseLines(Split(msg, '\n'), map[], None)
  }

  method ParseDeviceStates(msg: string) returns (states: States, err: Option<Error>)
    ensures (states, err) == Snapshot(msg)
  {
    states, err := map[], None;
    var lines := Split(msg, '\n');
    for i := 0 to |lines|
      invariant Snapshot(msg) == ParseLines(lines[i..], states, err)
    {
      var line := lines[i];
      assert lines[i..][0] == line && lines[i..][1..] == lines[i + 1..];
      if line == "" {
        continue;
      }
      var fields := Split(line, '\t');
      if |fields| != 2 {
        return states, Some(ParseError);
      }
      var state, e;
      var parsed := ParseDeviceState(fields[1]);
      state, e := parsed.0, parsed.1;
      err := e;
      states := states[fields[0] := state];
    }
    assert lines[|lines|..] == [];
  }

  function StateText(state: DeviceState): string
    requires state != StateInvalid
  {
    match state
    case StateDisconnected => ""
    case StateOffline => "offline"
    case StateOnline => "device"
    case StateUnauthorized => "unauthorized"
    case StateAuthorizing => "authorizing"
    case StateHost => "host"
  }

  ghost predicate IsStateText(text: string) {
    exists state :: state != StateInvalid && StateText(state) == text
  }

  lemma StateTextParses(state: DeviceState)
    requires state != StateInvalid
    ensures ParseDeviceState(StateText(state)) == (state, None)
    ensures '\t' !in StateText(state) && '\n' !in StateText(state)
  {
    assert |"offline"| == 7 && |"device"| == 6 && |"unauthorized"| == 12 && |"authorizing"| == 11 && |"host"| == 4;
  }

  /** The parser knows exactly the texts of the states; any other is an error and the invalid state. */
  lemma StateTextExactly(text: string)
    ensures var (state, err) := ParseDeviceState(text);
            if IsStateText(text) then err == None && state != StateInvalid && StateText(state) == text
            else err == Some(ParseError) && state == StateInvalid
  {
    if IsStateText(text) {
      var state :| state != StateInvalid && StateText(state) == text;
      StateTextParses(state);
    } else {
      assert StateText(StateDisconnected) != text && StateText(StateOffline) != text && StateText(StateOnline) != text;
      assert StateText(StateUnauthorized) != text && StateText(StateAuthorizing) != text;
      assert StateText(StateHost) != text;
    }
  }

  predicate Malformed(line: string) {
    line != "" && |Split(line, '\t')| != 2
  }

  /** Two fields, of which the second is the text of no state. */
  ghost predicate UnknownState(line: string) {
    line != "" && |Split(line, '\t')| == 2 && !IsStateText(Split(line, '\t')[1])
  }

  function LastLine(lines: seq<string>): string {
    if lines == [] then ""
    else if lines[|lines| - 1] != "" then lines[|lines| - 1]
    else LastLine(lines[..|lines| - 1])
  }

  lemma {:induction false} LastLineOfRest(line: string, rest: seq<string>)
    ensures LastLine([line] + rest) == (if LastLine(rest) != "" then LastLine(rest) else line)
    decreases |rest|
  {
    var all := [line] + rest;
    if rest == [] {
      assert all[..0] == [];
    } else {
      var n := |rest| - 1;
      assert all[..|all| - 1] == [line] + rest[..n];
      LastLineOfRest(line, rest[..n]);
    }
  }

  lemma {:induction false} LinesError(lines: seq<string>, states: States, err: Option<Error>)
    ensures ParseLines(lines, states, err).1.Some? <==>
            (exists l :: l in lines && Malformed(l)) || UnknownState(LastLine(lines))
            || (LastLine(lines) == "" && err.Some?)
    decreases |lines|
  {
    hide StateText, IsStateText, ParseDeviceState;
    if lines != [] {
      var line, rest := lines[0], lines[1..];
      assert lines == [line] + rest;
      assert forall l :: l in lines <==> l == line || l in rest;
      LastLineOfRest(line, rest);
      if line == "" {
        LinesError(rest, states, err);
      } else if !Malformed(line) {
        var fields := Split(line, '\t');
        var (state, e) := ParseDeviceState(fields[1]);
        StateTextExactly(fields[1]);
        LinesError(rest, states[fields[0] := state], e);
      }
    }
  }

  /** A snapshot is refused exactly if some line is malformed or the last line's state is unknown. */
  lemma SnapshotError(msg: string)
    ensures var lines := Split(msg, '\n');
            Snapshot(msg).1.Some? <==>
            (exists l :: l in lines && Malformed(l)) || UnknownState(LastLine(lines))
  {
    hide IsStateText;
    LinesError(Split(msg, '\n'), map[], None);
    assert !UnknownState("");
  }

  datatype Entry = Entry(serial: string, state: DeviceState)

  predicate GoodEntry(e: Entry) {
    '\t' !in e.serial && '\n' !in e.serial && e.state != StateInvalid
  }

  /** The server's message, a line per device. */
  function SnapshotText(entries: seq<Entry>): string
    requires forall e :: e in entries ==> GoodEntry(e)
  {
    if entries == [] then ""
    else
      assert GoodEntry(entries[0]) by { assert entries[0] in entries; }
      entries[0].serial + ['\t'] + StateText(entries[0].state) + ['\n'] + SnapshotText(entries[1..])
  }

  function AddEntries(entries: seq<Entry>, states: States): States {
    if entries == [] then states else AddEntries(entries[1..], states[entries[0].serial := entries[0].state])
  }

  lemma NoLines(states: States, err: Option<Error>)
    ensures ParseLines(Split("", '\n'), states, err) == (states, err)
  {
    assert [""][1..] == [];
  }

  lemma {:induction false} EntriesParse(entries: seq<Entry>, states: States, err: Option<Error>)
    requires forall e :: e in entries ==> GoodEntry(e)
    ensures ParseLines(Split(SnapshotText(entries), '\n'), states, err)
            == (AddEntries(entries, states), if entries == [] then err else None)
    decreases |entries|
  {
    hide Split, StateText, ParseDeviceState;
    NoLines(states, err);
    if entries != [] {
      var e, rest := entries[0], entries[1..];
      assert e in entries && forall x :: x in rest ==> x in entries;
      var line := e.serial + ['\t'] + StateText(e.state);
      StateTextParses(e.state);
      SplitFirst(line, SnapshotText(rest), '\n');
      SplitFirst(e.serial, StateText(e.state), '\t');
      SplitFirst(StateText(e.state), "", '\t');
      EntriesParse(rest, states[e.serial := e.state], None);
      var lines := Split(SnapshotText(entries), '\n');
      assert lines == [line] + Split(SnapshotText(rest), '\n');
      assert lines[1..] == Split(SnapshotText(rest), '\n');
    }
  }

  /** Every snapshot text parses to its entries; the last entry of a serial counts. */
  lemma SnapshotRoundTrip(entries: seq<Entry>)
    requires forall e :: e in entries ==> GoodEntry(e)
    ensures Snapshot(SnapshotText(entries)) == (AddEntries(entries, map[]), None)
  {
    EntriesParse(entries, map[], None);
  }

  /** An unknown state in front of another line is no error: the device is recorded as invalid. */
  lemma UnknownStateIsSwallowed(serial: string, text: string, entries: seq<Entry>)
    requires '\t' !in serial && '\n' !in serial && '\t' !in text && '\n' !in text
    requires !IsStateText(text) && entries != [] && forall e :: e in entries ==> GoodEntry(e)
    ensures Snapshot(serial + ['\t'] + text + ['\n'] + SnapshotText(entries))
            == (AddEntries(entries, map[serial := StateInvalid]), None)
  {
    StateTextExactly(text);
    hide Split, StateText;
    var line := serial + ['\t'] + text;
    var rest := Split(SnapshotText(entries), '\n');
    SplitFirst(line, SnapshotText(entries), '\n');
    SplitFirst(serial, text, '\t');
    SplitFirst(text, "", '\t');
    assert ([line] + rest)[1..] == rest;
    assert map[][serial := StateInvalid] == map[serial := StateInvalid];
    EntriesParse(entries, map[serial := StateInvalid], Some(ParseError));
  }

  // ------------------------------------------------------------------- diffs

  function ViewOf(states: States, serial: string): DeviceState {
    if serial in states then states[serial] else StateDisconnected
  }

  /** New devices, gone devices, and changed ones. */
  predicate Reported(old': States, new': States, serial: string) {
    if serial in new' then serial in old' ==> old'[serial] != new'[serial] else serial in old'
  }

  /** One event for each reported serial, in any order, from its old view to its new one. */
  ghost predicate IsDiff(old': States, new': States, events: seq<Event>) {
    && (forall i :: 0 <= i < |events| ==>
          var s := events[i].serial; Reported(old', new', s) && events[i] == Event(s, ViewOf(old', s), ViewOf(new', s)))
    && (forall i, j :: 0 <= i < j < |events| ==> events[i].serial != events[j].serial)
    && (forall s :: s in old' || s in new' ==> Reported(old', new', s) ==>
          exists i :: 0 <= i < |events| && events[i].serial == s)
  }

  /** Which serials have an event: those in one snapshot only, and those whose state differs. */
  lemma EventsExactly(old': States, new': States, events: seq<Event>, serial: string)
    requires IsDiff(old', new', events)
    ensures (exists i :: 0 <= i < |events| && events[i].serial == serial) <==>
            (serial in old' && serial !in new') || (serial !in old' && serial in new')
            || (serial in old' && serial in new' && old'[serial] != new'[serial])
    ensures forall i :: 0 <= i < |events| && events[i].serial == serial ==>
              && events[i].oldState == (if serial in old' then old'[serial] else StateDisconnected)
              && events[i].newState == (if serial in new' then new'[serial] else StateDisconnected)
  {
  }

  /** Both loops visit their map in an arbitrary order. */
  method CalculateStateDiffs(oldStates: States, newStates: States) returns (events: seq<Event>)
    ensures IsDiff(oldStates, newStates, events)
  {
    events := [];
    var todo := newStates.Keys;
    while todo != {}
      invariant todo <= newStates.Keys
      invariant forall i :: 0 <= i < |events| ==>
                  var s := events[i].serial;
                  s in newStates.Keys - todo && Reported(oldStates, newStates, s)
                  && events[i] == Event(s, ViewOf(oldStates, s), ViewOf(newStates, s))
      invariant forall i, j :: 0 <= i < j < |events| ==> events[i].serial != events[j].serial
      invariant forall s :: s in newStates.Keys - todo && Reported(oldStates, newStates, s) ==>
                  exists i :: 0 <= i < |events| && events[i].serial == s
      decreases todo
    {
      var serial :| serial in todo;
      todo := todo - {serial};
      ghost var before := events;
      var newState := newStates[serial];
      if serial in oldStates {
        if oldStates[serial] != newState {
          events := events + [Event(serial, oldStates[serial], newState)];
          assert events[|before|].serial == serial;
        }
      } else {
        events := events + [Event(serial, StateDisconnected, newState)];
        assert events[|before|].serial == serial;
      }
      assert forall i :: 0 <= i < |before| ==> events[i] == before[i];
    }
    todo := oldStates.Keys;
    while todo != {}
      invariant todo <= oldStates.Keys
      invariant forall i :: 0 <= i < |events| ==>
                  var s := events[i].serial;
                  (s in newStates || s in oldStates.Keys - todo) && Reported(oldStates, newStates, s)
                  && events[i] == Event(s, ViewOf(oldStates, s), ViewOf(newStates, s))
      invariant forall i, j :: 0 <= i < j < |events| ==> events[i].serial != events[j].serial
      invariant forall s :: s in newStates || s in oldStates.Keys - todo ==> Reported(oldStates, newStates, s) ==>
                  exists i :: 0 <= i < |events| && events[i].serial == s
      decreases todo
    {
      var serial :| serial in todo;
      todo := todo - {serial};
      ghost var before := events;
      if serial !in newStates {
        events := events + [Event(serial, oldStates[serial], StateDisconnected)];
        assert events[|before|].serial == serial;
      }
      assert forall i :: 0 <= i < |before| ==> events[i] == before[i];
    }
  }

  // ---------------------------------------------------------------- replaying

  /** What a consumer believes about a serial after some events; at first everything is disconnected. */
  function StateAfter(events: seq<Event>, serial: string): DeviceState {
    if events == [] then StateDisconnected
    else
      var last := events[|events| - 1];
      if last.serial == serial then last.newState else StateAfter(events[..|events| - 1], serial)
  }

  /** Every event starts from the state the previous event of its serial ended in. */
  predicate Chained(events: seq<Event>) {
    forall i :: 0 <= i < |events| ==> events[i].oldState == StateAfter(events[..i], events[i].serial)
  }

  ghost predicate Views(events: seq<Event>, states: States) {
    forall s :: StateAfter(events, s) == ViewOf(states, s)
  }

  /** After events about different serials, a serial is where its event put it, or where it was. */
  lemma {:induction false} AfterDistinct(trace: seq<Event>, events: seq<Event>, serial: string)
    requires forall i, j :: 0 <= i < j < |events| ==> events[i].serial != events[j].serial
    ensures forall i :: 0 <= i < |events| && events[i].serial == serial ==>
              StateAfter(trace + events, serial) == events[i].newState
    ensures (forall i :: 0 <= i < |events| ==> events[i].serial != serial) ==>
              StateAfter(trace + events, serial) == StateAfter(trace, serial)
    decreases |events|
  {
    if events == [] {
      assert trace + events == trace;
    } else {
      var n := |events| - 1;
      var all := trace + events;
      assert all[..|all| - 1] == trace + events[..n] && all[|all| - 1] == events[n];
      AfterDistinct(trace, events[..n], serial);
    }
  }

  lemma ChainGrows(trace: seq<Event>, old': States, events: seq<Event>)
    requires Views(trace, old') && Chained(trace)
    requires forall i, j :: 0 <= i < j < |events| ==> events[i].serial != events[j].serial
    requires forall i :: 0 <= i < |events| ==> events[i].oldState == ViewOf(old', events[i].serial)
    ensures Chained(trace + events)
  {
    hide ViewOf, StateAfter;
    forall i | 0 <= i < |trace + events|
      ensures (trace + events)[i].oldState == StateAfter((trace + events)[..i], (trace + events)[i].serial)
    {
      if i < |trace| {
        assert (trace + events)[..i] == trace[..i];
      } else {
        var j := i - |trace|;
        assert (trace + events)[..i] == trace + events[..j];
        AfterDistinct(trace, events[..j], events[j].serial);
      }
    }
  }

  /**
    The diff is exact, whatever the order of its events: replayed after a trace that shows the old
    snapshot they show the new one, and every event continues its serial's chain.
  */
  lemma DiffIsExact(trace: seq<Event>, old': States, new': States, events: seq<Event>)
    requires IsDiff(old', new', events) && Views(trace, old') && Chained(trace)
    ensures Views(trace + events, new') && Chained(trace + events)
  {
    forall s ensures StateAfter(trace + events, s) == ViewOf(new', s) {
      AfterDistinct(trace, events, s);
      if Reported(old', new', s) {
        assert s in old' || s in new';
        var i :| 0 <= i < |events| && events[i].serial == s;
      } else {
        assert forall i :: 0 <= i < |events| ==> events[i].serial != s;
      }
    }
    assert forall i :: 0 <= i < |events| ==> events[i].oldState == ViewOf(old', events[i].serial);
    ChainGrows(trace, old', events);
  }
}
