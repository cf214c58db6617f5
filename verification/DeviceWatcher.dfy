/**
  The device watcher: reads snapshots, publishes their differences, and on a reset of the server
  publishes the removal of every known device before it restarts the server.
*/
module DeviceWatcher {
  import opened Bytes
  import opened Net
  import opened DeviceStates

  /** The answer to one call into the environment: connect, ReadMessage, or Start, in this order. */
  datatype Reply = Ok(message: string) | Err(error: Error)

  /** `isReal` says whether the server is a *realServer, `autoStart` its configuration. */
  datatype Server = Server(isReal: bool, autoStart: bool)

  const SERVER_KILLED := Network(6)

  /** What an observer of the watcher sees, in order. */
  datatype Action =
    | Publish(event: Event)        // sent on the event channel
    | Known(states: States)        // a snapshot has become lastKnownStates
    | Swept                        // all removals are published, nothing is known any more
    | ServerStart(ok: bool)
    | Stored(error: Error)
    | Closed

  datatype Phase = Connecting | Scanning | Restarting | Stopped

  datatype State = State(phase: Phase, last: States, history: seq<Action>)

  const START := State(Connecting, map[], [])

  function Published(events: seq<Event>): seq<Action> {
    seq(|events|, i requires 0 <= i < |events| => Publish(events[i]))
  }

  function Stop(s: State, e: Error): State {
    s.(phase := Stopped, history := s.history + [Stored(e), Closed])
  }

  ghost predicate PublishDiff(s: State, states: States, t: State, phase: Phase, mark: Action) {
    exists events :: IsDiff(s.last, states, events)
                     && t == State(phase, states, s.history + Published(events) + [mark])
  }

  /** One reply of the environment, and everything the watcher does before its next call. */
  ghost predicate Next(server: Server, s: State, reply: Reply, t: State) {
    match s.phase
    case Connecting => t == (if reply.Ok? then s.(phase := Scanning) else Stop(s, reply.error))
    case Scanning =>
      if reply.Ok? then
        var (states, err) := Snapshot(reply.message);
        if err.Some? then t == Stop(s, err.value) else PublishDiff(s, states, t, Scanning, Known(states))
      else if !Is(reply.error, ConnectionReset) then t == Stop(s, reply.error)
      else if server.isReal && !server.autoStart then t == Stop(s, SERVER_KILLED)
      else PublishDiff(s, map[], t, Restarting, Swept)
    case Restarting =>
      var u := s.(history := s.history + [ServerStart(reply.Ok?)]);
      t == (if reply.Ok? then u.(phase := Connecting) else Stop(u, reply.error))
    case Stopped => false
  }

  /** A run: the state before the first reply, and after each. */
  ghost predicate IsRun(server: Server, replies: seq<Reply>, states: seq<State>) {
    |states| == |replies| + 1 && states[0] == START
    && forall i :: 0 <= i < |replies| ==> Next(server, states[i], replies[i], states[i + 1])
  }

  class Watcher {
    const server: Server
    var replies: seq<Reply>         // what the environment has still to answer
    var history: seq<Action>
    var err: Option<Error>
    var closed: bool
    ghost var consumed: seq<Reply>
    ghost var states: seq<State>

    /** The calls so far make a run that ends in the given phase with the given knowledge. */
    ghost predicate At(phase: Phase, last: States)
      reads this
    {
      IsRun(server, consumed, states) && |states| == |consumed| + 1 && states[|consumed|] == State(phase, last, history)
      && (phase != Stopped ==> err == None && !closed)
    }

    constructor (server: Server, replies: seq<Reply>)
      ensures At(Connecting, map[]) && this.server == server && this.replies == replies && consumed == []
    {
      this.server, this.replies, history, err, closed := server, replies, [], None, false;
      consumed, states := [], [START];
    }

    ghost method Record(reply: Reply, t: State)
      requires IsRun(server, consumed, states) && Next(server, states[|consumed|], reply, t) && t.history == history
      modifies `consumed, `states
      ensures consumed == old(consumed) + [reply] && IsRun(server, consumed, states)
      ensures |states| == |consumed| + 1 && states[|consumed|] == t
    {
      consumed, states := consumed + [reply], states + [t];
    }

    method Call() returns (reply: Reply)
      requires replies != []
      modifies `replies
      ensures [reply] + replies == old(replies)
    {
      reply := replies[0];
      replies := replies[1..];
    }

    /** reportErr, return, and the deferred close of the channel. */
    method Finish(e: Error)
      modifies `history, `err, `closed
      ensures history == old(history) + [Stored(e), Closed] && err == Some(e) && closed
    {
      history := history + [Stored(e)];
      err := Some(e);
      history := history + [Closed];
      closed := true;
    }

    method PublishAll(events: seq<Event>)
      modifies `history
      ensures history == old(history) + Published(events)
    {
      for i := 0 to |events|
        invariant history == old(history) + Published(events[..i])
      {
        history := history + [Publish(events[i])];
        assert Published(events[..i + 1]) == Published(events[..i]) + [Publish(events[i])];
      }
      assert events[..|events|] == events;
    }

    /** The loop over all known devices, in an arbitrary order. */
    method PublishRemovals(last: States) returns (ghost events: seq<Event>)
      modifies `history
      ensures IsDiff(last, map[], events) && history == old(history) + Published(events)
    {
      events := [];
      var todo := last.Keys;
      while todo != {}
        invariant todo <= last.Keys
        invariant history == old(history) + Published(events)
        invariant forall i :: 0 <= i < |events| ==>
                    var s := events[i].serial;
                    s in last.Keys - todo && events[i] == Event(s, last[s], StateDisconnected)
        invariant forall i, j :: 0 <= i < j < |events| ==> events[i].serial != events[j].serial
        invariant forall s :: s in last && s !in todo ==> exists i :: 0 <= i < |events| && events[i].serial == s
        decreases todo
      {
        var serial :| serial in todo;
        todo := todo - {serial};
        ghost var before := events;
        var event := Event(serial, last[serial], StateDisconnected);
        history := history + [Publish(event)];
        events := events + [event];
        assert Published(events) == Published(before) + [Publish(event)];
        forall s | s in last && s !in todo ensures exists i :: 0 <= i < |events| && events[i].serial == s {
          if s == serial {
            assert events[|before|].serial == s;
          } else {
            var i :| 0 <= i < |before| && before[i].serial == s;
            assert events[i].serial == s;
          }
        }
      }
    }

    /** Report all devices removed and forget them. */
    method Sweep(last: States, ghost reply: Reply)
      requires At(Scanning, last) && reply.Err? && Is(reply.error, ConnectionReset)
      requires !(server.isReal && !server.autoStart)
      modifies `history, `consumed, `states
      ensures At(Restarting, map[]) && consumed == old(consumed) + [reply]
    {
      hide IsDiff, Published, IsRun;
      ghost var events := PublishRemovals(last);
      history := history + [Swept];
      ghost var before := states[|consumed|];
      assert PublishDiff(before, map[], State(Restarting, map[], history), Restarting, Swept);
      Record(reply, State(Restarting, map[], history));
    }

    /** server.Start; a failure ends the run. */
    method RestartServer() returns (started: bool)
      requires At(Restarting, map[]) && replies != []
      modifies this
      ensures consumed + replies == old(consumed) + old(replies) && |replies| < |old(replies)|
      ensures if started then At(Connecting, map[]) else At(Stopped, map[]) && closed && err.Some?
    {
      hide IsRun;
      var reply := Call();
      assert consumed + [reply] + replies == old(consumed) + old(replies);
      history := history + [ServerStart(reply.Ok?)];
      if reply.Err? {
        Finish(reply.error);
        Record(reply, State(Stopped, map[], history));
        return false;
      }
      Record(reply, State(Connecting, map[], history));
      return true;
    }

    /** publishDevicesUntilError: returns the error of a read or of a snapshot, or waits for replies. */
    method PublishDevicesUntilError(lastKnownStates: States)
        returns (last: States, e: Option<Error>, ghost pending: Reply)
      requires At(Scanning, lastKnownStates)
      modifies this
      ensures At(Scanning, last) && |replies| <= |old(replies)|
      ensures e.None? ==> replies == [] && consumed == old(consumed) + old(replies)
      ensures e.Some? ==> consumed + [pending] + replies == old(consumed) + old(replies)
                          && (pending == Err(e.value)
                              || (pending.Ok? && e == Some(ParseError) && Snapshot(pending.message).1 == e))
    {
      last, e, pending := lastKnownStates, None, Ok("");
      while replies != []
        invariant At(Scanning, last) && e.None? && consumed + replies == old(consumed) + old(replies)
        decreases |replies|
      {
        var reply := Call();
        pending := reply;
        assert consumed + [pending] + replies == old(consumed) + old(replies);
        if reply.Err? {
          e := Some(reply.error);
          return;
        }
        var deviceStates;
        deviceStates, e := ParseDeviceStates(reply.message);
        if e.Some? {
          return;
        }
        var events := CalculateStateDiffs(last, deviceStates);
        ghost var s := states[|consumed|];
        PublishAll(events);
        history := history + [Known(deviceStates)];
        last := deviceStates;
        Record(reply, State(Scanning, last, history));
      }
    }

    /**
      publishDevices. Every run of the program is a run of the transition system: it stops with an
      error stored and the channel closed, or it has used up the given replies and waits.
    */
    method PublishDevices() returns (stopped: bool)
      requires At(Connecting, map[])
      modifies this
      ensures IsRun(server, consumed, states) && states[|consumed|].history == history
      ensures stopped <==> states[|consumed|].phase == Stopped
      ensures consumed + replies == old(consumed) + old(replies)
      ensures if stopped then closed && err.Some? else !closed && err.None? && replies == []
    {
      hide PublishDiff, Snapshot, IsRun;
      var last: States := map[];
      while replies != []
        invariant At(Connecting, last) && last == map[]
        invariant consumed + replies == old(consumed) + old(replies)
        decreases |replies|
      {
        var reply := Call();
        if reply.Err? {
          Finish(reply.error);
          Record(reply, State(Stopped, last, history));
          return true;
        }
        Record(reply, State(Scanning, last, history));
        var e;
        ghost var pending;
        last, e, pending := PublishDevicesUntilError(last);
        if e.None? {
          return false;
        }
        if Is(e.value, ConnectionReset) {
          if server.isReal && !server.autoStart {
            Finish(SERVER_KILLED);
            Record(pending, State(Stopped, last, history));
            return true;
          }
          Sweep(last, pending);
          last := map[];
          if replies == [] {
            return false;
          }
          assert consumed + replies == old(consumed) + old(replies);
          var started := RestartServer();
          if !started {
            return true;
          }
        } else {
          Finish(e.value);
          Record(pending, State(Stopped, last, history));
          return true;
        }
      }
      return false;
    }
  }

  // -------------------------------------------------------- every run is good

  function EventsOf(h: seq<Action>): seq<Event> {
    if h == [] then []
    else EventsOf(h[..|h| - 1]) + (if h[|h| - 1].Publish? then [h[|h| - 1].event] else [])
  }

  /** A consumer that replays the published events sees exactly `states`. */
  ghost predicate ConsumerSees(h: seq<Action>, states: States) {
    Views(EventsOf(h), states)
  }

  predicate Running(a: Action) {
    !a.Stored? && !a.Closed?
  }

  /** What must hold at the i-th action of a history. */
  ghost predicate GoodAt(h: seq<Action>, i: nat)
    requires i < |h|
  {
    match h[i]
    case Known(states) => ConsumerSees(h[..i], states)
    case Swept => ConsumerSees(h[..i], map[])
    case ServerStart(_) => i > 0 && h[i - 1] == Swept
    case _ => true
  }

  ghost predicate GoodHistory(h: seq<Action>) {
    Chained(EventsOf(h)) && forall i :: 0 <= i < |h| ==> GoodAt(h, i)
  }

  ghost predicate StateInv(s: State) {
    && GoodHistory(s.history)
    && (s.phase != Stopped ==> ConsumerSees(s.history, s.last) && forall a :: a in s.history ==> Running(a))
    && (s.phase == Restarting ==> s.history != [] && s.history[|s.history| - 1] == Swept)
    && (s.phase == Stopped ==>
          var n := |s.history| - 2;
          n >= 0 && s.history[n].Stored? && s.history[n + 1] == Closed
          && forall a :: a in s.history[..n] ==> Running(a))
  }

  lemma {:induction false} EventsOfConcat(h: seq<Action>, events: seq<Event>)
    ensures EventsOf(h + Published(events)) == EventsOf(h) + events
    decreases |events|
  {
    if events == [] {
      assert h + Published(events) == h;
    } else {
      var n := |events| - 1;
      var all := h + Published(events);
      assert all[..|all| - 1] == h + Published(events[..n]) && all[|all| - 1] == Publish(events[n]);
      EventsOfConcat(h, events[..n]);
      assert events == events[..n] + [events[n]];
    }
  }

  lemma EventsOfOther(h: seq<Action>, a: Action)
    requires !a.Publish?
    ensures EventsOf(h + [a]) == EventsOf(h)
  {
    assert (h + [a])[..|h|] == h;
    assert EventsOf(h) + [] == EventsOf(h);
  }

  /** Actions without a condition of their own keep a history good. */
  lemma GoodMore(h: seq<Action>, more: seq<Action>)
    requires forall i :: 0 <= i < |h| ==> GoodAt(h, i)
    requires forall a :: a in more ==> a.Publish? || a.Stored? || a.Closed?
    ensures forall i :: 0 <= i < |h + more| ==> GoodAt(h + more, i)
  {
    hide ConsumerSees;
    forall i | 0 <= i < |h + more| ensures GoodAt(h + more, i) {
      if i < |h| {
        assert GoodAt(h, i) && (h + more)[..i] == h[..i];
      } else {
        assert more[i - |h|] in more;
      }
    }
  }

  lemma GoodOne(h: seq<Action>, a: Action)
    requires forall i :: 0 <= i < |h| ==> GoodAt(h, i)
    requires match a
             case Known(states) => ConsumerSees(h, states)
             case Swept => ConsumerSees(h, map[])
             case ServerStart(_) => h != [] && h[|h| - 1] == Swept
             case _ => true
    ensures forall i :: 0 <= i < |h + [a]| ==> GoodAt(h + [a], i)
  {
    hide ConsumerSees;
    assert (h + [a])[..|h|] == h;
    forall i | 0 <= i < |h + [a]| ensures GoodAt(h + [a], i) {
      if i < |h| {
        assert GoodAt(h, i) && (h + [a])[..i] == h[..i];
      }
    }
  }

  lemma StopIsGood(s: State, e: Error)
    requires GoodHistory(s.history) && forall a :: a in s.history ==> Running(a)
    ensures StateInv(Stop(s, e))
  {
    hide ConsumerSees, Chained, GoodAt;
    var h := s.history;
    EventsOfOther(h, Stored(e));
    EventsOfOther(h + [Stored(e)], Closed);
    assert h + [Stored(e)] + [Closed] == h + [Stored(e), Closed];
    GoodMore(h, [Stored(e), Closed]);
    assert (h + [Stored(e), Closed])[..|h|] == h;
  }

  lemma DiffStepIsGood(s: State, states: States, t: State, phase: Phase, mark: Action)
    requires StateInv(s) && s.phase == Scanning && PublishDiff(s, states, t, phase, mark)
    requires (phase == Scanning && mark == Known(states)) || (phase == Restarting && mark == Swept && states == map[])
    ensures StateInv(t)
  {
    hide IsDiff, Views, Chained, GoodAt, EventsOf;
    var events :| IsDiff(s.last, states, events) && t == State(phase, states, s.history + Published(events) + [mark]);
    var h := s.history + Published(events);
    EventsOfConcat(s.history, events);
    EventsOfOther(h, mark);
    DiffIsExact(EventsOf(s.history), s.last, states, events);
    forall a | a in Published(events) ensures a.Publish? {
    }
    GoodMore(s.history, Published(events));
    GoodOne(h, mark);
    StillRunning(s.history, Published(events), mark);
  }

  lemma StillRunning(h: seq<Action>, published: seq<Action>, mark: Action)
    requires (forall a :: a in h ==> Running(a)) && (forall a :: a in published ==> a.Publish?) && Running(mark)
    ensures forall a :: a in h + published + [mark] ==> Running(a)
  {
  }

  lemma NextKeeps(server: Server, s: State, reply: Reply, t: State)
    requires StateInv(s) && Next(server, s, reply, t)
    ensures StateInv(t)
  {
    hide IsDiff, Views, Chained, GoodAt, PublishDiff, Snapshot, ConsumerSees;
    match s.phase
    case Connecting =>
      if reply.Err? {
        StopIsGood(s, reply.error);
      }
    case Scanning =>
      if t.phase == Stopped {
        StoppedFromScanning(server, s, reply, t);
      } else if reply.Ok? {
        DiffStepIsGood(s, Snapshot(reply.message).0, t, Scanning, Known(Snapshot(reply.message).0));
      } else {
        DiffStepIsGood(s, map[], t, Restarting, Swept);
      }
    case Restarting =>
      var start := ServerStart(reply.Ok?);
      var u := s.(history := s.history + [start]);
      GoodOne(s.history, start);
      EventsOfOther(s.history, start);
      SameView(s.history, u.history, s.last);
      assert forall a :: a in u.history <==> a in s.history || a == start;
      if reply.Err? {
        StopIsGood(u, reply.error);
      }
  }

  lemma SameView(h: seq<Action>, k: seq<Action>, states: States)
    requires EventsOf(h) == EventsOf(k) && ConsumerSees(h, states)
    ensures ConsumerSees(k, states)
  {
  }

  lemma StoppedFromScanning(server: Server, s: State, reply: Reply, t: State)
    requires StateInv(s) && s.phase == Scanning && Next(server, s, reply, t) && t.phase == Stopped
    ensures StateInv(t)
  {
    hide IsDiff, Views, Chained, GoodAt, Snapshot, ConsumerSees, StateInv;
    var e :| t == Stop(s, e);
    assert GoodHistory(s.history) && forall a :: a in s.history ==> Running(a) by { StateInvParts(s); }
    StopIsGood(s, e);
  }

  lemma StateInvParts(s: State)
    requires StateInv(s) && s.phase != Stopped
    ensures GoodHistory(s.history) && forall a :: a in s.history ==> Running(a)
  {
    hide GoodHistory, ConsumerSees;
  }

  lemma {:induction false} RunKeeps(server: Server, replies: seq<Reply>, states: seq<State>, i: nat)
    requires IsRun(server, replies, states) && i <= |replies|
    ensures StateInv(states[i])
  {
    if i > 0 {
      hide Next, StateInv;
      RunKeeps(server, replies, states, i - 1);
      NextKeeps(server, states[i - 1], replies[i - 1], states[i]);
    }
  }

  /**
    Every run, whatever the server answers and in whatever order the maps are visited: after each
    snapshot a consumer replaying the events sees exactly lastKnownStates, and after each sweep it
    sees every device disconnected; each event starts where its serial's last event ended; every
    server start directly follows a sweep; and a run that has stopped stored exactly one error, as
    the last thing before the channel was closed, once, with nothing after.
  */
  lemma EveryRunIsGood(server: Server, replies: seq<Reply>, states: seq<State>)
    requires IsRun(server, replies, states)
    ensures var s := states[|replies|]; var h := s.history;
            && Chained(EventsOf(h))
            && (forall i :: 0 <= i < |h| && h[i].Known? ==>
                  forall d :: StateAfter(EventsOf(h[..i]), d) == ViewOf(h[i].states, d))
            && (forall i :: 0 <= i < |h| && h[i].Swept? ==>
                  forall d :: StateAfter(EventsOf(h[..i]), d) == StateDisconnected)
            && (forall i :: 0 <= i < |h| && h[i].ServerStart? ==> i > 0 && h[i - 1] == Swept)
            && (s.phase != Stopped ==>
                  (forall d :: StateAfter(EventsOf(h), d) == ViewOf(s.last, d)) && forall a :: a in h ==> Running(a))
            && (s.phase == Stopped ==>
                  |h| >= 2 && h[|h| - 2].Stored? && h[|h| - 1] == Closed
                  && forall i :: 0 <= i < |h| - 2 ==> Running(h[i]))
  {
    RunKeeps(server, replies, states, |replies|);
    var h := states[|replies|].history;
    hide Next, Chained, StateAfter, EventsOf;
    forall i | 0 <= i < |h|
      ensures h[i].Known? ==> forall d :: StateAfter(EventsOf(h[..i]), d) == ViewOf(h[i].states, d)
      ensures h[i].Swept? ==> forall d :: StateAfter(EventsOf(h[..i]), d) == StateDisconnected
    {
      assert GoodAt(h, i);
      if h[i].Swept? {
        forall d ensures StateAfter(EventsOf(h[..i]), d) == StateDisconnected {
          assert StateAfter(EventsOf(h[..i]), d) == ViewOf(map[], d);
        }
      }
    }
    forall i | 0 <= i < |h| && h[i].ServerStart? ensures i > 0 && h[i - 1] == Swept {
      assert GoodAt(h, i);
    }
    if states[|replies|].phase == Stopped {
      var front := h[..|h| - 2];
      assert forall i :: 0 <= i < |front| ==> front[i] in front && front[i] == h[i];
    }
  }

  // --------------------------------------------- what the replies decide alone

  /** Why a watcher ends at a reply, if it does. */
  function EndsAt(server: Server, phase: Phase, reply: Reply): Option<Error> {
    match phase
    case Connecting => if reply.Err? then Some(reply.error) else None
    case Restarting => if reply.Err? then Some(reply.error) else None
    case Scanning =>
      if reply.Ok? then Snapshot(reply.message).1
      else if Is(reply.error, ConnectionReset) then
        if server == Server(true, false) then Some(SERVER_KILLED) else None
      else Some(reply.error)
    case Stopped => None
  }

  /** A read of a snapshot that fails because the server has died, and is recovered from. */
  predicate Recovers(server: Server, phase: Phase, reply: Reply) {
    phase == Scanning && reply.Err? && Is(reply.error, ConnectionReset) && (server.isReal ==> server.autoStart)
  }

  /** The phase after some replies. */
  function PhaseAfter(server: Server, replies: seq<Reply>): Phase {
    if replies == [] then Connecting
    else
      var n := |replies| - 1;
      var phase := PhaseAfter(server, replies[..n]);
      if EndsAt(server, phase, replies[n]).Some? then Stopped
      else if Recovers(server, phase, replies[n]) then Restarting
      else if phase == Restarting then Connecting
      else if phase == Connecting then Scanning
      else phase
  }

  /** What a history must show beside its events, from the replies alone. */
  function Expected(server: Server, replies: seq<Reply>): seq<Action> {
    if replies == [] then []
    else
      var n := |replies| - 1;
      var phase, r := PhaseAfter(server, replies[..n]), replies[n];
      var end := EndsAt(server, phase, r);
      Expected(server, replies[..n])
      + (if phase == Restarting then [ServerStart(r.Ok?)] else [])
      + (if end.Some? then [Stored(end.value), Closed]
         else if Recovers(server, phase, r) then [Swept]
         else if phase == Scanning && r.Ok? then [Known(Snapshot(r.message).0)]
         else [])
  }

  /** A history without its events. */
  function Outline(h: seq<Action>): seq<Action> {
    if h == [] then []
    else Outline(h[..|h| - 1]) + (if h[|h| - 1].Publish? then [] else [h[|h| - 1]])
  }

  lemma {:induction false} OutlineConcat(a: seq<Action>, b: seq<Action>)
    ensures Outline(a + b) == Outline(a) + Outline(b)
    decreases |b|
  {
    if b == [] {
      assert a + b == a;
    } else {
      var n := |b| - 1;
      assert (a + b)[..|a| + n] == a + b[..n];
      OutlineConcat(a, b[..n]);
    }
  }

  lemma {:induction false} OutlineOfEvents(events: seq<Event>)
    ensures Outline(Published(events)) == []
    decreases |events|
  {
    if events != [] {
      var n := |events| - 1;
      assert Published(events)[..n] == Published(events[..n]);
      OutlineOfEvents(events[..n]);
    }
  }

  lemma OutlineOfMarks(a: Action, b: Action)
    requires !a.Publish? && !b.Publish?
    ensures Outline([a]) == [a] && Outline([a, b]) == [a, b]
  {
    assert [a][..0] == [] && [a, b][..1] == [a];
  }

  lemma OutlineOfDiff(s: State, states: States, t: State, phase: Phase, mark: Action)
    requires PublishDiff(s, states, t, phase, mark) && !mark.Publish?
    ensures Outline(t.history) == Outline(s.history) + [mark] && t.phase == phase && t.last == states
  {
    hide IsDiff, Outline, Published;
    var events :| IsDiff(s.last, states, events) && t == State(phase, states, s.history + Published(events) + [mark]);
    OutlineConcat(s.history + Published(events), [mark]);
    OutlineConcat(s.history, Published(events));
    OutlineOfEvents(events);
    OutlineOfMarks(mark, mark);
  }

  /** One reply, as the definitions from the replies alone have it. */
  lemma ReplyDecides(server: Server, s: State, reply: Reply, t: State)
    requires Next(server, s, reply, t)
    ensures var end := EndsAt(server, s.phase, reply);
            && t.phase == (if end.Some? then Stopped
                           else if Recovers(server, s.phase, reply) then Restarting
                           else if s.phase == Restarting then Connecting
                           else if s.phase == Connecting then Scanning
                           else s.phase)
            && Outline(t.history) == Outline(s.history)
               + (if s.phase == Restarting then [ServerStart(reply.Ok?)] else [])
               + (if end.Some? then [Stored(end.value), Closed]
                  else if Recovers(server, s.phase, reply) then [Swept]
                  else if s.phase == Scanning && reply.Ok? then [Known(Snapshot(reply.message).0)]
                  else [])
  {
    hide Outline, PublishDiff, Snapshot, Is;
    var end := EndsAt(server, s.phase, reply);
    var start := ServerStart(reply.Ok?);
    OutlineOfMarks(start, start);
    OutlineConcat(s.history, [start]);
    if end.Some? {
      OutlineOfMarks(Stored(end.value), Closed);
      OutlineConcat(s.history, [Stored(end.value), Closed]);
      OutlineConcat(s.history + [start], [Stored(end.value), Closed]);
    } else if s.phase == Scanning && reply.Ok? {
      var states := Snapshot(reply.message).0;
      OutlineOfDiff(s, states, t, Scanning, Known(states));
    } else if s.phase == Scanning {
      OutlineOfDiff(s, map[], t, Restarting, Swept);
    }
    Whole(Outline(s.history));
    Whole(Outline(s.history) + [start]);
  }

  /**
    Over every run, the replies alone decide what becomes of the watcher: its phase after each reply,
    and everything in its history beside the events, in order. So it stops exactly on a failed connect
    or start, a refused snapshot, a read error that is no reset, or a reset of a real server without
    AutoStart, and stores exactly that error; every other reset is followed by one sweep, and every
    reply to a start by one record of it.
  */
  lemma {:induction false} RepliesDecide(server: Server, replies: seq<Reply>, states: seq<State>, i: nat)
    requires IsRun(server, replies, states) && i <= |replies|
    ensures states[i].phase == PhaseAfter(server, replies[..i])
    ensures Outline(states[i].history) == Expected(server, replies[..i])
    decreases i
  {
    if i > 0 {
      hide Next, Outline, EndsAt, Recovers;
      RepliesDecide(server, replies, states, i - 1);
      assert replies[..i][..i - 1] == replies[..i - 1] && replies[..i][i - 1] == replies[i - 1];
      ReplyDecides(server, states[i - 1], replies[i - 1], states[i]);
    }
  }

  /** What a recovery publishes: one removal for each known device, in some order, then the sweep is done. */
  lemma ResetIsRecovered(server: Server, replies: seq<Reply>, states: seq<State>, i: nat) returns (events: seq<Event>)
    requires IsRun(server, replies, states) && i < |replies|
    requires Recovers(server, PhaseAfter(server, replies[..i]), replies[i])
    ensures states[i + 1].phase == Restarting && states[i + 1].last == map[]
    ensures states[i + 1].history == states[i].history + Published(events) + [Swept]
    ensures forall j :: 0 <= j < |events| ==>
              var d := events[j].serial;
              d in states[i].last && events[j] == Event(d, states[i].last[d], StateDisconnected)
    ensures forall j, k :: 0 <= j < k < |events| ==> events[j].serial != events[k].serial
    ensures forall d :: d in states[i].last ==> exists j :: 0 <= j < |events| && events[j].serial == d
    ensures i + 1 < |replies| && replies[i + 1].Ok? ==>
              states[i + 2] == State(Connecting, map[], states[i + 1].history + [ServerStart(true)])
  {
    RepliesDecide(server, replies, states, i);
    var s, t := states[i], states[i + 1];
    assert Next(server, s, replies[i], t);
    assert PublishDiff(s, map[], t, Restarting, Swept);
    events :| IsDiff(s.last, map[], events) && t == State(Restarting, map[], s.history + Published(events) + [Swept]);
    if i + 1 < |replies| {
      assert Next(server, t, replies[i + 1], states[(i + 1) + 1]);
    }
  }
}
