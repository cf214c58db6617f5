/**
  A started session: the reader goroutine, the stdin goroutine, one waiting caller and any number
  of closers, as an interleaving transition system over the bytes of the connection. Every step
  is one atomic action of one of them; shared variables are sequentially consistent.
*/
module Session {
  import opened Bytes
  import opened Net
  import opened ShellTransport

  const STDIN_BUFFER := 1024

  /** Values sent on errorChan: nil, *ExitError, *ExitMissingError, any other error. */
  datatype Value = Nil | ExitError(status: Byte) | ExitMissing | Failed

  predicate Exited(v: Value) {
    v.Nil? || v.ExitError?
  }

  function ValueOf(status: Byte): Value {
    if status == 0 then Nil else ExitError(status)
  }

  datatype Reader =
    | Testing                                // at the loop condition
    | Reading
    | Handling(packet: Packet)               // in the switch
    | Sending(value: Value, more: seq<Value>)
    | Ended
    | Panicked                               // index out of range takes the whole program down

  datatype Stdin =
    | InTesting
    | InReading
    | InSending(data: seq<Byte>)
    | InClosing                              // about to send the close-stdin packet
    | InFailed                               // blocked sending an error on the channel
    | InEnded

  /** Wait: before the receive, blocked in it, and its two writes in Close. */
  datatype Waiter = Idle | Blocked | Aborting | Disconnecting

  datatype Config = Config(stream: seq<Byte>, ending: Error, hasStdin: bool, input: seq<Byte>,
                           stdoutSet: bool, stderrSet: bool)

  datatype State = State(
    incoming: seq<Byte>, consumed: seq<Packet>, written: seq<Packet>, reader: Reader,
    input: seq<Byte>, dropped: seq<Byte>, sent: seq<Packet>, wire: seq<Byte>, wireOk: bool, stdin: Stdin,
    waiter: Waiter, taken: seq<Value>, abort: bool, closed: bool)

  datatype Step =
    | ReaderTest
    | ReaderRead
    | ReaderBroken            // the read fails: closed by us, or a network error at any time
    | ReaderHandle(ok: bool)  // whether writing, or closing the pipe handles, succeeds
    | StdinTest
    | StdinData(n: nat)       // Read returns n bytes and no error
    | StdinEnd(n: nat)        // Read returns n bytes and io.EOF
    | StdinError(n: nat)      // Read returns n bytes and another error
    | StdinSend(n: nat)       // n bytes of the packet get through
    | StdinClose(n: nat)
    | WaitBegin
    | TakeFromReader
    | TakeFromStdin
    | WaitAbort
    | WaitDisconnect
    | CloseAbort              // Close called by another goroutine
    | CloseDisconnect

  const CLOSE_STDIN := Packet(SHELL_CLOSE_STDIN, [])

  /** After Start; without Stdin it has sent the close-stdin packet itself. */
  function Started(c: Config): State {
    State(c.stream, [], [], Testing,
          if c.hasStdin then c.input else [], [], if c.hasStdin then [] else [CLOSE_STDIN],
          if c.hasStdin then [] else Encode(CLOSE_STDIN), true, if c.hasStdin then InTesting else InEnded,
          Idle, [], false, false)
  }

  predicate Enabled(c: Config, s: State, step: Step) {
    s.reader != Panicked &&
    match step
    case ReaderTest => s.reader == Testing
    case ReaderRead => s.reader == Reading && !s.closed
    case ReaderBroken => s.reader == Reading
    case ReaderHandle(ok) => s.reader.Handling?
    case StdinTest => s.stdin == InTesting
    case StdinData(n) => s.stdin == InReading && n <= STDIN_BUFFER && n <= |s.input|
    case StdinEnd(n) => s.stdin == InReading && n <= STDIN_BUFFER && n == |s.input|
    case StdinError(n) => s.stdin == InReading && n <= STDIN_BUFFER && n <= |s.input|
    case StdinSend(n) => s.stdin.InSending? && n <= |Encode(Packet(SHELL_STDIN, s.stdin.data))| && (s.closed ==> n == 0)
    case StdinClose(n) => s.stdin == InClosing && n <= |Encode(CLOSE_STDIN)| && (s.closed ==> n == 0)
    case WaitBegin => s.waiter == Idle && !s.abort
    case TakeFromReader => s.waiter == Blocked && s.reader.Sending?
    case TakeFromStdin => s.waiter == Blocked && s.stdin == InFailed
    case WaitAbort => s.waiter == Aborting
    case WaitDisconnect => s.waiter == Disconnecting
    case CloseAbort => true
    case CloseDisconnect => s.abort
  }

  /** The switch of the reader goroutine. */
  function Handle(c: Config, s: State, p: Packet, ok: bool): State {
    if p.kind == SHELL_STDOUT || p.kind == SHELL_STDERR then
      if !(if p.kind == SHELL_STDOUT then c.stdoutSet else c.stderrSet) then s.(reader := Testing)
      else if ok then s.(written := s.written + [p], reader := Testing)
      else s.(reader := Sending(Failed, []))
    else if p.kind == SHELL_EXIT then
      if p.data == [] then s.(reader := Panicked)
      else if ok then s.(reader := Sending(ValueOf(p.data[0]), []))
      else s.(reader := Sending(Failed, [ValueOf(p.data[0])]))
    else s.(reader := Sending(Failed, []))
  }

  function PutOnWire(s: State, p: Packet, n: nat): State
    requires n <= |Encode(p)|
  {
    s.(sent := s.sent + [p], wire := s.wire + Encode(p)[..n], wireOk := s.wireOk && n == |Encode(p)|)
  }

  function Apply(c: Config, s: State, step: Step): State
    requires Enabled(c, s, step)
  {
    match step
    case ReaderTest => s.(reader := if s.abort then Sending(ExitMissing, []) else Reading)
    case ReaderRead =>
      var r := NextPacket(s.incoming, c.ending);
      if r.err == Some(EOF) then s.(reader := Sending(ExitMissing, []))
      else if r.err.Some? then s.(reader := Sending(Failed, []))
      else s.(incoming := r.rest, consumed := s.consumed + [r.packet], reader := Handling(r.packet))
    case ReaderBroken => s.(reader := Sending(Failed, []))
    case ReaderHandle(ok) => Handle(c, s, s.reader.packet, ok)
    case StdinTest => s.(stdin := if s.abort then InEnded else InReading)
    case StdinData(n) => s.(stdin := InSending(s.input[..n]), input := s.input[n..])
    case StdinEnd(n) => s.(stdin := InClosing, dropped := s.input[..n], input := s.input[n..])
    case StdinError(n) => s.(stdin := InFailed, dropped := s.input[..n], input := s.input[n..])
    case StdinSend(n) => PutOnWire(s, Packet(SHELL_STDIN, s.stdin.data), n).(stdin := InTesting)
    case StdinClose(n) =>
      PutOnWire(s, CLOSE_STDIN, n).(stdin := if n == |Encode(CLOSE_STDIN)| then InEnded else InFailed)
    case WaitBegin => s.(waiter := Blocked)
    case TakeFromReader =>
      s.(waiter := Aborting, taken := s.taken + [s.reader.value],
         reader := if s.reader.more == [] then Ended else Sending(s.reader.more[0], s.reader.more[1..]))
    case TakeFromStdin => s.(waiter := Aborting, taken := s.taken + [Failed], stdin := InEnded)
    case WaitAbort => s.(abort := true, waiter := Disconnecting)
    case WaitDisconnect => s.(closed := true, waiter := Idle)
    case CloseAbort => s.(abort := true)
    case CloseDisconnect => s.(closed := true)
  }

  /** The state after a schedule, if the schedule is possible. */
  function Run(c: Config, steps: seq<Step>): Option<State> {
    if steps == [] then Some(Started(c))
    else
      var front := Run(c, steps[..|steps| - 1]);
      if front.Some? && Enabled(c, front.value, steps[|steps| - 1])
      then Some(Apply(c, front.value, steps[|steps| - 1])) else None
  }

  // ------------------------------------------------------------------ reader

  /** Only stdout and stderr packets. */
  predicate Plain(ps: seq<Packet>) {
    forall p :: p in ps ==> p.kind == SHELL_STDOUT || p.kind == SHELL_STDERR
  }

  predicate Wanted(c: Config, p: Packet) {
    (p.kind == SHELL_STDOUT && c.stdoutSet) || (p.kind == SHELL_STDERR && c.stderrSet)
  }

  /** The packets that have a writer, in packet order. */
  function Demux(c: Config, ps: seq<Packet>): seq<Packet> {
    if ps == [] then []
    else Demux(c, ps[..|ps| - 1]) + (if Wanted(c, ps[|ps| - 1]) then [ps[|ps| - 1]] else [])
  }

  /** All packets before the exit packet have been handed over, and `v` is the exit packet's status. */
  predicate Delivered(c: Config, s: State, v: Value) {
    var n := |s.consumed| - 1;
    n >= 0 && s.consumed[n].kind == SHELL_EXIT && s.consumed[n].data != [] && v == ValueOf(s.consumed[n].data[0])
    && Plain(s.consumed[..n]) && s.written == Demux(c, s.consumed[..n])
  }

  predicate Excused(c: Config, s: State, v: Value) {
    Exited(v) ==> Delivered(c, s, v)
  }

  predicate Working(r: Reader) {
    r.Testing? || r.Reading? || r.Handling?
  }

  predicate ReaderInv(c: Config, s: State) {
    && Encodable(s.consumed) && c.stream == EncodeAll(s.consumed) + s.incoming
    && (s.reader.Testing? || s.reader.Reading? ==> Plain(s.consumed) && s.written == Demux(c, s.consumed))
    && (s.reader.Handling? ==>
          var n := |s.consumed| - 1;
          n >= 0 && s.consumed[n] == s.reader.packet && Plain(s.consumed[..n])
          && s.written == Demux(c, s.consumed[..n]))
    && (s.reader.Sending? ==>
          Excused(c, s, s.reader.value) && forall v :: v in s.reader.more ==> Excused(c, s, v))
    && (forall v :: v in s.taken ==> Excused(c, s, v) && (Exited(v) ==> !Working(s.reader)))
  }

  predicate WaiterInv(s: State) {
    && |s.taken| <= 1
    && (s.waiter == Blocked ==> s.taken == [])
    && (s.taken != [] ==> s.abort || s.waiter == Aborting)
    && (s.waiter == Disconnecting ==> s.abort)
    && (s.taken != [] && s.waiter == Idle ==> s.abort && s.closed)
  }

  lemma EncodeOneMore(ps: seq<Packet>, p: Packet)
    requires Encodable(ps) && |p.data| < TWO_TO_32
    ensures EncodeAll(ps + [p]) == EncodeAll(ps) + Encode(p) && Encodable(ps + [p]) && (ps + [p])[..|ps|] == ps
  {
    hide Encode;
    assert (ps + [p])[..|ps|] == ps;
  }

  lemma ReadStepKeeps(c: Config, s: State)
    requires ReaderInv(c, s) && s.reader == Reading && NextPacket(s.incoming, c.ending).err.None?
    ensures ReaderInv(c, Apply(c, s.(closed := false), ReaderRead))
  {
    hide NextPacket, Encode, EncodeAll, Encodable, Demux, Plain;
    var r := NextPacket(s.incoming, c.ending);
    ReadIsPacket(s.incoming, c.ending);
    EncodeOneMore(s.consumed, r.packet);
    Assoc(EncodeAll(s.consumed), Encode(r.packet), r.rest);
  }

  lemma DemuxStep(c: Config, ps: seq<Packet>)
    requires ps != []
    ensures var p := ps[|ps| - 1];
            Demux(c, ps) == (if Wanted(c, p) then Demux(c, ps[..|ps| - 1]) + [p] else Demux(c, ps[..|ps| - 1]))
  {
    Whole(Demux(c, ps[..|ps| - 1]));
  }

  lemma OneMorePlain(c: Config, ps: seq<Packet>)
    requires ps != [] && Plain(ps[..|ps| - 1])
    requires var k := ps[|ps| - 1].kind; k == SHELL_STDOUT || k == SHELL_STDERR
    ensures Plain(ps)
    ensures var p := ps[|ps| - 1];
            Demux(c, ps) == (if Wanted(c, p) then Demux(c, ps[..|ps| - 1]) + [p] else Demux(c, ps[..|ps| - 1]))
  {
    hide Demux, Plain;
    var n := |ps| - 1;
    DemuxStep(c, ps);
    OneMoreOutput(ps[..n], ps[n]);
    assert ps[..n] + [ps[n]] == ps;
  }

  lemma OneMoreOutput(front: seq<Packet>, p: Packet)
    requires Plain(front) && (p.kind == SHELL_STDOUT || p.kind == SHELL_STDERR)
    ensures Plain(front + [p])
  {
  }

  lemma HandleStepKeeps(c: Config, s: State, ok: bool)
    requires ReaderInv(c, s) && s.reader.Handling?
    ensures ReaderInv(c, Handle(c, s, s.reader.packet, ok))
  {
    hide EncodeAll, Demux, Plain;
    var p := s.reader.packet;
    var t := Handle(c, s, p, ok);
    if p.kind == SHELL_STDOUT || p.kind == SHELL_STDERR {
      OneMorePlain(c, s.consumed);
    } else if p.kind == SHELL_EXIT && p.data != [] {
      assert Delivered(c, t, ValueOf(p.data[0]));
    }
    assert forall v :: Excused(c, s, v) ==> v in s.taken ==> Excused(c, t, v);
  }

  lemma WireOfPut(s: State, n: nat)
    requires n <= |Encode(CLOSE_STDIN)|
    ensures PutOnWire(s, CLOSE_STDIN, n).wire == s.wire + Encode(CLOSE_STDIN)[..n]
  {
    hide Encode;
  }

  lemma PutOnWireFrame(s: State, p: Packet, n: nat)
    requires n <= |Encode(p)|
    ensures var t := PutOnWire(s, p, n); t == s.(sent := t.sent, wire := t.wire, wireOk := t.wireOk)
  {
  }

  /** Steps that leave the reader's part alone. */
  predicate QuietStep(step: Step) {
    !step.ReaderTest? && !step.ReaderRead? && !step.ReaderBroken? && !step.ReaderHandle? && !step.TakeFromReader?
    && !step.TakeFromStdin?
  }

  lemma QuietStepFrame(c: Config, s: State, step: Step)
    requires Enabled(c, s, step) && QuietStep(step)
    ensures var t := Apply(c, s, step);
            t.incoming == s.incoming && t.consumed == s.consumed && t.written == s.written && t.reader == s.reader
            && t.taken == s.taken
  {
    hide Encode, PutOnWire;
    match step
    case StdinSend(n) => PutOnWireFrame(s, Packet(SHELL_STDIN, s.stdin.data), n);
    case StdinClose(n) => PutOnWireFrame(s, CLOSE_STDIN, n);
    case _ =>
  }

  lemma QuietStepKeeps(c: Config, s: State, step: Step)
    requires ReaderInv(c, s) && Enabled(c, s, step) && QuietStep(step)
    ensures ReaderInv(c, Apply(c, s, step))
  {
    QuietStepFrame(c, s, step);
    var t := Apply(c, s, step);
    hide Enabled, Apply, EncodeAll, Demux, Plain, Encodable;
    assert forall v :: Excused(c, s, v) ==> Excused(c, t, v);
  }

  lemma StepKeepsReaderInv(c: Config, s: State, step: Step)
    requires ReaderInv(c, s) && Enabled(c, s, step)
    ensures ReaderInv(c, Apply(c, s, step))
  {
    hide NextPacket, Encode, EncodeAll, Demux, Handle, PutOnWire, Plain, Encodable;
    if step.ReaderRead? {
      if NextPacket(s.incoming, c.ending).err.None? {
        assert s.(closed := false) == s;
        ReadStepKeeps(c, s);
      }
    } else if step.ReaderHandle? {
      HandleStepKeeps(c, s, step.ok);
    } else if QuietStep(step) {
      QuietStepKeeps(c, s, step);
    } else {
      var t := Apply(c, s, step);
      assert forall v :: Excused(c, s, v) ==> Excused(c, t, v);
    }
  }

  lemma StepKeepsWaiterInv(c: Config, s: State, step: Step)
    requires WaiterInv(s) && Enabled(c, s, step)
    ensures WaiterInv(Apply(c, s, step))
  {
    hide NextPacket, Encode, PutOnWire, Handle;
    match step
    case StdinSend(n) => PutOnWireFrame(s, Packet(SHELL_STDIN, s.stdin.data), n);
    case StdinClose(n) => PutOnWireFrame(s, CLOSE_STDIN, n);
    case ReaderHandle(ok) => HandleFrame(c, s, ok);
    case _ =>
  }

  lemma HandleFrame(c: Config, s: State, ok: bool)
    requires s.reader.Handling?
    ensures var t := Handle(c, s, s.reader.packet, ok); t == s.(written := t.written, reader := t.reader)
  {
  }

  lemma {:induction false} RunKeeps(c: Config, steps: seq<Step>)
    requires Run(c, steps).Some?
    ensures var s := Run(c, steps).value; ReaderInv(c, s) && WaiterInv(s)
    decreases |steps|
  {
    hide Apply, Enabled, Delivered, Encode;
    if steps == [] {
      Whole(c.stream);
    } else {
      var front, last := steps[..|steps| - 1], steps[|steps| - 1];
      RunKeeps(c, front);
      hide ReaderInv, WaiterInv;
      StepKeepsReaderInv(c, Run(c, front).value, last);
      StepKeepsWaiterInv(c, Run(c, front).value, last);
    }
  }

  /** The bytes one stream's writer receives. */
  function Output(kind: Byte, ps: seq<Packet>): seq<Byte> {
    if ps == [] then []
    else Output(kind, ps[..|ps| - 1]) + (if ps[|ps| - 1].kind == kind then ps[|ps| - 1].data else [])
  }

  lemma {:induction false} DemuxOutput(c: Config, ps: seq<Packet>, kind: Byte)
    requires kind == SHELL_STDOUT || kind == SHELL_STDERR
    ensures Output(kind, Demux(c, ps))
            == (if (if kind == SHELL_STDOUT then c.stdoutSet else c.stderrSet) then Output(kind, ps) else [])
    decreases |ps|
  {
    if ps != [] {
      var front, p := ps[..|ps| - 1], ps[|ps| - 1];
      DemuxOutput(c, front, kind);
      Whole(Demux(c, front));
      if Wanted(c, p) {
        var d := Demux(c, front) + [p];
        assert d[..|d| - 1] == Demux(c, front);
      }
      Whole(Output(kind, front));
    }
  }

  lemma {:induction false} DemuxOfBoth(c: Config, ps: seq<Packet>)
    requires c.stdoutSet && c.stderrSet && Plain(ps)
    ensures Demux(c, ps) == ps
    decreases |ps|
  {
    if ps != [] {
      var n := |ps| - 1;
      var front, p := ps[..n], ps[n];
      assert ps == front + [p];
      PlainParts(front, p);
      hide Demux, Plain;
      DemuxOfBoth(c, front);
      OneMorePlain(c, ps);
    }
  }

  /**
    Over the life of a session, in every interleaving: at most one value is taken from the channel;
    and if it is nil or an ExitError, the stream starts with some stdout and stderr packets and an
    exit packet, of status 0 exactly for nil and of the reported status otherwise, and each writer
    that is set has received exactly the payloads of its packets before the exit packet; with both
    set, all packets were written in packet order.
  */
  lemma ExitMeansAllOutput(c: Config, steps: seq<Step>)
    requires Run(c, steps).Some?
    ensures var s := Run(c, steps).value;
            && |s.taken| <= 1
            && (s.taken != [] && Exited(s.taken[0]) ==>
                  var n := |s.consumed| - 1;
                  && n >= 0
                  && var front, exit := s.consumed[..n], s.consumed[n];
                  && c.stream == EncodeAll(front) + Encode(exit) + s.incoming
                  && Plain(front) && exit.kind == SHELL_EXIT && exit.data != []
                  && (s.taken[0].Nil? <==> exit.data[0] == 0)
                  && (s.taken[0].ExitError? ==> s.taken[0].status == exit.data[0] != 0)
                  && Output(SHELL_STDOUT, s.written) == (if c.stdoutSet then Output(SHELL_STDOUT, front) else [])
                  && Output(SHELL_STDERR, s.written) == (if c.stderrSet then Output(SHELL_STDERR, front) else [])
                  && (c.stdoutSet && c.stderrSet ==> s.written == front))
  {
    hide Apply, Enabled, Encode, Run, Demux, Output, Plain;
    RunKeeps(c, steps);
    var s := Run(c, steps).value;
    if s.taken != [] && Exited(s.taken[0]) {
      assert Excused(c, s, s.taken[0]);
      var front := s.consumed[..|s.consumed| - 1];
      DemuxOutput(c, front, SHELL_STDOUT);
      DemuxOutput(c, front, SHELL_STDERR);
      if c.stdoutSet && c.stderrSet {
        DemuxOfBoth(c, front);
      }
    }
  }

  /** The packets before the exit packet are the ones any reader of the stream's bytes finds. */
  lemma ExitPacketsAreTheStreams(c: Config, steps: seq<Step>)
    requires Run(c, steps).Some?
    ensures var s := Run(c, steps).value;
            ReadPackets(c.stream, |s.consumed|, c.ending) == Some((s.consumed, s.incoming))
  {
    hide Apply, Enabled, Encode, Run, Demux, Plain;
    RunKeeps(c, steps);
    var s := Run(c, steps).value;
    PacketsAreRead(s.consumed, s.incoming, c.ending);
  }

  // ------------------------------------------------------- Wait is never stuck

  /** A step of the reader goroutine, or the handing over of its value. */
  predicate ReaderStep(step: Step) {
    step.ReaderTest? || step.ReaderRead? || step.ReaderBroken? || step.ReaderHandle? || step.TakeFromReader?
  }

  /** The reader goroutine ends only by handing over its last value. */
  lemma {:induction false} EndedHasSent(c: Config, steps: seq<Step>)
    requires Run(c, steps).Some?
    ensures var s := Run(c, steps).value; s.reader.Ended? ==> s.taken != []
    decreases |steps|
  {
    if steps != [] {
      var front, last := steps[..|steps| - 1], steps[|steps| - 1];
      EndedHasSent(c, front);
      EndedStep(c, Run(c, front).value, last);
    }
  }

  lemma EndedStep(c: Config, s: State, step: Step)
    requires (s.reader.Ended? ==> s.taken != []) && Enabled(c, s, step)
    ensures var t := Apply(c, s, step); t.reader.Ended? ==> t.taken != []
  {
    hide NextPacket, Encode, PutOnWire, Handle;
    if QuietStep(step) {
      QuietStepFrame(c, s, step);
    } else if step.ReaderHandle? {
      HandleRank(c, s, step.ok);
    }
  }

  /** While the caller is blocked and nothing has panicked, the reader can go on or hand over a value. */
  lemma WaitIsNotStuck(c: Config, steps: seq<Step>) returns (step: Step)
    requires Run(c, steps).Some?
    requires var s := Run(c, steps).value; s.waiter == Blocked && s.reader != Panicked
    ensures ReaderStep(step) && Enabled(c, Run(c, steps).value, step)
  {
    var s := Run(c, steps).value;
    assert s.taken == [] by {
      hide *;
      RunKeeps(c, steps);
      BlockedHasNothing(s);
    }
    EndedHasSent(c, steps);
    hide Run, Encode;
    step := match s.reader
      case Testing => ReaderTest
      case Reading => if s.closed then ReaderBroken else ReaderRead
      case Handling(_) => ReaderHandle(true)
      case _ => TakeFromReader;
  }

  lemma BlockedHasNothing(s: State)
    ensures WaiterInv(s) && s.waiter == Blocked ==> s.taken == []
  {
  }

  /** How many reader steps can still come at most. */
  function Rank(s: State): nat {
    match s.reader
    case Testing => 3 * |s.incoming| + 5
    case Reading => 3 * |s.incoming| + 4
    case Handling(_) => 3 * |s.incoming| + 6
    case Sending(_, more) => 1 + |more|
    case _ => 0
  }

  lemma HandleRank(c: Config, s: State, ok: bool)
    requires s.reader.Handling?
    ensures var t := Handle(c, s, s.reader.packet, ok);
            Rank(t) < Rank(s) && !t.reader.Ended? && !t.reader.Reading? && t.taken == s.taken
  {
  }

  lemma PacketIsNotEmpty(s: seq<Byte>, ending: Error)
    requires NextPacket(s, ending).err.None?
    ensures |NextPacket(s, ending).rest| + 5 <= |s|
  {
  }

  /** Reader steps use up the rank, and no other step gives it back. */
  lemma RankFalls(c: Config, s: State, step: Step)
    requires Enabled(c, s, step)
    ensures if ReaderStep(step) then Rank(Apply(c, s, step)) < Rank(s) else Rank(Apply(c, s, step)) == Rank(s)
  {
    hide NextPacket, Encode, PutOnWire, Handle;
    if QuietStep(step) {
      QuietStepFrame(c, s, step);
    } else if step.ReaderHandle? {
      HandleRank(c, s, step.ok);
    } else if step.ReaderRead? && NextPacket(s.incoming, c.ending).err.None? {
      PacketIsNotEmpty(s.incoming, c.ending);
    }
  }

  function ReaderSteps(steps: seq<Step>): nat {
    if steps == [] then 0
    else ReaderSteps(steps[..|steps| - 1]) + (if ReaderStep(steps[|steps| - 1]) then 1 else 0)
  }

  /**
    No schedule holds more reader steps than three for each byte of the stream and five. As one of
    them is possible while the caller is blocked, Wait returns wherever the reader goroutine is
    given its turns and does not panic.
  */
  lemma {:induction false} ReaderStepsAreBounded(c: Config, steps: seq<Step>)
    requires Run(c, steps).Some?
    ensures ReaderSteps(steps) + Rank(Run(c, steps).value) <= 3 * |c.stream| + 5
    decreases |steps|
  {
    hide Apply, Enabled, Encode;
    if steps != [] {
      hide Rank;
      var front, last := steps[..|steps| - 1], steps[|steps| - 1];
      ReaderStepsAreBounded(c, front);
      RankFalls(c, Run(c, front).value, last);
    }
  }

  // ---------------------------------------------------- such a run is possible

  function UndisturbedSteps(k: nat): seq<Step> {
    if k == 0 then [] else UndisturbedSteps(k - 1) + [ReaderTest] + [ReaderRead] + [ReaderHandle(true)]
  }

  lemma RunOneMore(c: Config, steps: seq<Step>, step: Step)
    requires Run(c, steps).Some? && Enabled(c, Run(c, steps).value, step)
    ensures Run(c, steps + [step]) == Some(Apply(c, Run(c, steps).value, step))
  {
    hide Apply, Enabled;
    assert (steps + [step])[..|steps|] == steps;
  }

  /** Three steps take one packet off the stream and hand it over. */
  lemma OnePacket(c: Config, steps: seq<Step>, p: Packet, rest: seq<Byte>)
    requires Run(c, steps).Some? && |p.data| < TWO_TO_32
    requires var s := Run(c, steps).value;
             s.reader == Testing && !s.abort && !s.closed && s.incoming == Encode(p) + rest
    ensures var s := Run(c, steps).value;
            Run(c, steps + [ReaderTest] + [ReaderRead] + [ReaderHandle(true)])
            == Some(Handle(c, s.(incoming := rest, consumed := s.consumed + [p], reader := Handling(p)), p, true))
  {
    hide NextPacket, Encode, Handle, Run;
    PacketIsRead(p, rest, c.ending);
    RunOneMore(c, steps, ReaderTest);
    RunOneMore(c, steps + [ReaderTest], ReaderRead);
    RunOneMore(c, steps + [ReaderTest] + [ReaderRead], ReaderHandle(true));
  }

  lemma {:induction false} UndisturbedRun(c: Config, ps: seq<Packet>, rest: seq<Byte>)
    requires c.stream == EncodeAll(ps) + rest && Encodable(ps) && Plain(ps)
    ensures Run(c, UndisturbedSteps(|ps|))
            == Some(Started(c).(incoming := rest, consumed := ps, written := Demux(c, ps)))
    decreases |ps|
  {
    if ps == [] {
      Whole(rest);
    } else {
      hide Encode, Run, Demux, Plain;
      var n := |ps| - 1;
      var front, p := ps[..n], ps[n];
      assert ps == front + [p];
      PlainParts(front, p);
      Assoc(EncodeAll(front), Encode(p), rest);
      UndisturbedRun(c, front, Encode(p) + rest);
      OnePacket(c, UndisturbedSteps(n), p, rest);
      OneMorePlain(c, ps);
    }
  }

  lemma PlainParts(front: seq<Packet>, p: Packet)
    requires Plain(front + [p])
    ensures Plain(front) && (p.kind == SHELL_STDOUT || p.kind == SHELL_STDERR)
  {
    assert forall q :: q in front || q == p ==> q in front + [p];
  }

  /** Undisturbed, Wait gets the status of the exit packet, for any output before it. */
  lemma ExitIsReported(c: Config, ps: seq<Packet>, status: Byte, rest: seq<Byte>) returns (steps: seq<Step>)
    requires c.stream == EncodeAll(ps) + (Encode(Packet(SHELL_EXIT, [status])) + rest)
    requires Encodable(ps) && Plain(ps)
    ensures Run(c, steps).Some?
    ensures Run(c, steps).value.taken == [if status == 0 then Nil else ExitError(status)]
  {
    hide Encode, Run, Demux, Plain;
    var exit := Packet(SHELL_EXIT, [status]);
    UndisturbedRun(c, ps, Encode(exit) + rest);
    OnePacket(c, UndisturbedSteps(|ps|), exit, rest);
    steps := UndisturbedSteps(|ps|) + [ReaderTest] + [ReaderRead] + [ReaderHandle(true)];
    RunOneMore(c, steps, WaitBegin);
    steps := steps + [WaitBegin];
    RunOneMore(c, steps, TakeFromReader);
    steps := steps + [TakeFromReader];
  }

  // ------------------------------------------------ why Wait gets what it gets

  /** A failure that is none of the stream: of a read, of writing output, of closing, or of stdin. */
  predicate Disturbs(step: Step) {
    step.ReaderBroken? || (step.ReaderHandle? && !step.ok) || step.StdinError?
    || (step.StdinClose? && step.n < |Encode(CLOSE_STDIN)|)
  }

  /** What has happened so far: a Close from outside, a failure, and the last write or closing of handles. */
  datatype Past = Past(closedBy: bool, disturbed: bool, handledWell: bool)

  function After(p: Past, step: Step): Past {
    Past(p.closedBy || step.CloseAbort?, p.disturbed || Disturbs(step),
         if step.ReaderHandle? then step.ok else p.handledWell)
  }

  function PastOf(steps: seq<Step>): Past {
    if steps == [] then Past(false, false, false)
    else After(PastOf(steps[..|steps| - 1]), steps[|steps| - 1])
  }

  /** The stream has ended cleanly between two packets, and everything before has been handed over. */
  predicate CleanEnd(c: Config, s: State) {
    s.incoming == [] && c.ending == EOF && Plain(s.consumed) && s.written == Demux(c, s.consumed)
  }

  /** The stream goes on with a packet that the reader does not know or cannot read. */
  predicate BadEnd(c: Config, s: State) {
    || (s.consumed != [] && s.consumed[|s.consumed| - 1].kind !in {SHELL_STDOUT, SHELL_STDERR, SHELL_EXIT})
    || (NextPacket(s.incoming, c.ending).err.Some? && NextPacket(s.incoming, c.ending).err != Some(EOF))
  }

  /** The value that Wait has got, or would get next from the reader. */
  function First(s: State): Option<Value> {
    if s.taken != [] then Some(s.taken[0]) else if s.reader.Sending? then Some(s.reader.value) else None
  }

  predicate Reason(c: Config, s: State, p: Past, v: Value) {
    match v
    case Nil => p.handledWell
    case ExitError(_) => p.handledWell
    case ExitMissing => p.closedBy || CleanEnd(c, s)
    case Failed => p.disturbed || BadEnd(c, s)
  }

  predicate ReasonInv(c: Config, s: State, p: Past) {
    && (s.waiter.Aborting? || s.waiter.Disconnecting? ==> s.taken != [])
    && (s.abort && s.taken == [] ==> p.closedBy)
    && (s.stdin.InFailed? ==> p.disturbed)
    && (First(s).Some? ==> Reason(c, s, p, First(s).value) && (!First(s).value.Failed? ==> !Working(s.reader)))
  }

  lemma {:induction false} PastMeaning(steps: seq<Step>)
    ensures PastOf(steps).closedBy <==> CloseAbort in steps
    ensures PastOf(steps).disturbed <==> exists x :: x in steps && Disturbs(x)
    decreases |steps|
  {
    hide Disturbs;
    if steps != [] {
      var front, last := steps[..|steps| - 1], steps[|steps| - 1];
      PastMeaning(front);
      assert forall x :: x in steps <==> x in front || x == last;
    }
  }

  lemma ReadReason(c: Config, s: State, p: Past)
    requires ReaderInv(c, s) && ReasonInv(c, s, p) && Enabled(c, s, ReaderRead)
    ensures ReasonInv(c, Apply(c, s, ReaderRead), After(p, ReaderRead))
  {
    hide NextPacket, Encode, EncodeAll, Encodable, Demux, Plain;
    var t := Apply(c, s, ReaderRead);
    PacketAnswers(s.incoming, c.ending);
    if NextPacket(s.incoming, c.ending).err.None? {
      ReadKeepsFailure(c, s);
    }
  }

  lemma ReadKeepsFailure(c: Config, s: State)
    requires ReaderInv(c, s) && s.reader == Reading && NextPacket(s.incoming, c.ending).err.None?
    ensures !BadEnd(c, s)
  {
    hide NextPacket, Encode, EncodeAll, Encodable, Demux;
    if s.consumed != [] {
      var p := s.consumed[|s.consumed| - 1];
      assert p in s.consumed;
    }
  }

  lemma HandledIsNotTaken(c: Config, s: State, p: Past, ok: bool)
    requires ReasonInv(c, s, p) && s.reader.Handling? && s.taken != []
    ensures ReasonInv(c, Handle(c, s, s.reader.packet, ok), After(p, ReaderHandle(ok)))
  {
    hide NextPacket, Demux, Plain;
    var t := Handle(c, s, s.reader.packet, ok);
    HandleFrame(c, s, ok);
    hide Handle;
    assert First(s).value.Failed? && First(t) == First(s);
  }

  lemma HandleValue(c: Config, s: State, ok: bool)
    requires s.reader.Handling?
    ensures var t := Handle(c, s, s.reader.packet, ok);
            t.reader.Sending? ==>
              !t.reader.value.ExitMissing?
              && (Exited(t.reader.value) ==> ok)
              && (t.reader.value.Failed? && ok ==> s.reader.packet.kind !in {SHELL_STDOUT, SHELL_STDERR, SHELL_EXIT})
  {
  }

  lemma HandleReason(c: Config, s: State, p: Past, ok: bool)
    requires ReaderInv(c, s) && ReasonInv(c, s, p) && s.reader.Handling?
    ensures ReasonInv(c, Handle(c, s, s.reader.packet, ok), After(p, ReaderHandle(ok)))
  {
    hide NextPacket, Encode, EncodeAll, Encodable, Demux, Plain;
    if s.taken != [] {
      HandledIsNotTaken(c, s, p, ok);
    } else {
      assert s.consumed[|s.consumed| - 1] == s.reader.packet;
      HandleFrame(c, s, ok);
      HandleValue(c, s, ok);
      hide Handle, ReaderInv;
    }
  }

  /** A reason outlives steps that leave the reader's part alone. */
  lemma ReasonStays(c: Config, s: State, p: Past, t: State, q: Past, v: Value)
    requires Reason(c, s, p, v) && t.incoming == s.incoming && t.consumed == s.consumed && t.written == s.written
    requires (p.closedBy ==> q.closedBy) && (p.disturbed ==> q.disturbed) && q.handledWell == p.handledWell
    ensures Reason(c, t, q, v)
  {
    hide NextPacket, Plain, Demux;
  }

  /** Taking a value leaves the first one what it was. */
  lemma TakeReason(c: Config, s: State, p: Past, step: Step)
    requires ReasonInv(c, s, p) && Enabled(c, s, step) && WaiterInv(s) && (step.TakeFromReader? || step.TakeFromStdin?)
    ensures ReasonInv(c, Apply(c, s, step), After(p, step))
  {
    hide NextPacket, Encode, Plain, Demux, Reason;
    assert s.taken == [];
    var t := Apply(c, s, step);
    if step.TakeFromReader? {
      ReasonStays(c, s, p, t, After(p, step), s.reader.value);
    } else {
      FailedReason(c, t, After(p, step));
    }
  }

  lemma FailedReason(c: Config, s: State, p: Past)
    requires p.disturbed
    ensures Reason(c, s, p, Failed)
  {
  }

  lemma TestReason(c: Config, s: State, p: Past, step: Step)
    requires ReasonInv(c, s, p) && Enabled(c, s, step) && (step.ReaderTest? || step.ReaderBroken?)
    ensures ReasonInv(c, Apply(c, s, step), After(p, step))
  {
    hide NextPacket, Encode, Plain, Demux;
    var t := Apply(c, s, step);
    if s.taken != [] {
      ReasonStays(c, s, p, t, After(p, step), s.taken[0]);
    }
  }

  lemma QuietReason(c: Config, s: State, p: Past, step: Step)
    requires ReasonInv(c, s, p) && Enabled(c, s, step) && QuietStep(step)
    ensures ReasonInv(c, Apply(c, s, step), After(p, step))
  {
    hide NextPacket, Encode, PutOnWire, Reason;
    QuietStepFrame(c, s, step);
    var t := Apply(c, s, step);
    if First(s).Some? {
      ReasonStays(c, s, p, t, After(p, step), First(s).value);
    }
    if step.StdinSend? {
      PutOnWireFrame(s, Packet(SHELL_STDIN, s.stdin.data), step.n);
    } else if step.StdinClose? {
      PutOnWireFrame(s, CLOSE_STDIN, step.n);
    }
  }

  lemma StepKeepsReasonInv(c: Config, s: State, p: Past, step: Step)
    requires ReaderInv(c, s) && WaiterInv(s) && ReasonInv(c, s, p) && Enabled(c, s, step)
    ensures ReasonInv(c, Apply(c, s, step), After(p, step))
  {
    hide *;
    if step.ReaderRead? {
      ReadReason(c, s, p);
    } else if step.ReaderHandle? {
      HandleStep(c, s, p, step.ok);
    } else if step.ReaderTest? || step.ReaderBroken? {
      TestReason(c, s, p, step);
    } else if step.TakeFromReader? || step.TakeFromStdin? {
      TakeReason(c, s, p, step);
    } else {
      assert QuietStep(step) by { OtherStepIsQuiet(step); }
      QuietReason(c, s, p, step);
    }
  }

  lemma HandleStep(c: Config, s: State, p: Past, ok: bool)
    requires ReaderInv(c, s) && ReasonInv(c, s, p) && Enabled(c, s, ReaderHandle(ok))
    ensures ReasonInv(c, Apply(c, s, ReaderHandle(ok)), After(p, ReaderHandle(ok)))
  {
    hide Handle, ReasonInv, ReaderInv;
    HandleReason(c, s, p, ok);
  }

  lemma OtherStepIsQuiet(step: Step)
    requires !step.ReaderRead? && !step.ReaderHandle? && !step.ReaderTest? && !step.ReaderBroken?
    requires !step.TakeFromReader? && !step.TakeFromStdin?
    ensures QuietStep(step)
  {
  }

  lemma {:induction false} RunKeepsReasons(c: Config, steps: seq<Step>)
    requires Run(c, steps).Some?
    ensures ReasonInv(c, Run(c, steps).value, PastOf(steps))
    decreases |steps|
  {
    hide Apply, Enabled, After, Encode;
    if steps != [] {
      hide ReasonInv;
      var front, last := steps[..|steps| - 1], steps[|steps| - 1];
      RunKeepsReasons(c, front);
      RunKeeps(c, front);
      StepKeepsReasonInv(c, Run(c, front).value, PastOf(front), last);
    }
  }

  /**
    Every value Wait gets has its reason, in every interleaving. A missing exit status: the session
    was closed from outside, or the stream ended cleanly between two packets, with everything handed
    over. Another error: something failed beside the stream, or the stream holds a packet that is
    unknown or cannot be read. Nil or an ExitError: the handles were closed well.
  */
  lemma TakenHasReason(c: Config, steps: seq<Step>)
    requires Run(c, steps).Some? && Run(c, steps).value.taken != []
    ensures var s := Run(c, steps).value; var v := s.taken[0];
            && (v.ExitMissing? ==> CloseAbort in steps || CleanEnd(c, s))
            && (v.Failed? ==> (exists x :: x in steps && Disturbs(x)) || BadEnd(c, s))
            && (Exited(v) ==> PastOf(steps).handledWell)
  {
    hide Run, CleanEnd, BadEnd, Disturbs;
    RunKeepsReasons(c, steps);
    PastMeaning(steps);
  }

  // -------------------------------------------------------------- tearing down

  /** When Wait has returned, the session is aborted and its connection closed. */
  lemma WaitClosesSession(c: Config, steps: seq<Step>)
    requires Run(c, steps).Some?
    ensures var s := Run(c, steps).value; s.taken != [] && s.waiter == Idle ==> s.abort && s.closed
  {
    hide Run, ReaderInv;
    RunKeeps(c, steps);
  }

  /** How many packets the reader still takes off the stream once the session is aborted. */
  function ReadsLeft(s: State): nat {
    if s.reader.Reading? then 1 else 0
  }

  /** How many packets the stdin goroutine still sends. */
  function SendsLeft(s: State): nat {
    if s.stdin.InReading? || s.stdin.InSending? || s.stdin.InClosing? then 1 else 0
  }

  lemma AbortedStep(c: Config, s: State, step: Step)
    requires Enabled(c, s, step) && s.abort
    ensures var t := Apply(c, s, step);
            && t.abort && |t.consumed| + ReadsLeft(t) <= |s.consumed| + ReadsLeft(s)
            && |t.sent| + SendsLeft(t) <= |s.sent| + SendsLeft(s)
            && (step.ReaderTest? ==> t.reader == Sending(ExitMissing, []))
            && (step.StdinTest? ==> t.stdin.InEnded?)
  {
    hide NextPacket, Encode, Handle;
    if step.ReaderHandle? {
      HandleRank(c, s, step.ok);
      HandleFrame(c, s, step.ok);
    }
  }

  /** After an abort the reader takes at most one more packet, and at most one more is sent from stdin. */
  lemma {:induction false} AbortEndsLoops(c: Config, steps: seq<Step>, more: seq<Step>)
    requires Run(c, steps).Some? && Run(c, steps).value.abort && Run(c, steps + more).Some?
    ensures var s, t := Run(c, steps).value, Run(c, steps + more).value;
            && t.abort && |t.consumed| + ReadsLeft(t) <= |s.consumed| + ReadsLeft(s)
            && |t.sent| + SendsLeft(t) <= |s.sent| + SendsLeft(s)
    decreases |more|
  {
    if more == [] {
      assert steps + more == steps;
    } else {
      hide Apply, Enabled, ReadsLeft, SendsLeft;
      var n := |more| - 1;
      assert (steps + more)[..|steps| + n] == steps + more[..n];
      AbortEndsLoops(c, steps, more[..n]);
      AbortedStep(c, Run(c, steps + more[..n]).value, more[n]);
    }
  }

  // ------------------------------------------------------------------ panics

  predicate EmptyExit(ps: seq<Packet>) {
    ps != [] && ps[|ps| - 1] == Packet(SHELL_EXIT, [])
  }

  /** The program goes down exactly when an exit packet without data has been read and handled. */
  predicate PanicInv(s: State) {
    (s.reader.Handling? ==> s.consumed != [] && s.consumed[|s.consumed| - 1] == s.reader.packet)
    && (s.reader.Panicked? <==> EmptyExit(s.consumed) && !s.reader.Handling?)
  }

  lemma HandlePanics(c: Config, s: State, ok: bool)
    requires s.reader.Handling?
    ensures var t := Handle(c, s, s.reader.packet, ok);
            && t.consumed == s.consumed && !t.reader.Handling?
            && (t.reader.Panicked? <==> s.reader.packet == Packet(SHELL_EXIT, []))
  {
  }

  lemma StepKeepsPanicInv(c: Config, s: State, step: Step)
    requires PanicInv(s) && Enabled(c, s, step)
    ensures PanicInv(Apply(c, s, step))
  {
    hide NextPacket, Encode, PutOnWire, Handle;
    if QuietStep(step) {
      QuietStepFrame(c, s, step);
    } else if step.ReaderHandle? {
      HandlePanics(c, s, step.ok);
    }
  }

  lemma {:induction false} ReaderPanics(c: Config, steps: seq<Step>)
    requires Run(c, steps).Some?
    ensures PanicInv(Run(c, steps).value)
    decreases |steps|
  {
    hide Apply, Enabled;
    if steps != [] {
      hide PanicInv;
      ReaderPanics(c, steps[..|steps| - 1]);
      StepKeepsPanicInv(c, Run(c, steps[..|steps| - 1]).value, steps[|steps| - 1]);
    }
  }

  /** And such a packet does take it down, after any output. */
  lemma EmptyExitPanics(c: Config, ps: seq<Packet>, rest: seq<Byte>) returns (steps: seq<Step>)
    requires c.stream == EncodeAll(ps) + (Encode(Packet(SHELL_EXIT, [])) + rest) && Encodable(ps) && Plain(ps)
    ensures Run(c, steps).Some? && Run(c, steps).value.reader == Panicked
  {
    hide Encode, Run, Demux, Plain;
    var exit := Packet(SHELL_EXIT, []);
    UndisturbedRun(c, ps, Encode(exit) + rest);
    OnePacket(c, UndisturbedSteps(|ps|), exit, rest);
    steps := UndisturbedSteps(|ps|) + [ReaderTest] + [ReaderRead] + [ReaderHandle(true)];
  }

  // ------------------------------------------------------------------- stdin

  function Payloads(ps: seq<Packet>): seq<Byte> {
    if ps == [] then [] else Payloads(ps[..|ps| - 1]) + ps[|ps| - 1].data
  }

  function InFlight(s: State): seq<Byte> {
    if s.stdin.InSending? then s.stdin.data else []
  }

  predicate DataPackets(ps: seq<Packet>) {
    forall p :: p in ps ==> p.kind == SHELL_STDIN && |p.data| <= STDIN_BUFFER
  }

  predicate Closing(ps: seq<Packet>) {
    ps != [] && ps[|ps| - 1] == CLOSE_STDIN && DataPackets(ps[..|ps| - 1])
  }

  predicate StdinInv(c: Config, s: State) {
    && Payloads(s.sent) + InFlight(s) + s.dropped + s.input == (if c.hasStdin then c.input else [])
    && |InFlight(s)| <= STDIN_BUFFER
    && (s.stdin.InTesting? || s.stdin.InReading? || s.stdin.InSending? ==> s.dropped == [])
    && (s.wireOk ==> s.wire == EncodeAll(s.sent))
    && (DataPackets(s.sent) || (Closing(s.sent) && s.input == [] && (s.stdin.InEnded? || s.stdin.InFailed?)))
    && (s.stdin == InClosing ==> s.input == [])
  }

  lemma PutKeeps(s: State, p: Packet, n: nat)
    requires n <= |Encode(p)| && (s.wireOk ==> s.wire == EncodeAll(s.sent))
    ensures var t := PutOnWire(s, p, n);
            (t.wireOk ==> t.wire == EncodeAll(t.sent)) && t.sent[..|t.sent| - 1] == s.sent
            && Payloads(t.sent) == Payloads(s.sent) + p.data
            && t == s.(sent := s.sent + [p], wire := t.wire, wireOk := t.wireOk)
  {
    hide Encode;
    var t := PutOnWire(s, p, n);
    assert t.sent[..|t.sent| - 1] == s.sent;
    Whole(Encode(p));
  }

  /** A read of n bytes moves them from the input to what is in flight or dropped. */
  lemma InputMoves(sent: seq<Byte>, input: seq<Byte>, n: nat)
    requires n <= |input|
    ensures sent + [] + [] + input == sent + input[..n] + [] + input[n..] == sent + [] + input[..n] + input[n..]
  {
    Glue(input, n);
  }

  predicate StdinStep(step: Step) {
    step.StdinTest? || step.StdinData? || step.StdinEnd? || step.StdinError? || step.StdinSend? || step.StdinClose?
    || step.TakeFromStdin?
  }

  lemma OtherStepsFrame(c: Config, s: State, step: Step)
    requires Enabled(c, s, step) && !StdinStep(step)
    ensures var t := Apply(c, s, step);
            t.input == s.input && t.dropped == s.dropped && t.sent == s.sent && t.wire == s.wire
            && t.wireOk == s.wireOk && t.stdin == s.stdin
  {
    hide Encode, NextPacket, Handle, PutOnWire;
    if step.ReaderHandle? {
      HandleFrame(c, s, step.ok);
    }
  }

  lemma ReadKeepsStdinInv(c: Config, s: State, step: Step)
    requires StdinInv(c, s) && Enabled(c, s, step) && (step.StdinData? || step.StdinEnd? || step.StdinError?)
    ensures StdinInv(c, Apply(c, s, step))
  {
    hide Encode, EncodeAll, NextPacket, Payloads, DataPackets;
    InputMoves(Payloads(s.sent), s.input, step.n);
    ClosingIsNotDataOrEnded(s);
  }

  lemma ClosingIsNotDataOrEnded(s: State)
    ensures Closing(s.sent) ==> !DataPackets(s.sent)
  {
    if Closing(s.sent) {
      ClosingIsNotData(s.sent);
    }
  }

  lemma OneMoreData(ps: seq<Packet>, p: Packet)
    requires p.kind == SHELL_STDIN && |p.data| <= STDIN_BUFFER
    ensures DataPackets(ps) ==> DataPackets(ps + [p])
  {
  }

  lemma SendKeepsStdinInv(c: Config, s: State, n: nat)
    requires StdinInv(c, s) && Enabled(c, s, StdinSend(n))
    ensures StdinInv(c, Apply(c, s, StdinSend(n)))
  {
    hide Encode, EncodeAll, Payloads, PutOnWire, DataPackets;
    var d := s.stdin.data;
    PutKeeps(s, Packet(SHELL_STDIN, d), n);
    OneMoreData(s.sent, Packet(SHELL_STDIN, d));
    Whole(Payloads(s.sent) + d);
  }

  /** What the close-stdin packet changes. */
  lemma CloseStep(c: Config, s: State, n: nat)
    requires StdinInv(c, s) && Enabled(c, s, StdinClose(n))
    ensures var t := Apply(c, s, StdinClose(n));
            && s.stdin.InClosing? && (t.stdin.InEnded? || t.stdin.InFailed?)
            && t.input == s.input && t.dropped == s.dropped
            && Payloads(t.sent) == Payloads(s.sent) && t.sent == s.sent + [CLOSE_STDIN]
            && (t.wireOk ==> t.wire == EncodeAll(t.sent))
  {
    hide Encode, EncodeAll, Payloads, DataPackets, PutOnWire, Closing;
    PutKeeps(s, CLOSE_STDIN, n);
    Whole(Payloads(s.sent));
  }

  lemma CloseKeepsStdinInv(c: Config, s: State, n: nat)
    requires StdinInv(c, s) && Enabled(c, s, StdinClose(n))
    ensures StdinInv(c, Apply(c, s, StdinClose(n)))
  {
    hide Enabled, Apply, Encode, EncodeAll, Payloads, DataPackets, Closing;
    CloseStep(c, s, n);
    ClosingNow(s.sent);
  }

  lemma ClosingNow(ps: seq<Packet>)
    ensures DataPackets(ps) ==> Closing(ps + [CLOSE_STDIN])
  {
    assert (ps + [CLOSE_STDIN])[..|ps|] == ps;
  }

  lemma StepKeepsStdinInv(c: Config, s: State, step: Step)
    requires StdinInv(c, s) && Enabled(c, s, step)
    ensures StdinInv(c, Apply(c, s, step))
  {
    hide Encode, EncodeAll, NextPacket, Payloads, Handle, DataPackets;
    if step.StdinData? || step.StdinEnd? || step.StdinError? {
      ReadKeepsStdinInv(c, s, step);
    } else if step.StdinSend? {
      SendKeepsStdinInv(c, s, step.n);
    } else if step.StdinClose? {
      CloseKeepsStdinInv(c, s, step.n);
    } else if !StdinStep(step) {
      OtherStepsFrame(c, s, step);
    }
  }

  /** The source reports its end, or its error, without bytes. */
  predicate BareEnd(step: Step) {
    step.StdinEnd? || step.StdinError? ==> step.n == 0
  }

  /** Bytes are lost by a read that brings them together with an end, and by nothing else. */
  lemma StepKeepsDropped(c: Config, s: State, step: Step)
    requires StdinInv(c, s) && Enabled(c, s, step)
    ensures Apply(c, s, step).dropped == [] <==> s.dropped == [] && BareEnd(step)
  {
    hide Encode, EncodeAll, NextPacket, Payloads, Handle, DataPackets, Closing;
    if step.StdinSend? {
      PutOnWireFrame(s, Packet(SHELL_STDIN, s.stdin.data), step.n);
    } else if step.StdinClose? {
      PutOnWireFrame(s, CLOSE_STDIN, step.n);
    } else if !StdinStep(step) {
      OtherStepsFrame(c, s, step);
    }
  }

  /** The close-stdin packet is completely on the wire, last. */
  predicate Sealed(wire: seq<Byte>) {
    var close := Encode(CLOSE_STDIN);
    |wire| >= |close| && wire[|wire| - |close|..] == close
  }

  lemma SealedNow(wire: seq<Byte>)
    ensures Sealed(wire + Encode(CLOSE_STDIN)[..|Encode(CLOSE_STDIN)|])
  {
    Whole(Encode(CLOSE_STDIN));
  }

  /** The goroutine ends after the close-stdin packet, or because the session is being torn down. */
  predicate EndInv(s: State) {
    && (s.stdin.InEnded? ==> (Closing(s.sent) && Sealed(s.wire)) || s.abort || s.waiter.Aborting?)
    && (s.waiter.Disconnecting? ==> s.abort)
  }

  lemma StepKeepsEndInv(c: Config, s: State, step: Step)
    requires StdinInv(c, s) && EndInv(s) && Enabled(c, s, step)
    ensures EndInv(Apply(c, s, step))
  {
    hide Encode, EncodeAll, NextPacket, Payloads, Handle, DataPackets, PutOnWire, Closing, Sealed;
    if step.StdinSend? {
      PutOnWireFrame(s, Packet(SHELL_STDIN, s.stdin.data), step.n);
    } else if step.StdinClose? {
      CloseStep(c, s, step.n);
      ClosingNow(s.sent);
      PutOnWireFrame(s, CLOSE_STDIN, step.n);
      SealedNow(s.wire);
      WireOfPut(s, step.n);
    } else if !StdinStep(step) {
      OtherStepsFrame(c, s, step);
      WaiterSteps(c, s, step);
    }
  }

  lemma WaiterSteps(c: Config, s: State, step: Step)
    requires Enabled(c, s, step) && !StdinStep(step)
    ensures var t := Apply(c, s, step);
            && (s.abort ==> t.abort) && (t.waiter.Disconnecting? ==> s.waiter.Disconnecting? || t.abort)
            && (s.waiter.Aborting? ==> t.waiter.Aborting? || t.abort)
  {
    hide Encode, NextPacket, Handle;
    if step.ReaderHandle? {
      HandleFrame(c, s, step.ok);
    }
  }

  lemma {:induction false} StdinRun(c: Config, steps: seq<Step>)
    requires Run(c, steps).Some? && c.hasStdin
    ensures var s := Run(c, steps).value;
            StdinInv(c, s) && EndInv(s) && (s.dropped == [] <==> forall x :: x in steps ==> BareEnd(x))
    decreases |steps|
  {
    hide Apply, Enabled, BareEnd;
    if steps == [] {
      StdinStarts(c);
    } else {
      hide StdinInv, EndInv;
      var front, last := steps[..|steps| - 1], steps[|steps| - 1];
      assert forall x :: x in steps <==> x in front || x == last;
      StdinRun(c, front);
      StepKeepsStdinInv(c, Run(c, front).value, last);
      StepKeepsEndInv(c, Run(c, front).value, last);
      StepKeepsDropped(c, Run(c, front).value, last);
    }
  }

  /**
    What the stdin goroutine sends, in every interleaving: data packets of at most 1024 bytes whose
    payloads are a prefix of the input, then at most one close-stdin packet, last. If the goroutine
    ends it has sent the close-stdin packet completely, or the session is aborted or about to be. With the
    close-stdin packet sent, the payloads are the whole input if and only if the source reported its
    end without bytes. As long as no write fails, the wire carries exactly these packets.
  */
  lemma StdinIsForwarded(c: Config, steps: seq<Step>)
    requires Run(c, steps).Some? && c.hasStdin
    ensures var s := Run(c, steps).value;
            && Payloads(s.sent) <= c.input
            && (DataPackets(s.sent) || Closing(s.sent))
            && (s.stdin.InEnded? ==> (Closing(s.sent) && Sealed(s.wire)) || s.abort || s.waiter.Aborting?)
            && (Closing(s.sent) ==> c.input == Payloads(s.sent) + s.dropped)
            && (Closing(s.sent) ==> (Payloads(s.sent) == c.input <==> forall x :: x in steps ==> BareEnd(x)))
            && (s.wireOk ==> s.wire == EncodeAll(s.sent))
  {
    hide Apply, Enabled, Encode, EncodeAll, Payloads, DataPackets, Run, BareEnd;
    StdinRun(c, steps);
    var s := Run(c, steps).value;
    if Closing(s.sent) {
      ClosingIsNotData(s.sent);
      Whole(Payloads(s.sent));
      Whole(Payloads(s.sent) + s.dropped);
    }
  }

  /** A source that ends with a bare end, and a session that is not torn down: nothing is lost. */
  lemma BareInputIsForwarded(c: Config, steps: seq<Step>)
    requires Run(c, steps).Some? && c.hasStdin && forall x :: x in steps ==> BareEnd(x)
    ensures var s := Run(c, steps).value;
            s.stdin.InEnded? && !s.abort && !s.waiter.Aborting? ==>
              Closing(s.sent) && Sealed(s.wire) && Payloads(s.sent) == c.input
  {
    hide *;
    StdinIsForwarded(c, steps);
  }

  /** One round of the goroutine forwards n bytes. */
  lemma ForwardRound(c: Config, steps: seq<Step>, n: nat) returns (more: seq<Step>)
    requires Run(c, steps).Some? && n <= STDIN_BUFFER
    requires var s := Run(c, steps).value;
             s.stdin.InTesting? && !s.abort && !s.closed && s.reader == Testing && n <= |s.input|
    ensures Run(c, more).Some? && (forall x :: x in more ==> x in steps || BareEnd(x))
    ensures var s, t := Run(c, steps).value, Run(c, more).value;
            && t.stdin.InTesting? && !t.abort && !t.closed && t.reader == Testing
            && t.input == s.input[n..] && t.wireOk == s.wireOk
  {
    hide Run, Encode;
    var s := Run(c, steps).value;
    var size := |Encode(Packet(SHELL_STDIN, s.input[..n]))|;
    RunOneMore(c, steps, StdinTest);
    RunOneMore(c, steps + [StdinTest], StdinData(n));
    RunOneMore(c, steps + [StdinTest] + [StdinData(n)], StdinSend(size));
    more := steps + [StdinTest] + [StdinData(n)] + [StdinSend(size)];
  }

  lemma {:induction false} ForwardSome(c: Config, n: nat) returns (steps: seq<Step>)
    requires c.hasStdin && n <= |c.input|
    ensures Run(c, steps).Some? && forall x :: x in steps ==> BareEnd(x)
    ensures var s := Run(c, steps).value;
            s.stdin.InTesting? && !s.abort && !s.closed && s.reader == Testing && s.input == c.input[n..] && s.wireOk
    decreases n
  {
    if n == 0 {
      steps := [];
      Whole(c.input);
    } else {
      hide Run, BareEnd;
      var m := if n <= STDIN_BUFFER then 0 else n - STDIN_BUFFER;
      var front := ForwardSome(c, m);
      steps := ForwardRound(c, front, n - m);
      Slice(c.input, m, n);
    }
  }

  /** The last round: the source reports its end together with its last n bytes. */
  lemma EndRound(c: Config, steps: seq<Step>) returns (more: seq<Step>)
    requires Run(c, steps).Some? && c.hasStdin
    requires var s := Run(c, steps).value;
             s.stdin.InTesting? && !s.abort && !s.closed && s.reader == Testing && |s.input| <= STDIN_BUFFER && s.wireOk
    ensures var n := |Run(c, steps).value.input|;
            more == steps + [StdinTest] + [StdinEnd(n)] + [StdinClose(|Encode(CLOSE_STDIN)|)]
    ensures Run(c, more).Some?
    ensures var t := Run(c, more).value; t.stdin.InEnded? && Closing(t.sent) && !t.abort && t.wireOk
  {
    hide Run, Encode, Payloads, EncodeAll;
    var s := Run(c, steps).value;
    var n, size := |s.input|, |Encode(CLOSE_STDIN)|;
    RunOneMore(c, steps, StdinTest);
    RunOneMore(c, steps + [StdinTest], StdinEnd(n));
    RunOneMore(c, steps + [StdinTest] + [StdinEnd(n)], StdinClose(size));
    more := steps + [StdinTest] + [StdinEnd(n)] + [StdinClose(size)];
    StdinRun(c, steps);
    ClosingIsNotDataOrEnded(s);
    ClosingNow(s.sent);
  }

  /** For every input there is a run that forwards all of it and closes stdin. */
  lemma InputIsForwarded(c: Config) returns (steps: seq<Step>)
    requires c.hasStdin
    ensures Run(c, steps).Some?
    ensures var s := Run(c, steps).value;
            s.stdin.InEnded? && Closing(s.sent) && Payloads(s.sent) == c.input && s.wire == EncodeAll(s.sent)
  {
    hide Run, Encode, EncodeAll, Payloads, Closing;
    var front := ForwardSome(c, |c.input|);
    Whole(c.input);
    steps := EndRound(c, front);
    StdinIsForwarded(c, steps);
  }

  /** And for every short non-empty input one that loses all of it, without an error. */
  lemma InputIsLost(c: Config) returns (steps: seq<Step>)
    requires c.hasStdin && 0 < |c.input| <= STDIN_BUFFER
    ensures Run(c, steps).Some?
    ensures var s := Run(c, steps).value;
            s.stdin.InEnded? && s.sent == [CLOSE_STDIN] && s.wire == Encode(CLOSE_STDIN) && !s.abort
  {
    hide Run, Encode;
    var n, size := |c.input|, |Encode(CLOSE_STDIN)|;
    assert Run(c, []) == Some(Started(c)) by { RunOfNothing(c); }
    RunOneMore(c, [], StdinTest);
    RunOneMore(c, [] + [StdinTest], StdinEnd(n));
    RunOneMore(c, [] + [StdinTest] + [StdinEnd(n)], StdinClose(size));
    steps := [] + [StdinTest] + [StdinEnd(n)] + [StdinClose(size)];
    Whole(Encode(CLOSE_STDIN));
  }

  lemma RunOfNothing(c: Config)
    ensures Run(c, []) == Some(Started(c))
  {
  }

  /** Without Stdin, the close-stdin packet is all that is ever sent. */
  lemma {:induction false} NoStdinIsClosed(c: Config, steps: seq<Step>)
    requires Run(c, steps).Some? && !c.hasStdin
    ensures var s := Run(c, steps).value; s.stdin.InEnded? && s.sent == [CLOSE_STDIN] && s.wire == Encode(CLOSE_STDIN)
    decreases |steps|
  {
    if steps != [] {
      hide Apply, Encode;
      var front, last := steps[..|steps| - 1], steps[|steps| - 1];
      NoStdinIsClosed(c, front);
      OtherStepsFrame(c, Run(c, front).value, last);
    }
  }

  lemma StdinStarts(c: Config)
    requires c.hasStdin
    ensures StdinInv(c, Started(c))
  {
    Whole(c.input);
  }

  lemma ClosingIsNotData(ps: seq<Packet>)
    requires Closing(ps)
    ensures !DataPackets(ps)
  {
    assert ps[|ps| - 1] in ps;
  }
}
