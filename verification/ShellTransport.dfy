/** Packets of the shell v2 protocol. */
module ShellTransport {
  import opened Bytes
  import opened Net

  const SHELL_STDIN: Byte := 0
  const SHELL_STDOUT: Byte := 1
  const SHELL_STDERR: Byte := 2
  const SHELL_EXIT: Byte := 3
  const SHELL_CLOSE_STDIN: Byte := 4

  datatype Packet = Packet(kind: Byte, data: seq<Byte>)

  function Encode(p: Packet): seq<Byte> {
    [p.kind] + PutUint32(|p.data|) + p.data
  }

  function EncodeAll(ps: seq<Packet>): seq<Byte> {
    if ps == [] then [] else EncodeAll(ps[..|ps| - 1]) + Encode(ps[|ps| - 1])
  }

  datatype ReadOutcome = ReadOutcome(packet: Packet, err: Option<Error>, rest: seq<Byte>)

  /**
    shellTransport.Read as a function of the bytes still to come: io.EOF only between packets. A cut
    body comes back with its error, filled up with zeros.
  */
  function NextPacket(s: seq<Byte>, ending: Error): ReadOutcome {
    if s == [] then ReadOutcome(Packet(255, []), Some(if ending == EOF then EOF else Wrapped(ending)), [])
    else if |s| < 5 then ReadOutcome(Packet(s[0], []), Some(Wrapped(FullError(|s| - 1, 4, ending).value)), [])
    else
      var length, body := Uint32(s[1..5]), s[5..];
      if |body| < length then
        ReadOutcome(Packet(s[0], body + Zeros(length - |body|)),
                    Some(Wrapped(FullError(|body|, length, ending).value)), [])
      else ReadOutcome(Packet(s[0], body[..length]), None, body[length..])
  }

  method Send(sock: NetConn<Byte>, command: Byte, data: seq<Byte>) returns (err: Option<Error>)
    modifies sock`outgoing
    ensures old(sock.outgoing) <= sock.outgoing <= old(sock.outgoing) + Encode(Packet(command, data))
    ensures err.None? <==> sock.outgoing == old(sock.outgoing) + Encode(Packet(command, data))
  {
    var msg: seq<Byte> := [command];
    msg := msg + PutUint32(|data|);
    msg := msg + data;
    var n;
    n, err := sock.Write(msg);
  }

  /** The part of a stream behind a packet's kind and length. */
  lemma StreamParts(s: seq<Byte>)
    requires |s| >= 5
    ensures s[1..][..4] == s[1..5] && s[1..][4..] == s[5..]
  {
  }

  method Read(sock: NetConn<Byte>) returns (command: Byte, data: seq<Byte>, err: Option<Error>)
    modifies sock`incoming
    ensures ReadOutcome(Packet(command, data), err, sock.incoming) == NextPacket(old(sock.incoming), sock.ending)
  {
    hide Uint32, Zeros;
    var head := new Byte[1];
    var n, e := sock.ReadFull(head, 0, 1);
    if e == Some(EOF) {
      return 255, [], e;
    }
    if e.Some? {
      return 255, [], Some(Wrapped(e.value));
    }
    assert head[..] == old(sock.incoming)[..1];
    command := head[0];
    var word := new Byte[4];
    n, e := sock.ReadFull(word, 0, 4);
    if e.Some? {
      return command, [], Some(Wrapped(e.value));
    }
    StreamParts(old(sock.incoming));
    var msgLen := Uint32(word[..]);
    data, e := ReadZeroFilled(sock, msgLen);
    if e.Some? {
      return command, data, Some(Wrapped(e.value));
    }
    return command, data, None;
  }

  lemma PacketParts(kind: Byte, word: seq<Byte>, body: seq<Byte>)
    requires |word| == 4
    ensures var s := [kind] + word + body; |s| == 5 + |body| && s[0] == kind && s[1..5] == word && s[5..] == body
  {
  }

  /**
    Every packet, read off the stream: whole exactly if as many bytes follow its header as it says;
    io.EOF exactly where a clean end comes between two packets.
  */
  lemma PacketAnswers(s: seq<Byte>, ending: Error)
    ensures var r := NextPacket(s, ending);
            && (r.err == Some(EOF) <==> s == [] && ending == EOF)
            && (r.err.None? <==> |s| >= 5 && |s| - 5 >= Uint32(s[1..5]))
            && (r.err.None? ==>
                  r.packet == Packet(s[0], s[5..5 + Uint32(s[1..5])]) && r.rest == s[5 + Uint32(s[1..5])..])
            && (r.err.Some? ==>
                  r.rest == [] && (Is(r.err.value, ending) || (ending == EOF && Is(r.err.value, UnexpectedEOF))))
            && (r.err.Some? && s != [] ==> r.packet.kind == s[0])
            && (r.err.Some? && |s| >= 5 ==>
                  |r.packet.data| == Uint32(s[1..5]) && s[5..] <= r.packet.data
                  && forall i :: |s| - 5 <= i < |r.packet.data| ==> r.packet.data[i] == 0)
  {
    hide Uint32;
    IsItself(ending);
    IsItself(UnexpectedEOF);
    if |s| >= 5 && |s| - 5 >= Uint32(s[1..5]) {
      assert s[5..][..Uint32(s[1..5])] == s[5..5 + Uint32(s[1..5])];
      assert s[5..][Uint32(s[1..5])..] == s[5 + Uint32(s[1..5])..];
    }
  }

  /** The kinds, and packets as they are on the wire. */
  lemma PacketExamples()
    ensures Encode(Packet(SHELL_STDOUT, [104, 105])) == [1, 2, 0, 0, 0, 104, 105]
    ensures Encode(Packet(SHELL_STDERR, [])) == [2, 0, 0, 0, 0]
    ensures Encode(Packet(SHELL_EXIT, [255])) == [3, 1, 0, 0, 0, 255]
    ensures Encode(Packet(SHELL_STDIN, [0])) == [0, 1, 0, 0, 0, 0]
    ensures Encode(Packet(SHELL_CLOSE_STDIN, [])) == [4, 0, 0, 0, 0]
  {
    LittleEndian(0);
    LittleEndian(1);
    LittleEndian(2);
    assert PutUint32(0) == [0, 0, 0, 0] && PutUint32(1) == [1, 0, 0, 0] && PutUint32(2) == [2, 0, 0, 0];
  }

  /** A packet is read back, and only its own bytes are taken. */
  lemma PacketIsRead(p: Packet, rest: seq<Byte>, ending: Error)
    requires |p.data| < TWO_TO_32
    ensures NextPacket(Encode(p) + rest, ending) == ReadOutcome(p, None, rest)
  {
    hide PutUint32, Uint32;
    var head := [p.kind] + PutUint32(|p.data|);
    Assoc(head, p.data, rest);
    PacketParts(p.kind, PutUint32(|p.data|), p.data + rest);
    Uint32OfPut(|p.data|);
    Cut(p.data, rest);
  }

  /** What a successful read has taken off the stream is the encoding of its result. */
  lemma ReadIsPacket(s: seq<Byte>, ending: Error)
    requires NextPacket(s, ending).err.None?
    ensures var r := NextPacket(s, ending); s == Encode(r.packet) + r.rest && |r.packet.data| < TWO_TO_32
  {
    hide PutUint32, Uint32;
    var r := NextPacket(s, ending);
    PutOfUint32(s[1..5]);
    assert s == [s[0]] + s[1..5] + s[5..];
    Glue(s[5..], |r.packet.data|);
    Assoc([s[0]] + s[1..5], r.packet.data, r.rest);
  }

  predicate Encodable(ps: seq<Packet>) {
    forall p :: p in ps ==> |p.data| < TWO_TO_32
  }

  function ReadPackets(s: seq<Byte>, k: nat, ending: Error): Option<(seq<Packet>, seq<Byte>)> {
    if k == 0 then Some(([], s))
    else
      var front := ReadPackets(s, k - 1, ending);
      if front.None? then None
      else
        var r := NextPacket(front.value.1, ending);
        if r.err.Some? then None else Some((front.value.0 + [r.packet], r.rest))
  }

  /** Any packets, followed by anything, are read back in order with equal kinds and payloads. */
  lemma {:induction false} PacketsAreRead(ps: seq<Packet>, rest: seq<Byte>, ending: Error)
    requires Encodable(ps)
    ensures ReadPackets(EncodeAll(ps) + rest, |ps|, ending) == Some((ps, rest))
    decreases |ps|
  {
    hide NextPacket, Encode;
    if ps == [] {
      Whole(rest);
    } else {
      var front, last := ps[..|ps| - 1], ps[|ps| - 1];
      PacketsAreRead(front, Encode(last) + rest, ending);
      PacketIsRead(last, rest, ending);
      Assoc(EncodeAll(front), Encode(last), rest);
      assert front + [last] == ps;
    }
  }
}
