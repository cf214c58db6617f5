/** The host protocol: hexadecimal length, payload, and one 4-byte buffer shared by all reads. */
module HostConn {
  import opened Bytes
  import opened Net
  import opened Numbers

  const MAX_PAYLOAD_V1_LENGTH := 4096

  function MessageFrame(m: string): string {
    Hex4(|m|) + m
  }

  datatype Message = Message(data: string, err: Option<Error>, rest: string)

  /** readMessage as a function of the bytes still to come; `width` is the length of the header buffer. */
  function NextMessage(s: string, width: nat, ending: Error): Message {
    if |s| < width then Message("", Some(ConnectionReset), "")
    else
      var length, body := ParseInt(s[..width], 16), s[width..];
      if length.None? then Message("", Some(AssertionError), body)
      else if length.value < 0 then Message("", Some(Panic), body)
      else
        var n := Min(length.value, |body|);
        var e := FullError(n, length.value, ending);
        var err := if e == Some(UnexpectedEOF) then Some(ConnectionReset)
                   else if e.Some? then Some(Wrapped(e.value)) else None;
        Message(body[..n], err, body[n..])
  }

  /** readStatusFailureAsError: on FAIL the message that follows becomes the error. */
  function NextStatus(s: string, width: nat, ending: Error): Message {
    if |s| < 4 then
      var e := FullError(|s|, 4, ending).value;
      Message("", Some(Wrapped(if e == UnexpectedEOF then ConnectionReset else e)), "")
    else if s[..4] == "FAIL" then
      var m := NextMessage(s[4..], width, ending);
      Message("", Some(if m.err.Some? then Wrapped(m.err.value) else ServerError(m.data)), m.rest)
    else Message(s[..4], None, s[4..])
  }

  /** The header fills the whole buffer, so it is four bytes only if the buffer is. */
  method ReadHexLength(conn: NetConn<char>, buf: array<char>) returns (length: int, err: Option<Error>)
    modifies buf, conn`incoming
    ensures |old(conn.incoming)| < buf.Length ==> err == Some(ConnectionReset) && conn.incoming == ""
    ensures |old(conn.incoming)| >= buf.Length ==>
              && buf[..] == old(conn.incoming)[..buf.Length]
              && conn.incoming == old(conn.incoming)[buf.Length..]
              && var parsed := ParseInt(old(conn.incoming)[..buf.Length], 16);
                 if parsed.None? then err == Some(AssertionError) else err == None && length == parsed.value
  {
    var n, e := conn.ReadFull(buf, 0, buf.Length);
    if e.Some? {
      return 0, Some(ConnectionReset);
    }
    assert buf[..] == old(conn.incoming)[..n];
    var parsed := ParseInt(buf[..], 16);
    if parsed.None? {
      return 0, Some(AssertionError);
    }
    return parsed.value, None;
  }

  /**
    The message is `out[..n]`. A message longer than the header buffer is in a fresh array; a
    shorter one is in the buffer itself, behind it what is left of the header.
  */
  method ReadMessageInto(conn: NetConn<char>, buffer: array<char>)
      returns (out: array<char>, n: nat, err: Option<Error>)
    modifies buffer, conn`incoming
    ensures n <= out.Length && (out == buffer || fresh(out))
    ensures var width := if buffer.Length < 4 then 4 else buffer.Length;
            Message(out[..n], err, conn.incoming) == NextMessage(old(conn.incoming), width, conn.ending)
    ensures buffer.Length >= 4 && err.None? ==>
              var header := old(conn.incoming)[..buffer.Length];
              if n > buffer.Length then fresh(out) && buffer[..] == header
              else out == buffer && buffer[..] == out[..n] + header[n..]
  {
    var buf := buffer;
    if buf.Length < 4 {
      buf := new char[4];
    }
    out := buf;
    ghost var stream := conn.incoming;
    var length;
    length, err := ReadHexLength(conn, buf);
    if err.Some? {
      return out, 0, err;
    }
    if length > buf.Length {
      out := new char[length];
    }
    if length < 0 {
      return out, 0, Some(Panic);
    }
    n, err := conn.ReadFull(out, 0, length);
    assert out[..n] == out[0..n];
    if err == Some(UnexpectedEOF) {
      return out, n, Some(ConnectionReset);
    } else if err.Some? {
      return out, n, Some(Wrapped(err.value));
    }
    if out == buffer {
      assert buffer[..] == buffer[..n] + buffer[n..];
    }
    return out, n, None;
  }

  /** What is left of a stream after reads of messages (true) and statuses (false). */
  function AfterReads(s: string, kinds: seq<bool>, ending: Error): string {
    if kinds == [] then s
    else
      var before := AfterReads(s, kinds[..|kinds| - 1], ending);
      if kinds[|kinds| - 1] then NextMessage(before, 4, ending).rest else NextStatus(before, 4, ending).rest
  }

  class Conn {
    const conn: NetConn<char>
    const rbuf: array<char>

    ghost predicate Valid() {
      rbuf.Length == 4
    }

    constructor (conn: NetConn<char>)
      ensures Valid() && this.conn == conn && fresh(rbuf)
    {
      this.conn := conn;
      rbuf := new char[4];
    }

    method SendMessage(msg: string) returns (err: Option<Error>)
      modifies conn`outgoing
      ensures err == Some(TooLong) <==> |msg| > MAX_PAYLOAD_V1_LENGTH
      ensures err == Some(TooLong) ==> conn.outgoing == old(conn.outgoing)
      ensures err.None? || err == Some(TooLong) || err == Some(Network(0))
      ensures old(conn.outgoing) <= conn.outgoing <= old(conn.outgoing) + MessageFrame(msg)
      ensures err.None? <==> |msg| <= MAX_PAYLOAD_V1_LENGTH && conn.outgoing == old(conn.outgoing) + MessageFrame(msg)
    {
      FrameIsNotEmpty(msg, conn.outgoing);
      if |msg| > MAX_PAYLOAD_V1_LENGTH {
        return Some(TooLong);
      }
      var n;
      n, err := conn.Write(Hex4(|msg|) + msg);
    }

    method ReadMessage() returns (out: array<char>, n: nat, err: Option<Error>)
      requires Valid()
      modifies rbuf, conn`incoming
      ensures n <= out.Length
      ensures Message(out[..n], err, conn.incoming) == NextMessage(old(conn.incoming), 4, conn.ending)
      ensures out == rbuf || fresh(out)
      ensures err.None? ==>
                var header := old(conn.incoming)[..4];
                if n > 4 then fresh(out) && rbuf[..] == header
                else out == rbuf && rbuf[..] == out[..n] + header[n..]
    {
      out, n, err := ReadMessageInto(conn, rbuf);
    }

    method ReadStatus() returns (status: string, err: Option<Error>)
      requires Valid()
      modifies rbuf, conn`incoming
      ensures Message(status, err, conn.incoming) == NextStatus(old(conn.incoming), 4, conn.ending)
    {
      var n, e := conn.ReadFull(rbuf, 0, 4);
      if e == Some(UnexpectedEOF) {
        return "", Some(Wrapped(ConnectionReset));
      } else if e.Some? {
        return "", Some(Wrapped(e.value));
      }
      assert rbuf[..4] == old(conn.incoming)[..4];
      status := rbuf[..4];
      if status == "FAIL" {
        var msg, k, e2 := ReadMessageInto(conn, rbuf);
        if e2.Some? {
          return "", Some(Wrapped(e2.value));
        }
        return "", Some(ServerError(msg[..k]));
      }
      return status, None;
    }

    /**
      A request is answered by a status and, after OKAY, one message. A request that is too long or
      not completely written is an error, and then nothing is read.
    */
    method RoundTripSingleResponse(req: string) returns (out: array<char>, n: nat, err: Option<Error>)
      requires Valid()
      modifies rbuf, conn
      ensures n <= out.Length
      ensures old(conn.outgoing) <= conn.outgoing <= old(conn.outgoing) + MessageFrame(req)
      ensures |req| > MAX_PAYLOAD_V1_LENGTH || conn.outgoing != old(conn.outgoing) + MessageFrame(req) ==>
                && n == 0 && conn.incoming == old(conn.incoming)
                && err == Some(if |req| > MAX_PAYLOAD_V1_LENGTH then TooLong else Network(0))
                && (|req| > MAX_PAYLOAD_V1_LENGTH ==> conn.outgoing == old(conn.outgoing))
      ensures |req| <= MAX_PAYLOAD_V1_LENGTH && conn.outgoing == old(conn.outgoing) + MessageFrame(req) ==>
                var status := NextStatus(old(conn.incoming), 4, conn.ending);
                if status.err.Some? then n == 0 && err == status.err && conn.incoming == status.rest
                else Message(out[..n], err, conn.incoming) == NextMessage(status.rest, 4, conn.ending)
    {
      out, n := rbuf, 0;
      err := SendMessage(req);
      if err.Some? {
        return;
      }
      var status;
      status, err := ReadStatus();
      if err.Some? {
        return;
      }
      out, n, err := ReadMessage();
    }

    /**
      Two messages read one after the other. The first result survives the second read if it is
      longer than four bytes; otherwise it shows the second header and short second payload.
    */
    method ReadTwoMessages() returns (first: array<char>, n: nat, second: array<char>, m: nat, err: Option<Error>)
      requires Valid()
      modifies rbuf, conn`incoming
      ensures n <= first.Length && m <= second.Length
      ensures err.None? ==>
                var one := NextMessage(old(conn.incoming), 4, conn.ending);
                var two := NextMessage(one.rest, 4, conn.ending);
                && n == |one.data| && second[..m] == two.data && conn.incoming == two.rest && |one.rest| >= 4
                && (n > 4 ==> first[..n] == one.data)
                && (n <= 4 ==> first[..n] == (if m > 4 then one.rest[..4] else two.data + one.rest[m..4])[..n])
    {
      first, n, err := ReadMessage();
      second, m := rbuf, 0;
      if err.Some? {
        return;
      }
      ghost var one := first[..n];
      second, m, err := ReadMessage();
      if err.None? && n <= 4 {
        assert first[..n] == rbuf[..][..n];
      }
    }

    /**
      A message, then any number of later reads of messages (true) and statuses (false), failed
      ones included: a message longer than four bytes keeps its contents through all of them.
    */
    method ReadAndKeepReading(later: seq<bool>) returns (first: array<char>, n: nat, err: Option<Error>)
      requires Valid()
      modifies rbuf, conn`incoming
      ensures n <= first.Length
      ensures var one := NextMessage(old(conn.incoming), 4, conn.ending);
              && err == one.err && n == |one.data| && (n > 4 ==> fresh(first) && first[..n] == one.data)
              && (n <= 4 && err.None? ==> first == rbuf)
              && conn.incoming == AfterReads(one.rest, later, conn.ending)
    {
      hide NextMessage, NextStatus;
      first, n, err := ReadMessage();
      ghost var one := NextMessage(old(conn.incoming), 4, conn.ending);
      for i := 0 to |later|
        invariant n > 4 ==> first[..n] == one.data
        invariant conn.incoming == AfterReads(one.rest, later[..i], conn.ending)
      {
        assert later[..i + 1][..i] == later[..i];
        if later[i] {
          var out, k, e := ReadMessage();
        } else {
          var status, e := ReadStatus();
        }
      }
      assert later[..|later|] == later;
    }
  }

  lemma FrameIsNotEmpty(msg: string, before: string)
    ensures before + MessageFrame(msg) != before
  {
    assert |Hex4(|msg|)| > 0;
  }

  // --------------------------------------------------------- unique decoding

  predicate Sendable(msgs: seq<string>) {
    forall m :: m in msgs ==> |m| <= MAX_PAYLOAD_V1_LENGTH
  }

  function Frames(msgs: seq<string>): string {
    if msgs == [] then "" else MessageFrame(msgs[0]) + Frames(msgs[1..])
  }

  /** `k` ReadMessage calls; None if one of them fails. */
  function ReadMessages(s: string, k: nat, ending: Error): Option<(seq<string>, string)> {
    if k == 0 then Some(([], s))
    else
      var m := NextMessage(s, 4, ending);
      if m.err.Some? then None
      else
        var r := ReadMessages(m.rest, k - 1, ending);
        if r.None? then None else Some(([m.data] + r.value.0, r.value.1))
  }

  lemma FrameIsRead(m: string, rest: string, ending: Error)
    requires |m| < 65536
    ensures |MessageFrame(m)| == 4 + |m|
    ensures NextMessage(MessageFrame(m) + rest, 4, ending) == Message(m, None, rest)
  {
    ParseOfHex4(|m|);
    var s := MessageFrame(m) + rest;
    assert s[..4] == Hex4(|m|) && s[4..] == m + rest;
    Cut(m, rest);
  }

  /** Any messages, followed by anything, are read back in order; the rest is left untouched. */
  lemma {:induction false} FramesAreRead(msgs: seq<string>, suffix: string, ending: Error)
    requires Sendable(msgs)
    ensures ReadMessages(Frames(msgs) + suffix, |msgs|, ending) == Some((msgs, suffix))
  {
    hide NextMessage, MessageFrame, ReadMessages;
    if msgs == [] {
      NoMessages(suffix, ending);
    } else {
      assert forall m :: m in msgs[1..] ==> m in msgs;
      FramesAreRead(msgs[1..], suffix, ending);
      FrameIsRead(msgs[0], Frames(msgs[1..]) + suffix, ending);
      Assoc(MessageFrame(msgs[0]), Frames(msgs[1..]), suffix);
      ReadMessagesStep(Frames(msgs) + suffix, |msgs|, ending);
      assert [msgs[0]] + msgs[1..] == msgs;
    }
  }

  lemma NoMessages(s: string, ending: Error)
    ensures ReadMessages("" + s, 0, ending) == Some(([], s))
  {
    Whole(s);
  }

  lemma ReadMessagesStep(s: string, k: nat, ending: Error)
    requires k > 0 && NextMessage(s, 4, ending).err.None?
    ensures var m := NextMessage(s, 4, ending);
            var r := ReadMessages(m.rest, k - 1, ending);
            ReadMessages(s, k, ending) == (if r.None? then None else Some(([m.data] + r.value.0, r.value.1)))
  {
    hide NextMessage;
  }

  /** No two histories of the same length look alike, whatever follows them. */
  lemma FramesAreUnique(a: seq<string>, s: string, b: seq<string>, t: string)
    requires Sendable(a) && Sendable(b) && |a| == |b|
    ensures Frames(a) + s == Frames(b) + t <==> a == b && s == t
  {
    FramesAreRead(a, s, EOF);
    FramesAreRead(b, t, EOF);
  }

  /** OKAY takes four bytes, FAIL eight and its message. */
  lemma StatusConsumption(m: string, rest: string, ending: Error)
    requires |m| < 65536
    ensures NextStatus("OKAY" + rest, 4, ending) == Message("OKAY", None, rest)
    ensures NextStatus("FAIL" + MessageFrame(m) + rest, 4, ending) == Message("", Some(ServerError(m)), rest)
    ensures |"FAIL" + MessageFrame(m)| == 8 + |m|
  {
    Cut("OKAY", rest);
    FrameIsRead(m, rest, ending);
    Assoc("FAIL", MessageFrame(m), rest);
    Cut("FAIL", MessageFrame(m) + rest);
    assert "OKAY"[0] != "FAIL"[0];
  }

  /**
    Which failed reads count as a connection reset, the only error the device watcher recovers
    from: a cut header always, a cut body only after its first byte.
  */
  lemma ResetErrors(s: string, ending: Error)
    ensures var err := NextMessage(s, 4, ending).err;
            err.Some? && Is(err.value, ConnectionReset) <==>
            |s| < 4 ||
            (var length := ParseInt(s[..4], 16);
             length.Some? && |s| - 4 < length.value
             && (Is(ending, ConnectionReset) || ending == UnexpectedEOF || (ending == EOF && |s| > 4)))
  {
    hide ParseInt;
  }

  /**
    Every message, read off the stream: without an error exactly if the header is a number that is
    not negative and that many bytes follow, which are then the message. A header that is no number
    is an assertion error; a cut message is an error of the connection or a reset.
  */
  lemma MessageAnswers(s: string, ending: Error)
    ensures var r := NextMessage(s, 4, ending);
            && (|s| < 4 ==> r == Message("", Some(ConnectionReset), ""))
            && (|s| >= 4 && !HexText(s[..4]) ==> r == Message("", Some(AssertionError), s[4..]))
            && (|s| >= 4 && HexText(s[..4]) ==>
                  var length := ParseInt(s[..4], 16);
                  && length.Some? && (r.err.None? <==> 0 <= length.value <= |s| - 4)
                  && (r.err.None? ==> r.data == s[4..4 + length.value] && r.rest == s[4 + length.value..])
                  && (length.value > |s| - 4 ==>
                        r.err.Some? && r.data == s[4..] && r.rest == ""
                        && (Is(r.err.value, ending) || r.err == Some(ConnectionReset))))
  {
    hide ParseInt;
    IsItself(ending);
    if |s| >= 4 {
      ParseIsHexText(s[..4]);
      var length := ParseInt(s[..4], 16);
      if length.Some? && 0 <= length.value <= |s| - 4 {
        assert s[4..][..length.value] == s[4..4 + length.value] && s[4..][length.value..] == s[4 + length.value..];
      } else if length.Some? && length.value >= 0 {
        Whole(s[4..]);
      }
    }
  }

  /** Every status: a success exactly if four bytes come that are not FAIL, and then it is these bytes. */
  lemma StatusAnswers(s: string, ending: Error)
    ensures var r := NextStatus(s, 4, ending);
            && (r.err.None? <==> |s| >= 4 && s[..4] != "FAIL")
            && (r.err.None? ==> r.data == s[..4] && r.rest == s[4..])
            && (|s| < 4 ==> r.data == "" && r.rest == "")
            && (|s| >= 4 && s[..4] == "FAIL" ==>
                  var m := NextMessage(s[4..], 4, ending);
                  r.data == "" && r.rest == m.rest
                  && r.err == Some(if m.err.Some? then Wrapped(m.err.value) else ServerError(m.data)))
  {
    hide NextMessage;
  }

  /** Which failed statuses count as a connection reset. */
  lemma StatusResets(s: string, ending: Error)
    ensures var err := NextStatus(s, 4, ending).err;
            err.Some? && Is(err.value, ConnectionReset) <==>
            if |s| < 4 then Is(ending, ConnectionReset) || ending == UnexpectedEOF || (ending == EOF && |s| > 0)
            else s[..4] == "FAIL" && var cut := NextMessage(s[4..], 4, ending).err;
                                     cut.Some? && Is(cut.value, ConnectionReset)
  {
    hide NextMessage;
  }

  /** Frames as they are on the wire. */
  lemma FrameExamples()
    ensures MessageFrame("host:version") == "000chost:version" && MessageFrame("") == "0000"
  {
    Hex4Examples();
    assert |"host:version"| == 12;
  }

  lemma LastDigit(front: string, c: char)
    ensures Value(front + [c], 16).Some? <==> Value(front, 16).Some? && DigitValue(c).Some?
    ensures Value(front + [c], 16) == Some(0) <==> Value(front, 16) == Some(0) && c == '0'
  {
    ValueOfLast(front, c, 16);
  }

  /** Three characters as a hexadecimal number. */
  lemma ThreeDigits(t: string)
    requires |t| == 3
    ensures Value(t, 16).Some? <==> AllDigits(t)
    ensures Value(t, 16) == Some(0) <==> t == "000"
  {
    assert t == [t[0]] + [t[1]] + [t[2]] && [t[0]] == "" + [t[0]];
    hide Value, DigitValue;
    NoDigits(16);
    LastDigit("", t[0]);
    LastDigit([t[0]], t[1]);
    LastDigit([t[0]] + [t[1]], t[2]);
    assert t == "000" <==> t[0] == '0' && t[1] == '0' && t[2] == '0';
    assert AllDigits(t) <==> DigitValue(t[0]).Some? && DigitValue(t[1]).Some? && DigitValue(t[2]).Some?;
  }

  /**
    Signs are accepted in a header. A read panics exactly if the header is a minus sign and three
    hexadecimal digits other than "000", that is if its length is negative.
  */
  lemma NegativeLengthPanics(s: string, ending: Error)
    ensures NextMessage(s, 4, ending).err == Some(Panic) <==>
            |s| >= 4 && s[0] == '-' && AllDigits(s[1..4]) && s[1..4] != "000"
    ensures NextMessage(s, 4, ending).err == Some(Panic) <==>
            |s| >= 4 && ParseInt(s[..4], 16).Some? && ParseInt(s[..4], 16).value < 0
  {
    hide Value, AllDigits;
    if |s| >= 4 {
      ThreeDigits(s[1..4]);
      SmallValue(s[1..4]);
      assert s[..4][1..] == s[1..4];
    }
  }

  lemma SmallValue(t: string)
    requires |t| == 3
    ensures Value(t, 16).Some? ==> Value(t, 16).value < 4096
  {
    assert t[..2][..1] == t[..1] && t[..1][..0] == "";
    assert Value(t[..1], 16).Some? ==> Value(t[..1], 16).value < 16;
    assert Value(t[..2], 16).Some? ==> Value(t[..2], 16).value < 256;
  }
}
