/** The binary sync protocol: request frames through a reused buffer, chunk headers, statuses. */
module SyncProtocol {
  import opened Bytes
  import opened Net

  const SYNC_MAX_CHUNK_SIZE := 65536

  const ID_DATA: seq<Byte> := [68, 65, 84, 65]
  const ID_DONE: seq<Byte> := [68, 79, 78, 69]
  const ID_FAIL: seq<Byte> := [70, 65, 73, 76]
  const ID_OKAY: seq<Byte> := [79, 75, 65, 89]
  const ID_DENT: seq<Byte> := [68, 69, 78, 84]

  /** What one accepted request looks like on the wire. */
  function Frame(id: seq<Byte>, data: seq<Byte>): seq<Byte> {
    id + PutUint32(|data|) + data
  }

  function DoneFrame(time: int): seq<Byte> {
    ID_DONE + PutUint32(time)
  }

  predicate Contains(s: string, sub: string) {
    sub <= s || (s != "" && Contains(s[1..], sub))
  }

  /** The error made of a FAIL chunk. */
  function FailError(message: seq<Byte>): Error {
    if Contains(Text(message), "No such file or directory") then FileNoExist
    else ServerError(Text(message))
  }

  datatype Chunk = Chunk(size: int, err: Option<Error>, rest: seq<Byte>)

  /** ReadNextChunkSize as a function of the bytes still to come. */
  function NextChunk(s: seq<Byte>, ending: Error): Chunk {
    if |s| < 8 then Chunk(0, Some(Wrapped(FullError(|s|, 8, ending).value)), [])
    else
      var id, size, body := s[..4], Int32(Uint32(s[4..8])), s[8..];
      if id == ID_DATA then Chunk(size, None, body)
      else if id == ID_DONE then Chunk(0, Some(EOF), body)
      else if id == ID_FAIL then
        if size < 0 then Chunk(0, Some(Panic), body)
        else if |body| < size then Chunk(0, Some(Wrapped(FullError(|body|, size, ending).value)), [])
        else Chunk(0, Some(FailError(body[..size])), body[size..])
      else Chunk(0, Some(AssertionError), body)
  }

  datatype Status = Status(id: seq<Byte>, err: Option<Error>, rest: seq<Byte>)

  /** readSyncStatusFailureAsError as a function of the bytes still to come. */
  function NextStatus(s: seq<Byte>, ending: Error): Status {
    if |s| < 8 then
      var e := FullError(|s|, 8, ending).value;
      Status([], Some(Wrapped(if e == UnexpectedEOF then ConnectionReset else e)), [])
    else if s[..4] == ID_OKAY then Status(ID_OKAY, None, s[8..])
    else
      var id, length, body := s[..4], Uint32(s[4..8]), s[8..];
      if |body| < length then Status(id, Some(Wrapped(FullError(|body|, length, ending).value)), [])
      else if id == ID_FAIL then Status(id, Some(ServerError(Text(body[..length]))), body[length..])
      else Status(id, Some(Network(1)), body[length..])
  }

  // ------------------------------------------------------ what an answer means

  /** `sub` stands in `s` at position `i`. */
  predicate Stands(s: string, i: nat, sub: string) {
    i + |sub| <= |s| && s[i..i + |sub|] == sub
  }

  lemma StandsLater(s: string, i: nat, sub: string)
    requires s != ""
    ensures Stands(s, i + 1, sub) <==> Stands(s[1..], i, sub)
  {
    if i + 1 + |sub| <= |s| {
      assert s[1..][i..i + |sub|] == s[i + 1..i + 1 + |sub|];
    }
  }

  lemma StandsFirst(s: string, sub: string)
    ensures Stands(s, 0, sub) <==> sub <= s
    ensures s == "" ==> forall i: nat :: Stands(s, i, sub) ==> i == 0
  {
  }

  lemma {:induction false} ContainsExactly(s: string, sub: string)
    ensures Contains(s, sub) <==> exists i: nat :: Stands(s, i, sub)
    decreases |s|
  {
    hide Stands;
    StandsFirst(s, sub);
    if !(sub <= s) && s != "" {
      ContainsExactly(s[1..], sub);
      if Contains(s[1..], sub) {
        var i: nat :| Stands(s[1..], i, sub);
        StandsLater(s, i, sub);
      }
      if exists i: nat :: Stands(s, i, sub) {
        var i: nat :| Stands(s, i, sub);
        StandsLater(s, i - 1, sub);
      }
    }
  }

  /** The device's words for a missing file, somewhere in a message. */
  ghost predicate SaysMissing(m: string) {
    exists i: nat :: Stands(m, i, "No such file or directory")
  }

  lemma FailErrorMeaning(m: seq<Byte>)
    ensures FailError(m) == (if SaysMissing(Text(m)) then FileNoExist else ServerError(Text(m)))
  {
    hide Stands, Text, Contains;
    ContainsExactly(Text(m), "No such file or directory");
  }

  /** A complete FAIL chunk is an error: a missing file, or the device's message. */
  lemma FailIsRead(m: seq<Byte>, rest: seq<Byte>, ending: Error)
    requires |m| < TWO_TO_31
    ensures NextChunk(Frame(ID_FAIL, m) + rest, ending)
            == Chunk(0, Some(if SaysMissing(Text(m)) then FileNoExist else ServerError(Text(m))), rest)
  {
    hide PutUint32, Uint32, FailError, Text, SaysMissing;
    FailErrorMeaning(m);
    assert ID_FAIL[0] != ID_DATA[0] && ID_FAIL[0] != ID_DONE[0];
    Assoc(ID_FAIL + PutUint32(|m|), m, rest);
    CallHeader(ID_FAIL, PutUint32(|m|), m + rest);
    Uint32OfPut(|m|);
    Cut(m, rest);
  }

  /** The errors of a connection that ends: its own, or an unexpected end of file. */
  predicate EndError(e: Error, ending: Error) {
    Is(e, ending) || (ending == EOF && Is(e, UnexpectedEOF))
  }

  /** Every chunk header: what it is, and what it leaves. */
  lemma ChunkAnswers(s: seq<Byte>, ending: Error)
    ensures var c := NextChunk(s, ending);
            && (c.err.None? <==> |s| >= 8 && s[..4] == ID_DATA)
            && (c.err == Some(EOF) <==> |s| >= 8 && s[..4] == ID_DONE)
            && (|s| < 8 ==> c.err.Some? && EndError(c.err.value, ending) && c.rest == [])
            && (|s| >= 8 && s[..4] == ID_DATA ==> c.err == None && c.size == Int32(Uint32(s[4..8])) && c.rest == s[8..])
            && (|s| >= 8 && s[..4] == ID_DONE ==> c.err == Some(EOF) && c.rest == s[8..])
            && (|s| >= 8 && s[..4] != ID_DATA && s[..4] != ID_DONE && s[..4] != ID_FAIL ==>
                  c.err == Some(AssertionError) && c.rest == s[8..])
            && (|s| >= 8 && s[..4] == ID_FAIL && Uint32(s[4..8]) < TWO_TO_31 && |s| < 8 + Uint32(s[4..8]) ==>
                  c.err.Some? && EndError(c.err.value, ending) && c.err != Some(EOF) && c.rest == [])
  {
    hide Uint32, Contains, Text;
    assert ID_DONE[1] != ID_DATA[1] && ID_DONE[0] != ID_FAIL[0] && ID_DATA[0] != ID_FAIL[0];
    IsItself(ending);
    IsItself(UnexpectedEOF);
  }

  /** Only OKAY is a success; FAIL becomes the device's message, and an end before that an error of its own. */
  lemma StatusAnswers(id: seq<Byte>, m: seq<Byte>, rest: seq<Byte>, ending: Error)
    requires |id| == 4 && |m| < TWO_TO_32
    ensures var r := NextStatus(Frame(id, m) + rest, ending);
            && (r.err.None? <==> id == ID_OKAY)
            && (id == ID_OKAY ==> r.id == id && r.rest == m + rest)
            && (id == ID_FAIL ==> r.err == Some(ServerError(Text(m))) && r.rest == rest)
            && (id != ID_OKAY && id != ID_FAIL ==> r.err == Some(Network(1)) && r.rest == rest)
  {
    hide PutUint32, Uint32, Text;
    assert ID_FAIL[0] != ID_OKAY[0];
    Assoc(id + PutUint32(|m|), m, rest);
    CallHeader(id, PutUint32(|m|), m + rest);
    Uint32OfPut(|m|);
    Cut(m, rest);
  }

  /** No stream gives a success without a whole OKAY header. */
  lemma StatusSuccess(s: seq<Byte>, ending: Error)
    ensures NextStatus(s, ending).err.None? <==> |s| >= 8 && s[..4] == ID_OKAY
    ensures NextStatus(s, ending).err.None? ==> NextStatus(s, ending).rest == s[8..]
  {
    hide Uint32, Text;
  }

  /** A status that does not come: a connection reset exactly if the connection closes inside its header. */
  lemma CutStatus(s: seq<Byte>, ending: Error)
    requires |s| < 8
    ensures var r := NextStatus(s, ending);
            && r.err.Some? && r.rest == []
            && (Is(r.err.value, ConnectionReset) <==>
                  (ending == EOF && |s| > 0) || ending == UnexpectedEOF || Is(ending, ConnectionReset))
  {
  }

  /** The identifiers, and frames as they are on the wire. */
  lemma WireExamples()
    ensures Text(ID_DATA) == "DATA" && Text(ID_DONE) == "DONE" && Text(ID_FAIL) == "FAIL" && Text(ID_OKAY) == "OKAY"
    ensures Text(ID_DENT) == "DENT"
    ensures Frame(ID_DATA, [1, 2, 3]) == [68, 65, 84, 65, 3, 0, 0, 0, 1, 2, 3]
    ensures DoneFrame(258) == [68, 79, 78, 69, 2, 1, 0, 0]
  {
    LittleEndian(3);
    LittleEndian(258);
    assert PutUint32(3) == [3, 0, 0, 0] && PutUint32(258) == [2, 1, 0, 0];
  }

  lemma HeaderParts(s: seq<Byte>)
    requires |s| >= 8
    ensures s[..8][..4] == s[..4] && s[..8][4..8] == s[4..8]
  {
  }

  class SyncConn {
    const conn: NetConn<Byte>
    const rbuf: array<Byte>
    var wbuf: array<Byte>

    ghost predicate Valid()
      reads this
    {
      rbuf.Length == 8 && wbuf.Length >= 8 && rbuf != wbuf
    }

    constructor (conn: NetConn<Byte>)
      ensures Valid() && this.conn == conn && fresh(rbuf) && fresh(wbuf)
    {
      this.conn := conn;
      rbuf := new Byte[8];
      wbuf := new Byte[8];
    }

    /** A rejected call writes nothing; an accepted one writes its frame, whatever wbuf held. */
    method SendRequest(id: seq<Byte>, data: seq<Byte>) returns (err: Option<Error>)
      requires Valid()
      modifies this`wbuf, wbuf, conn`outgoing
      ensures Valid() && (wbuf == old(wbuf) || fresh(wbuf)) && wbuf.Length >= old(wbuf.Length)
      ensures |id| != 4 || |data| > SYNC_MAX_CHUNK_SIZE ==>
                err == Some(AssertionError) && conn.outgoing == old(conn.outgoing)
      ensures |id| == 4 && |data| <= SYNC_MAX_CHUNK_SIZE ==>
                old(conn.outgoing) <= conn.outgoing <= old(conn.outgoing) + Frame(id, data)
      ensures err.None? <==>
                |id| == 4 && |data| <= SYNC_MAX_CHUNK_SIZE && conn.outgoing == old(conn.outgoing) + Frame(id, data)
      ensures err == Some(AssertionError) <==> |id| != 4 || |data| > SYNC_MAX_CHUNK_SIZE
    {
      if |id| != 4 {
        return Some(AssertionError);
      }
      var dataLen := |data|;
      if dataLen > SYNC_MAX_CHUNK_SIZE {
        return Some(AssertionError);
      }
      if wbuf.Length < 8 + dataLen {
        wbuf := new Byte[8 + dataLen];
      }
      var length := PutUint32(dataLen);
      forall i | 0 <= i < 4 { wbuf[i] := id[i]; }
      forall i | 0 <= i < 4 { wbuf[4 + i] := length[i]; }
      forall i | 0 <= i < dataLen { wbuf[8 + i] := data[i]; }
      assert wbuf[..8 + dataLen] == Frame(id, data);
      var n, e := conn.Write(wbuf[..8 + dataLen]);
      if e.Some? {
        return Some(Wrapped(e.value));
      }
      return None;
    }

    method SendDone(time: int) returns (err: Option<Error>)
      requires Valid()
      modifies wbuf, conn`outgoing
      ensures old(conn.outgoing) <= conn.outgoing <= old(conn.outgoing) + DoneFrame(time)
      ensures err.None? <==> conn.outgoing == old(conn.outgoing) + DoneFrame(time)
      ensures err.None? || err == Some(Network(0))
    {
      var seconds := PutUint32(time);
      forall i | 0 <= i < 4 { wbuf[i] := ID_DONE[i]; }
      forall i | 0 <= i < 4 { wbuf[4 + i] := seconds[i]; }
      assert wbuf[..8] == DoneFrame(time);
      var n;
      n, err := conn.Write(wbuf[..8]);
    }

    method ReadNextChunkSize() returns (size: int, err: Option<Error>)
      requires Valid()
      modifies rbuf, conn`incoming
      ensures Chunk(size, err, conn.incoming) == NextChunk(old(conn.incoming), conn.ending)
    {
      var n, e := conn.ReadFull(rbuf, 0, 8);
      if e.Some? {
        return 0, Some(Wrapped(e.value));
      }
      hide Uint32, Int32, FailError;
      var header := rbuf[..8];
      HeaderParts(old(conn.incoming));
      var id := header[..4];
      size := Int32(Uint32(header[4..8]));
      if id == ID_DATA {
        return size, None;
      } else if id == ID_DONE {
        return 0, Some(EOF);
      } else if id == ID_FAIL {
        if size < 0 {
          return 0, Some(Panic);
        }
        var buf := new Byte[size];
        n, e := conn.ReadFull(buf, 0, size);
        if e.Some? {
          return 0, Some(Wrapped(e.value));
        }
        assert buf[..size] == buf[..];
        return 0, Some(FailError(buf[..size]));
      } else {
        return 0, Some(AssertionError);
      }
    }

    method ReadStatus() returns (status: seq<Byte>, err: Option<Error>)
      requires Valid()
      modifies rbuf, conn`incoming
      ensures Status(status, err, conn.incoming) == NextStatus(old(conn.incoming), conn.ending)
    {
      hide Uint32, Text;
      var buf := rbuf;
      var n, e := conn.ReadFull(buf, 0, 8);
      if e == Some(UnexpectedEOF) {
        return [], Some(Wrapped(ConnectionReset));
      } else if e.Some? {
        return [], Some(Wrapped(e.value));
      }
      var header := buf[..8];
      HeaderParts(old(conn.incoming));
      status := header[..4];
      if status == ID_OKAY {
        return status, None;
      }
      var length := Uint32(header[4..8]);
      if length > 0 {
        if length > buf.Length {
          buf := new Byte[length];
        }
        n, e := conn.ReadFull(buf, 0, length);
        if e.Some? {
          return status, Some(Wrapped(e.value));
        }
      }
      assert buf[..length] == buf[0..length] == old(conn.incoming)[8..][..length];
      if status == ID_FAIL {
        return status, Some(ServerError(Text(buf[..length])));
      }
      return status, Some(Network(1));
    }
  }

  // ------------------------------------------------- histories of requests

  /** A call of SendRequest with any id and data, or of SendDone. */
  datatype Call = Request(id: seq<Byte>, data: seq<Byte>) | Done(time: int)

  /** SendRequest takes four-byte ids and at most 64k; SendDone takes any time. */
  predicate Accepted(call: Call) {
    call.Done? || (|call.id| == 4 && |call.data| <= SYNC_MAX_CHUNK_SIZE)
  }

  /** The calls that differ from all others on the wire: no request named DONE, no time beyond 32 bits. */
  predicate Distinct(call: Call) {
    match call case Request(id, data) => id != ID_DONE case Done(time) => 0 <= time < TWO_TO_32
  }

  function WireOne(call: Call): seq<Byte> {
    match call case Request(id, data) => Frame(id, data) case Done(time) => DoneFrame(time)
  }

  function Wire(calls: seq<Call>): seq<Byte> {
    if calls == [] then []
    else WireOne(calls[0]) + Wire(calls[1..])
  }

  function AcceptedOf(calls: seq<Call>): seq<Call> {
    if calls == [] then [] else (if Accepted(calls[0]) then [calls[0]] else []) + AcceptedOf(calls[1..])
  }

  /** What one call may leave on the wire, for the error it returns. */
  predicate Sent(call: Call, piece: seq<Byte>, err: Option<Error>) {
    if !Accepted(call) then piece == [] && err == Some(AssertionError)
    else piece <= WireOne(call) && (err.None? <==> piece == WireOne(call)) && err != Some(AssertionError)
  }

  predicate Unbroken(calls: seq<Call>, errs: seq<Option<Error>>)
    requires |errs| == |calls|
  {
    forall i :: 0 <= i < |calls| ==> errs[i].None? || !Accepted(calls[i])
  }

  /** The sum of the pieces is the wire of the accepted calls, if no write failed. */
  lemma {:induction false} PiecesOfCalls(calls: seq<Call>, pieces: seq<seq<Byte>>, errs: seq<Option<Error>>)
    requires |pieces| == |errs| == |calls|
    requires forall i :: 0 <= i < |calls| ==> Sent(calls[i], pieces[i], errs[i])
    requires Unbroken(calls, errs)
    ensures Flatten(pieces) == Wire(AcceptedOf(calls))
  {
    hide WireOne;
    if calls != [] {
      PiecesOfCalls(calls[1..], pieces[1..], errs[1..]);
      assert Sent(calls[0], pieces[0], errs[0]);
      var later := AcceptedOf(calls[1..]);
      if Accepted(calls[0]) {
        assert ([calls[0]] + later)[1..] == later;
      } else {
        assert AcceptedOf(calls) == [] + later == later;
      }
    }
  }

  method SendOne(conn: SyncConn, call: Call) returns (err: Option<Error>, ghost piece: seq<Byte>)
    requires conn.Valid()
    modifies conn`wbuf, conn.wbuf, conn.conn`outgoing
    ensures conn.Valid() && (conn.wbuf == old(conn.wbuf) || fresh(conn.wbuf))
    ensures Sent(call, piece, err) && conn.conn.outgoing == old(conn.conn.outgoing) + piece
  {
    match call {
      case Request(id, data) => err := conn.SendRequest(id, data);
      case Done(time) => err := conn.SendDone(time);
    }
    piece := conn.conn.outgoing[|old(conn.conn.outgoing)|..];
    if Accepted(call) {
      PieceSent(old(conn.conn.outgoing), WireOne(call), conn.conn.outgoing);
    } else {
      Whole(old(conn.conn.outgoing));
    }
  }

  lemma PieceSent(before: seq<Byte>, full: seq<Byte>, after: seq<Byte>)
    requires before <= after <= before + full
    ensures var piece := after[|before|..];
            after == before + piece && piece <= full && (piece == full <==> after == before + full)
  {
    assert (before + full)[|before|..] == full;
  }

  /**
    Any history of calls on one connection, rejected and failed ones included: the wire gets one
    piece for each call, in order. If no write fails, it is the frames of the accepted calls.
  */
  method SendAll(conn: SyncConn, calls: seq<Call>) returns (errs: seq<Option<Error>>, ghost pieces: seq<seq<Byte>>)
    requires conn.Valid()
    modifies conn`wbuf, conn.wbuf, conn.conn`outgoing
    ensures conn.Valid() && |errs| == |pieces| == |calls|
    ensures forall i :: 0 <= i < |calls| ==> Sent(calls[i], pieces[i], errs[i])
    ensures conn.conn.outgoing == old(conn.conn.outgoing) + Flatten(pieces)
    ensures Unbroken(calls, errs) ==> conn.conn.outgoing == old(conn.conn.outgoing) + Wire(AcceptedOf(calls))
  {
    hide Sent, Accepted, WireOne;
    errs, pieces := [], [];
    Whole(conn.conn.outgoing);
    for i := 0 to |calls|
      invariant conn.Valid() && (conn.wbuf == old(conn.wbuf) || fresh(conn.wbuf))
      invariant |errs| == |pieces| == i
      invariant forall j :: 0 <= j < i ==> Sent(calls[j], pieces[j], errs[j])
      invariant conn.conn.outgoing == old(conn.conn.outgoing) + Flatten(pieces)
    {
      var err;
      ghost var piece;
      err, piece := SendOne(conn, calls[i]);
      FlattenAppend(pieces, piece);
      Assoc(old(conn.conn.outgoing), Flatten(pieces), piece);
      errs, pieces := errs + [err], pieces + [piece];
    }
    if Unbroken(calls, errs) {
      PiecesOfCalls(calls, pieces, errs);
    }
  }

  /** The first call of a stream, read off by the device. */
  function ReadCall(s: seq<Byte>): Option<(Call, seq<Byte>)> {
    if |s| < 8 then None
    else
      var id, word, body := s[..4], Uint32(s[4..8]), s[8..];
      if id == ID_DONE then Some((Done(word), body))
      else if |body| < word then None
      else Some((Request(id, body[..word]), body[word..]))
  }

  /** `k` requests and DONE marks off a stream, and what is left of it. */
  function ReadCalls(s: seq<Byte>, k: nat): Option<(seq<Call>, seq<Byte>)> {
    if k == 0 then Some(([], s))
    else
      var first := ReadCall(s);
      if first.None? then None
      else
        var r := ReadCalls(first.value.1, k - 1);
        if r.None? then None else Some(([first.value.0] + r.value.0, r.value.1))
  }

  lemma CallHeader(id: seq<Byte>, word: seq<Byte>, body: seq<Byte>)
    requires |id| == |word| == 4
    ensures var s := id + word + body; |s| == 8 + |body| && s[..4] == id && s[4..8] == word && s[8..] == body
  {
  }

  /** An accepted call is read back as itself exactly if it is distinct; otherwise another call is read. */
  lemma CallIsRead(call: Call, rest: seq<Byte>)
    requires Accepted(call)
    ensures ReadCall(WireOne(call) + rest) == Some((call, rest)) <==> Distinct(call)
    ensures !Distinct(call) ==> ReadCall(WireOne(call) + rest).Some? && ReadCall(WireOne(call) + rest).value.0 != call
  {
    hide PutUint32, Uint32;
    match call
    case Request(id, data) =>
      Assoc(id + PutUint32(|data|), data, rest);
      CallHeader(id, PutUint32(|data|), data + rest);
      Uint32OfPut(|data|);
      Cut(data, rest);
    case Done(time) =>
      CallHeader(ID_DONE, PutUint32(time), rest);
      Uint32OfPut(time);
  }

  /**
    The bytes of a history of accepted calls determine it: requests with their ids and data and
    DONE marks with their times come back in order, and what follows is untouched, exactly if no
    request is named DONE and every time fits into 32 bits.
  */
  lemma {:induction false} CallsAreRead(calls: seq<Call>, rest: seq<Byte>)
    requires forall call :: call in calls ==> Accepted(call)
    ensures ReadCalls(Wire(calls) + rest, |calls|) == Some((calls, rest)) <==>
            forall call :: call in calls ==> Distinct(call)
  {
    hide ReadCall, WireOne, Accepted, Distinct;
    if calls == [] {
      Whole(rest);
    } else {
      var call := calls[0];
      assert forall c :: c in calls <==> c == call || c in calls[1..];
      CallsAreRead(calls[1..], rest);
      CallIsRead(call, Wire(calls[1..]) + rest);
      Assoc(WireOne(call), Wire(calls[1..]), rest);
      assert [call] + calls[1..] == calls;
      if ReadCalls(Wire(calls) + rest, |calls|) == Some((calls, rest)) {
        var first := ReadCall(Wire(calls) + rest);
        assert first.Some? && ([first.value.0] + ReadCalls(first.value.1, |calls| - 1).value.0)[0] == call;
        assert ([call] + ReadCalls(first.value.1, |calls| - 1).value.0)[1..] == calls[1..];
      }
    }
  }
}
