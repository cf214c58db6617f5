/** File transfer over the sync protocol: the chunk reader and the chunk writer. */
module SyncFile {
  import opened Bytes
  import opened Net
  import opened SyncProtocol

  // ------------------------------------------------------------------ reader

  datatype ReaderState = ReaderState(toRead: int, eof: bool, incoming: seq<Byte>)

  datatype ReadResult = ReadResult(data: seq<Byte>, err: Option<Error>, next: ReaderState)

  function Fresh(stream: seq<Byte>): ReaderState {
    ReaderState(0, false, stream)
  }

  /** Fill a buffer of `size` bytes from the current chunk; a negative chunk size panics at buf[:size]. */
  function Fill(st: ReaderState, size: nat, ending: Error): (r: ReadResult)
    ensures |r.data| + |r.next.incoming| == |st.incoming|
  {
    if st.toRead < 0 then ReadResult([], Some(Panic), st)
    else
      var want := Min(size, st.toRead);
      var n := Min(want, |st.incoming|);
      ReadResult(st.incoming[..n], FullError(n, want, ending),
                 st.(toRead := st.toRead - n, incoming := st.incoming[n..]))
  }

  /** SyncFileReader.Read with a buffer of `size` bytes. */
  function NextRead(st: ReaderState, size: nat, ending: Error): (r: ReadResult)
    ensures |r.data| + |r.next.incoming| <= |st.incoming|
  {
    if st.eof then ReadResult([], Some(EOF), st)
    else if st.toRead == 0 then
      var c := NextChunk(st.incoming, ending);
      if c.err == Some(EOF) then ReadResult([], c.err, st.(eof := true, incoming := c.rest))
      else if c.err.Some? then ReadResult([], c.err, st.(incoming := c.rest))
      else Fill(st.(toRead := c.size, incoming := c.rest), size, ending)
    else Fill(st, size, ending)
  }

  /** Any sequence of Read calls, errors included: all bytes delivered, and the last error. */
  function Reads(st: ReaderState, sizes: seq<nat>, ending: Error): (r: ReadResult) {
    if sizes == [] then ReadResult([], None, st)
    else
      var r := Reads(st, sizes[..|sizes| - 1], ending);
      var l := NextRead(r.next, sizes[|sizes| - 1], ending);
      ReadResult(r.data + l.data, l.err, l.next)
  }

  class SyncFileReader {
    const syncConn: SyncConn
    var toRead: int
    var eof: bool

    ghost function State(): ReaderState
      reads this, syncConn.conn
    {
      ReaderState(toRead, eof, syncConn.conn.incoming)
    }

    constructor (syncConn: SyncConn)
      ensures this.syncConn == syncConn && toRead == 0 && !eof
    {
      this.syncConn, toRead, eof := syncConn, 0, false;
    }

    method Read(buf: array<Byte>) returns (n: nat, err: Option<Error>)
      requires syncConn.Valid() && buf != syncConn.rbuf
      modifies this, syncConn.rbuf, syncConn.conn`incoming, buf
      ensures n <= buf.Length && buf[n..] == old(buf[n..])
      ensures var r := NextRead(old(State()), buf.Length, syncConn.conn.ending);
              buf[..n] == r.data && err == r.err && State() == r.next
    {
      hide NextChunk, FullError;
      if eof {
        return 0, Some(EOF);
      }
      if toRead == 0 {
        var length;
        length, err := syncConn.ReadNextChunkSize();
        if err == Some(EOF) {
          eof := true;
          return 0, err;
        } else if err.Some? {
          return 0, err;
        } else {
          toRead := length;
        }
      }
      ghost var mid := State();
      assert NextRead(old(State()), buf.Length, syncConn.conn.ending)
          == Fill(mid, buf.Length, syncConn.conn.ending);
      if buf.Length >= toRead {
        if toRead < 0 {
          return 0, Some(Panic);
        }
        n, err := syncConn.conn.ReadFull(buf, 0, toRead);
      } else {
        n, err := syncConn.conn.ReadFull(buf, 0, buf.Length);
      }
      toRead := toRead - n;
      assert buf[..n] == buf[0..n];
    }
  }

  // ------------------------------------------------- what a stream's payload is

  /**
    The payload of a stream, read off its bytes: the contents of its DATA chunks up to DONE, a
    negative size or the end of the bytes. FAIL messages and unknown headers carry none.
  */
  function Payload(s: seq<Byte>): seq<Byte> {
    if |s| < 8 then []
    else
      var id, size, body := s[..4], Int32(Uint32(s[4..8])), s[8..];
      if id == ID_DATA then
        if size < 0 then []
        else if |body| <= size then body
        else body[..size] + Payload(body[size..])
      else if id == ID_DONE then []
      else if id == ID_FAIL then
        if size < 0 then Payload(body)
        else if |body| < size then []
        else Payload(body[size..])
      else Payload(body)
  }

  /** What a reader in state `st` has still to deliver: the rest of its chunk, then later chunks. */
  function Remaining(st: ReaderState): seq<Byte> {
    if st.eof || st.toRead < 0 then []
    else if |st.incoming| <= st.toRead then st.incoming
    else st.incoming[..st.toRead] + Payload(st.incoming[st.toRead..])
  }

  lemma FillConserves(st: ReaderState, size: nat, ending: Error)
    requires !st.eof
    ensures var r := Fill(st, size, ending); Remaining(st) == r.data + Remaining(r.next)
  {
    hide Payload;
    if st.toRead >= 0 && |st.incoming| > st.toRead {
      var n := |Fill(st, size, ending).data|;
      Slice(st.incoming, n, st.toRead);
      Glue(st.incoming[..st.toRead], n);
      Assoc(st.incoming[..n], st.incoming[n..st.toRead], Payload(st.incoming[st.toRead..]));
    }
  }

  lemma PayloadAfterHeader(s: seq<Byte>, ending: Error)
    ensures var c := NextChunk(s, ending);
            Payload(s) == (if c.err.None? then Remaining(ReaderState(c.size, false, c.rest))
                           else if c.err == Some(EOF) then []
                           else Payload(c.rest))
  {
    if |s| >= 8 {
      var id, size, body := s[..4], Int32(Uint32(s[4..8])), s[8..];
      assert ID_DONE[1] != ID_DATA[1];
      if id == ID_DATA && size >= 0 && |body| == size {
        assert body[..size] == body;
      }
    }
  }

  /** One Read, in any state and with any buffer, loses and invents nothing. */
  lemma ReadConserves(st: ReaderState, size: nat, ending: Error)
    ensures var r := NextRead(st, size, ending); Remaining(st) == r.data + Remaining(r.next)
    ensures st.eof ==> NextRead(st, size, ending).next == st
  {
    if !st.eof && st.toRead == 0 {
      RemainingAtHeader(st.incoming);
      PayloadAfterHeader(st.incoming, ending);
      var c := NextChunk(st.incoming, ending);
      if c.err.None? {
        FillConserves(st.(toRead := c.size, incoming := c.rest), size, ending);
      } else {
        RemainingAtHeader(c.rest);
      }
    } else if !st.eof {
      FillConserves(st, size, ending);
    }
  }

  lemma RemainingAtHeader(s: seq<Byte>)
    ensures Remaining(Fresh(s)) == Payload(s)
  {
    assert s[0..] == s && s[..0] == [];
  }

  /** In every reachable state: delivered bytes, then what remains, are the payload at the start. */
  lemma {:induction false} ReadsConserve(st: ReaderState, sizes: seq<nat>, ending: Error)
    ensures var r := Reads(st, sizes, ending); Remaining(st) == r.data + Remaining(r.next)
    decreases |sizes|
  {
    if sizes != [] {
      var front := sizes[..|sizes| - 1];
      ReadsConserve(st, front, ending);
      ReadConserves(Reads(st, front, ending).next, sizes[|sizes| - 1], ending);
    }
  }

  /** `eof` is set by a DONE header and by nothing else, and then stays. */
  lemma EofOnlyAfterDone(st: ReaderState, size: nat, ending: Error)
    ensures var r := NextRead(st, size, ending);
            r.next.eof <==> st.eof || (st.toRead == 0 && |st.incoming| >= 8 && st.incoming[..4] == ID_DONE)
    ensures NextRead(st, size, ending).next.eof ==> NextRead(st, size, ending).err == Some(EOF)
  {
    assert ID_DONE[1] != ID_DATA[1] && ID_DONE[0] != ID_FAIL[0];
  }

  /**
    io.EOF without the DONE chunk: exactly when the connection closes between two reads of one
    chunk. The caller cannot tell this from the end of the file.
  */
  lemma EofWithoutDone(st: ReaderState, size: nat, ending: Error)
    ensures var r := NextRead(st, size, ending);
            r.err == Some(EOF) && !r.next.eof <==>
            !st.eof && ending == EOF && size > 0 &&
            ((st.toRead > 0 && st.incoming == []) ||
             (st.toRead == 0 && |st.incoming| == 8 && st.incoming[..4] == ID_DATA
              && Int32(Uint32(st.incoming[4..8])) > 0))
  {
    hide Uint32, Int32, NextChunk;
    if !st.eof && st.toRead == 0 {
      assert ID_DONE[1] != ID_DATA[1];
      ChunkAnswers(st.incoming, ending);
    }
  }

  /** A FAIL chunk is an error of the read, and only that chunk is used up. */
  lemma ReadOfFail(m: seq<Byte>, rest: seq<Byte>, size: nat, ending: Error)
    requires |m| < TWO_TO_31
    ensures NextRead(Fresh(Frame(ID_FAIL, m) + rest), size, ending)
            == ReadResult([], Some(if SaysMissing(Text(m)) then FileNoExist else ServerError(Text(m))), Fresh(rest))
  {
    hide NextChunk, Frame, SaysMissing;
    FailIsRead(m, rest, ending);
  }

  /**
    When Read panics: exactly when the size of the chunk at hand is negative, that is when a DATA
    or FAIL header that is next announces 2^31 bytes or more, or a DATA header did before.
  */
  lemma ReadPanics(st: ReaderState, size: nat, ending: Error)
    requires ending != Panic
    ensures NextRead(st, size, ending).err == Some(Panic) <==>
            !st.eof &&
            (st.toRead < 0 ||
             (st.toRead == 0 && |st.incoming| >= 8 && (st.incoming[..4] == ID_DATA || st.incoming[..4] == ID_FAIL)
              && Uint32(st.incoming[4..8]) >= TWO_TO_31))
    ensures var r := NextRead(st, size, ending); st.toRead >= 0 && r.next.toRead < 0 ==> r.err == Some(Panic)
  {
    if !st.eof && st.toRead == 0 {
      assert ID_DONE[1] != ID_DATA[1] && ID_DONE[0] != ID_FAIL[0] && ID_DATA[0] != ID_FAIL[0];
      HeaderPanics(st.incoming, ending);
    }
  }

  lemma HeaderPanics(s: seq<Byte>, ending: Error)
    ensures var c := NextChunk(s, ending);
            && (c.err == Some(Panic) <==> |s| >= 8 && s[..4] == ID_FAIL && Uint32(s[4..8]) >= TWO_TO_31)
            && (c.err.None? && c.size < 0 <==> |s| >= 8 && s[..4] == ID_DATA && Uint32(s[4..8]) >= TWO_TO_31)
  {
    hide Uint32;
    assert ID_DONE[1] != ID_DATA[1] && ID_DONE[0] != ID_FAIL[0] && ID_DATA[0] != ID_FAIL[0];
  }

  /** No read crosses a chunk boundary: it takes from the chunk at hand (or just opened) only. */
  lemma ReadStaysInChunk(st: ReaderState, size: nat, ending: Error)
    requires !st.eof && st.toRead >= 0
    ensures var r := NextRead(st, size, ending);
            var k := if st.toRead > 0 then st.toRead
                     else if |st.incoming| >= 8 && st.incoming[..4] == ID_DATA then Int32(Uint32(st.incoming[4..8]))
                     else 0;
            |r.data| <= size && (r.data != [] ==> |r.data| + r.next.toRead == k && r.next.toRead >= 0)
  {
  }

  // ------------------------------------------------------------------ writer

  /** A write of any length as DATA frames of at most 64k. */
  function DataFrames(d: seq<Byte>): seq<Byte> {
    if d == [] then []
    else
      var n := Min(|d|, SYNC_MAX_CHUNK_SIZE);
      Frame(ID_DATA, d[..n]) + DataFrames(d[n..])
  }

  function WriteAll(parts: seq<seq<Byte>>): seq<Byte> {
    if parts == [] then [] else DataFrames(parts[0]) + WriteAll(parts[1..])
  }

  lemma {:induction false} WriteAllAppend(parts: seq<seq<Byte>>, p: seq<Byte>)
    ensures WriteAll(parts + [p]) == WriteAll(parts) + DataFrames(p)
  {
    if parts == [] {
      assert parts + [p] == [p] && WriteAll([p]) == DataFrames(p) + WriteAll([p][1..]);
    } else {
      assert (parts + [p])[1..] == parts[1..] + [p];
      WriteAllAppend(parts[1..], p);
    }
  }

  /** Full frames can be split off. */
  lemma {:induction false} DataFramesSplit(a: seq<Byte>, b: seq<Byte>)
    requires |a| % SYNC_MAX_CHUNK_SIZE == 0
    ensures DataFrames(a + b) == DataFrames(a) + DataFrames(b)
    decreases |a|
  {
    if a == [] {
      assert a + b == b;
    } else {
      var n := SYNC_MAX_CHUNK_SIZE;
      assert (a + b)[..n] == a[..n] && (a + b)[n..] == a[n..] + b;
      DataFramesSplit(a[n..], b);
    }
  }

  lemma SingleFrame(part: seq<Byte>)
    requires 0 < |part| <= SYNC_MAX_CHUNK_SIZE
    ensures DataFrames(part) == Frame(ID_DATA, part)
  {
    Whole(part);
    Whole(Frame(ID_DATA, part));
  }

  /** One more frame after `written` bytes. */
  lemma WriteStep(data: seq<Byte>, written: nat, n: nat)
    requires written < |data| && written % SYNC_MAX_CHUNK_SIZE == 0
    requires n == Min(|data| - written, SYNC_MAX_CHUNK_SIZE)
    ensures DataFrames(data[..written + n])
            == DataFrames(data[..written]) + Frame(ID_DATA, data[written..written + n])
  {
    var done, part := data[..written], data[written..written + n];
    SingleFrame(part);
    assert done + part == data[..written + n];
    DataFramesSplit(done, part);
  }

  lemma {:induction false} FramesArePrefix(data: seq<Byte>, k: nat)
    requires k <= |data| && (k == |data| || k % SYNC_MAX_CHUNK_SIZE == 0)
    ensures DataFrames(data[..k]) <= DataFrames(data)
  {
    if k == |data| {
      assert data[..k] == data;
    } else {
      assert data == data[..k] + data[k..];
      DataFramesSplit(data[..k], data[k..]);
    }
  }

  lemma NoFramesYet(data: seq<Byte>, before: seq<Byte>)
    ensures DataFrames(data[..0]) == [] && before + DataFrames(data[..0]) == before
  {
  }

  class SyncFileWriter {
    const syncConn: SyncConn
    var mtime: Option<int>

    constructor (syncConn: SyncConn, mtime: Option<int>)
      ensures this.syncConn == syncConn && this.mtime == mtime
    {
      this.syncConn, this.mtime := syncConn, mtime;
    }

    method Write(data: seq<Byte>) returns (n: nat, err: Option<Error>)
      requires syncConn.Valid()
      modifies syncConn`wbuf, syncConn.wbuf, syncConn.conn`outgoing
      ensures syncConn.Valid() && (syncConn.wbuf == old(syncConn.wbuf) || fresh(syncConn.wbuf))
      ensures n <= |data| && (err.None? <==> n == |data|)
      ensures err.None? ==> syncConn.conn.outgoing == old(syncConn.conn.outgoing) + DataFrames(data)
      ensures old(syncConn.conn.outgoing) + DataFrames(data[..n]) <= syncConn.conn.outgoing
              <= old(syncConn.conn.outgoing) + DataFrames(data)
    {
      hide DataFrames, Frame;
      var written := 0;
      var buf := data;
      NoFramesYet(data, syncConn.conn.outgoing);
      while |buf| > 0
        invariant syncConn.Valid() && (syncConn.wbuf == old(syncConn.wbuf) || fresh(syncConn.wbuf))
        invariant 0 <= written <= |data| && buf == data[written..]
        invariant buf == [] || written % SYNC_MAX_CHUNK_SIZE == 0
        invariant syncConn.conn.outgoing == old(syncConn.conn.outgoing) + DataFrames(data[..written])
      {
        var partialBuf := buf;
        if |partialBuf| > SYNC_MAX_CHUNK_SIZE {
          partialBuf := partialBuf[..SYNC_MAX_CHUNK_SIZE];
        }
        ghost var next := written + |partialBuf|;
        Slice(data, written, next);
        Whole(buf);
        WriteStep(data, written, |partialBuf|);
        FramesArePrefix(data, written);
        FramesArePrefix(data, next);
        var e := syncConn.SendRequest(ID_DATA, partialBuf);
        if e.Some? {
          StoppedInside(old(syncConn.conn.outgoing), DataFrames(data[..written]),
                        Frame(ID_DATA, partialBuf), DataFrames(data), syncConn.conn.outgoing);
          return written, e;
        }
        Assoc(old(syncConn.conn.outgoing), DataFrames(data[..written]), Frame(ID_DATA, partialBuf));
        written := written + |partialBuf|;
        buf := buf[|partialBuf|..];
      }
      Whole(data);
      return written, None;
    }

    /** Success is exactly a complete DONE frame on the wire and an OKAY status after it. */
    method CopyDone(now: int) returns (err: Option<Error>)
      requires syncConn.Valid()
      modifies this, syncConn.wbuf, syncConn.rbuf, syncConn.conn
      ensures mtime == Some(if old(mtime).Some? then old(mtime).value else now)
      ensures old(syncConn.conn.outgoing) <= syncConn.conn.outgoing
              <= old(syncConn.conn.outgoing) + DoneFrame(mtime.value)
      ensures err.None? <==>
                && syncConn.conn.outgoing == old(syncConn.conn.outgoing) + DoneFrame(mtime.value)
                && |old(syncConn.conn.incoming)| >= 8 && old(syncConn.conn.incoming)[..4] == ID_OKAY
      ensures err.None? ==> syncConn.conn.incoming == old(syncConn.conn.incoming)[8..]
    {
      if mtime.None? {
        mtime := Some(now);
      }
      err := syncConn.SendDone(mtime.value);
      if err.Some? {
        return Some(Wrapped(err.value));
      }
      var status;
      status, err := syncConn.ReadStatus();
      if err.Some? {
        return Some(Wrapped(err.value));
      }
      return None;
    }
  }

  // -------------------------------------------------------------- round trip

  /** A complete stream: whole DATA chunks of non-negative size, then DONE. */
  predicate WellFormed(s: seq<Byte>) {
    |s| >= 8 &&
    (s[..4] == ID_DONE ||
     (s[..4] == ID_DATA && var size := Int32(Uint32(s[4..8]));
                           0 <= size <= |s| - 8 && WellFormed(s[8 + size..])))
  }

  predicate Clean(st: ReaderState) {
    st.eof || (0 <= st.toRead <= |st.incoming| && WellFormed(st.incoming[st.toRead..]))
  }

  lemma FrameParts(id: seq<Byte>, data: seq<Byte>, rest: seq<Byte>)
    requires |id| == 4 && |data| < TWO_TO_31
    ensures var s := Frame(id, data) + rest;
            |s| == 8 + |data| + |rest| && s[..4] == id && Int32(Uint32(s[4..8])) == |data|
            && s[8..] == data + rest && s[8 + |data|..] == rest && s[8..8 + |data|] == data
  {
    var s := Frame(id, data) + rest;
    assert s[4..8] == PutUint32(|data|);
    Uint32OfPut(|data|);
    assert s[8..] == data + rest;
  }

  /** A DATA frame in front of a stream adds its contents in front of the payload. */
  lemma FrameStep(data: seq<Byte>, rest: seq<Byte>)
    requires |data| < TWO_TO_31
    ensures Payload(Frame(ID_DATA, data) + rest) == data + Payload(rest)
    ensures WellFormed(rest) ==> WellFormed(Frame(ID_DATA, data) + rest)
  {
    FrameParts(ID_DATA, data, rest);
    var s := Frame(ID_DATA, data) + rest;
    var body := s[8..];
    assert body[..|data|] == data && body[|data|..] == rest;
    if rest == [] {
      assert body == data && Payload(rest) == [];
    }
  }

  lemma {:induction false} FramesStep(d: seq<Byte>, rest: seq<Byte>)
    ensures Payload(DataFrames(d) + rest) == d + Payload(rest)
    ensures WellFormed(rest) ==> WellFormed(DataFrames(d) + rest)
    decreases |d|
  {
    if d == [] {
      Whole(rest);
      Whole(Payload(rest));
    } else {
      var n := Min(|d|, SYNC_MAX_CHUNK_SIZE);
      FramesStep(d[n..], rest);
      FrameStep(d[..n], DataFrames(d[n..]) + rest);
      Assoc(Frame(ID_DATA, d[..n]), DataFrames(d[n..]), rest);
      Assoc(d[..n], d[n..], Payload(rest));
      Glue(d, n);
    }
  }

  lemma {:induction false} WritesStep(parts: seq<seq<Byte>>, rest: seq<Byte>)
    ensures Payload(WriteAll(parts) + rest) == Flatten(parts) + Payload(rest)
    ensures WellFormed(rest) ==> WellFormed(WriteAll(parts) + rest)
  {
    if parts == [] {
      Whole(rest);
      Whole(Payload(rest));
    } else {
      WritesStep(parts[1..], rest);
      FramesStep(parts[0], WriteAll(parts[1..]) + rest);
      Assoc(DataFrames(parts[0]), WriteAll(parts[1..]), rest);
      Assoc(parts[0], Flatten(parts[1..]), Payload(rest));
    }
  }

  lemma FillKeepsClean(st: ReaderState, size: nat, ending: Error)
    requires Clean(st) && !st.eof
    ensures var r := Fill(st, size, ending); Clean(r.next) && r.err == None && !r.next.eof
  {
    var n := Min(size, st.toRead);
    assert st.incoming[n..][st.toRead - n..] == st.incoming[st.toRead..];
  }

  lemma HeaderOfWellFormed(s: seq<Byte>, ending: Error)
    requires WellFormed(s)
    ensures var c := NextChunk(s, ending);
            |c.rest| < |s| && (c.err == Some(EOF) || (c.err == None && Clean(ReaderState(c.size, false, c.rest))))
  {
    assert ID_DONE[1] != ID_DATA[1];
    if s[..4] != ID_DONE {
      var size := Int32(Uint32(s[4..8]));
      assert s[8..][size..] == s[8 + size..];
    }
  }

  lemma ReadKeepsClean(st: ReaderState, size: nat, ending: Error)
    requires Clean(st)
    ensures var r := NextRead(st, size, ending);
            Clean(r.next) && (r.err == None || (r.err == Some(EOF) && r.next.eof))
            && (size > 0 && !st.eof ==> |r.next.incoming| < |st.incoming|)
  {
    if !st.eof && st.toRead == 0 {
      assert st.incoming[0..] == st.incoming;
      HeaderOfWellFormed(st.incoming, ending);
      var c := NextChunk(st.incoming, ending);
      if c.err.None? {
        FillKeepsClean(st.(toRead := c.size, incoming := c.rest), size, ending);
      }
    } else if !st.eof {
      FillKeepsClean(st, size, ending);
    }
  }

  lemma {:induction false} ReadsKeepClean(st: ReaderState, sizes: seq<nat>, ending: Error)
    requires Clean(st) && !st.eof
    ensures var r := Reads(st, sizes, ending);
            Clean(r.next) && (r.err == None || (r.err == Some(EOF) && r.next.eof))
    ensures (forall i :: 0 <= i < |sizes| ==> sizes[i] > 0) ==>
              var r := Reads(st, sizes, ending);
              if r.next.eof then r.err == Some(EOF) else |r.next.incoming| + |sizes| <= |st.incoming|
    decreases |sizes|
  {
    if sizes != [] {
      var front := sizes[..|sizes| - 1];
      ReadsKeepClean(st, front, ending);
      ReadKeepsClean(Reads(st, front, ending).next, sizes[|sizes| - 1], ending);
    }
  }

  /**
    The file round trip: any split of a file into writes, then DONE; any sequence of buffer sizes.
    At every moment a prefix has been delivered, and once the end is reported it is the whole file.
    With non-empty buffers the end is reported at the latest after as many reads as there are bytes.
  */
  lemma FileRoundTrip(parts: seq<seq<Byte>>, mtime: int, tail: seq<Byte>, sizes: seq<nat>, ending: Error)
    ensures var stream := WriteAll(parts) + DoneFrame(mtime) + tail;
            var r := Reads(Fresh(stream), sizes, ending);
            && r.data <= Flatten(parts)
            && (r.err == None || r.err == Some(EOF))
            && (r.err == Some(EOF) ==> r.data == Flatten(parts))
            && (|sizes| > |stream| && (forall i :: 0 <= i < |sizes| ==> sizes[i] > 0) ==> r.err == Some(EOF))
  {
    hide WriteAll, Reads, Payload, WellFormed, DoneFrame, Remaining, Flatten;
    var rest := DoneFrame(mtime) + tail;
    var st := Fresh(WriteAll(parts) + rest);
    Assoc(WriteAll(parts), DoneFrame(mtime), tail);
    DoneEnds(mtime, tail);
    WritesStep(parts, rest);
    RemainingAtHeader(st.incoming);
    CleanAtHeader(st.incoming);
    ReadsConserve(st, sizes, ending);
    ReadsKeepClean(st, sizes, ending);
    NothingRemains(Reads(st, sizes, ending).next);
    Whole(Flatten(parts));
  }

  lemma DoneEnds(mtime: int, tail: seq<Byte>)
    ensures WellFormed(DoneFrame(mtime) + tail) && Payload(DoneFrame(mtime) + tail) == []
  {
    var s := DoneFrame(mtime) + tail;
    assert s[..4] == ID_DONE && |s| >= 8 && ID_DONE[1] != ID_DATA[1];
  }

  lemma CleanAtHeader(s: seq<Byte>)
    requires WellFormed(s)
    ensures Clean(Fresh(s))
  {
    Whole(s);
  }

  lemma NothingRemains(st: ReaderState)
    ensures st.eof ==> Remaining(st) == []
  {
  }

  // -------------------------------------------------------------- truncation

  /** The payload of a stream that starts with a DATA header. */
  lemma PayloadOfData(s: seq<Byte>)
    requires |s| >= 8 && s[..4] == ID_DATA && Int32(Uint32(s[4..8])) >= 0
    ensures var size := Int32(Uint32(s[4..8]));
            Payload(s) == (if |s| <= 8 + size then s[8..] else s[8..8 + size] + Payload(s[8 + size..]))
  {
    hide Int32, Uint32;
    var size := Int32(Uint32(s[4..8]));
    if |s| > 8 + size {
      assert s[8..][..size] == s[8..8 + size] && s[8..][size..] == s[8 + size..];
    }
  }

  lemma PayloadOfDone(s: seq<Byte>)
    requires |s| >= 8 ==> s[..4] == ID_DONE
    ensures Payload(s) == []
  {
    assert ID_DONE[1] != ID_DATA[1];
  }

  lemma WellFormedParts(s: seq<Byte>)
    requires WellFormed(s) && s[..4] != ID_DONE
    ensures |s| >= 8 && s[..4] == ID_DATA
    ensures var size := Int32(Uint32(s[4..8])); 0 <= size <= |s| - 8 && WellFormed(s[8 + size..])
  {
    hide Int32, Uint32;
  }

  lemma PrefixParts(s: seq<Byte>, k: nat, size: nat)
    requires 8 <= k <= |s| && 8 + size <= |s|
    ensures s[..k][..4] == s[..4] && s[..k][4..8] == s[4..8] && s[..k][8..] == s[8..k]
    ensures k > 8 + size ==>
              s[..k][8..8 + size] == s[8..8 + size] && s[..k][8 + size..] == s[8 + size..][..k - 8 - size]
    ensures k <= 8 + size ==> s[8..k] <= s[8..8 + size]
  {
  }

  /** Cutting a complete stream anywhere cuts its payload. */
  lemma {:induction false} PayloadOfPrefix(s: seq<Byte>, k: nat)
    requires WellFormed(s) && k <= |s|
    ensures Payload(s[..k]) <= Payload(s)
    decreases |s|
  {
    hide Payload, WellFormed, Int32, Uint32;
    assert |s| >= 8 by { PayloadNeedsHeader(s); }
    if k < 8 {
      PayloadOfDone(s[..k]);
    } else if s[..4] == ID_DONE {
      assert s[..k][..4] == s[..4];
      PayloadOfDone(s[..k]);
    } else {
      WellFormedParts(s);
      var size := Int32(Uint32(s[4..8]));
      PrefixParts(s, k, size);
      PayloadOfData(s[..k]);
      PayloadStarts(s);
      if k > 8 + size {
        PayloadOfPrefix(s[8 + size..], k - 8 - size);
        PayloadOfData(s);
      }
    }
  }

  lemma PayloadNeedsHeader(s: seq<Byte>)
    requires WellFormed(s)
    ensures |s| >= 8
  {
  }

  lemma PayloadStarts(s: seq<Byte>)
    requires WellFormed(s) && s[..4] == ID_DATA
    ensures var size := Int32(Uint32(s[4..8])); s[8..8 + size] <= Payload(s)
  {
    var size, body := Int32(Uint32(s[4..8])), s[8..];
    assert ID_DONE[1] != ID_DATA[1] && body[..size] == s[8..8 + size];
  }

  /** A truncated transfer, read in any way, still delivers a prefix of the file. */
  lemma TruncatedFile(parts: seq<seq<Byte>>, mtime: int, k: nat, sizes: seq<nat>, ending: Error)
    requires k <= |WriteAll(parts) + DoneFrame(mtime)|
    ensures Reads(Fresh((WriteAll(parts) + DoneFrame(mtime))[..k]), sizes, ending).data <= Flatten(parts)
  {
    hide WriteAll, Reads, Payload, WellFormed, DoneFrame, Remaining, Flatten;
    var stream := WriteAll(parts) + DoneFrame(mtime);
    DoneEnds(mtime, []);
    Whole(DoneFrame(mtime));
    WritesStep(parts, DoneFrame(mtime));
    Whole(Flatten(parts));
    PayloadOfPrefix(stream, k);
    ReadsConserve(Fresh(stream[..k]), sizes, ending);
    RemainingAtHeader(stream[..k]);
  }
}
