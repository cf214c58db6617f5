/** The copy loops of PullFile and PushFile, over a local file. */
module SyncCopy {
  import opened Bytes
  import opened Net
  import opened SyncProtocol
  import opened SyncFile
  import Progress

  const DISK_FULL := Network(2)

  /** An open local file: what is still to be read from it, and what has been written to it. */
  class LocalFile {
    var unread: seq<Byte>
    var written: seq<Byte>

    constructor (contents: seq<Byte>)
      ensures unread == contents && written == []
    {
      unread, written := contents, [];
    }

    /** os.File.Read: some bytes, or 0 and io.EOF at the end, or an I/O error. */
    method Read(limit: nat) returns (data: seq<Byte>, err: Option<Error>)
      requires limit > 0
      modifies `unread
      ensures |data| <= limit && old(unread) == data + unread
      ensures data == [] <==> err.Some?
      ensures err == Some(EOF) ==> unread == []
    {
      var fails: bool :| true;
      if fails {
        return [], Some(Network(3));
      }
      if unread == [] {
        return [], Some(EOF);
      }
      var n :| 0 < n <= limit && n <= |unread|;
      Glue(unread, n);
      data, err := unread[..n], None;
      unread := unread[n..];
    }

    /** os.File.Write: everything, or a part and an error. */
    method Write(data: seq<Byte>) returns (n: nat, err: Option<Error>)
      modifies `written
      ensures n <= |data| && written == old(written) + data[..n]
      ensures if n == |data| then err == None else err == Some(DISK_FULL)
    {
      n :| 0 <= n <= |data|;
      written := written + data[..n];
      err := if n == |data| then None else Some(DISK_FULL);
    }
  }

  // -------------------------------------------------------------------- pull

  datatype Pull = Pull(data: seq<Byte>, err: Option<Error>)

  /** The copy loop: stop with success at the first read without data, unless it is a real error. */
  function Pulled(st: ReaderState, ending: Error): Pull
    decreases |st.incoming|
  {
    var r := NextRead(st, SYNC_MAX_CHUNK_SIZE, ending);
    if r.err.Some? && r.err != Some(EOF) then Pull([], r.err)
    else if r.data == [] then Pull([], None)
    else var p := Pulled(r.next, ending); Pull(r.data + p.data, p.err)
  }

  lemma PulledStep(st: ReaderState, ending: Error)
    ensures var r := NextRead(st, SYNC_MAX_CHUNK_SIZE, ending);
            Pulled(st, ending)
            == (if r.err.Some? && r.err != Some(EOF) then Pull([], r.err)
                else if r.data == [] then Pull([], None)
                else var p := Pulled(r.next, ending); Pull(r.data + p.data, p.err))
  {
  }

  /** The last report, or the one before; 0 if there is none. */
  function LastBut(reports: seq<nat>, k: nat): nat {
    if |reports| > k then reports[|reports| - 1 - k] else 0
  }

  predicate Growing(reports: seq<nat>) {
    forall i, j :: 0 <= i < j < |reports| ==> reports[i] < reports[j]
  }

  /**
    What a pull has stored and reported. A count is reported before its bytes are written, so that on
    a disk error the file ends between the last two counts.
  */
  predicate PullResult(p: Pull, stored: seq<Byte>, reports: seq<nat>, err: Option<Error>) {
    && Growing(reports) && stored <= p.data
    && ((err == p.err && stored == p.data && LastBut(reports, 0) == |stored| && (stored == [] <==> reports == []))
        || (err == Some(DISK_FULL) && LastBut(reports, 1) <= |stored| < LastBut(reports, 0) <= |p.data|))
  }

  /** The loop has stored and reported `done`, and `rest` is what the pull would still give. */
  predicate Pulling(whole: Pull, done: seq<Byte>, rest: Pull, reports: seq<nat>) {
    && whole == Pull(done + rest.data, rest.err) && Growing(reports)
    && LastBut(reports, 0) == |done| && (done == [] <==> reports == [])
  }

  lemma PullingStarts(p: Pull)
    ensures Pulling(p, [], p, [])
  {
    Whole(p.data);
  }

  lemma PullingEnds(whole: Pull, done: seq<Byte>, rest: Pull, reports: seq<nat>)
    requires Pulling(whole, done, rest, reports) && rest.data == []
    ensures PullResult(whole, done, reports, rest.err)
  {
    Whole(done);
  }

  /** One more piece: it is stored completely, or the disk takes only `n` bytes of it. */
  lemma PullingOn(whole: Pull, done: seq<Byte>, piece: seq<Byte>, rest: Pull, reports: seq<nat>, n: nat)
    requires Pulling(whole, done, Pull(piece + rest.data, rest.err), reports) && piece != [] && n <= |piece|
    ensures var more := reports + [|done| + |piece|];
            if n == |piece| then Pulling(whole, done + piece[..n], rest, more)
            else PullResult(whole, done + piece[..n], more, Some(DISK_FULL))
  {
    var more := reports + [|done| + |piece|];
    GrowingOn(reports, |done| + |piece|);
    Assoc(done, piece, rest.data);
    Whole(piece);
    Glue(piece, n);
    if n < |piece| {
      assert done + piece[..n] <= done + piece;
    }
  }

  lemma GrowingOn(reports: seq<nat>, n: nat)
    requires Growing(reports) && LastBut(reports, 0) < n
    ensures var more := reports + [n]; Growing(more) && LastBut(more, 0) == n && LastBut(more, 1) == LastBut(reports, 0)
  {
  }

  /** PullFile from the open reader on; `reports` are the byte counts passed to the handler. */
  method PullLoop(reader: SyncFileReader, local: LocalFile)
      returns (reports: seq<nat>, err: Option<Error>, ghost stored: seq<Byte>)
    requires reader.syncConn.Valid()
    modifies reader, reader.syncConn.rbuf, reader.syncConn.conn`incoming, local`written
    ensures local.written == old(local.written) + stored
    ensures PullResult(Pulled(old(reader.State()), reader.syncConn.conn.ending), stored, reports, err)
  {
    hide Pulled, NextRead, Pulling, PullResult;
    var chunk := new Byte[SYNC_MAX_CHUNK_SIZE];
    var sent: nat := 0;
    reports, stored := [], [];
    ghost var ending := reader.syncConn.conn.ending;
    ghost var whole := Pulled(reader.State(), ending);
    PullingStarts(whole);
    Whole(local.written);
    while true
      invariant reader.syncConn.Valid() && fresh(chunk) && chunk.Length == SYNC_MAX_CHUNK_SIZE
      invariant local.written == old(local.written) + stored && sent == |stored|
      invariant Pulling(whole, stored, Pulled(reader.State(), ending), reports)
      decreases |reader.syncConn.conn.incoming|
    {
      PulledStep(reader.State(), ending);
      ghost var here, rest := NextRead(reader.State(), SYNC_MAX_CHUNK_SIZE, ending), Pulled(reader.State(), ending);
      var n, e := reader.Read(chunk);
      if e.Some? && e != Some(EOF) {
        PullingEnds(whole, stored, rest, reports);
        return reports, e, stored;
      }
      if n == 0 {
        PullingEnds(whole, stored, rest, reports);
        return reports, None, stored;
      }
      sent := sent + n;
      ghost var before := reports;
      reports := reports + [sent];
      var k;
      k, e := local.Write(chunk[..n]);
      PullingOn(whole, stored, here.data, Pulled(reader.State(), ending), before, k);
      Assoc(old(local.written), stored, here.data[..k]);
      stored := stored + here.data[..k];
      if e.Some? {
        return reports, e, stored;
      }
    }
  }

  /** A stream as its chunks. */
  function ChunkFrames(chunks: seq<seq<Byte>>): seq<Byte> {
    if chunks == [] then [] else Frame(ID_DATA, chunks[0]) + ChunkFrames(chunks[1..])
  }

  predicate ChunkSizes(chunks: seq<seq<Byte>>) {
    forall c :: c in chunks ==> |c| < TWO_TO_31
  }

  function BeforeEmpty(chunks: seq<seq<Byte>>): seq<Byte> {
    if chunks == [] || chunks[0] == [] then [] else chunks[0] + BeforeEmpty(chunks[1..])
  }

  predicate NoDataAfterEmpty(chunks: seq<seq<Byte>>) {
    chunks == [] ||
    (if chunks[0] == [] then forall c :: c in chunks ==> c == [] else NoDataAfterEmpty(chunks[1..]))
  }

  lemma ReadInChunk(b: seq<Byte>, rest: seq<Byte>, ending: Error)
    requires |b| > 0
    ensures var n := Min(|b|, SYNC_MAX_CHUNK_SIZE);
            NextRead(ReaderState(|b|, false, b + rest), SYNC_MAX_CHUNK_SIZE, ending)
            == ReadResult(b[..n], None, ReaderState(|b| - n, false, b[n..] + rest))
  {
    hide NextChunk;
    var n := Min(|b|, SYNC_MAX_CHUNK_SIZE);
    assert (b + rest)[..n] == b[..n] && (b + rest)[n..] == b[n..] + rest;
  }

  /** Inside a chunk the loop takes 64k at a time until the chunk is used up. */
  lemma {:induction false} PulledInChunk(b: seq<Byte>, rest: seq<Byte>, ending: Error)
    requires |b| > 0
    ensures var q := Pulled(ReaderState(0, false, rest), ending);
            Pulled(ReaderState(|b|, false, b + rest), ending) == Pull(b + q.data, q.err)
    decreases |b|
  {
    hide Pulled, NextRead, PutUint32;
    var n := Min(|b|, SYNC_MAX_CHUNK_SIZE);
    var st := ReaderState(|b|, false, b + rest);
    var q := Pulled(ReaderState(0, false, rest), ending);
    ReadInChunk(b, rest, ending);
    PulledStep(st, ending);
    if n < |b| {
      PulledInChunk(b[n..], rest, ending);
      Assoc(b[..n], b[n..], q.data);
      Glue(b, n);
    } else {
      Whole(b);
      Whole(rest);
    }
  }

  /** A DATA header is transparent to the loop, unless its chunk is empty. */
  lemma PulledAtHeader(size: nat, body: seq<Byte>, ending: Error)
    requires size < TWO_TO_31
    ensures var s := ID_DATA + PutUint32(size) + body;
            Pulled(Fresh(s), ending)
            == (if size == 0 then Pull([], None) else Pulled(ReaderState(size, false, body), ending))
  {
    hide Pulled, NextRead;
    ReadAtHeader(size, body, ending);
    PulledStep(Fresh(ID_DATA + PutUint32(size) + body), ending);
    PulledStep(ReaderState(size, false, body), ending);
  }

  lemma ReadAtHeader(size: nat, body: seq<Byte>, ending: Error)
    requires size < TWO_TO_31
    ensures var r := NextRead(Fresh(ID_DATA + PutUint32(size) + body), SYNC_MAX_CHUNK_SIZE, ending);
            if size == 0 then r.err.None? && r.data == []
            else r == NextRead(ReaderState(size, false, body), SYNC_MAX_CHUNK_SIZE, ending)
  {
    hide PutUint32, Uint32, FailError, Text;
    var s := ID_DATA + PutUint32(size) + body;
    CallHeader(ID_DATA, PutUint32(size), body);
    Uint32OfPut(size);
    assert NextChunk(s, ending) == Chunk(size, None, body);
  }

  lemma {:induction false} PulledChunks(chunks: seq<seq<Byte>>, rest: seq<Byte>, ending: Error)
    requires ChunkSizes(chunks)
    ensures var p := Pulled(Fresh(ChunkFrames(chunks) + rest), ending);
            var q := if [] in chunks then Pull([], None) else Pulled(Fresh(rest), ending);
            p == Pull(BeforeEmpty(chunks) + q.data, q.err)
  {
    hide Pulled, PutUint32;
    if chunks == [] {
      Whole(rest);
      Whole(Pulled(Fresh(rest), ending).data);
    } else {
      var c, tail := chunks[0], ChunkFrames(chunks[1..]) + rest;
      assert c in chunks;
      Assoc(Frame(ID_DATA, c), ChunkFrames(chunks[1..]), rest);
      Assoc(ID_DATA + PutUint32(|c|), c, tail);
      PulledAtHeader(|c|, c + tail, ending);
      var q := if [] in chunks then Pull([], None) else Pulled(Fresh(rest), ending);
      if c != [] {
        PulledInChunk(c, tail, ending);
        PulledChunks(chunks[1..], rest, ending);
        Assoc(c, BeforeEmpty(chunks[1..]), q.data);
        assert chunks == [c] + chunks[1..];
      }
    }
  }

  lemma {:induction false} CutShortExactly(chunks: seq<seq<Byte>>)
    ensures BeforeEmpty(chunks) == Flatten(chunks) <==> NoDataAfterEmpty(chunks)
    ensures BeforeEmpty(chunks) <= Flatten(chunks)
  {
    if chunks != [] {
      var c, rest := chunks[0], chunks[1..];
      CutShortExactly(rest);
      if c == [] {
        FlattenEmpty(chunks);
      } else {
        Cut(c, BeforeEmpty(rest));
        Cut(c, Flatten(rest));
      }
    }
  }

  lemma {:induction false} FlattenEmpty(chunks: seq<seq<Byte>>)
    ensures Flatten(chunks) == [] <==> forall c :: c in chunks ==> c == []
  {
    if chunks != [] {
      FlattenEmpty(chunks[1..]);
      assert forall c :: c in chunks <==> c == chunks[0] || c in chunks[1..];
      assert |Flatten(chunks)| == |chunks[0]| + |Flatten(chunks[1..])|;
      assert chunks[0] in chunks && (|chunks[0]| == 0 ==> chunks[0] == []);
    }
  }

  /**
    On every complete stream PullFile succeeds with the chunks before the first empty one. So the
    whole file arrives if and only if no chunk with data follows an empty chunk.
  */
  lemma PullOfCompleteStream(chunks: seq<seq<Byte>>, time: int, tail: seq<Byte>, ending: Error)
    requires ChunkSizes(chunks)
    ensures var p := Pulled(Fresh(ChunkFrames(chunks) + (DoneFrame(time) + tail)), ending);
            p == Pull(BeforeEmpty(chunks), None)
            && (p.data == Flatten(chunks) <==> NoDataAfterEmpty(chunks))
  {
    var rest := DoneFrame(time) + tail;
    assert rest[..4] == ID_DONE && ID_DONE[1] != ID_DATA[1];
    assert NextChunk(rest, ending).err == Some(EOF);
    PulledChunks(chunks, rest, ending);
    CutShortExactly(chunks);
    Whole(BeforeEmpty(chunks));
  }

  lemma ReadTruncated(k: nat, b: seq<Byte>, ending: Error)
    requires |b| < k
    ensures var n := SYNC_MAX_CHUNK_SIZE;
            var r := NextRead(ReaderState(k, false, b), n, ending);
            if |b| >= n then r == ReadResult(b[..n], None, ReaderState(k - n, false, b[n..]))
            else r.err == Some(if |b| > 0 && ending == EOF then UnexpectedEOF else ending) && r.data == b
  {
    hide NextChunk;
  }

  function FullPieces(b: seq<Byte>): seq<Byte> {
    b[..|b| - |b| % SYNC_MAX_CHUNK_SIZE]
  }

  /** The loop inside a chunk of which only `b` arrives. */
  lemma {:induction false} PulledTruncated(k: nat, b: seq<Byte>, ending: Error)
    requires |b| < k
    ensures var p := Pulled(ReaderState(k, false, b), ending);
            && p.data == FullPieces(b) && (p.err.None? <==> ending == EOF && |b| % SYNC_MAX_CHUNK_SIZE == 0)
            && (p.err.Some? ==> EndError(p.err.value, ending))
    decreases |b|
  {
    hide Pulled, NextRead;
    IsItself(ending);
    IsItself(UnexpectedEOF);
    var n := SYNC_MAX_CHUNK_SIZE;
    ReadTruncated(k, b, ending);
    PulledStep(ReaderState(k, false, b), ending);
    if |b| >= n {
      PulledTruncated(k - n, b[n..], ending);
      var m := |b| - |b| % n;
      assert m >= n && |b[n..]| - |b[n..]| % n == m - n;
      assert b[..m] == b[..n] + b[n..][..m - n];
    }
  }

  /**
    A connection that ends inside a chunk: the pull stores the full 64k pieces of that chunk, and
    reports success if and only if the end is a clean close after a multiple of 64k.
  */
  lemma PullOfTruncatedStream(chunks: seq<seq<Byte>>, k: nat, b: seq<Byte>, ending: Error)
    requires ChunkSizes(chunks) && [] !in chunks && |b| < k < TWO_TO_31
    ensures var p := Pulled(Fresh(ChunkFrames(chunks) + (ID_DATA + PutUint32(k) + b)), ending);
            && p.data == Flatten(chunks) + FullPieces(b)
            && (p.err.None? <==> ending == EOF && |b| % SYNC_MAX_CHUNK_SIZE == 0)
  {
    PulledTruncated(k, b, ending);
    PulledAtHeader(k, b, ending);
    PulledChunks(chunks, ID_DATA + PutUint32(k) + b, ending);
    NoEmptyChunks(chunks);
    CutShortExactly(chunks);
  }

  // ------------------------------------------------------ answers that are errors

  lemma PulledAtError(s: seq<Byte>, e: Error, ending: Error)
    requires NextChunk(s, ending).err == Some(e) && e != EOF
    ensures Pulled(Fresh(s), ending) == Pull([], Some(e))
  {
    hide Pulled, NextChunk;
    PulledStep(Fresh(s), ending);
  }

  /** An error at a header, behind any non-empty chunks: they are stored, and the error is reported. */
  lemma PullOfError(chunks: seq<seq<Byte>>, s: seq<Byte>, e: Error, ending: Error)
    requires ChunkSizes(chunks) && [] !in chunks && NextChunk(s, ending).err == Some(e) && e != EOF
    ensures Pulled(Fresh(ChunkFrames(chunks) + s), ending) == Pull(Flatten(chunks), Some(e))
  {
    hide Pulled, NextChunk;
    PulledAtError(s, e, ending);
    PulledChunks(chunks, s, ending);
    NoEmptyChunks(chunks);
    CutShortExactly(chunks);
    Whole(Flatten(chunks));
  }

  /** The device's FAIL is PullFile's error: a missing file, or what the device said. */
  lemma PullOfFail(chunks: seq<seq<Byte>>, m: seq<Byte>, rest: seq<Byte>, ending: Error)
    requires ChunkSizes(chunks) && [] !in chunks && |m| < TWO_TO_31
    ensures Pulled(Fresh(ChunkFrames(chunks) + (Frame(ID_FAIL, m) + rest)), ending)
            == Pull(Flatten(chunks), Some(if SaysMissing(Text(m)) then FileNoExist else ServerError(Text(m))))
  {
    hide Pulled, NextChunk, Frame, SaysMissing;
    FailIsRead(m, rest, ending);
    PullOfError(chunks, Frame(ID_FAIL, m) + rest,
                if SaysMissing(Text(m)) then FileNoExist else ServerError(Text(m)), ending);
  }

  /** An id that is none of the three is an error too. */
  lemma PullOfUnknown(chunks: seq<seq<Byte>>, s: seq<Byte>, ending: Error)
    requires ChunkSizes(chunks) && [] !in chunks
    requires |s| >= 8 && s[..4] != ID_DATA && s[..4] != ID_DONE && s[..4] != ID_FAIL
    ensures Pulled(Fresh(ChunkFrames(chunks) + s), ending) == Pull(Flatten(chunks), Some(AssertionError))
  {
    hide Pulled, NextChunk;
    ChunkAnswers(s, ending);
    PullOfError(chunks, s, AssertionError, ending);
  }

  // ------------------------------------------------------- every cut position

  /** What the loop has stored of a complete stream of which the first `k` bytes arrive. */
  function Stored(chunks: seq<seq<Byte>>, k: nat): seq<Byte> {
    if chunks == [] || k < 8 || chunks[0] == [] then []
    else if k < 8 + |chunks[0]| then FullPieces(chunks[0][..k - 8])
    else chunks[0] + Stored(chunks[1..], k - 8 - |chunks[0]|)
  }

  /**
    The cuts that the loop takes for success: behind the DONE header, behind the header of an empty
    chunk, and, if the connection closes cleanly, inside a chunk at a multiple of 64k.
  */
  predicate LooksComplete(chunks: seq<seq<Byte>>, k: nat, ending: Error) {
    if k < 8 then false
    else if chunks == [] || chunks[0] == [] then true
    else if k < 8 + |chunks[0]| then ending == EOF && (k - 8) % SYNC_MAX_CHUNK_SIZE == 0
    else LooksComplete(chunks[1..], k - 8 - |chunks[0]|, ending)
  }

  /** Fewer than eight bytes are no header: an error, whatever the connection ends with. */
  lemma PullOfNoHeader(h: seq<Byte>, ending: Error)
    requires |h| < 8
    ensures var p := Pulled(Fresh(h), ending); p.data == [] && p.err.Some? && EndError(p.err.value, ending)
  {
    hide Pulled;
    ChunkAnswers(h, ending);
    PulledStep(Fresh(h), ending);
  }

  lemma PullOfDone(time: int, ending: Error)
    ensures Pulled(Fresh(DoneFrame(time)), ending) == Pull([], None)
  {
    hide Pulled;
    var s := DoneFrame(time);
    assert s[..4] == ID_DONE && ID_DONE[1] != ID_DATA[1];
    PulledStep(Fresh(s), ending);
  }

  /** Cutting a chunk's frame with something behind it. */
  lemma CutFrame(c: seq<Byte>, tail: seq<Byte>, k: nat)
    requires 8 <= k <= 8 + |c| + |tail|
    ensures |Frame(ID_DATA, c) + tail| == 8 + |c| + |tail|
    ensures (Frame(ID_DATA, c) + tail)[..k] == ID_DATA + PutUint32(|c|) + (c + tail)[..k - 8]
    ensures if k < 8 + |c| then (c + tail)[..k - 8] == c[..k - 8]
            else (c + tail)[..k - 8] == c + tail[..k - 8 - |c|]
  {
    hide PutUint32;
  }

  /**
    Every complete stream, cut at every position, on a connection with any ending: what is stored,
    and that success is reported exactly for the cuts that look complete.
  */
  lemma {:induction false} PullOfCutStream(chunks: seq<seq<Byte>>, time: int, k: nat, ending: Error)
    requires ChunkSizes(chunks) && k <= |ChunkFrames(chunks) + DoneFrame(time)|
    ensures var p := Pulled(Fresh((ChunkFrames(chunks) + DoneFrame(time))[..k]), ending);
            && p.data == Stored(chunks, k) && (p.err.None? <==> LooksComplete(chunks, k, ending))
            && (p.err.Some? ==> EndError(p.err.value, ending))
  {
    hide Pulled, PutUint32, Frame, DoneFrame, FullPieces, EndError;
    var s := ChunkFrames(chunks) + DoneFrame(time);
    assert |DoneFrame(time)| == 8 by { DoneSize(time); }
    if k < 8 {
      PullOfNoHeader(s[..k], ending);
    } else if chunks == [] {
      Whole(DoneFrame(time));
      PullOfDone(time, ending);
    } else {
      var c, tail := chunks[0], ChunkFrames(chunks[1..]) + DoneFrame(time);
      assert c in chunks && forall d :: d in chunks[1..] ==> d in chunks;
      Assoc(Frame(ID_DATA, c), ChunkFrames(chunks[1..]), DoneFrame(time));
      FrameSize(c);
      CutFrame(c, tail, k);
      PulledAtHeader(|c|, (c + tail)[..k - 8], ending);
      if c != [] {
        if k < 8 + |c| {
          PulledTruncated(|c|, c[..k - 8], ending);
        } else {
          PulledInChunk(c, tail[..k - 8 - |c|], ending);
          PullOfCutStream(chunks[1..], time, k - 8 - |c|, ending);
        }
      }
    }
  }

  lemma DoneSize(time: int)
    ensures |DoneFrame(time)| == 8
  {
  }

  lemma FrameSize(c: seq<Byte>)
    ensures |Frame(ID_DATA, c)| == 8 + |c|
  {
  }

  /** How much of a stream without empty chunks is stored: everything only if every chunk arrived. */
  lemma {:induction false} StoredIsPrefix(chunks: seq<seq<Byte>>, k: nat)
    requires [] !in chunks
    ensures Stored(chunks, k) <= Flatten(chunks)
    ensures Stored(chunks, k) == Flatten(chunks) <==> k >= |ChunkFrames(chunks)|
  {
    if chunks != [] {
      var c, rest := chunks[0], chunks[1..];
      FrameSize(c);
      assert c in chunks;
      if k >= 8 + |c| {
        StoredIsPrefix(rest, k - 8 - |c|);
        Cut(c, Stored(rest, k - 8 - |c|));
        Cut(c, Flatten(rest));
      } else if k >= 8 {
        assert |FullPieces(c[..k - 8])| < |c| && FullPieces(c[..k - 8]) <= c;
      }
    }
  }

  /** Position k lies inside chunk i, behind its header and a multiple of 64k of its data. */
  predicate InsideAtPiece(chunks: seq<seq<Byte>>, i: nat, k: nat)
    requires i < |chunks|
  {
    var start := |ChunkFrames(chunks[..i])| + 8;
    start <= k < start + |chunks[i]| && (k - start) % SYNC_MAX_CHUNK_SIZE == 0
  }

  ghost predicate CutInside(chunks: seq<seq<Byte>>, k: nat) {
    exists i :: 0 <= i < |chunks| && InsideAtPiece(chunks, i, k)
  }

  lemma InsideLater(chunks: seq<seq<Byte>>, i: nat, k: nat)
    requires i + 1 < |chunks|
    ensures InsideAtPiece(chunks, i + 1, k) <==>
            var start := 8 + |chunks[0]|; k >= start && InsideAtPiece(chunks[1..], i, k - start)
  {
    hide Frame;
    var rest := chunks[1..];
    FrameSize(chunks[0]);
    assert chunks[..i + 1] == [chunks[0]] + rest[..i];
  }

  /** A cut is inside the first chunk or inside one of the others. */
  lemma CutInsideStep(chunks: seq<seq<Byte>>, k: nat)
    requires chunks != []
    ensures var start := 8 + |chunks[0]|;
            CutInside(chunks, k) <==>
              if k < start then InsideAtPiece(chunks, 0, k) else CutInside(chunks[1..], k - start)
  {
    hide InsideAtPiece;
    var start, rest := 8 + |chunks[0]|, chunks[1..];
    assert InsideAtPiece(chunks, 0, k) ==> k < start by { FirstChunk(chunks, k); }
    if CutInside(chunks, k) {
      var i :| 0 <= i < |chunks| && InsideAtPiece(chunks, i, k);
      if i > 0 {
        InsideLater(chunks, i - 1, k);
      }
    }
    if k >= start && CutInside(rest, k - start) {
      var m := k - start;
      var i :| 0 <= i < |rest| && InsideAtPiece(rest, i, m);
      InsideLater(chunks, i, k);
    }
  }

  lemma FirstChunk(chunks: seq<seq<Byte>>, k: nat)
    requires chunks != []
    ensures InsideAtPiece(chunks, 0, k) <==> 8 <= k < 8 + |chunks[0]| && (k - 8) % SYNC_MAX_CHUNK_SIZE == 0
  {
    assert chunks[..0] == [];
  }

  /** Without empty chunks, the cuts that look complete, by position. */
  lemma {:induction false} CutPlace(chunks: seq<seq<Byte>>, k: nat, ending: Error)
    requires [] !in chunks
    ensures LooksComplete(chunks, k, ending) <==>
            k >= |ChunkFrames(chunks)| + 8 || (ending == EOF && CutInside(chunks, k))
  {
    hide Frame, InsideAtPiece, CutInside;
    if chunks == [] {
      assert !CutInside([], k) by { NoChunks(k); }
    } else {
      FrameSize(chunks[0]);
      FirstChunk(chunks, k);
      CutInsideStep(chunks, k);
      assert chunks[0] in chunks;
      if k >= 8 + |chunks[0]| {
        CutPlace(chunks[1..], k - 8 - |chunks[0]|, ending);
      }
    }
  }

  lemma NoChunks(k: nat)
    ensures !CutInside([], k)
  {
  }

  /**
    Whether PullFile's success can be trusted. For a stream of non-empty chunks cut anywhere, on a
    connection with any ending: a prefix of the file is stored; success is reported if and only if
    nothing is missing, or the connection closed cleanly inside a chunk at a multiple of 64k; and
    only in the first case is it the whole file.
  */
  lemma PullSuccess(chunks: seq<seq<Byte>>, time: int, k: nat, ending: Error)
    requires ChunkSizes(chunks) && [] !in chunks && k <= |ChunkFrames(chunks) + DoneFrame(time)|
    ensures var size := |ChunkFrames(chunks) + DoneFrame(time)|;
            var p := Pulled(Fresh((ChunkFrames(chunks) + DoneFrame(time))[..k]), ending);
            && p.data <= Flatten(chunks)
            && (p.err.None? <==>
                  k == size || (ending == EOF && CutInside(chunks, k)))
            && (p.err.None? && p.data == Flatten(chunks) <==> k == size)
            && (p.err.Some? ==> EndError(p.err.value, ending))
  {
    hide Pulled, Stored, LooksComplete, InsideAtPiece, CutInside, Flatten, DoneFrame, ChunkFrames;
    DoneSize(time);
    PullOfCutStream(chunks, time, k, ending);
    StoredIsPrefix(chunks, k);
    CutPlace(chunks, k, ending);
    InsideIsBefore(chunks, k);
  }

  lemma InsideIsBefore(chunks: seq<seq<Byte>>, k: nat)
    ensures CutInside(chunks, k) ==> k < |ChunkFrames(chunks)|
  {
    hide Frame;
    if CutInside(chunks, k) {
      var i :| 0 <= i < |chunks| && InsideAtPiece(chunks, i, k);
      ChunkIsBefore(chunks, i);
    }
  }

  lemma ChunkIsBefore(chunks: seq<seq<Byte>>, i: nat)
    requires i < |chunks|
    ensures |ChunkFrames(chunks[..i])| + 8 + |chunks[i]| <= |ChunkFrames(chunks)|
  {
    hide Frame;
    assert chunks == chunks[..i] + ([chunks[i]] + chunks[i + 1..]);
    ChunkFramesConcat(chunks[..i], [chunks[i]] + chunks[i + 1..]);
    ChunkFramesConcat([chunks[i]], chunks[i + 1..]);
    FrameSize(chunks[i]);
    assert [chunks[i]][1..] == chunks[..0];
  }

  lemma {:induction false} NoEmptyChunks(chunks: seq<seq<Byte>>)
    requires [] !in chunks
    ensures NoDataAfterEmpty(chunks)
  {
    if chunks != [] {
      NoEmptyChunks(chunks[1..]);
    }
  }

  function Chunked(d: seq<Byte>): seq<seq<Byte>> {
    if d == [] then []
    else var n := Min(|d|, SYNC_MAX_CHUNK_SIZE); [d[..n]] + Chunked(d[n..])
  }

  lemma {:induction false} FramesOfChunked(d: seq<Byte>)
    ensures DataFrames(d) == ChunkFrames(Chunked(d)) && Flatten(Chunked(d)) == d
    ensures ChunkSizes(Chunked(d)) && [] !in Chunked(d)
    decreases |d|
  {
    if d != [] {
      var n := Min(|d|, SYNC_MAX_CHUNK_SIZE);
      FramesOfChunked(d[n..]);
      Cut([d[..n]], Chunked(d[n..]));
      Glue(d, n);
      assert forall c :: c in Chunked(d) <==> c == d[..n] || c in Chunked(d[n..]);
      assert |d[..n]| == n;
    }
  }

  lemma {:induction false} ChunkFramesConcat(a: seq<seq<Byte>>, b: seq<seq<Byte>>)
    ensures ChunkFrames(a + b) == ChunkFrames(a) + ChunkFrames(b)
  {
    if a == [] {
      Whole(b);
      Whole(ChunkFrames(b));
    } else {
      assert (a + b)[1..] == a[1..] + b;
      ChunkFramesConcat(a[1..], b);
      Assoc(Frame(ID_DATA, a[0]), ChunkFrames(a[1..]), ChunkFrames(b));
    }
  }

  function ChunkedAll(parts: seq<seq<Byte>>): seq<seq<Byte>> {
    if parts == [] then [] else Chunked(parts[0]) + ChunkedAll(parts[1..])
  }

  lemma {:induction false} WritesOfChunked(parts: seq<seq<Byte>>)
    ensures WriteAll(parts) == ChunkFrames(ChunkedAll(parts)) && Flatten(ChunkedAll(parts)) == Flatten(parts)
    ensures ChunkSizes(ChunkedAll(parts)) && [] !in ChunkedAll(parts)
  {
    if parts != [] {
      FramesOfChunked(parts[0]);
      WritesOfChunked(parts[1..]);
      ChunkFramesConcat(Chunked(parts[0]), ChunkedAll(parts[1..]));
      FlattenConcat(Chunked(parts[0]), ChunkedAll(parts[1..]));
    }
  }

  /** What the writer sends for any split of a file, the copy loop of PullFile stores as that file. */
  lemma PushedIsPulled(parts: seq<seq<Byte>>, time: int, tail: seq<Byte>, ending: Error)
    ensures Pulled(Fresh(WriteAll(parts) + (DoneFrame(time) + tail)), ending) == Pull(Flatten(parts), None)
  {
    WritesOfChunked(parts);
    PullOfCompleteStream(ChunkedAll(parts), time, tail, ending);
    NoEmptyChunks(ChunkedAll(parts));
  }

  // -------------------------------------------------------------------- push

  /** The handler's counts are the sizes of the chunks. */
  predicate Counted(parts: seq<seq<Byte>>, reported: seq<nat>) {
    && |reported| == |parts| && (forall i :: 0 <= i < |parts| ==> reported[i] == |parts[i]|)
    && Progress.Positive(reported) && Progress.Sum(reported) == |Flatten(parts)|
  }

  /**
    What a push has read, written and reported. Behind the frames of the chunks `parts`, some bytes of
    the frames of `next`, or of DONE behind the whole file, may be out.
  */
  predicate PushResult(file: seq<Byte>, parts: seq<seq<Byte>>, next: seq<Byte>, reported: seq<nat>,
                       before: seq<Byte>, after: seq<Byte>, mtime: Option<int>) {
    && Flatten(parts) + next <= file && Counted(parts, reported)
    && before + WriteAll(parts) <= after
    && after <= before + WriteAll(parts)
                + (if mtime.Some? && Flatten(parts) == file && next == [] then DoneFrame(mtime.value)
                   else DataFrames(next))
  }

  predicate Pushing(file: seq<Byte>, unread: seq<Byte>, parts: seq<seq<Byte>>, reported: seq<nat>,
                    before: seq<Byte>, after: seq<Byte>) {
    file == Flatten(parts) + unread && after == before + WriteAll(parts) && Counted(parts, reported)
  }

  lemma PushingStarts(file: seq<Byte>, before: seq<Byte>)
    ensures Pushing(file, file, [], [], before, before)
  {
    Whole(file);
    Whole(before);
  }

  /** One chunk more: its frames are out completely, or partly. */
  lemma PushingOn(file: seq<Byte>, data: seq<Byte>, unread: seq<Byte>, parts: seq<seq<Byte>>, reported: seq<nat>,
                  before: seq<Byte>, after: seq<Byte>, now: seq<Byte>, mtime: Option<int>)
    requires Pushing(file, data + unread, parts, reported, before, after) && data != []
    requires after <= now <= after + DataFrames(data)
    ensures PushResult(file, parts, data, reported, before, now, mtime)
    ensures now == after + DataFrames(data) ==>
              Pushing(file, unread, parts + [data], reported + [|data|], before, now)
  {
    hide DataFrames, DoneFrame, Counted, Flatten, WriteAll;
    FlattenAppend(parts, data);
    Assoc(Flatten(parts), data, unread);
    Cut(Flatten(parts) + data, unread);
    WriteAllAppend(parts, data);
    Assoc(before, WriteAll(parts), DataFrames(data));
    CountedOn(parts, data, reported);
  }

  lemma CountedOn(parts: seq<seq<Byte>>, data: seq<Byte>, reported: seq<nat>)
    requires Counted(parts, reported) && data != []
    ensures Counted(parts + [data], reported + [|data|])
  {
    hide Flatten;
    FlattenAppend(parts, data);
    Progress.SumOneMore(reported, |data|);
    assert forall n :: n in reported + [|data|] <==> n in reported || n == |data|;
  }

  /** Before the next chunk, and during DONE behind the last one. */
  lemma PushingEnds(file: seq<Byte>, unread: seq<Byte>, parts: seq<seq<Byte>>, reported: seq<nat>,
                    before: seq<Byte>, after: seq<Byte>, now: seq<Byte>, mtime: Option<int>)
    requires Pushing(file, unread, parts, reported, before, after)
    requires after <= now <= after + (if unread == [] && mtime.Some? then DoneFrame(mtime.value) else [])
    ensures PushResult(file, parts, [], reported, before, now, mtime)
    ensures unread == [] ==> Flatten(parts) == file
  {
    hide DoneFrame, WriteAll;
    Whole(Flatten(parts));
    Whole(after);
    assert unread != [] ==> now == after && |Flatten(parts)| < |file|;
    NoFrames(after);
  }

  lemma NoFrames(after: seq<Byte>)
    ensures DataFrames([]) == [] && after + DataFrames([]) == after
  {
  }

  /**
    PushFile from the open writer on. On success the connection carries writes that split the
    local file, then DONE with the modification time, and the device has answered OKAY.
  */
  method PushLoop(local: LocalFile, writer: SyncFileWriter, now: int)
      returns (ghost parts: seq<seq<Byte>>, ghost next: seq<Byte>, reported: seq<nat>, err: Option<Error>)
    requires writer.syncConn.Valid()
    modifies local`unread, writer
    modifies writer.syncConn`wbuf, writer.syncConn.wbuf, writer.syncConn.rbuf, writer.syncConn.conn
    ensures PushResult(old(local.unread), parts, next, reported,
                       old(writer.syncConn.conn.outgoing), writer.syncConn.conn.outgoing, writer.mtime)
    ensures err.None? <==>
              && Flatten(parts) == old(local.unread) && writer.mtime.Some?
              && writer.syncConn.conn.outgoing
                 == old(writer.syncConn.conn.outgoing) + WriteAll(parts) + DoneFrame(writer.mtime.value)
              && |old(writer.syncConn.conn.incoming)| >= 8 && old(writer.syncConn.conn.incoming)[..4] == ID_OKAY
    ensures err.None? ==> writer.syncConn.conn.incoming == old(writer.syncConn.conn.incoming)[8..]
    ensures old(writer.mtime).Some? ==> writer.mtime == old(writer.mtime)
  {
    hide Pushing, PushResult, DataFrames, DoneFrame;
    parts, next, reported := [], [], [];
    ghost var start := writer.syncConn.conn.outgoing;
    ghost var file := local.unread;
    PushingStarts(file, start);
    while true
      invariant writer.syncConn.Valid() && writer.mtime == old(writer.mtime)
      invariant writer.syncConn.wbuf == old(writer.syncConn.wbuf) || fresh(writer.syncConn.wbuf)
      invariant Pushing(file, local.unread, parts, reported, start, writer.syncConn.conn.outgoing)
      invariant writer.syncConn.conn.incoming == old(writer.syncConn.conn.incoming)
      decreases |local.unread|
    {
      ghost var sent := writer.syncConn.conn.outgoing;
      var data, e := local.Read(SYNC_MAX_CHUNK_SIZE);
      DoneMissing(file, data + local.unread, parts, reported, start, sent);
      if e.Some? && e != Some(EOF) {
        StillSent(sent);
        PushingEnds(file, data + local.unread, parts, reported, start, sent, sent, writer.mtime);
        return parts, [], reported, e;
      }
      if |data| == 0 {
        Whole(local.unread);
        e := writer.CopyDone(now);
        PushingEnds(file, [], parts, reported, start, sent, writer.syncConn.conn.outgoing, writer.mtime);
        SentSoFar(file, parts, reported, start, sent);
        return parts, [], reported, e;
      }
      var n;
      n, e := writer.Write(data);
      FramesSent(sent, data, n);
      PushingOn(file, data, local.unread, parts, reported, start, sent, writer.syncConn.conn.outgoing, writer.mtime);
      if e.Some? {
        return parts, data, reported, e;
      }
      parts := parts + [data];
      reported := reported + [|data|];
    }
  }

  /** Before DONE is sent it is not on the wire, and before the last chunk the file is not complete. */
  lemma DoneMissing(file: seq<Byte>, unread: seq<Byte>, parts: seq<seq<Byte>>, reported: seq<nat>,
                    before: seq<Byte>, after: seq<Byte>)
    requires Pushing(file, unread, parts, reported, before, after)
    ensures forall time :: after != before + WriteAll(parts) + DoneFrame(time)
    ensures unread != [] ==> Flatten(parts) != file
  {
    assert |file| == |Flatten(parts)| + |unread|;
    forall time ensures after != before + WriteAll(parts) + DoneFrame(time) {
      DoneSize(time);
    }
  }

  lemma StillSent(sent: seq<Byte>)
    ensures forall x: seq<Byte> :: sent <= sent + x
  {
  }

  lemma SentSoFar(file: seq<Byte>, parts: seq<seq<Byte>>, reported: seq<nat>, before: seq<Byte>, after: seq<Byte>)
    requires Pushing(file, [], parts, reported, before, after)
    ensures after == before + WriteAll(parts) && Flatten(parts) == file
  {
    Whole(Flatten(parts));
  }

  lemma FramesSent(sent: seq<Byte>, data: seq<Byte>, n: nat)
    requires n <= |data|
    ensures sent <= sent + DataFrames(data[..n])
  {
  }
}
