/** Directory listings: entries read one by one, in pages, with a latched end. */
module SyncDir {
  import opened Bytes
  import opened Net
  import opened SyncProtocol

  // -------------------------------------------------------------- file modes

  datatype FileKind = Regular | Symlink | Directory | Socket | NamedPipe | CharDevice | BlockDevice

  datatype FileMode = FileMode(kind: FileKind, perm: nat)

  /** The file type is in the bits 12 to 15 of a mode word, the permissions in the lowest nine. */
  function FileType(word: nat): (t: nat)
    ensures t < 16
  {
    word / 4096 % 16
  }

  /** ParseFileModeFromAdb: each case asks for some bits to be set, whatever the others are. */
  function ParseFileMode(word: nat): FileMode {
    var t := FileType(word);
    var b3, b2, b1, b0 := t / 8 % 2 == 1, t / 4 % 2 == 1, t / 2 % 2 == 1, t % 2 == 1;
    FileMode(if b3 && b1 then Symlink
             else if b2 then Directory
             else if b3 && b2 then Socket
             else if b0 then NamedPipe
             else if b1 then CharDevice
             else Regular,
             word % 512)
  }

  /** The file types of stat.h. */
  const STAT_KINDS: map<nat, FileKind> :=
    map[1 := NamedPipe, 2 := CharDevice, 4 := Directory, 6 := BlockDevice, 8 := Regular, 10 := Symlink, 12 := Socket]

  /** The kind is right for every file type but sockets and block devices, which become directories. */
  lemma KindOfMode(word: nat)
    requires FileType(word) in STAT_KINDS
    ensures var kind := STAT_KINDS[FileType(word)];
            && (ParseFileMode(word).kind == kind <==> kind != Socket && kind != BlockDevice)
            && (kind == Socket || kind == BlockDevice ==> ParseFileMode(word).kind == Directory)
  {
    var t := FileType(word);
    assert t == 1 || t == 2 || t == 4 || t == 6 || t == 8 || t == 10 || t == 12;
  }

  /** `mode` is the word as it was sent. */
  datatype DirEntry = DirEntry(name: seq<Byte>, mode: nat, size: int, mtime: int) {
    function Mode(): FileMode {
      ParseFileMode(mode)
    }
  }

  datatype Dent = Dent(entry: Option<DirEntry>, done: bool, err: Option<Error>, rest: seq<Byte>)

  /**
    readDentV1 as a function of the bytes still to come. An entry whose name is cut comes back with
    the error, its name filled up with zeros.
  */
  function NextDent(s: seq<Byte>, ending: Error): (d: Dent)
    ensures d.err.None? && !d.done ==> d.entry.Some?
  {
    if |s| < 20 then Dent(None, false, Some(Wrapped(FullError(|s|, 20, ending).value)), [])
    else
      var id, namelen, body := s[..4], Uint32(s[16..20]), s[20..];
      var nameErr := if |body| < namelen then Some(Wrapped(FullError(|body|, namelen, ending).value)) else None;
      var rest := if |body| < namelen then [] else body[namelen..];
      if id == ID_DONE then Dent(None, true, nameErr, rest)
      else if id != ID_DENT then Dent(None, false, Some(Network(4)), rest)
      else
        var name := if |body| < namelen then body + Zeros(namelen - |body|) else body[..namelen];
        Dent(Some(DirEntry(name, Uint32(s[4..8]), Int32(Uint32(s[8..12])), Int32(Uint32(s[12..16])))),
             false, nameErr, rest)
  }

  lemma HeaderWords(s: seq<Byte>)
    requires |s| >= 20
    ensures var h := s[..20];
            && h[..4] == s[..4] && h[4..8] == s[4..8] && h[8..12] == s[8..12]
            && h[12..16] == s[12..16] && h[16..20] == s[16..20]
  {
  }

  /**
    Every record header: DONE is the end, DENT an entry, anything else an error that uses up the
    record; a record with bytes missing is an error of the connection, or the wrong-id error.
  */
  lemma DentAnswers(s: seq<Byte>, ending: Error)
    ensures var d := NextDent(s, ending);
            && (|s| < 20 ==> d.err.Some? && EndError(d.err.value, ending) && !d.done && d.entry.None? && d.rest == [])
            && (|s| >= 20 ==>
                  var id, cut := s[..4], |s| - 20 < Uint32(s[16..20]);
                  && (d.done <==> id == ID_DONE)
                  && (d.entry.Some? <==> id == ID_DENT)
                  && (id != ID_DONE && id != ID_DENT ==> d.err == Some(Network(4)))
                  && (id == ID_DONE || id == ID_DENT ==>
                        (d.err.Some? <==> cut) && (cut ==> EndError(d.err.value, ending)))
                  && d.rest == (if cut then [] else s[20 + Uint32(s[16..20])..]))
  {
    hide Uint32, Int32;
    assert ID_DONE[1] != ID_DENT[1];
    IsItself(ending);
    IsItself(UnexpectedEOF);
    if |s| >= 20 && |s| - 20 >= Uint32(s[16..20]) {
      assert s[20..][Uint32(s[16..20])..] == s[20 + Uint32(s[16..20])..];
    }
  }

  method ReadDentV1(conn: NetConn<Byte>) returns (entry: Option<DirEntry>, done: bool, err: Option<Error>)
    modifies conn`incoming
    ensures Dent(entry, done, err, conn.incoming) == NextDent(old(conn.incoming), conn.ending)
  {
    hide Uint32, Int32, Zeros;
    entry, done, err := None, false, None;
    var buf := new Byte[20];
    var n, e := conn.ReadFull(buf, 0, 20);
    if e.Some? {
      return None, false, Some(Wrapped(e.value));
    }
    var header := buf[..];
    HeaderWords(old(conn.incoming));
    var id := header[..4];
    var mode, size, mtime := Uint32(header[4..8]), Int32(Uint32(header[8..12])), Int32(Uint32(header[12..16]));
    var namelen := Uint32(header[16..20]);
    var name: seq<Byte> := [];
    if namelen > 0 {
      name, e := ReadZeroFilled(conn, namelen);
      if e.Some? {
        err := Some(Wrapped(e.value));
      }
    }
    if id == ID_DONE {
      return None, true, err;
    } else if id != ID_DENT {
      return None, false, Some(Network(4));
    }
    return Some(DirEntry(name, mode, size, mtime)), false, err;
  }

  datatype DirState = DirState(eof: bool, incoming: seq<Byte>)

  datatype Page = Page(entries: seq<DirEntry>, err: Option<Error>, next: DirState)

  function ReadEntries(incoming: seq<Byte>, count: nat, ending: Error): Page
    decreases count
  {
    if count == 0 then Page([], None, DirState(false, incoming))
    else
      var d := NextDent(incoming, ending);
      if d.err.Some? then Page([], d.err, DirState(false, d.rest))
      else if d.done then Page([], Some(EOF), DirState(true, d.rest))
      else var p := ReadEntries(d.rest, count - 1, ending); Page([d.entry.value] + p.entries, p.err, p.next)
  }

  /** ReadDir(n): the bound is uint32(n), so -1 stands for 2^32 - 1. */
  function NextPage(st: DirState, n: int, ending: Error): Page {
    if st.eof then Page([], Some(EOF), st) else ReadEntries(st.incoming, n % TWO_TO_32, ending)
  }

  /** Any sequence of ReadDir calls. */
  function Pages(st: DirState, ns: seq<int>, ending: Error): Page {
    if ns == [] then Page([], None, st)
    else
      var p := Pages(st, ns[..|ns| - 1], ending);
      var l := NextPage(p.next, ns[|ns| - 1], ending);
      Page(p.entries + l.entries, l.err, l.next)
  }

  class SyncDirReader {
    const syncConn: SyncConn
    var eof: bool

    ghost function State(): DirState
      reads this, syncConn.conn
    {
      DirState(eof, syncConn.conn.incoming)
    }

    constructor (syncConn: SyncConn)
      ensures this.syncConn == syncConn && !eof
    {
      this.syncConn, eof := syncConn, false;
    }

    method ReadDir(n: int) returns (entries: seq<DirEntry>, err: Option<Error>)
      modifies this, syncConn.conn`incoming
      ensures Page(entries, err, State()) == NextPage(old(State()), n, syncConn.conn.ending)
    {
      hide NextDent;
      entries := [];
      if eof {
        return entries, Some(EOF);
      }
      ghost var ending := syncConn.conn.ending;
      ghost var whole := NextPage(State(), n, ending);
      Whole(whole.entries);
      var count := n % TWO_TO_32;
      var i := 0;
      while i < count
        invariant 0 <= i <= count && !eof
        invariant var p := ReadEntries(syncConn.conn.incoming, count - i, ending);
                  whole == Page(entries + p.entries, p.err, p.next)
      {
        var entry, done, err2 := ReadDentV1(syncConn.conn);
        if err2.Some? {
          Whole(entries);
          return entries, err2;
        }
        if done {
          eof := true;
          Whole(entries);
          return entries, Some(EOF);
        }
        Assoc(entries, [entry.value], ReadEntries(syncConn.conn.incoming, count - i - 1, ending).entries);
        entries := entries + [entry.value];
        i := i + 1;
      }
      Whole(entries);
      return entries, None;
    }
  }

  // ------------------------------------------------------------------ paging

  predicate ValidEntry(e: DirEntry) {
    e.mode < TWO_TO_32 && |e.name| < TWO_TO_32 &&
    -TWO_TO_31 <= e.size < TWO_TO_31 && -TWO_TO_31 <= e.mtime < TWO_TO_31
  }

  /** A regular file, directory, link, pipe or character device of any permissions has its mode decoded. */
  lemma ModeIsDecoded(id: seq<Byte>, kind: FileKind, t: nat, perm: nat, e: DirEntry, rest: seq<Byte>, ending: Error)
    requires ValidEntry(e) && id == ID_DENT && perm < 512 && t in STAT_KINDS && STAT_KINDS[t] == kind
    requires kind != Socket && kind != BlockDevice && e.mode == t * 4096 + perm
    ensures var d := NextDent(Record(id, e) + rest, ending);
            d.err.None? && d.entry.Some? && d.entry.value.Mode() == FileMode(kind, perm)
  {
    hide NextDent, Record, ParseFileMode;
    RecordIsRead(id, e, rest, ending);
    assert t == 1 || t == 2 || t == 4 || t == 6 || t == 8 || t == 10 || t == 12;
    KindOfMode(e.mode);
    PermOfMode(e.mode);
  }

  lemma PermOfMode(word: nat)
    ensures ParseFileMode(word).perm == word % 512
  {
  }

  /** One entry, or the end marker, as the device sends it. */
  function Record(id: seq<Byte>, e: DirEntry): seq<Byte> {
    id + PutUint32(e.mode) + PutUint32(e.size) + PutUint32(e.mtime) + PutUint32(|e.name|) + e.name
  }

  function Listing(es: seq<DirEntry>): seq<Byte> {
    if es == [] then [] else Record(ID_DENT, es[0]) + Listing(es[1..])
  }

  lemma HeaderIsRead(s: seq<Byte>, id: seq<Byte>, e: DirEntry, rest: seq<Byte>, ending: Error)
    requires ValidEntry(e) && (id == ID_DENT || id == ID_DONE)
    requires |s| >= 20 && s[..4] == id && s[4..8] == PutUint32(e.mode) && s[8..12] == PutUint32(e.size)
    requires s[12..16] == PutUint32(e.mtime) && s[16..20] == PutUint32(|e.name|) && s[20..] == e.name + rest
    ensures NextDent(s, ending) == Dent(if id == ID_DENT then Some(e) else None, id == ID_DONE, None, rest)
  {
    hide PutUint32, Uint32;
    Uint32OfPut(e.mode);
    Uint32OfPut(e.size);
    Uint32OfPut(e.mtime);
    Uint32OfPut(|e.name|);
    Cut(e.name, rest);
    assert ID_DONE[1] != ID_DENT[1];
  }

  lemma RecordIsRead(id: seq<Byte>, e: DirEntry, rest: seq<Byte>, ending: Error)
    requires ValidEntry(e) && (id == ID_DENT || id == ID_DONE)
    ensures NextDent(Record(id, e) + rest, ending)
            == Dent(if id == ID_DENT then Some(e) else None, id == ID_DONE, None, rest)
  {
    hide PutUint32, NextDent;
    var words := id + PutUint32(e.mode) + PutUint32(e.size) + PutUint32(e.mtime) + PutUint32(|e.name|);
    Assoc(words, e.name, rest);
    Words(id, PutUint32(e.mode), PutUint32(e.size), PutUint32(e.mtime), PutUint32(|e.name|), e.name + rest);
    HeaderIsRead(Record(id, e) + rest, id, e, rest, ending);
  }

  lemma EntriesStep(incoming: seq<Byte>, count: nat, ending: Error)
    requires count > 0
    ensures var d := NextDent(incoming, ending);
            ReadEntries(incoming, count, ending)
            == (if d.err.Some? then Page([], d.err, DirState(false, d.rest))
                else if d.done then Page([], Some(EOF), DirState(true, d.rest))
                else var p := ReadEntries(d.rest, count - 1, ending); Page([d.entry.value] + p.entries, p.err, p.next))
  {
    hide NextDent;
  }

  /** The pages that read no entry. */
  lemma PageWithoutEntries(end: DirEntry, tail: seq<Byte>, s: seq<Byte>, count: nat, ending: Error)
    requires ValidEntry(end)
    ensures ReadEntries(s, 0, ending) == Page([], None, DirState(false, s))
    ensures var stop := Record(ID_DONE, end) + tail;
            && Listing([]) + stop == stop
            && (count > 0 ==> ReadEntries(stop, count, ending) == Page([], Some(EOF), DirState(true, tail)))
  {
    hide NextDent, Record, ValidEntry;
    Whole(Record(ID_DONE, end) + tail);
    RecordIsRead(ID_DONE, end, tail, ending);
  }

  lemma ListingStep(es: seq<DirEntry>, stop: seq<Byte>)
    requires es != []
    ensures Listing(es) + stop == Record(ID_DENT, es[0]) + (Listing(es[1..]) + stop)
  {
    hide Record;
    Assoc(Record(ID_DENT, es[0]), Listing(es[1..]), stop);
  }

  lemma ListParts<T>(s: seq<T>, k: nat)
    requires 0 < k <= |s|
    ensures [s[0]] + s[1..] == s && [s[0]] + s[1..][..k - 1] == s[..k] && s[1..][k - 1..] == s[k..]
  {
  }

  /** A page of at most `count` entries of a complete listing. */
  predicate CompletePage(es: seq<DirEntry>, end: DirEntry, tail: seq<Byte>, count: nat, p: Page) {
    p == (if count <= |es|
          then Page(es[..count], None, DirState(false, Listing(es[count..]) + (Record(ID_DONE, end) + tail)))
          else Page(es, Some(EOF), DirState(true, tail)))
  }

  lemma CompletePageGrows(es: seq<DirEntry>, end: DirEntry, tail: seq<Byte>, count: nat, p: Page)
    requires es != [] && CompletePage(es[1..], end, tail, count, p)
    ensures CompletePage(es, end, tail, count + 1, Page([es[0]] + p.entries, p.err, p.next))
  {
    hide Record, Listing;
    ListParts(es, Min(count + 1, |es|));
  }

  lemma CompletePageStarts(es: seq<DirEntry>, end: DirEntry, tail: seq<Byte>, count: nat)
    ensures var s := Listing(es) + (Record(ID_DONE, end) + tail);
            CompletePage(es, end, tail, 0, Page([], None, DirState(false, s)))
    ensures es == [] && count > 0 ==> CompletePage(es, end, tail, count, Page([], Some(EOF), DirState(true, tail)))
  {
    hide Record;
    Whole(es);
  }

  /** One page of a complete listing, for any bound. */
  lemma {:induction false} PageOfListing(es: seq<DirEntry>, end: DirEntry, tail: seq<Byte>, count: nat, ending: Error)
    requires (forall e :: e in es ==> ValidEntry(e)) && ValidEntry(end)
    ensures CompletePage(es, end, tail, count,
                         ReadEntries(Listing(es) + (Record(ID_DONE, end) + tail), count, ending))
    decreases count
  {
    hide NextDent, Record, ValidEntry, ReadEntries, Listing, CompletePage;
    var stop := Record(ID_DONE, end) + tail;
    PageWithoutEntries(end, tail, Listing(es) + stop, count, ending);
    CompletePageStarts(es, end, tail, count);
    if count > 0 && es != [] {
      ListingStep(es, stop);
      EntriesStep(Listing(es) + stop, count, ending);
      RecordIsRead(ID_DENT, es[0], Listing(es[1..]) + stop, ending);
      PageOfListing(es[1..], end, tail, count - 1, ending);
      CompletePageGrows(es, end, tail, count - 1, ReadEntries(Listing(es[1..]) + stop, count - 1, ending));
    }
  }

  /** The page after `k` entries, appended to them. */
  lemma PageAfter(es: seq<DirEntry>, end: DirEntry, tail: seq<Byte>, k: nat, n: nat, ending: Error)
    requires (forall e :: e in es ==> ValidEntry(e)) && ValidEntry(end) && k <= |es|
    ensures var stop := Record(ID_DONE, end) + tail;
            var l := ReadEntries(Listing(es[k..]) + stop, n, ending);
            if k + n <= |es| then
              es[..k] + l.entries == es[..k + n] && l.err == None
              && l.next == DirState(false, Listing(es[k + n..]) + stop)
            else es[..k] + l.entries == es && l.err == Some(EOF) && l.next == DirState(true, tail)
  {
    hide Record, Listing, ReadEntries, ValidEntry;
    assert forall e :: e in es[k..] ==> e in es;
    PageOfListing(es[k..], end, tail, n, ending);
    Glue(es, k);
    if k + n <= |es| {
      Slice(es, k, k + n);
      assert es[..k] + es[k..k + n] == es[..k + n];
    }
  }

  lemma PageOf(st: DirState, n: int, ending: Error)
    ensures NextPage(st, n, ending)
            == (if st.eof then Page([], Some(EOF), st) else ReadEntries(st.incoming, n % TWO_TO_32, ending))
  {
  }

  /**
    Paging: for any page sizes the pages concatenate to a prefix of the entries, and to all of them
    once the end is reported; nothing after the end marker is consumed, however often one asks.
  */
  lemma {:induction false} PagesOfListing(es: seq<DirEntry>, end: DirEntry, tail: seq<Byte>, ns: seq<int>,
                                          ending: Error)
    requires (forall e :: e in es ==> ValidEntry(e)) && ValidEntry(end)
    ensures var stop := Record(ID_DONE, end) + tail;
            var p := Pages(DirState(false, Listing(es) + stop), ns, ending);
            && p.entries <= es
            && (p.err == None || p.err == Some(EOF))
            && (if p.err == Some(EOF) then p.entries == es && p.next == DirState(true, tail)
                else p.next == DirState(false, Listing(es[|p.entries|..]) + stop))
    decreases |ns|
  {
    hide NextDent, Record, Listing, ReadEntries, ValidEntry, NextPage;
    var stop := Record(ID_DONE, end) + tail;
    if ns == [] {
      Whole(es);
    } else {
      var front, n := ns[..|ns| - 1], ns[|ns| - 1] % TWO_TO_32;
      PagesOfListing(es, end, tail, front, ending);
      var p := Pages(DirState(false, Listing(es) + stop), front, ending);
      PageOf(p.next, ns[|ns| - 1], ending);
      if !p.next.eof {
        PageAfter(es, end, tail, |p.entries|, n, ending);
      } else {
        Whole(es);
      }
    }
  }

  /** A bound is taken modulo 2^32: ReadDir(n) of a listing that is not read yet, for every int n. */
  lemma PageOfBound(es: seq<DirEntry>, end: DirEntry, tail: seq<Byte>, n: int, k: nat, ending: Error)
    requires (forall e :: e in es ==> ValidEntry(e)) && ValidEntry(end)
    requires k < TWO_TO_32 && (n == k || n == k - TWO_TO_32)
    ensures CompletePage(es, end, tail, k,
                         NextPage(DirState(false, Listing(es) + (Record(ID_DONE, end) + tail)), n, ending))
  {
    hide ReadEntries, Listing, Record, ValidEntry;
    PageOfListing(es, end, tail, k, ending);
  }

  /** ReadDir(-1) gives all entries and the end in one call, below 2^32 - 1 entries and not above. */
  lemma WholeListingAtOnce(es: seq<DirEntry>, end: DirEntry, tail: seq<Byte>, ending: Error)
    requires (forall e :: e in es ==> ValidEntry(e)) && ValidEntry(end)
    ensures var p := NextPage(DirState(false, Listing(es) + (Record(ID_DONE, end) + tail)), -1, ending);
            p == Page(es, Some(EOF), DirState(true, tail)) <==> |es| < TWO_TO_32 - 1
  {
    PageOfListing(es, end, tail, TWO_TO_32 - 1, ending);
  }

  // -------------------------------------------------------------- truncation

  lemma WordPrefix(s: seq<Byte>, k: nat)
    requires 20 <= k <= |s|
    ensures s[..k][..4] == s[..4] && s[..k][4..8] == s[4..8] && s[..k][8..12] == s[8..12]
    ensures s[..k][12..16] == s[12..16] && s[..k][16..20] == s[16..20] && s[..k][20..] == s[20..k]
  {
  }

  /** A record of which the last bytes are missing is an error, and uses up what there is. */
  lemma CutRecord(id: seq<Byte>, e: DirEntry, k: nat, ending: Error)
    requires ValidEntry(e) && (id == ID_DENT || id == ID_DONE) && k < |Record(id, e)|
    ensures var d := NextDent(Record(id, e)[..k], ending); d.err.Some? && d.rest == []
  {
    hide PutUint32, Uint32, Int32;
    if k >= 20 {
      Words(id, PutUint32(e.mode), PutUint32(e.size), PutUint32(e.mtime), PutUint32(|e.name|), e.name);
      WordPrefix(Record(id, e), k);
      Uint32OfPut(|e.name|);
    }
  }

  /** What is left of a listing from entry `n` on when it breaks off after `m` more bytes. */
  function Broken(es: seq<DirEntry>, end: DirEntry, n: nat, m: nat): seq<Byte>
    requires n <= |es| && m < |Listing(es[n..]) + Record(ID_DONE, end)|
  {
    (Listing(es[n..]) + Record(ID_DONE, end))[..m]
  }

  /** A page that delivers the first `n` entries and leaves `m` bytes of what follows them. */
  predicate BrokenPage(es: seq<DirEntry>, end: DirEntry, p: Page, count: nat, n: nat, m: nat) {
    && n <= |es| && p.entries == es[..n] && (p.err.None? ==> n == count)
    && m < |Listing(es[n..]) + Record(ID_DONE, end)| && p.next == DirState(false, Broken(es, end, n, m))
  }

  lemma BrokenPageStops(es: seq<DirEntry>, end: DirEntry, err: Error, count: nat)
    ensures BrokenPage(es, end, Page([], Some(err), DirState(false, [])), count, 0, 0)
  {
  }

  lemma BrokenPageStarts(es: seq<DirEntry>, end: DirEntry, k: nat)
    requires k < |Listing(es) + Record(ID_DONE, end)|
    ensures BrokenPage(es, end, Page([], None, DirState(false, (Listing(es) + Record(ID_DONE, end))[..k])), 0, 0, k)
  {
    Whole(es);
  }

  lemma BrokenPageGrows(es: seq<DirEntry>, end: DirEntry, p: Page, count: nat, n: nat, m: nat)
    requires es != [] && BrokenPage(es[1..], end, p, count, n, m)
    ensures BrokenPage(es, end, Page([es[0]] + p.entries, p.err, p.next), count + 1, n + 1, m)
  {
    hide Record, Listing;
    ListParts(es, n + 1);
  }

  /** The first entry of a broken listing is whole, or it is an error. */
  lemma BrokenStart(es: seq<DirEntry>, end: DirEntry, k: nat, ending: Error)
    requires (forall e :: e in es ==> ValidEntry(e)) && ValidEntry(end) && k < |Listing(es) + Record(ID_DONE, end)|
    ensures var s := (Listing(es) + Record(ID_DONE, end))[..k]; var d := NextDent(s, ending);
            (d.err.Some? && d.rest == [])
            || (es != [] && d.err.None? && !d.done && d.entry == Some(es[0])
                && (var r := |Record(ID_DENT, es[0])|;
                    k >= r && k - r < |Listing(es[1..]) + Record(ID_DONE, end)|
                    && d.rest == (Listing(es[1..]) + Record(ID_DONE, end))[..k - r]))
  {
    hide NextDent, Record, ValidEntry;
    var stop := Record(ID_DONE, end);
    if es == [] {
      Whole(stop);
      CutRecord(ID_DONE, end, k, ending);
    } else {
      var r, rest := Record(ID_DENT, es[0]), Listing(es[1..]) + stop;
      ListingStep(es, stop);
      CutOfSum(r, rest, k);
      if k < |r| {
        CutRecord(ID_DENT, es[0], k, ending);
      } else {
        RecordIsRead(ID_DENT, es[0], rest[..k - |r|], ending);
      }
    }
  }

  /** One page of a listing that breaks off: entries of the listing, and what is left is broken too. */
  lemma {:induction false} TruncatedListing(es: seq<DirEntry>, end: DirEntry, k: nat, count: nat, ending: Error)
      returns (n: nat, m: nat)
    requires (forall e :: e in es ==> ValidEntry(e)) && ValidEntry(end) && k < |Listing(es) + Record(ID_DONE, end)|
    ensures BrokenPage(es, end, ReadEntries((Listing(es) + Record(ID_DONE, end))[..k], count, ending), count, n, m)
    decreases count
  {
    hide NextDent, Record, ValidEntry, ReadEntries, Listing, BrokenPage;
    var s := (Listing(es) + Record(ID_DONE, end))[..k];
    PageWithoutEntries(end, [], s, count, ending);
    n, m := 0, k;
    if count == 0 {
      BrokenPageStarts(es, end, k);
    } else {
      BrokenStart(es, end, k, ending);
      EntriesStep(s, count, ending);
      var d := NextDent(s, ending);
      if d.err.Some? {
        m := 0;
        BrokenPageStops(es, end, d.err.value, count);
      } else {
        assert forall e :: e in es[1..] ==> e in es;
        n, m := TruncatedListing(es[1..], end, k - |Record(ID_DENT, es[0])|, count - 1, ending);
        BrokenPageGrows(es, end, ReadEntries(d.rest, count - 1, ending), count - 1, n, m);
        n := n + 1;
      }
    }
  }

  /** A listing that breaks off, read in any pages: a prefix of its entries, and never its end. */
  lemma {:induction false} TruncatedPages(es: seq<DirEntry>, end: DirEntry, k: nat, ns: seq<int>, ending: Error)
      returns (n: nat, m: nat)
    requires (forall e :: e in es ==> ValidEntry(e)) && ValidEntry(end) && k < |Listing(es) + Record(ID_DONE, end)|
    ensures var p := Pages(DirState(false, (Listing(es) + Record(ID_DONE, end))[..k]), ns, ending);
            && p.entries <= es && !p.next.eof && n == |p.entries|
            && m < |Listing(es[n..]) + Record(ID_DONE, end)| && p.next.incoming == Broken(es, end, n, m)
    decreases |ns|
  {
    hide NextDent, Record, ValidEntry, ReadEntries, Listing, NextPage;
    if ns == [] {
      n, m := 0, k;
      BrokenPageStarts(es, end, k);
    } else {
      var a, b := TruncatedPages(es, end, k, ns[..|ns| - 1], ending);
      var p := Pages(DirState(false, (Listing(es) + Record(ID_DONE, end))[..k]), ns[..|ns| - 1], ending);
      var count := ns[|ns| - 1] % TWO_TO_32;
      PageOf(p.next, ns[|ns| - 1], ending);
      assert forall e :: e in es[a..] ==> e in es;
      var c;
      c, m := TruncatedListing(es[a..], end, b, count, ending);
      n := a + c;
      Slice(es, a, n);
      assert es[..a] + es[a..n] == es[..n];
    }
  }

  lemma CutOfSum<T>(a: seq<T>, b: seq<T>, k: nat)
    requires k <= |a| + |b|
    ensures k <= |a| ==> (a + b)[..k] == a[..k]
    ensures k >= |a| ==> (a + b)[..k] == a + b[..k - |a|]
  {
  }
}
