/** The connection under every protocol: net.Conn, io.ReadFull and the error values. */
module Net {
  import opened Bytes

  datatype Option<+T> = None | Some(value: T)

  /**
    Error values, by kind. `Wrapped(e)` is fmt.Errorf("…%w", e): it is a different value from
    `e` for `==`, and the same kind for errors.Is. `Panic` stands for a run-time panic.
  */
  datatype Error =
    | EOF
    | UnexpectedEOF
    | ConnectionReset
    | ParseError
    | AssertionError
    | TooLong
    | FileNoExist
    | ServerError(message: string)
    | Network(code: int)
    | Panic
    | Wrapped(inner: Error)

  /** errors.Is for the kinds above. */
  predicate Is(e: Error, kind: Error) {
    e == kind || (e.Wrapped? && Is(e.inner, kind))
  }

  lemma IsItself(e: Error)
    ensures Is(e, e) && Is(Wrapped(e), e)
  {
  }

  /** What io.ReadFull reports after `got` of `want` bytes on a connection that ends with `ending`. */
  function FullError(got: nat, want: nat, ending: Error): Option<Error> {
    if got >= want then None
    else if got > 0 && ending == EOF then Some(UnexpectedEOF)
    else Some(ending)
  }

  /** A buffer with a piece written into it from `lo` on. */
  function Patched<T>(buf: seq<T>, lo: nat, piece: seq<T>): (r: seq<T>)
    requires lo + |piece| <= |buf|
    ensures |r| == |buf|
  {
    buf[..lo] + piece + buf[lo + |piece|..]
  }

  /**
    net.Conn. `incoming` is everything the peer still sends; after it Read reports `ending`
    (io.EOF or a network error). `outgoing` is everything written so far.
  */
  class NetConn<T(0)> {
    var incoming: seq<T>
    var outgoing: seq<T>
    const ending: Error

    constructor (incoming: seq<T>, ending: Error)
      ensures this.incoming == incoming && this.outgoing == [] && this.ending == ending
    {
      this.incoming, this.outgoing, this.ending := incoming, [], ending;
    }

    /** Any non-empty fragment may arrive; the last one may come together with the end. */
    method Read(buf: array<T>, lo: nat, hi: nat) returns (n: nat, err: Option<Error>)
      requires lo < hi <= buf.Length
      modifies this`incoming, buf
      ensures n <= hi - lo && n <= |old(incoming)|
      ensures n == 0 <==> old(incoming) == []
      ensures incoming == old(incoming)[n..]
      ensures buf[..] == Patched(old(buf[..]), lo, old(incoming)[..n])
      ensures n == 0 ==> err.Some?
      ensures err.Some? ==> err == Some(ending) && incoming == []
    {
      if incoming == [] {
        assert buf[..] == Patched(buf[..], lo, []);
        return 0, Some(ending);
      }
      n :| 0 < n <= hi - lo && n <= |incoming|;
      forall i | 0 <= i < n {
        buf[lo + i] := incoming[i];
      }
      incoming := incoming[n..];
      err := None;
      if incoming == [] {
        var together: bool :| true;
        err := if together then Some(ending) else None;
      }
    }

    /** One more fragment, behind those already in the buffer. */
    method ReadMore(buf: array<T>, lo: nat, n: nat, hi: nat, ghost start: seq<T>, ghost got: seq<T>)
        returns (k: nat, err: Option<Error>, ghost piece: seq<T>)
      requires n == |got| && lo + n < hi <= buf.Length == |start| && buf[..] == Patched(start, lo, got)
      modifies this`incoming, buf
      ensures k == |piece| <= hi - lo - n && old(incoming) == piece + incoming
      ensures buf[..] == Patched(start, lo, got + piece)
      ensures k == 0 ==> err.Some?
      ensures err.Some? ==> err == Some(ending) && incoming == []
    {
      hide Patched;
      k, err := Read(buf, lo + n, hi);
      piece := old(incoming)[..k];
      Glue(old(incoming), k);
      FragmentJoins(start, got, piece, lo);
    }

    /** The loop of io.ReadAtLeast: read until the slice is full or an error comes. */
    method ReadAtLeast(buf: array<T>, lo: nat, hi: nat) returns (n: nat, err: Option<Error>)
      requires lo <= hi <= buf.Length
      modifies this`incoming, buf
      ensures n <= hi - lo && n <= |old(incoming)| && incoming == old(incoming)[n..]
      ensures buf[..] == Patched(old(buf[..]), lo, old(incoming)[..n])
      ensures n < hi - lo ==> err == Some(ending) && incoming == []
    {
      hide Patched;
      n, err := 0, None;
      ghost var start, input, got := buf[..], incoming, incoming[..0];
      NothingPatched(start, lo, input);
      while n < hi - lo && err.None?
        invariant n == |got| <= hi - lo && input == got + incoming
        invariant buf[..] == Patched(start, lo, got)
        invariant err.Some? ==> err == Some(ending) && incoming == []
        decreases hi - lo - n, err.None?
      {
        var k: nat;
        ghost var piece;
        k, err, piece := ReadMore(buf, lo, n, hi, start, got);
        Assoc(got, piece, incoming);
        got := got + piece;
        n := n + k;
      }
      Cut(got, incoming);
    }

    /** io.ReadFull(conn, buf[lo:hi]): the outcome does not depend on the fragmentation. */
    method ReadFull(buf: array<T>, lo: nat, hi: nat) returns (n: nat, err: Option<Error>)
      requires lo <= hi <= buf.Length
      modifies this`incoming, buf
      ensures n == Min(hi - lo, |old(incoming)|)
      ensures err == FullError(n, hi - lo, ending)
      ensures incoming == old(incoming)[n..]
      ensures buf[lo..lo + n] == old(incoming)[..n]
      ensures buf[..lo] == old(buf[..lo]) && buf[lo + n..] == old(buf[lo + n..])
      ensures lo == 0 && n == buf.Length ==> buf[..] == old(incoming)[..n]
    {
      hide Patched;
      n, err := ReadAtLeast(buf, lo, hi);
      PatchedParts(old(buf[..]), lo, old(incoming)[..n], buf[..]);
      assert buf[..][lo..lo + n] == buf[lo..lo + n] && buf[..][..lo] == buf[..lo] && buf[..][lo + n..] == buf[lo + n..];
      assert old(buf[..])[..lo] == old(buf[..lo]) && old(buf[..])[lo + n..] == old(buf[lo + n..]);
      if n >= hi - lo {
        err := None;
      } else if n > 0 && err == Some(EOF) {
        err := Some(UnexpectedEOF);
      }
    }

    /** A write either passes everything on, or fails after some prefix. */
    method Write(data: seq<T>) returns (n: nat, err: Option<Error>)
      modifies this`outgoing
      ensures n <= |data| && outgoing == old(outgoing) + data[..n]
      ensures if n == |data| then err == None else err == Some(Network(0))
    {
      n :| 0 <= n <= |data|;
      outgoing := outgoing + data[..n];
      err := if n == |data| then None else Some(Network(0));
    }
  }

  lemma PatchedParts<T>(buf: seq<T>, lo: nat, piece: seq<T>, now: seq<T>)
    requires lo + |piece| <= |buf| && now == Patched(buf, lo, piece)
    ensures now[lo..lo + |piece|] == piece && now[..lo] == buf[..lo] && now[lo + |piece|..] == buf[lo + |piece|..]
  {
  }

  lemma NothingPatched<T>(buf: seq<T>, lo: nat, input: seq<T>)
    requires lo <= |buf|
    ensures Patched(buf, lo, input[..0]) == buf && input[..0] + input == input
  {
  }

  /** Two consecutive fragments fill the buffer like one. */
  lemma FragmentJoins<T>(buf: seq<T>, got: seq<T>, piece: seq<T>, lo: nat)
    requires lo + |got| + |piece| <= |buf|
    ensures Patched(Patched(buf, lo, got), lo + |got|, piece) == Patched(buf, lo, got + piece)
  {
    var one := Patched(buf, lo, got);
    assert one[..lo + |got|] == buf[..lo] + got;
    assert one[lo + |got| + |piece|..] == buf[lo + |got| + |piece|..];
  }

  /** make and io.ReadFull: a buffer of `length` bytes, zeros where nothing came. */
  method ReadZeroFilled(conn: NetConn<Byte>, length: nat) returns (data: seq<Byte>, err: Option<Error>)
    modifies conn`incoming
    ensures var body := old(conn.incoming);
            if |body| < length then
              data == body + Zeros(length - |body|) && err == Some(FullError(|body|, length, conn.ending).value)
              && conn.incoming == []
            else data == body[..length] && err == None && conn.incoming == body[length..]
  {
    var buf := new Byte[length](_ => 0);
    var n;
    n, err := conn.ReadFull(buf, 0, length);
    assert buf[..] == buf[0..n] + buf[n..] == old(conn.incoming)[..n] + Zeros(length - n);
    data := buf[..];
  }
}
