/** Bytes and the 32-bit little-endian integers of the binary protocols. */
module Bytes {
  type Byte = x: int | 0 <= x < 256

  const TWO_TO_31 := 0x8000_0000
  const TWO_TO_32 := 0x1_0000_0000

  /** The i-th base-256 digit, least significant first. */
  function Digit(n: int, i: nat): Byte
    decreases i
  {
    if i == 0 then n % 256 else Digit(n / 256, i - 1)
  }

  /** binary.LittleEndian.PutUint32(uint32(n)): the conversion keeps the low 32 bits. */
  function PutUint32(n: int): (b: seq<Byte>)
    ensures |b| == 4
  {
    seq(4, i requires 0 <= i < 4 => Digit(n, i))
  }

  /** binary.LittleEndian.Uint32. */
  function Uint32(b: seq<Byte>): (n: nat)
    requires |b| == 4
    ensures n < TWO_TO_32
  {
    b[0] as int + 256 * (b[1] as int + 256 * (b[2] as int + 256 * b[3] as int))
  }

  /** Go's int32(n): two's complement of the low 32 bits. */
  function Int32(n: int): (r: int)
    ensures -TWO_TO_31 <= r < TWO_TO_31
    ensures 0 <= n < TWO_TO_31 ==> r == n
  {
    var m := n % TWO_TO_32;
    if m < TWO_TO_31 then m else m - TWO_TO_32
  }

  lemma Digits(n: int)
    ensures Digit(n, 0) == n % 256
    ensures Digit(n, 1) == n / 256 % 256
    ensures Digit(n, 2) == n / 256 / 256 % 256
    ensures Digit(n, 3) == n / 256 / 256 / 256 % 256
  {
    assert Digit(n, 2) == Digit(n / 256, 1);
    assert Digit(n, 3) == Digit(n / 256, 2) == Digit(n / 256 / 256, 1);
  }

  /** Least significant byte first. */
  lemma LittleEndian(n: int)
    ensures var b := PutUint32(n);
            b[0] == n % 256 && b[1] == n / 256 % 256 && b[2] == n / 65536 % 256 && b[3] == n / 16777216 % 256
  {
    Digits(n);
    assert n / 256 / 256 == n / 65536;
    assert n / 65536 / 256 == n / 16777216;
  }

  /** The signed 32-bit number of a 32-bit word: the same below 2^31, and 2^32 less from there on. */
  lemma Int32OfWord(n: nat)
    requires n < TWO_TO_32
    ensures Int32(n) == (if n < TWO_TO_31 then n else n - TWO_TO_32)
  {
  }

  lemma Uint32OfPut(n: int)
    ensures Uint32(PutUint32(n)) == n % TWO_TO_32
  {
    Digits(n);
    var a := n / 256;
    var b := a / 256;
    var c := b / 256;
    var q := c / 256;
    assert Uint32(PutUint32(n)) == n - TWO_TO_32 * q;
  }

  lemma PutOfUint32(b: seq<Byte>)
    requires |b| == 4
    ensures PutUint32(Uint32(b)) == b
  {
    var n := Uint32(b);
    Digits(n);
    assert n / 256 == b[1] as int + 256 * (b[2] as int + 256 * b[3] as int);
    assert n / 256 / 256 == b[2] as int + 256 * b[3] as int;
    assert n / 256 / 256 / 256 == b[3] as int;
  }

  /** What `make` gives. */
  function Zeros(n: nat): (b: seq<Byte>)
    ensures |b| == n
  {
    seq(n, i => 0)
  }

  function Min(a: int, b: int): int {
    if a <= b then a else b
  }

  // Sequence identities, proved once away from the encodings.

  lemma Whole<T>(s: seq<T>)
    ensures s[..|s|] == s && s[|s|..] == [] && s + [] == s && [] + s == s && s[0..] == s
  {
  }

  lemma Assoc<T>(a: seq<T>, b: seq<T>, c: seq<T>)
    ensures (a + b) + c == a + (b + c)
  {
  }

  lemma Cut<T>(a: seq<T>, b: seq<T>)
    ensures (a + b)[..|a|] == a && (a + b)[|a|..] == b
  {
  }

  lemma Glue<T>(s: seq<T>, k: nat)
    requires k <= |s|
    ensures s[..k] + s[k..] == s
  {
  }

  lemma Slice<T>(s: seq<T>, i: nat, j: nat)
    requires i <= j <= |s|
    ensures s[i..][..j - i] == s[i..j] && s[i..][j - i..] == s[j..] && s[..j][..i] == s[..i] && s[..j][i..] == s[i..j]
  {
  }

  /** An output that stops inside the part `f` of `y`. */
  lemma StoppedInside<T>(o: seq<T>, x: seq<T>, f: seq<T>, y: seq<T>, out: seq<T>)
    requires o + x <= out <= o + x + f && x + f <= y
    ensures o + x <= out <= o + y
  {
    assert o + x + f == o + (x + f) <= o + y;
  }

  /** The parts of a record of five 4-byte words and a body. */
  lemma Words<T>(a: seq<T>, b: seq<T>, c: seq<T>, d: seq<T>, e: seq<T>, f: seq<T>)
    requires |a| == |b| == |c| == |d| == |e| == 4
    ensures var s := a + b + c + d + e + f;
            && |s| == 20 + |f| && s[..4] == a && s[4..8] == b && s[8..12] == c
            && s[12..16] == d && s[16..20] == e && s[20..] == f
  {
  }

  function Flatten<T>(parts: seq<seq<T>>): seq<T> {
    if parts == [] then [] else parts[0] + Flatten(parts[1..])
  }

  lemma {:induction false} FlattenConcat<T>(a: seq<seq<T>>, b: seq<seq<T>>)
    ensures Flatten(a + b) == Flatten(a) + Flatten(b)
  {
    if a == [] {
      assert a + b == b;
    } else {
      assert (a + b)[1..] == a[1..] + b;
      FlattenConcat(a[1..], b);
    }
  }

  lemma FlattenAppend<T>(a: seq<seq<T>>, x: seq<T>)
    ensures Flatten(a + [x]) == Flatten(a) + x
  {
    FlattenConcat(a, [x]);
    assert Flatten([x]) == x + Flatten([x][1..]) == x;
  }

  /** The text of a byte string, character by character. */
  function Text(b: seq<Byte>): string {
    seq(|b|, i requires 0 <= i < |b| => b[i] as char)
  }
}
