/** Go's string functions, on strings of one-byte characters. */
module Strings {
  /** White space in the sense of strings.TrimSpace and strings.Fields. */
  predicate IsSpace(c: char) {
    c == ' ' || '\t' <= c <= '\r'
  }

  /** Tab, line feed, vertical tab, form feed, carriage return and space. */
  lemma SpaceCodes(c: char)
    ensures IsSpace(c) <==> c as int in {9, 10, 11, 12, 13, 32}
  {
  }

  function TrimLeft(s: string): (r: string)
    ensures |r| <= |s| && r == s[|s| - |r|..] && (r != "" ==> !IsSpace(r[0]))
  {
    if s != "" && IsSpace(s[0]) then TrimLeft(s[1..]) else s
  }

  function TrimRight(s: string): (r: string)
    ensures r <= s && (r != "" ==> !IsSpace(r[|r| - 1]))
  {
    if s != "" && IsSpace(s[|s| - 1]) then TrimRight(s[..|s| - 1]) else s
  }

  function TrimSpace(s: string): string {
    TrimRight(TrimLeft(s))
  }

  function Split(s: string, sep: char): (parts: seq<string>)
    ensures |parts| > 0
  {
    if s == "" then [""]
    else
      var rest := Split(s[1..], sep);
      if s[0] == sep then [""] + rest else [[s[0]] + rest[0]] + rest[1..]
  }

  function Join(parts: seq<string>, sep: string): string {
    if parts == [] then ""
    else if |parts| == 1 then parts[0]
    else parts[0] + sep + Join(parts[1..], sep)
  }

  /** Splitting takes off the part before the first separator. */
  lemma {:induction false} SplitFirst(a: string, b: string, sep: char)
    requires sep !in a
    ensures Split(a, sep) == [a]
    ensures Split(a + [sep] + b, sep) == [a] + Split(b, sep)
  {
    if a == "" {
      assert a + [sep] + b == [sep] + b;
      assert ([sep] + b)[1..] == b;
    } else {
      SplitFirst(a[1..], b, sep);
      assert (a + [sep] + b)[1..] == a[1..] + [sep] + b;
      assert [a[0]] + a[1..] == a;
    }
  }

  /** Splitting loses nothing, and the parts hold no separator. */
  lemma {:induction false} SplitJoins(s: string, sep: char)
    ensures Join(Split(s, sep), [sep]) == s && forall p :: p in Split(s, sep) ==> sep !in p
  {
    if s != "" {
      SplitJoins(s[1..], sep);
      var rest := Split(s[1..], sep);
      assert [s[0]] + s[1..] == s;
      if s[0] == sep {
        assert ([""] + rest)[1..] == rest;
      } else {
        assert ([[s[0]] + rest[0]] + rest[1..])[1..] == rest[1..];
        if |rest| > 1 {
          assert [s[0]] + (rest[0] + [sep] + Join(rest[1..], [sep]))
              == ([s[0]] + rest[0]) + [sep] + Join(rest[1..], [sep]);
        }
      }
    }
  }

  /** The first position of `c`, or the length. */
  function IndexOf(s: string, c: char): (i: nat)
    ensures i <= |s| && (i < |s| ==> s[i] == c)
  {
    if s == "" || s[0] == c then 0 else 1 + IndexOf(s[1..], c)
  }

  /** The last space, or -1. */
  function LastSpace(s: string): (i: int)
    ensures -1 <= i < |s| && (i >= 0 ==> s[i] == ' ')
  {
    if s == "" then -1
    else if s[|s| - 1] == ' ' then |s| - 1
    else LastSpace(s[..|s| - 1])
  }

  function WordLength(s: string): (n: nat)
    ensures n <= |s| && (forall i :: 0 <= i < n ==> !IsSpace(s[i])) && (n < |s| ==> IsSpace(s[n]))
  {
    if s == "" || IsSpace(s[0]) then 0 else 1 + WordLength(s[1..])
  }

  /** strings.Fields. */
  function Fields(s: string): seq<string>
    decreases |s|
  {
    var t := TrimLeft(s);
    if t == "" then [] else [t[..WordLength(t)]] + Fields(t[WordLength(t)..])
  }

  predicate AllSpace(s: string) {
    forall c :: c in s ==> IsSpace(c)
  }

  /** No white space at either end. */
  predicate Trimmed(s: string) {
    s == "" || (!IsSpace(s[0]) && !IsSpace(s[|s| - 1]))
  }

  lemma {:induction false} TrimLeftOf(lead: string, s: string)
    requires AllSpace(lead) && (s == "" || !IsSpace(s[0]))
    ensures TrimLeft(lead + s) == s
    decreases |lead|
  {
    if lead == "" {
      assert lead + s == s;
    } else {
      assert lead[0] in lead;
      assert (lead + s)[1..] == lead[1..] + s;
      TrimLeftOf(lead[1..], s);
    }
  }

  lemma {:induction false} TrimRightOf(s: string, trail: string)
    requires AllSpace(trail) && (s == "" || !IsSpace(s[|s| - 1]))
    ensures TrimRight(s + trail) == s
    decreases |trail|
  {
    if trail == "" {
      assert s + trail == s;
    } else {
      var n := |trail| - 1;
      assert trail[n] in trail;
      assert (s + trail)[..|s| + n] == s + trail[..n];
      TrimRightOf(s, trail[..n]);
    }
  }

  lemma TrimSpaceOf(lead: string, s: string, trail: string)
    requires AllSpace(lead) && AllSpace(trail) && Trimmed(s)
    ensures TrimSpace(lead + s + trail) == s
  {
    if s == "" {
      assert lead + s + trail == lead + trail + "";
      TrimLeftOf(lead + trail, "");
    } else {
      assert lead + s + trail == lead + (s + trail);
      TrimLeftOf(lead, s + trail);
      TrimRightOf(s, trail);
    }
  }

  lemma {:induction false} LeadIsSpace(s: string)
    ensures AllSpace(s[..|s| - |TrimLeft(s)|])
  {
    if s != "" && IsSpace(s[0]) {
      LeadIsSpace(s[1..]);
      var n := |s| - |TrimLeft(s)|;
      assert s[..n] == [s[0]] + s[1..][..n - 1];
    }
  }

  lemma {:induction false} TrailIsSpace(s: string)
    ensures AllSpace(s[|TrimRight(s)|..])
    decreases |s|
  {
    if s != "" && IsSpace(s[|s| - 1]) {
      var n := |s| - 1;
      TrailIsSpace(s[..n]);
      assert s[|TrimRight(s)|..] == s[..n][|TrimRight(s)|..] + [s[n]];
    }
  }

  lemma BlankIsTrimmedAway(s: string)
    ensures TrimSpace(s) == "" <==> AllSpace(s)
  {
    var t := TrimLeft(s);
    LeadIsSpace(s);
    TrailIsSpace(t);
    if TrimSpace(s) == "" {
      assert s == s[..|s| - |t|] + t && t[0..] == t;
    } else {
      assert t[0] in s;
    }
  }

  /** White space around a line does not change its fields. */
  lemma FieldsOfTrimmed(s: string)
    ensures Fields(s) == Fields(TrimSpace(s)) && Trimmed(TrimSpace(s))
  {
    FieldsOfTail(s);
    hide Fields, TrimLeft, TrimRight, IsSpace;
    var t := TrimLeft(s);
    var u := TrimRight(t);
    TrailIsSpace(t);
    assert u + t[|u|..] == t;
    FieldsBeforeSpace(u, t[|u|..]);
  }

  lemma FieldsOfTail(tail: string)
    ensures Fields(tail) == Fields(TrimLeft(tail))
  {
    var rest := TrimLeft(tail);
    TrimLeftOf("", rest);
    assert "" + rest == rest;
  }

  predicate Word(w: string) {
    w != "" && forall c :: c in w ==> !IsSpace(c)
  }

  lemma {:induction false} WordLengthOf(w: string, rest: string)
    requires (forall c :: c in w ==> !IsSpace(c)) && (rest == "" || IsSpace(rest[0]))
    ensures WordLength(w + rest) == |w|
    decreases |w|
  {
    if w == "" {
      assert w + rest == rest;
    } else {
      assert w[0] in w && forall c :: c in w[1..] ==> c in w;
      assert (w + rest)[1..] == w[1..] + rest;
      WordLengthOf(w[1..], rest);
    }
  }

  lemma FieldsOfWord(lead: string, w: string, rest: string)
    requires AllSpace(lead) && Word(w) && (rest == "" || IsSpace(rest[0]))
    ensures Fields(lead + (w + rest)) == [w] + Fields(rest)
  {
    var t := w + rest;
    assert t[0] == w[0] && w[0] in w;
    TrimLeftOf(lead, t);
    WordLengthOf(w, rest);
    assert t[..|w|] == w && t[|w|..] == rest;
  }

  lemma FieldsOfSpace(s: string)
    requires AllSpace(s)
    ensures Fields(s) == []
  {
    TrimLeftOf(s, "");
    assert s + "" == s;
  }

  /** A string that is not all white space, as its first word and what is around it. */
  lemma FirstWord(s: string) returns (lead: string, w: string, rest: string)
    requires TrimLeft(s) != ""
    ensures s == lead + (w + rest) && AllSpace(lead) && Word(w) && (rest == "" || IsSpace(rest[0]))
    ensures |rest| < |s|
  {
    hide TrimLeft, WordLength, IsSpace;
    var t := TrimLeft(s);
    lead := s[..|s| - |t|];
    LeadIsSpace(s);
    var n := WordLength(t);
    w, rest := t[..n], t[n..];
    assert w + rest == t && lead + t == s;
  }

  lemma {:induction false} FieldsBeforeSpace(s: string, trail: string)
    requires AllSpace(trail)
    ensures Fields(s + trail) == Fields(s)
    decreases |s|
  {
    if TrimLeft(s) == "" {
      LeadIsSpace(s);
      assert s[..|s|] == s;
      FieldsOfSpace(s);
      FieldsOfSpace(s + trail);
    } else {
      var lead, w, rest := FirstWord(s);
      hide Fields, TrimLeft;
      assert s + trail == lead + (w + (rest + trail));
      if rest == "" && trail != "" {
        assert trail[0] in trail;
      }
      FieldsOfWord(lead, w, rest);
      FieldsOfWord(lead, w, rest + trail);
      FieldsBeforeSpace(rest, trail);
    }
  }
}
