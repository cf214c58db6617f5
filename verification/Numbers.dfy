/** Printing and parsing of integers: fmt's %d and %04x, strconv.ParseInt and Atoi. */
module Numbers {
  import opened Net

  const TWO_TO_63 := 0x8000_0000_0000_0000

  function DigitChar(d: nat): char
    requires d < 16
  {
    "0123456789abcdef"[d]
  }

  function DigitValue(c: char): (d: Option<nat>)
    ensures d.Some? ==> d.value < 16
  {
    if '0' <= c <= '9' then Some(c as int - '0' as int)
    else if 'a' <= c <= 'f' then Some(c as int - 'a' as int + 10)
    else if 'A' <= c <= 'F' then Some(c as int - 'A' as int + 10)
    else None
  }

  /** The number written by `s`, if every character is a digit below `base`. */
  function Value(s: string, base: nat): Option<nat> {
    if s == "" then Some(0)
    else
      var front, last := Value(s[..|s| - 1], base), DigitValue(s[|s| - 1]);
      if front.None? || last.None? || last.value >= base then None
      else Some(front.value * base + last.value)
  }

  /** strconv.ParseInt(s, base, 64): an optional sign, at least one digit, the range of int64. */
  function ParseInt(s: string, base: nat): Option<int> {
    if s == "" then None
    else
      var digits := if s[0] == '-' || s[0] == '+' then s[1..] else s;
      if digits == "" then None
      else
        var v := Value(digits, base);
        if v.None? then None
        else
          var n: int := if s[0] == '-' then -(v.value as int) else v.value;
          if -TWO_TO_63 <= n < TWO_TO_63 then Some(n) else None
  }

  function Print(n: nat, base: nat): (s: string)
    requires 2 <= base <= 16
    ensures |s| > 0
    decreases n
  {
    if n < base then [DigitChar(n)] else Print(n / base, base) + [DigitChar(n % base)]
  }

  /** %d */
  function Itoa(n: int): string {
    if n < 0 then "-" + Print(-n, 10) else Print(n, 10)
  }

  function Zeros(k: nat): (s: string)
    ensures |s| == k
  {
    seq(k, i => '0')
  }

  /** %04x */
  function Hex4(n: nat): string {
    var d := Print(n, 16);
    if |d| < 4 then Zeros(4 - |d|) + d else d
  }

  /** Characters of printed numbers. */
  predicate AllDigits(s: string) {
    forall c :: c in s ==> DigitValue(c).Some?
  }

  lemma ValueOfLast(front: string, last: char, base: nat)
    ensures Value(front + [last], base)
            == (var f, d := Value(front, base), DigitValue(last);
                if f.None? || d.None? || d.value >= base then None else Some(f.value * base + d.value))
  {
    assert (front + [last])[..|front|] == front;
  }

  lemma DigitOfChar(d: nat)
    requires d < 16
    ensures DigitValue(DigitChar(d)) == Some(d)
  {
  }

  lemma DivMod(n: nat, base: nat)
    requires base > 0
    ensures (n / base) * base + n % base == n
  {
  }

  lemma OneMoreDigit(s: string, c: char)
    requires AllDigits(s) && DigitValue(c).Some?
    ensures AllDigits(s + [c])
  {
  }

  lemma NoDigits(base: nat)
    ensures Value("", base) == Some(0) && AllDigits("")
  {
  }

  lemma {:induction false} ValueOfPrint(n: nat, base: nat)
    requires 2 <= base <= 16
    ensures Value(Print(n, base), base) == Some(n) && AllDigits(Print(n, base))
    decreases n
  {
    hide DigitChar, DigitValue, Value, AllDigits;
    NoDigits(base);
    if n >= base {
      DigitOfChar(n % base);
      ValueOfPrint(n / base, base);
      ValueOfLast(Print(n / base, base), DigitChar(n % base), base);
      OneMoreDigit(Print(n / base, base), DigitChar(n % base));
      DivMod(n, base);
    } else {
      DigitOfChar(n);
      ValueOfLast("", DigitChar(n), base);
      OneMoreDigit("", DigitChar(n));
      assert "" + [DigitChar(n)] == [DigitChar(n)];
    }
  }

  lemma DigitsAreNoSigns(c: char)
    requires DigitValue(c).Some?
    ensures c != '-' && c != '+'
  {
  }

  lemma ParseOfItoa(n: int)
    requires -TWO_TO_63 <= n < TWO_TO_63
    ensures ParseInt(Itoa(n), 10) == Some(n)
    ensures forall c :: c in Itoa(n) ==> c == '-' || DigitValue(c).Some?
  {
    hide DigitValue, Print, Value;
    var d := Print(if n < 0 then -n else n, 10);
    ValueOfPrint(if n < 0 then -n else n, 10);
    assert d[0] in d;
    DigitsAreNoSigns(d[0]);
    assert ("-" + d)[1..] == d;
  }

  /** Outside the range of int64 there is no number; and a plus sign is accepted. */
  lemma ParseOfPrinted(n: nat)
    ensures ParseInt(Print(n, 10), 10) == (if n < TWO_TO_63 then Some(n) else None)
    ensures ParseInt("+" + Print(n, 10), 10) == (if n < TWO_TO_63 then Some(n) else None)
    ensures ParseInt("-" + Print(n, 10), 10) == (if n <= TWO_TO_63 then Some(0 - n) else None)
  {
    hide DigitValue, Value;
    var d := Print(n, 10);
    ValueOfPrint(n, 10);
    assert d[0] in d;
    DigitsAreNoSigns(d[0]);
    assert ("-" + d)[1..] == d && ("+" + d)[1..] == d;
  }

  /** What a digit is: one of these characters, at its place. */
  lemma HexDigits(c: char, d: nat)
    requires d < 16
    ensures DigitValue(c) == Some(d) <==> c == "0123456789abcdef"[d] || c == "0123456789ABCDEF"[d]
    ensures DigitChar(d) == "0123456789abcdef"[d]
  {
  }

  lemma {:induction false} ValueIsDigits(s: string)
    ensures Value(s, 16).Some? <==> forall c :: c in s ==> c in "0123456789abcdefABCDEF"
    decreases |s|
  {
    if s != "" {
      var n := |s| - 1;
      ValueIsDigits(s[..n]);
      assert s == s[..n] + [s[n]];
      OneDigit(s[n]);
    }
  }

  lemma OneDigit(c: char)
    ensures DigitValue(c).Some? <==> c in "0123456789abcdefABCDEF"
  {
    if '0' <= c <= '9' {
      assert c == "0123456789abcdefABCDEF"[c as int - '0' as int];
    } else if 'a' <= c <= 'f' {
      assert c == "0123456789abcdefABCDEF"[c as int - 'a' as int + 10];
    } else if 'A' <= c <= 'F' {
      assert c == "0123456789abcdefABCDEF"[c as int - 'A' as int + 16];
    }
  }

  /** Text that is a hexadecimal number of at most 15 digits: digits, perhaps behind a sign. */
  predicate HexText(s: string) {
    var digits := if s != "" && (s[0] == '-' || s[0] == '+') then s[1..] else s;
    digits != "" && forall c :: c in digits ==> c in "0123456789abcdefABCDEF"
  }

  lemma {:induction false} ValueIsBounded(s: string)
    requires Value(s, 16).Some?
    ensures Value(s, 16).value < Power16(|s|)
    decreases |s|
  {
    if s != "" {
      ValueIsBounded(s[..|s| - 1]);
    }
  }

  lemma {:induction false} PowerGrows(a: nat, b: nat)
    requires a <= b
    ensures Power16(a) <= Power16(b)
  {
    if a < b {
      PowerGrows(a, b - 1);
    }
  }

  /** A short text parses exactly if it is such a number. */
  lemma ParseIsHexText(s: string)
    requires |s| <= 15
    ensures ParseInt(s, 16).Some? <==> HexText(s)
  {
    var digits := if s != "" && (s[0] == '-' || s[0] == '+') then s[1..] else s;
    ValueIsDigits(digits);
    if Value(digits, 16).Some? {
      ValueIsBounded(digits);
      PowerGrows(|digits|, 15);
      assert Power16(15) < TWO_TO_63 by { FifteenDigits(); }
    }
  }

  lemma FifteenDigits()
    ensures Power16(15) == 0x1000_0000_0000_0000 && Power16(15) < TWO_TO_63
  {
    assert Power16(4) == 0x10000;
    assert Power16(8) == 0x1_0000_0000;
    assert Power16(12) == 0x1_0000_0000_0000;
  }

  /** Lower-case digits, four of them, zeros in front. */
  lemma Hex4Examples()
    ensures Hex4(0) == "0000" && Hex4(12) == "000c" && Hex4(4096) == "1000" && Hex4(43981) == "abcd"
  {
    assert Print(0, 16) == "0" && Print(12, 16) == "c";
    assert Print(16, 16) == "10" && Print(256, 16) == "100" && Print(4096, 16) == "1000";
    assert Print(10, 16) == "a" && Print(171, 16) == "ab" && Print(2748, 16) == "abc" && Print(43981, 16) == "abcd";
  }

  lemma {:induction false} ValueOfZeros(k: nat, base: nat)
    requires 2 <= base
    ensures Value(Zeros(k), base) == Some(0)
  {
    if k > 0 {
      ValueOfZeros(k - 1, base);
      ValueOfLast(Zeros(k - 1), '0', base);
      assert Zeros(k) == Zeros(k - 1) + ['0'];
    }
  }

  lemma {:induction false} LeadingZeros(k: nat, s: string, base: nat)
    requires 2 <= base
    ensures Value(Zeros(k) + s, base) == Value(s, base)
    decreases |s|
  {
    hide Value, Zeros, DigitValue;
    NoDigits(base);
    if s == "" {
      ValueOfZeros(k, base);
      assert Zeros(k) + s == Zeros(k);
    } else {
      var front, last := s[..|s| - 1], s[|s| - 1];
      LeadingZeros(k, front, base);
      ValueOfLast(front, last, base);
      ValueOfLast(Zeros(k) + front, last, base);
      assert front + [last] == s && Zeros(k) + front + [last] == Zeros(k) + s;
    }
  }

  lemma {:induction false} PrintWidth(n: nat, k: nat)
    requires k > 0 && n < Power16(k)
    ensures |Print(n, 16)| <= k
    decreases k
  {
    if n >= 16 {
      assert Power16(k) == 16 * Power16(k - 1);
      PrintWidth(n / 16, k - 1);
    }
  }

  function Power16(k: nat): nat {
    if k == 0 then 1 else 16 * Power16(k - 1)
  }

  /** A four-digit hexadecimal length reads back, for every length that fits. */
  lemma ParseOfHex4(n: nat)
    requires n < 65536
    ensures |Hex4(n)| == 4 && ParseInt(Hex4(n), 16) == Some(n)
  {
    assert Power16(4) == 65536 by { assert Power16(2) == 256; }
    PrintWidth(n, 4);
    ValueOfPrint(n, 16);
    var d := Print(n, 16);
    LeadingZeros(4 - |d|, d, 16);
    NoZeros(d);
    if |d| == 4 {
      assert d[0] in d;
    }
  }

  lemma NoZeros(d: string)
    ensures Zeros(0) + d == d
  {
  }
}
