/** Building a shell command line: quoting in place, joining, and what a tokenizer makes of it. */
module CommandLine {
  import opened Bytes
  import opened Net
  import opened Strings

  const VERTICAL_TAB: char := '\U{000B}'
  const FORM_FEED: char := '\U{000C}'

  /** isBlank: the regular expression class \s does not contain the vertical tab. */
  predicate IsBlank(s: string) {
    forall c :: c in s ==> c == ' ' || c == '\t' || c == '\n' || c == FORM_FEED || c == '\r'
  }

  predicate IsSeparator(c: char) {
    c == ' ' || c == '\t' || c == VERTICAL_TAB
  }

  predicate ContainsWhitespace(s: string) {
    exists c :: c in s && IsSeparator(c)
  }

  function Quote(arg: string): string {
    if ContainsWhitespace(arg) then "\"" + arg + "\"" else arg
  }

  function QuoteAll(args: seq<string>): (r: seq<string>)
    ensures |r| == |args| && forall i :: 0 <= i < |args| ==> r[i] == Quote(args[i])
  {
    seq(|args|, i requires 0 <= i < |args| => Quote(args[i]))
  }

  function CommandText(cmd: string, args: seq<string>): string {
    if args == [] then cmd else cmd + " " + Join(QuoteAll(args), " ")
  }

  /** A space, a tab or a vertical tab makes an argument quoted, and nothing else does. */
  lemma QuotedExactly(arg: string)
    ensures Quote(arg) == (if ' ' in arg || '\t' in arg || VERTICAL_TAB in arg then "\"" + arg + "\"" else arg)
  {
    assert IsSeparator(' ') && IsSeparator('\t') && IsSeparator(VERTICAL_TAB);
  }

  /** A command is refused as blank exactly if trimming leaves nothing of it and it has no vertical tab. */
  lemma BlankExactly(cmd: string)
    ensures IsBlank(cmd) <==> TrimSpace(cmd) == "" && VERTICAL_TAB !in cmd
  {
    BlankIsTrimmedAway(cmd);
    assert forall c :: IsSpace(c) <==>
             c == ' ' || c == '\t' || c == '\n' || c == FORM_FEED || c == '\r' || c == VERTICAL_TAB;
  }

  /** Blanks on their own are refused, and arguments follow the command behind single spaces. */
  lemma CommandOfTwo(cmd: string, a: string, b: string)
    ensures CommandText(cmd, []) == cmd && CommandText(cmd, [a]) == cmd + " " + Quote(a)
    ensures CommandText(cmd, [a, b]) == cmd + " " + (Quote(a) + " " + Quote(b))
    ensures IsBlank("") && IsBlank("  ")
  {
    hide Quote;
    assert QuoteAll([a]) == [Quote(a)] && QuoteAll([a, b]) == [Quote(a), Quote(b)];
    assert [Quote(a), Quote(b)][1..] == [Quote(b)];
    assert Join([Quote(b)], " ") == Quote(b);
    assert Join([Quote(a), Quote(b)], " ") == Quote(a) + " " + Quote(b);
    assert " "[0] == ' ' && "  "[0] == "  "[1] == ' ';
  }

  predicate Quotable(args: seq<string>) {
    forall a :: a in args ==> '"' !in a
  }

  /** An error at index i leaves the arguments before i quoted and the others as they were. */
  method PrepareCommandLine(cmd: string, args: array<string>) returns (line: string, err: Option<Error>)
    modifies args
    ensures err == Some(AssertionError) <==> IsBlank(cmd)
    ensures err == Some(ParseError) <==> !IsBlank(cmd) && !Quotable(old(args[..]))
    ensures err.None? <==> !IsBlank(cmd) && Quotable(old(args[..]))
    ensures err.None? ==> line == CommandText(cmd, old(args[..])) && args[..] == QuoteAll(old(args[..]))
    ensures err == Some(AssertionError) ==> args[..] == old(args[..])
    ensures err == Some(ParseError) ==>
              exists k :: 0 <= k < args.Length && '"' in old(args[k]) && Quotable(old(args[..k]))
                          && args[..] == QuoteAll(old(args[..k])) + old(args[k..])
  {
    if IsBlank(cmd) {
      return "", Some(AssertionError);
    }
    ghost var before := args[..];
    var i := 0;
    while i < args.Length
      invariant 0 <= i <= args.Length && Quotable(before[..i])
      invariant forall j :: 0 <= j < i ==> args[j] == Quote(before[j])
      invariant forall j :: i <= j < args.Length ==> args[j] == before[j]
    {
      var arg := args[i];
      if '"' in arg {
        assert args[..] == QuoteAll(before[..i]) + before[i..];
        assert arg in before;
        assert old(args[i]) == before[i] && old(args[..i]) == before[..i] && old(args[i..]) == before[i..];
        return "", Some(ParseError);
      }
      if ContainsWhitespace(arg) {
        args[i] := "\"" + arg + "\"";
      }
      i := i + 1;
    }
    assert args[..] == QuoteAll(before) && before[..i] == before;
    line := cmd;
    if args.Length > 0 {
      line := cmd + " " + Join(args[..], " ");
    }
    return line, None;
  }

  // -------------------------------------------------------------- tokenizing

  datatype Scanner = Scanner(tokens: seq<string>, current: string, quoted: bool)

  function Flush(st: Scanner): Scanner {
    if st.current == "" then st else st.(tokens := st.tokens + [st.current], current := "")
  }

  function ScanChar(st: Scanner, c: char): Scanner {
    if c == '"' then st.(quoted := !st.quoted)
    else if !st.quoted && c in {' ', '\t', VERTICAL_TAB} then Flush(st)
    else st.(current := st.current + [c])
  }

  function Scan(st: Scanner, s: string): Scanner
    decreases |s|
  {
    if s == "" then st else Scan(ScanChar(st, s[0]), s[1..])
  }

  const START := Scanner([], "", false)

  /** The words of a line: separators outside double quotes end a word, the quotes disappear. */
  function Tokens(s: string): seq<string> {
    Flush(Scan(START, s)).tokens
  }

  predicate Balanced(s: string) {
    !Scan(START, s).quoted
  }

  function NonEmpty(args: seq<string>): seq<string> {
    if args == [] then [] else (if args[0] == "" then [] else [args[0]]) + NonEmpty(args[1..])
  }

  lemma {:induction false} ScanConcat(st: Scanner, a: string, b: string)
    ensures Scan(st, a + b) == Scan(Scan(st, a), b)
    decreases |a|
  {
    if a == "" {
      Whole(b);
    } else {
      assert (a + b)[1..] == a[1..] + b;
      ScanConcat(ScanChar(st, a[0]), a[1..], b);
    }
  }

  lemma {:induction false} ScanWord(st: Scanner, w: string)
    requires '"' !in w && (st.quoted || !ContainsWhitespace(w))
    ensures Scan(st, w) == st.(current := st.current + w)
    decreases |w|
  {
    if w == "" {
      Whole(st.current);
    } else {
      assert w[0] in w && forall c :: c in w[1..] ==> c in w;
      ScanWord(ScanChar(st, w[0]), w[1..]);
      assert st.current + w == (st.current + [w[0]]) + w[1..];
    }
  }

  lemma ScanQuote(st: Scanner, arg: string)
    requires '"' !in arg && !st.quoted
    ensures Scan(st, Quote(arg)) == st.(current := st.current + arg)
  {
    if ContainsWhitespace(arg) {
      var inside := st.(quoted := true);
      assert Scan(st, "\"") == Scan(inside, "") == inside;
      ScanConcat(st, "\"" + arg, "\"");
      ScanConcat(st, "\"", arg);
      ScanWord(inside, arg);
      var end := Scan(inside, arg);
      assert Scan(end, "\"") == Scan(end.(quoted := false), "");
    } else {
      ScanWord(st, arg);
    }
  }

  lemma {:induction false} ScanJoined(st: Scanner, args: seq<string>)
    requires Quotable(args) && !st.quoted && st.current == ""
    ensures Flush(Scan(st, Join(QuoteAll(args), " "))).tokens == st.tokens + NonEmpty(args)
    decreases |args|
  {
    if args == [] {
      Whole(st.tokens);
    } else {
      assert args[0] in args;
      var q, rest := QuoteAll(args), args[1..];
      ScanQuote(st, args[0]);
      Whole(args[0]);
      var word := st.(current := args[0]);
      Assoc(st.tokens, if args[0] == "" then [] else [args[0]], NonEmpty(rest));
      if rest == [] {
        Whole(Flush(word).tokens);
        Whole(st.tokens);
      } else {
        assert q[1..] == QuoteAll(rest);
        var tail := Join(QuoteAll(rest), " ");
        ScanConcat(st, q[0] + " ", tail);
        ScanConcat(st, q[0], " ");
        assert Scan(word, " ") == Scan(Flush(word), "") == Flush(word);
        assert forall a :: a in rest ==> a in args;
        ScanJoined(Flush(word), rest);
        Whole(st.tokens);
      }
    }
  }

  /** Tokenizing undoes quoting: the command's words, then the arguments that are not empty. */
  lemma TokensOfCommandText(cmd: string, args: seq<string>)
    requires Balanced(cmd) && Quotable(args)
    ensures Tokens(CommandText(cmd, args)) == Tokens(cmd) + NonEmpty(args)
    ensures Tokens(CommandText(cmd, args)) == Tokens(cmd) + args <==> "" !in args
  {
    var st := Scan(START, cmd);
    if args == [] {
      Whole(Tokens(cmd));
    } else {
      var tail := Join(QuoteAll(args), " ");
      ScanConcat(START, cmd + " ", tail);
      ScanConcat(START, cmd, " ");
      assert Scan(st, " ") == Scan(Flush(st), "") == Flush(st);
      ScanJoined(Flush(st), args);
    }
    NonEmptyIsAll(args);
    Cut(Tokens(cmd), args);
    Cut(Tokens(cmd), NonEmpty(args));
  }

  lemma {:induction false} NonEmptyIsAll(args: seq<string>)
    ensures |NonEmpty(args)| <= |args|
    ensures NonEmpty(args) == args <==> "" !in args
  {
    if args != [] {
      NonEmptyIsAll(args[1..]);
      assert args == [args[0]] + args[1..];
      if args[0] != "" && NonEmpty(args) == args {
        Cut([args[0]], NonEmpty(args[1..]));
        Cut([args[0]], args[1..]);
      }
    }
  }
}
