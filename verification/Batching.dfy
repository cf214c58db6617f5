/** Device.MkdirsWithParent and Device.Rm: greedy batches of names, each one shell request. */
module Batching {
  import opened Bytes
  import opened Net
  import opened Strings
  import opened CommandLine
  import opened HostConn

  const MKDIR_LIMIT: nat := 4000
  const RM_LIMIT: nat := 32761

  const BROKEN := Network(7)

  /** The message RunShellCommand sends. */
  function Request(cmd: string, args: seq<string>): string {
    "shell:" + CommandText(cmd, args)
  }

  lemma RequestParts(cmd: string, args: seq<string>)
    ensures var r := Request(cmd, args); |r| >= 6 && r[..6] == "shell:" && r[6..] == CommandText(cmd, args)
  {
    assert |"shell:"| == 6;
  }

  function Requests(cmd: string, options: seq<string>, batches: seq<seq<string>>): seq<string> {
    if batches == [] then [] else [Request(cmd, options + batches[0])] + Requests(cmd, options, batches[1..])
  }

  /** The greedy batcher; `size` counts the bytes of `batch` and one separator per name. */
  function Batches(list: seq<string>, limit: nat, batch: seq<string>, size: nat): seq<seq<string>> {
    if list == [] then (if size > 0 then [batch] else [])
    else if size + |list[0]| > limit then [batch] + Batches(list[1..], limit, [list[0]], |list[0]| + 1)
    else Batches(list[1..], limit, batch + [list[0]], size + |list[0]| + 1)
  }

  predicate HasSuffix(s: string, suffix: string) {
    |suffix| <= |s| && s[|s| - |suffix|..] == suffix
  }

  lemma SuffixExactly(s: string, suffix: string)
    ensures HasSuffix(s, suffix) <==> exists front :: s == front + suffix
  {
    if HasSuffix(s, suffix) {
      assert s == s[..|s| - |suffix|] + suffix;
    }
  }

  /** What mkdir's complaints keep of one line. */
  function Complaint(line: string): seq<string> {
    var t := TrimSpace(line);
    if |t| > 0 && !HasSuffix(t, "File exists") then [t] else []
  }

  /** "File exists" is recognised with a carriage return, or other white space, behind it. */
  lemma ExistsIsDropped(front: string, trail: string)
    requires AllSpace(trail)
    ensures Complaint(front + "File exists" + trail) == [] && AllSpace("\r") && AllSpace(" \t\r")
  {
    hide IsSpace, TrimLeft, TrimRight, TrimSpace, HasSuffix;
    var words := "File exists";
    var s := front + words;
    assert words != "" && !IsSpace(words[0]) && !IsSpace(words[|words| - 1]) by { ExistsWords(); }
    LeadEnds(front, words);
    LeadIsSpace(s);
    var t := TrimLeft(s);
    var lead := s[..|s| - |t|];
    EndsInWords(front, words, t);
    TrimSpaceOf(lead, t, trail);
    SuffixExactly(t, words);
    Returns();
  }

  lemma ExistsWords()
    ensures var words := "File exists"; !IsSpace(words[0]) && !IsSpace(words[|words| - 1])
  {
  }

  lemma Returns()
    ensures AllSpace("\r") && AllSpace(" \t\r")
  {
  }

  lemma EndsInWords(front: string, words: string, t: string)
    requires |t| >= |words| > 0 && |t| <= |front + words| && t == (front + words)[|front + words| - |t|..]
    requires !IsSpace(t[0]) && !IsSpace(words[|words| - 1])
    ensures Trimmed(t) && t == t[..|t| - |words|] + words
    ensures (front + words)[..|front + words| - |t|] + t == front + words
  {
    hide IsSpace;
  }

  /** Trimming on the left stops at a word that does not begin with white space. */
  lemma {:induction false} LeadEnds(front: string, words: string)
    requires words != "" && !IsSpace(words[0])
    ensures |TrimLeft(front + words)| >= |words|
    decreases |front|
  {
    if front == "" {
      assert front + words == words;
    } else {
      assert (front + words)[1..] == front[1..] + words;
      LeadEnds(front[1..], words);
    }
  }

  function FilterLines(lines: seq<string>): seq<string> {
    if lines == [] then [] else Complaint(lines[0]) + FilterLines(lines[1..])
  }

  /** mkdir's complaints, without those about directories that exist. */
  method FilterFileExistedError(resp: string) returns (errs: seq<string>)
    ensures errs == FilterLines(Split(resp, '\n'))
  {
    hide Split, TrimSpace, HasSuffix;
    errs := [];
    var lines := Split(resp, '\n');
    Whole(FilterLines(lines));
    Whole(lines);
    for i := 0 to |lines|
      invariant FilterLines(lines) == errs + FilterLines(lines[i..])
    {
      assert lines[i..][0] == lines[i] && lines[i..][1..] == lines[i + 1..];
      Assoc(errs, Complaint(lines[i]), FilterLines(lines[i + 1..]));
      var line := TrimSpace(lines[i]);
      if |line| > 0 && !HasSuffix(line, "File exists") {
        errs := errs + [line];
      } else {
        Whole(errs);
      }
    }
    assert lines[|lines|..] == [];
    Whole(errs);
  }

  /** A complaint stays exactly if it is a non-blank line that does not end in "File exists". */
  lemma {:induction false} FilteredLines(lines: seq<string>, line: string)
    ensures line in FilterLines(lines) <==>
            line != "" && !HasSuffix(line, "File exists") && exists l :: l in lines && TrimSpace(l) == line
  {
    if lines != [] {
      FilteredLines(lines[1..], line);
      assert forall l :: l in lines <==> l == lines[0] || l in lines[1..];
    }
  }

  /** Every line is judged by itself, wherever it stands: order and repetitions are kept. */
  lemma {:induction false} FilteredParts(before: seq<string>, line: string, after: seq<string>)
    ensures FilterLines(before + [line] + after) == FilterLines(before) + Complaint(line) + FilterLines(after)
  {
    hide Complaint;
    if before == [] {
      assert [] + [line] + after == [line] + after && ([line] + after)[1..] == after;
      Whole(Complaint(line));
    } else {
      assert (before + [line] + after)[1..] == before[1..] + [line] + after;
      FilteredParts(before[1..], line, after);
      Assoc(Complaint(before[0]), FilterLines(before[1..]), Complaint(line));
      Assoc(Complaint(before[0]), FilterLines(before[1..]) + Complaint(line), FilterLines(after));
    }
  }

  /** The complaints in the answers to a sequence of commands. */
  function MkdirComplaints(answers: seq<string>): seq<string> {
    if answers == [] then []
    else MkdirComplaints(answers[..|answers| - 1]) + FilterLines(Split(answers[|answers| - 1], '\n'))
  }

  /** rm's answers count as they are, if there are any. */
  function RmComplaints(answers: seq<string>): seq<string> {
    if answers == [] then []
    else
      var last := answers[|answers| - 1];
      RmComplaints(answers[..|answers| - 1]) + (if last == "" then [] else [last])
  }

  lemma NextComplaints(answers: seq<string>, resp: string)
    ensures MkdirComplaints(answers + [resp])
            == MkdirComplaints(answers) + (if resp == "" then [] else FilterLines(Split(resp, '\n')))
    ensures RmComplaints(answers + [resp]) == RmComplaints(answers) + (if resp == "" then [] else [resp])
  {
    assert (answers + [resp])[..|answers|] == answers;
    if resp == "" {
      assert FilterLines(Split(resp, '\n')) == FilterLines([""]) == Complaint("") + FilterLines([""][1..]) == [];
      Whole(MkdirComplaints(answers));
      Whole(RmComplaints(answers));
    }
  }

  /** The refusals of a command line that are decided before anything is sent. */
  predicate Refusal(cmd: string, args: seq<string>, err: Option<Error>) {
    && (err == Some(AssertionError) <==> IsBlank(cmd))
    && (err == Some(ParseError) <==> !IsBlank(cmd) && !Quotable(args))
    && (err == Some(TooLong) ==> |Request(cmd, args)| > MAX_PAYLOAD_V1_LENGTH)
    && (err.None? ==> |Request(cmd, args)| <= MAX_PAYLOAD_V1_LENGTH)
  }

  /** What a response has to do with what the server sent. */
  predicate Served(server: Option<string>, resp: string, err: Option<Error>) {
    server.Some? ==>
      var status := NextStatus(server.value, 4, EOF);
      if status.err.Some? then resp == "" && err == Some(Wrapped(status.err.value))
      else resp == status.rest && (err == None || err == Some(BROKEN))
  }

  class Device {
    /** The shell requests that were sent, in order. */
    var requests: seq<string>
    /** The answers to the commands that came through, in order. */
    ghost var answered: seq<string>

    constructor ()
      ensures requests == [] && answered == []
    {
      requests, answered := [], [];
    }

    /**
      RunCommandTimeout. Dialing may fail, the server may answer anything and the answer may break
      off; a command line that cannot be quoted or does not fit into a message is never sent. `server`
      is what the server sends on the connection of a request that was sent: an error status is the
      error, and after OKAY the rest is the response.
    */
    method Run(cmd: string, args: seq<string>)
        returns (resp: string, err: Option<Error>, ghost server: Option<string>)
      modifies this
      ensures requests == old(requests) || requests == old(requests) + [Request(cmd, args)]
      ensures server.Some? <==> requests != old(requests)
      ensures Served(server, resp, err)
      ensures err.None? ==> requests == old(requests) + [Request(cmd, args)]
      ensures requests != old(requests) ==>
                !IsBlank(cmd) && Quotable(args) && |Request(cmd, args)| <= MAX_PAYLOAD_V1_LENGTH
      ensures Refusal(cmd, args, err)
      ensures answered == old(answered) + (if err.None? then [resp] else [])
    {
      Whole(answered);
      Whole(requests);
      server := None;
      var slice := new string[|args|](i requires 0 <= i < |args| => args[i]);
      assert slice[..] == args;
      var line, e := PrepareCommandLine(cmd, slice);
      if e.Some? {
        return "", e, None;
      }
      var reachable: bool :| true;
      if !reachable {
        return "", Some(Network(5)), None;
      }
      var incoming: string :| true;
      var socket := new NetConn<char>(incoming, EOF);
      var conn := new Conn(socket);
      e := conn.SendMessage("shell:" + line);
      if e.Some? {
        return "", e, None;
      }
      requests := requests + ["shell:" + line];
      var status;
      status, e := conn.ReadStatus();
      if e.Some? {
        return "", Some(Wrapped(e.value)), Some(incoming);
      }
      var broken: bool :| true;
      answered := answered + (if broken then [] else [socket.incoming]);
      return socket.incoming, if broken then Some(BROKEN) else None, Some(incoming);
    }

    /**
      The batches go out in order, each as one request with the option; an error stops after some
      of them. `errs` are the complaints in the answers that came through. A refusal has its reason in
      the list: a double quote, or a request over the message limit.
    */
    method MkdirsWithParent(list: seq<string>, withParent: bool)
        returns (errs: seq<string>, err: Option<Error>, ghost answers: seq<string>)
      modifies this
      ensures var all := AllRequests("mkdir", if withParent then ["-p"] else [], list, MKDIR_LIMIT);
              && old(requests) <= requests <= old(requests) + all
              && (err.None? ==> requests == old(requests) + all && |answers| == |all|)
              && answered == old(answered) + answers && errs == MkdirComplaints(answers)
              && Explained(list, all, err)
      ensures var cheap := Cheap(Batches(list, MKDIR_LIMIT, [], 0), if withParent then 4082 else 4085);
              (err.None? ==> cheap) && (err == Some(TooLong) ==> !cheap)
      ensures NamesFit(list, MKDIR_LIMIT) && Quotable(list)
              && FewQuoted(Batches(list, MKDIR_LIMIT, [], 0), if withParent then 40 else 42) ==>
                err != Some(TooLong) && err != Some(ParseError)
    {
      hide *;
      var options := if withParent then ["-p"] else [];
      OptionIsQuotable(options);
      var commands: seq<string> := options;
      var commandsLen: nat := 0;
      errs, answers := [], [];
      ghost var sent: seq<string> := [];
      ghost var batch: seq<string> := [];
      Whole(options);
      Whole(answered);
      BatchStart("mkdir", options, list, MKDIR_LIMIT, requests);
      for i := 0 to |list|
        invariant commands == options + batch
        invariant requests == old(requests) + sent && |answers| == |sent|
        invariant answered == old(answered) + answers && errs == MkdirComplaints(answers)
        invariant Batched("mkdir", options, list, MKDIR_LIMIT, i, batch, commandsLen, sent)
      {
        var l := list[i];
        if commandsLen + |l| > MKDIR_LIMIT {
          var resp, e;
          ghost var server;
          resp, e, server := Run("mkdir", commands);
          BatchSent("mkdir", options, list, MKDIR_LIMIT, i, batch, commandsLen, sent, old(requests), e);
          Whole(old(answered) + answers);
          if e.Some? {
            MkdirVerdict(list, withParent, e);
            return errs, e, answers;
          }
          Assoc(old(answered), answers, [resp]);
          NextComplaints(answers, resp);
          answers := answers + [resp];
          if |resp| > 0 {
            var more := FilterFileExistedError(resp);
            errs := errs + more;
          }
          sent := sent + [Request("mkdir", options + batch)];
          commands := options;
          commandsLen := 0;
          batch := [];
          Whole([l]);
        } else {
          BatchGrows("mkdir", options, list, MKDIR_LIMIT, i, batch, commandsLen, sent);
        }
        commands := commands + [l];
        Assoc(options, batch, [l]);
        batch := batch + [l];
        commandsLen := commandsLen + |l| + 1;
      }
      if commandsLen > 0 {
        var resp, e;
        ghost var server;
        resp, e, server := Run("mkdir", commands);
        LastSent("mkdir", options, list, MKDIR_LIMIT, batch, commandsLen, sent, old(requests), e);
        Whole(old(answered) + answers);
        MkdirVerdict(list, withParent, e);
        if e.Some? {
          return errs, e, answers;
        }
        Assoc(old(answered), answers, [resp]);
        NextComplaints(answers, resp);
        answers := answers + [resp];
        if |resp| > 0 {
          var more := FilterFileExistedError(resp);
          errs := errs + more;
        }
      } else {
        NoneLeft("mkdir", options, list, MKDIR_LIMIT, batch, sent);
        MkdirVerdict(list, withParent, None);
      }
      return errs, None, answers;
    }

    /**
      The same batcher with a limit that the 4096-byte messages do not honour: a refusal for length
      shows that the list does not fit into one message, and success that it does.
    */
    method Rm(list: seq<string>) returns (errs: seq<string>, err: Option<Error>, ghost answers: seq<string>)
      modifies this
      ensures var all := AllRequests("rm", ["-rf"], list, RM_LIMIT);
              && old(requests) <= requests <= old(requests) + all
              && (err.None? ==> requests == old(requests) + all && |answers| == |all|)
              && answered == old(answered) + answers && errs == RmComplaints(answers)
              && Explained(list, all, err)
      ensures (err.None? ==> Cost(list) <= 4084) && (err == Some(TooLong) ==> Cost(list) > 4084)
    {
      hide *;
      OptionIsQuotable(["-rf"]);
      RmFitsExactly(list);
      FitMeaning(list, AllRequests("rm", ["-rf"], list, RM_LIMIT));
      var commands: seq<string> := ["-rf"];
      var commandsLen: nat := 0;
      errs, answers := [], [];
      ghost var sent: seq<string> := [];
      ghost var batch: seq<string> := [];
      Whole(["-rf"]);
      Whole(answered);
      BatchStart("rm", ["-rf"], list, RM_LIMIT, requests);
      for i := 0 to |list|
        invariant commands == ["-rf"] + batch
        invariant requests == old(requests) + sent && |answers| == |sent|
        invariant answered == old(answered) + answers && errs == RmComplaints(answers)
        invariant Batched("rm", ["-rf"], list, RM_LIMIT, i, batch, commandsLen, sent)
      {
        var l := list[i];
        if commandsLen + |l| > RM_LIMIT {
          var resp, e;
          ghost var server;
          resp, e, server := Run("rm", commands);
          BatchSent("rm", ["-rf"], list, RM_LIMIT, i, batch, commandsLen, sent, old(requests), e);
          Whole(old(answered) + answers);
          if e.Some? {
            return errs, e, answers;
          }
          Assoc(old(answered), answers, [resp]);
          NextComplaints(answers, resp);
          answers := answers + [resp];
          if |resp| > 0 {
            errs := errs + [resp];
          }
          sent := sent + [Request("rm", ["-rf"] + batch)];
          commands := ["-rf"];
          commandsLen := 0;
          batch := [];
          Whole([l]);
        } else {
          BatchGrows("rm", ["-rf"], list, RM_LIMIT, i, batch, commandsLen, sent);
        }
        commands := commands + [l];
        Assoc(["-rf"], batch, [l]);
        batch := batch + [l];
        commandsLen := commandsLen + |l| + 1;
      }
      if commandsLen > 0 {
        var resp, e;
        ghost var server;
        resp, e, server := Run("rm", commands);
        LastSent("rm", ["-rf"], list, RM_LIMIT, batch, commandsLen, sent, old(requests), e);
        Whole(old(answered) + answers);
        if e.Some? {
          return errs, e, answers;
        }
        Assoc(old(answered), answers, [resp]);
        NextComplaints(answers, resp);
        answers := answers + [resp];
        if |resp| > 0 {
          errs := errs + [resp];
        }
      } else {
        NoneLeft("rm", ["-rf"], list, RM_LIMIT, batch, sent);
      }
      return errs, None, answers;
    }
  }

  // ----------------------------------------------------------------- refusals

  /** Why a batch command fails before it is sent, and what its success shows. */
  predicate Explained(list: seq<string>, all: seq<string>, err: Option<Error>) {
    && err != Some(AssertionError)
    && (err == Some(ParseError) ==> !Quotable(list))
    && (err == Some(TooLong) ==> !AllFit(all))
    && (err.None? ==> Quotable(list) && AllFit(all))
  }

  /** The names taken so far are in the current batch or can be quoted, and what was sent fits. */
  predicate Pending(names: seq<string>, batch: seq<string>, sent: seq<string>) {
    && (forall l :: l in batch ==> l in names)
    && (forall l :: l in names ==> l in batch || '"' !in l)
    && (forall r :: r in sent ==> |r| <= MAX_PAYLOAD_V1_LENGTH)
  }

  /** Success and a refusal for length exclude each other on one list. */
  lemma FitMeaning(list: seq<string>, all: seq<string>)
    ensures Explained(list, all, None) ==> AllFit(all)
    ensures Explained(list, all, Some(TooLong)) ==> !AllFit(all)
  {
  }

  lemma OptionIsQuotable(options: seq<string>)
    requires options == [] || options == ["-p"] || options == ["-rf"]
    ensures Quotable(options)
  {
  }

  lemma MorePending(list: seq<string>, i: nat, batch: seq<string>, sent: seq<string>)
    requires i < |list| && Pending(list[..i], batch, sent)
    ensures Pending(list[..i + 1], batch + [list[i]], sent)
  {
    assert list[..i + 1] == list[..i] + [list[i]];
  }

  /** One request: it is sent and its batch is done, or its error is explained. */
  lemma Outcome(cmd: string, options: seq<string>, list: seq<string>, i: nat, batch: seq<string>, sent: seq<string>,
                later: seq<string>, err: Option<Error>)
    requires i <= |list| && Pending(list[..i], batch, sent) && Quotable(options) && (cmd == "mkdir" || cmd == "rm")
    requires Refusal(cmd, options + batch, err)
    ensures var r := Request(cmd, options + batch);
            if err.None? then Pending(list[..i], [], sent + [r]) else Explained(list, sent + [r] + later, err)
  {
    hide Request;
    var r := Request(cmd, options + batch);
    assert cmd[0] in cmd && !IsBlank(cmd);
    assert r in sent + [r] + later;
    if err == Some(ParseError) {
      var a :| a in options + batch && '"' in a;
      assert a in batch && a in list[..i] && a in list;
    }
    assert forall l :: l in batch ==> l in options + batch;
  }

  /** What an explained result of mkdir says about the batches. */
  lemma MkdirVerdict(list: seq<string>, withParent: bool, err: Option<Error>)
    requires Explained(list, AllRequests("mkdir", if withParent then ["-p"] else [], list, MKDIR_LIMIT), err)
    ensures var cheap := Cheap(Batches(list, MKDIR_LIMIT, [], 0), if withParent then 4082 else 4085);
            (err.None? ==> cheap) && (err == Some(TooLong) ==> !cheap)
    ensures NamesFit(list, MKDIR_LIMIT) && Quotable(list)
            && FewQuoted(Batches(list, MKDIR_LIMIT, [], 0), if withParent then 40 else 42) ==>
              err != Some(TooLong) && err != Some(ParseError)
  {
    hide Requests, Batches, NamesFit, Quotable, Cheap;
    MkdirFitsExactly(list, withParent);
    if NamesFit(list, MKDIR_LIMIT) && Quotable(list)
       && FewQuoted(Batches(list, MKDIR_LIMIT, [], 0), if withParent then 40 else 42) {
      EveryMkdirRequestFits(list, withParent);
    }
  }


  // ------------------------------------------------------ the state of a loop

  function AllRequests(cmd: string, options: seq<string>, list: seq<string>, limit: nat): seq<string> {
    Requests(cmd, options, Batches(list, limit, [], 0))
  }

  /** Before name i: what was sent, and what the current batch and the other names still give. */
  predicate Batched(cmd: string, options: seq<string>, list: seq<string>, limit: nat,
                    i: nat, batch: seq<string>, size: nat, sent: seq<string>)
    requires i <= |list|
  {
    && AllRequests(cmd, options, list, limit) == sent + Requests(cmd, options, Batches(list[i..], limit, batch, size))
    && Pending(list[..i], batch, sent) && (size == 0 <==> batch == [])
  }

  lemma BatchStart(cmd: string, options: seq<string>, list: seq<string>, limit: nat, before: seq<string>)
    ensures Batched(cmd, options, list, limit, 0, [], 0, []) && before + [] == before
    ensures MkdirComplaints([]) == RmComplaints([]) == []
  {
    Whole(list);
    Whole(AllRequests(cmd, options, list, limit));
  }

  lemma BatchStep(list: seq<string>, i: nat, limit: nat, batch: seq<string>, size: nat)
    requires i < |list|
    ensures Batches(list[i..], limit, batch, size)
            == (if size + |list[i]| > limit then [batch] + Batches(list[i + 1..], limit, [list[i]], |list[i]| + 1)
                else Batches(list[i + 1..], limit, batch + [list[i]], size + |list[i]| + 1))
  {
    assert list[i..][0] == list[i] && list[i..][1..] == list[i + 1..];
  }

  lemma RequestSplit(cmd: string, options: seq<string>, batch: seq<string>, later: seq<seq<string>>, sent: seq<string>)
    ensures var r := Request(cmd, options + batch);
            sent + Requests(cmd, options, [batch] + later) == sent + [r] + Requests(cmd, options, later)
  {
    hide Request;
    assert ([batch] + later)[1..] == later;
  }

  /** What one more request does to the requests sent before. */
  lemma RequestsGrow(before: seq<string>, sent: seq<string>, r: string, later: seq<string>)
    ensures before + sent + [r] == before + (sent + [r])
    ensures before <= before + sent <= before + (sent + [r] + later)
    ensures before <= before + (sent + [r]) <= before + (sent + [r] + later)
  {
  }

  /** A full batch is sent and a new one starts with name i, or the error is explained. */
  lemma BatchSent(cmd: string, options: seq<string>, list: seq<string>, limit: nat, i: nat, batch: seq<string>,
                  size: nat, sent: seq<string>, before: seq<string>, err: Option<Error>)
    requires i < |list| && Batched(cmd, options, list, limit, i, batch, size, sent) && size + |list[i]| > limit
    requires Quotable(options) && (cmd == "mkdir" || cmd == "rm") && Refusal(cmd, options + batch, err)
    ensures var r, all := Request(cmd, options + batch), AllRequests(cmd, options, list, limit);
            && before + sent + [r] == before + (sent + [r])
            && before <= before + sent <= before + all && before <= before + (sent + [r]) <= before + all
            && (if err.None? then Batched(cmd, options, list, limit, i + 1, [list[i]], |list[i]| + 1, sent + [r])
                else Explained(list, all, err))
  {
    hide AllRequests, Requests, Request, Batches, Refusal, Pending, Explained;
    var r := Request(cmd, options + batch);
    var later := Batches(list[i + 1..], limit, [list[i]], |list[i]| + 1);
    BatchStep(list, i, limit, batch, size);
    RequestSplit(cmd, options, batch, later, sent);
    RequestsGrow(before, sent, r, Requests(cmd, options, later));
    Outcome(cmd, options, list, i, batch, sent, Requests(cmd, options, later), err);
    if err.None? {
      MorePending(list, i, [], sent + [r]);
      Whole([list[i]]);
    }
  }

  lemma BatchGrows(cmd: string, options: seq<string>, list: seq<string>, limit: nat, i: nat, batch: seq<string>,
                   size: nat, sent: seq<string>)
    requires i < |list| && Batched(cmd, options, list, limit, i, batch, size, sent) && size + |list[i]| <= limit
    ensures Batched(cmd, options, list, limit, i + 1, batch + [list[i]], size + |list[i]| + 1, sent)
  {
    hide AllRequests, Requests, Batches, Pending;
    BatchStep(list, i, limit, batch, size);
    MorePending(list, i, batch, sent);
  }

  lemma LastSent(cmd: string, options: seq<string>, list: seq<string>, limit: nat, batch: seq<string>, size: nat,
                 sent: seq<string>, before: seq<string>, err: Option<Error>)
    requires Batched(cmd, options, list, limit, |list|, batch, size, sent) && size > 0
    requires Quotable(options) && (cmd == "mkdir" || cmd == "rm") && Refusal(cmd, options + batch, err)
    ensures var r, all := Request(cmd, options + batch), AllRequests(cmd, options, list, limit);
            && before + sent + [r] == before + (sent + [r]) && all == sent + [r]
            && before <= before + sent <= before + all && before <= before + (sent + [r]) <= before + all
            && Explained(list, all, err)
  {
    hide AllRequests, Request, Refusal, Pending, Explained;
    var r := Request(cmd, options + batch);
    assert list[|list|..] == [];
    RequestSplit(cmd, options, batch, [], sent);
    assert [batch] + [] == [batch];
    RequestsGrow(before, sent, r, []);
    Whole(sent + [r]);
    Outcome(cmd, options, list, |list|, batch, sent, [], err);
    if err.None? {
      NothingPending(list, sent + [r]);
    }
  }

  lemma NoneLeft(cmd: string, options: seq<string>, list: seq<string>, limit: nat, batch: seq<string>,
                 sent: seq<string>)
    requires Batched(cmd, options, list, limit, |list|, batch, 0, sent)
    ensures AllRequests(cmd, options, list, limit) == sent && Explained(list, sent, None)
  {
    assert list[|list|..] == [];
    Whole(sent);
    NothingPending(list, sent);
  }

  lemma NothingPending(list: seq<string>, sent: seq<string>)
    requires Pending(list[..|list|], [], sent)
    ensures Explained(list, sent, None)
  {
    assert list[..|list|] == list;
  }

  // --------------------------------------------------------------- partition

  /** The batches, one after the other, are the list. */
  lemma {:induction false} BatchesPartition(list: seq<string>, limit: nat, batch: seq<string>, size: nat)
    requires size == 0 <==> batch == []
    ensures Flatten(Batches(list, limit, batch, size)) == batch + list
    decreases |list|
  {
    if list == [] {
      Whole(batch);
      if size > 0 {
        assert Flatten([batch]) == batch + Flatten([batch][1..]);
      }
    } else {
      var l, rest := list[0], list[1..];
      assert list == [l] + rest;
      if size + |l| > limit {
        BatchesPartition(rest, limit, [l], |l| + 1);
        var later := Batches(rest, limit, [l], |l| + 1);
        assert ([batch] + later)[1..] == later;
      } else {
        BatchesPartition(rest, limit, batch + [l], size + |l| + 1);
        Assoc(batch, [l], rest);
      }
    }
  }

  /** An empty batch, that is a command without names, exactly when the first name is over the limit. */
  lemma {:induction false} EmptyBatch(list: seq<string>, limit: nat, batch: seq<string>, size: nat)
    requires size == 0 <==> batch == []
    ensures [] in Batches(list, limit, batch, size) <==> batch == [] && list != [] && |list[0]| > limit
    decreases |list|
  {
    if list != [] {
      var l, rest := list[0], list[1..];
      if size + |l| > limit {
        EmptyBatch(rest, limit, [l], |l| + 1);
        var later := Batches(rest, limit, [l], |l| + 1);
        assert [] in [batch] + later <==> batch == [] || [] in later;
      } else {
        EmptyBatch(rest, limit, batch + [l], size + |l| + 1);
      }
    }
  }

  // ------------------------------------------------------------------- bound

  /** Bytes of the names and one separator each. */
  function Size(names: seq<string>): nat {
    if names == [] then 0 else Size(names[..|names| - 1]) + |names[|names| - 1]| + 1
  }

  function Spaced(names: seq<string>): (n: nat)
    ensures n <= |names|
  {
    if names == [] then 0
    else Spaced(names[..|names| - 1]) + (if ContainsWhitespace(names[|names| - 1]) then 1 else 0)
  }

  lemma {:induction false} SizeConcat(a: seq<string>, b: seq<string>)
    ensures Size(a + b) == Size(a) + Size(b) && Spaced(a + b) == Spaced(a) + Spaced(b)
    decreases |b|
  {
    if b == [] {
      Whole(a);
    } else {
      var n := |b| - 1;
      assert (a + b)[..|a| + n] == a + b[..n];
      SizeConcat(a, b[..n]);
    }
  }

  /** Quoting adds two bytes to a name with white space, joining one byte per name. */
  lemma {:induction false} JoinedSize(args: seq<string>)
    requires args != []
    ensures |Join(QuoteAll(args), " ")| + 1 == Size(args) + 2 * Spaced(args)
    decreases |args|
  {
    var q, rest := QuoteAll(args), args[1..];
    assert args == [args[0]] + rest;
    SizeConcat([args[0]], rest);
    assert [args[0]][..0] == [];
    if rest != [] {
      assert q[1..] == QuoteAll(rest);
      JoinedSize(rest);
    }
  }

  lemma RequestSize(cmd: string, args: seq<string>)
    ensures |Request(cmd, args)| == 6 + |cmd| + Size(args) + 2 * Spaced(args)
  {
    if args != [] {
      hide Join, QuoteAll, Size, Spaced;
      JoinedSize(args);
    }
  }

  predicate FewQuoted(batches: seq<seq<string>>, most: nat) {
    forall b :: b in batches ==> Spaced(b) <= most
  }

  predicate NamesFit(list: seq<string>, limit: nat) {
    forall l :: l in list ==> |l| <= limit
  }

  /** Every batch holds names of the list and at most limit + 1 bytes, counted with separators. */
  lemma {:induction false} BatchSizes(list: seq<string>, limit: nat, batch: seq<string>, size: nat)
    requires NamesFit(list, limit) && size == Size(batch) <= limit + 1
    ensures forall b :: b in Batches(list, limit, batch, size) ==>
              Size(b) <= limit + 1 && forall l :: l in b ==> l in batch || l in list
    decreases |list|
  {
    hide Size;
    if list != [] {
      var l, rest := list[0], list[1..];
      assert forall x :: x in list <==> x == l || x in rest;
      SizeConcat(batch, [l]);
      SizeOfOne(l);
      if size + |l| > limit {
        BatchSizes(rest, limit, [l], |l| + 1);
      } else {
        BatchSizes(rest, limit, batch + [l], size + |l| + 1);
      }
    }
  }

  /**
    The batching limit of 4000 keeps every mkdir request acceptable for SendMessage, after quoting,
    joining and the prefix, with at most 40 quoted names in each batch (42 without -p).
  */
  lemma MkdirRequestsFit(list: seq<string>, withParent: bool)
    requires NamesFit(list, MKDIR_LIMIT) && Quotable(list)
    ensures [] !in Batches(list, MKDIR_LIMIT, [], 0) && Flatten(Batches(list, MKDIR_LIMIT, [], 0)) == list
    ensures forall b :: b in Batches(list, MKDIR_LIMIT, [], 0)
                        && Spaced(b) <= (if withParent then 40 else 42) ==>
              var args := (if withParent then ["-p"] else []) + b;
              Quotable(args) && |Request("mkdir", args)| <= MAX_PAYLOAD_V1_LENGTH
  {
    var all := Batches(list, MKDIR_LIMIT, [], 0);
    BatchesPartition(list, MKDIR_LIMIT, [], 0);
    EmptyBatch(list, MKDIR_LIMIT, [], 0);
    Whole(list);
    if list != [] {
      assert list[0] in list;
    }
    BatchSizes(list, MKDIR_LIMIT, [], 0);
    forall b | b in all && Spaced(b) <= (if withParent then 40 else 42)
      ensures var args := (if withParent then ["-p"] else []) + b;
              Quotable(args) && |Request("mkdir", args)| <= MAX_PAYLOAD_V1_LENGTH
    {
      OptionSize(withParent, b);
    }
  }

  /** The requests are those of the batches. */
  lemma {:induction false} RequestsOfBatches(cmd: string, options: seq<string>, batches: seq<seq<string>>,
                                             request: string)
    ensures request in Requests(cmd, options, batches) <==>
            exists b :: b in batches && request == Request(cmd, options + b)
  {
    hide Request;
    if batches != [] {
      RequestsOfBatches(cmd, options, batches[1..], request);
      assert forall b :: b in batches <==> b == batches[0] || b in batches[1..];
    }
  }

  /** The bytes of names in a request: one separator for each, and two quotes around white space. */
  function Cost(names: seq<string>): nat {
    Size(names) + 2 * Spaced(names)
  }

  lemma RequestCost(cmd: string, options: seq<string>, b: seq<string>)
    ensures |Request(cmd, options + b)| == 6 + |cmd| + Cost(options) + Cost(b)
  {
    hide Request, Size, Spaced;
    RequestSize(cmd, options + b);
    SizeConcat(options, b);
  }

  lemma OptionCost()
    ensures Cost([]) == 0 && Cost(["-p"]) == 3 && Cost(["-rf"]) == 4
  {
    SizeOfOne("-p");
    SizeOfOne("-rf");
    assert !ContainsWhitespace("-p") && !ContainsWhitespace("-rf");
  }

  predicate AllFit(requests: seq<string>) {
    forall r :: r in requests ==> |r| <= MAX_PAYLOAD_V1_LENGTH
  }

  predicate Cheap(batches: seq<seq<string>>, most: nat) {
    forall b :: b in batches ==> Cost(b) <= most
  }

  /** All requests fit exactly if no batch costs more than what command and options leave. */
  lemma RequestsFitExactly(cmd: string, options: seq<string>, batches: seq<seq<string>>, most: nat)
    requires 6 + |cmd| + Cost(options) + most == MAX_PAYLOAD_V1_LENGTH
    ensures AllFit(Requests(cmd, options, batches)) <==> Cheap(batches, most)
  {
    hide Request, Requests, Cost;
    var all := Requests(cmd, options, batches);
    if AllFit(all) {
      forall b | b in batches ensures Cost(b) <= most {
        RequestsOfBatches(cmd, options, batches, Request(cmd, options + b));
        RequestCost(cmd, options, b);
      }
    }
    if Cheap(batches, most) {
      forall r | r in all ensures |r| <= MAX_PAYLOAD_V1_LENGTH {
        RequestsOfBatches(cmd, options, batches, r);
        var b :| b in batches && r == Request(cmd, options + b);
        RequestCost(cmd, options, b);
      }
    }
  }

  /** mkdir's requests all fit exactly if no batch costs more than 4082 bytes with -p, 4085 without. */
  lemma MkdirFitsExactly(list: seq<string>, withParent: bool)
    ensures AllFit(AllRequests("mkdir", if withParent then ["-p"] else [], list, MKDIR_LIMIT)) <==>
            Cheap(Batches(list, MKDIR_LIMIT, [], 0), if withParent then 4082 else 4085)
  {
    hide Requests, Batches, Cost;
    OptionCost();
    var options := if withParent then ["-p"] else [];
    RequestsFitExactly("mkdir", options, Batches(list, MKDIR_LIMIT, [], 0), if withParent then 4082 else 4085);
  }

  /**
    A batcher whose limit is at least twice what a request may cost splits too late to help: its
    batches are all cheap enough exactly if everything together is.
  */
  lemma {:induction false} LateBatches(list: seq<string>, limit: nat, batch: seq<string>, size: nat, most: nat)
    requires limit >= 2 * most && size == Size(batch)
    ensures Cheap(Batches(list, limit, batch, size), most) <==> Cost(batch + list) <= most
    decreases |list|
  {
    hide Size, Spaced;
    SizeIsPositive(batch);
    if list == [] {
      Whole(batch);
      OneBatch(batch, [], most);
      assert Cheap([], most);
    } else {
      var l, rest := list[0], list[1..];
      assert list == [l] + rest;
      SizeConcat(batch, list);
      SizeConcat([l], rest);
      SizeConcat(batch, [l]);
      SizeOfOne(l);
      if size + |l| > limit {
        LateBatches(rest, limit, [l], |l| + 1, most);
        OneBatch(batch, Batches(rest, limit, [l], |l| + 1), most);
      } else {
        LateBatches(rest, limit, batch + [l], size + |l| + 1, most);
        Assoc(batch, [l], rest);
      }
    }
  }

  lemma OneBatch(batch: seq<string>, later: seq<seq<string>>, most: nat)
    ensures Cheap([batch] + later, most) <==> Cost(batch) <= most && Cheap(later, most)
    ensures [batch] + [] == [batch] && (batch == [] ==> Cost(batch) == 0)
  {
    hide Cost;
    assert forall b :: b in [batch] + later <==> b == batch || b in later;
    OptionCost();
  }

  /** So rm's requests all fit exactly if the whole list fits into one request. */
  lemma RmFitsExactly(list: seq<string>)
    ensures AllFit(AllRequests("rm", ["-rf"], list, RM_LIMIT)) <==> Cost(list) <= 4084
  {
    hide Requests, Batches, Cost;
    OptionCost();
    RequestsFitExactly("rm", ["-rf"], Batches(list, RM_LIMIT, [], 0), 4084);
    assert Size([]) == 0;
    LateBatches(list, RM_LIMIT, [], 0, 4084);
    Whole(list);
  }

  /** No request of a whole mkdir is refused if no batch has more than 40 (or 42) quoted names. */
  lemma EveryMkdirRequestFits(list: seq<string>, withParent: bool)
    requires NamesFit(list, MKDIR_LIMIT) && Quotable(list)
    requires forall b :: b in Batches(list, MKDIR_LIMIT, [], 0) ==> Spaced(b) <= (if withParent then 40 else 42)
    ensures var options := if withParent then ["-p"] else [];
            forall r :: r in Requests("mkdir", options, Batches(list, MKDIR_LIMIT, [], 0)) ==>
              |r| <= MAX_PAYLOAD_V1_LENGTH
  {
    hide Request, Requests, Batches, Spaced;
    var options := if withParent then ["-p"] else [];
    var batches := Batches(list, MKDIR_LIMIT, [], 0);
    MkdirRequestsFit(list, withParent);
    forall r | r in Requests("mkdir", options, batches) ensures |r| <= MAX_PAYLOAD_V1_LENGTH {
      RequestsOfBatches("mkdir", options, batches, r);
    }
  }

  lemma OptionSize(withParent: bool, b: seq<string>)
    requires Quotable(b)
    ensures var args := (if withParent then ["-p"] else []) + b;
            Quotable(args) && |Request("mkdir", args)| == 11 + (if withParent then 3 else 0) + Size(b) + 2 * Spaced(b)
  {
    var options := if withParent then ["-p"] else [];
    RequestSize("mkdir", options + b);
    SizeConcat(options, b);
    assert withParent ==> options[..0] == [] && !ContainsWhitespace("-p");
  }

  /** Names that fit together stay together. */
  lemma {:induction false} SingleBatch(list: seq<string>, limit: nat, batch: seq<string>, size: nat)
    requires size == Size(batch) && batch + list != [] && Size(batch + list) <= limit + 1
    ensures Batches(list, limit, batch, size) == [batch + list]
    decreases |list|
  {
    hide Size;
    if list == [] {
      Whole(batch);
      SizeIsPositive(batch);
    } else {
      var l, rest := list[0], list[1..];
      assert list == [l] + rest;
      SizeConcat(batch, list);
      SizeConcat([l], rest);
      SizeConcat(batch, [l]);
      SizeOfOne(l);
      Assoc(batch, [l], rest);
      SingleBatch(rest, limit, batch + [l], size + |l| + 1);
    }
  }

  lemma SizeIsPositive(names: seq<string>)
    ensures names != [] ==> Size(names) > 0
  {
  }

  /** A name of n bytes with one space in front. */
  function SpacedName(n: nat): (name: string)
    requires n > 0
    ensures |name| == n && ContainsWhitespace(name) && '"' !in name
  {
    assert " "[0] == ' ';
    var name := " " + seq(n - 1, i => 'a');
    assert name[0] == ' ' && name[0] in name;
    name
  }

  function Copies(n: nat, name: string): seq<string> {
    if n == 0 then [] else Copies(n - 1, name) + [name]
  }

  lemma {:induction false} SizeOfCopies(n: nat, name: string)
    requires ContainsWhitespace(name) && '"' !in name
    ensures Size(Copies(n, name)) == n * (|name| + 1) && Spaced(Copies(n, name)) == n
    ensures forall x :: x in Copies(n, name) ==> x == name
  {
    if n > 0 {
      SizeOfCopies(n - 1, name);
      var all := Copies(n, name);
      assert all[..|all| - 1] == Copies(n - 1, name);
      assert n * (|name| + 1) == (n - 1) * (|name| + 1) + (|name| + 1);
    }
  }

  lemma SizeOfOne(name: string)
    ensures Size([name]) == |name| + 1 && Spaced([name]) == (if ContainsWhitespace(name) then 1 else 0)
  {
    assert [name][..0] == [];
  }

  lemma ManyNames() returns (list: seq<string>)
    ensures NamesFit(list, MKDIR_LIMIT) && Quotable(list) && list != []
    ensures Spaced(list) == 41 && Size(list) == MKDIR_LIMIT + 1
  {
    var name, last := SpacedName(96), SpacedName(120);
    var front := Copies(40, name);
    list := front + [last];
    SizeOfOne(last);
    SizeOfCopies(40, name);
    TwoNamesFit(front, name, last);
    hide *;
    SizeConcat(front, [last]);
  }

  lemma TwoNamesFit(front: seq<string>, name: string, last: string)
    requires (forall x :: x in front ==> x == name) && |name| <= MKDIR_LIMIT && |last| <= MKDIR_LIMIT
    requires '"' !in name && '"' !in last
    ensures NamesFit(front + [last], MKDIR_LIMIT) && Quotable(front + [last])
  {
    assert forall x :: x in front + [last] ==> x == name || x == last;
  }

  /** Forty is the exact bound: with 41 quoted names a batch can miss the message limit by one byte. */
  lemma FortyOneIsTooMany() returns (list: seq<string>)
    ensures NamesFit(list, MKDIR_LIMIT) && Quotable(list) && Spaced(list) == 41
    ensures Batches(list, MKDIR_LIMIT, [], 0) == [list]
    ensures |Request("mkdir", ["-p"] + list)| == MAX_PAYLOAD_V1_LENGTH + 1
  {
    list := ManyNames();
    hide Request, Spaced;
    Whole(list);
    SingleBatch(list, MKDIR_LIMIT, [], 0);
    OptionSize(true, list);
  }

  /** Rm's limit admits names that SendMessage then refuses. */
  lemma RmRequestTooLong() returns (list: seq<string>)
    ensures NamesFit(list, RM_LIMIT) && Quotable(list) && Batches(list, RM_LIMIT, [], 0) == [list]
    ensures |Request("rm", ["-rf"] + list)| > MAX_PAYLOAD_V1_LENGTH
  {
    var name := SpacedName(5000);
    list := [name];
    assert list[..0] == [] && Size(list) == 5001;
    Whole(list);
    SingleBatch(list, RM_LIMIT, [], 0);
    SizeConcat(["-rf"], list);
    RequestSize("rm", ["-rf"] + list);
  }
}
