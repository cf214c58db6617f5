/** The two parsers of `adb devices -l` lines and the printer of cmd/adb. */
module DeviceInfo {
  import opened Net
  import opened Numbers
  import opened Strings

  datatype Device = Device(serial: string, state: string, product: string, model: string, device: string,
                           transportId: int, usb: string)

  datatype Parsed = Parsed(device: Device) | Invalid(err: Error)

  type Attributes = map<string, string>

  function Get(attrs: Attributes, key: string): string {
    if key in attrs then attrs[key] else ""
  }

  /** A transport id that is no number is left at 0. */
  function NewDevice(serial: string, state: string, attrs: Attributes): Parsed {
    if serial == "" then Invalid(AssertionError)
    else
      var id := ParseInt(Get(attrs, "transport_id"), 10);
      Parsed(Device(serial, state, Get(attrs, "product"), Get(attrs, "model"), Get(attrs, "device"),
                    if id.Some? then id.value else 0, Get(attrs, "usb")))
  }

  // ------------------------------------------------------- the fields parser

  /** parseKeyVal takes the second part; a field without a colon panics there. */
  function AttributesOfFields(fields: seq<string>, attrs: Attributes): Option<Attributes> {
    if fields == [] then Some(attrs)
    else
      var split := Split(fields[0], ':');
      if |split| < 2 then None else AttributesOfFields(fields[1..], attrs[split[0] := split[1]])
  }

  function DeviceOfFields(fields: seq<string>): Parsed {
    if |fields| < 2 then Invalid(Panic)
    else
      var attrs := AttributesOfFields(fields[2..], map[]);
      if attrs.None? then Invalid(Panic) else NewDevice(fields[0], fields[1], attrs.value)
  }

  lemma {:induction false} OnePart(s: string, sep: char)
    ensures |Split(s, sep)| >= 2 <==> sep in s
    decreases |s|
  {
    if s != "" {
      OnePart(s[1..], sep);
      assert sep in s <==> s[0] == sep || sep in s[1..];
    }
  }

  lemma {:induction false} AttributesPanic(fields: seq<string>, attrs: Attributes)
    ensures AttributesOfFields(fields, attrs).None? <==> exists f :: f in fields && ':' !in f
    decreases |fields|
  {
    if fields != [] {
      OnePart(fields[0], ':');
      assert forall f :: f in fields <==> f == fields[0] || f in fields[1..];
      if ':' in fields[0] {
        var split := Split(fields[0], ':');
        AttributesPanic(fields[1..], attrs[split[0] := split[1]]);
      }
    }
  }

  /** The fields parser panics exactly on fewer than two words and on a later word without a colon. */
  lemma FieldsPanic(fields: seq<string>)
    ensures DeviceOfFields(fields) == Invalid(Panic) <==>
            |fields| < 2 || exists f :: f in fields[2..] && ':' !in f
  {
    if |fields| >= 2 {
      AttributesPanic(fields[2..], map[]);
    }
  }

  /** Of a field with several colons only the part between the first two counts. */
  lemma ExtraColons(key: string, value: string, rest: string, attrs: Attributes)
    requires ':' !in key && ':' !in value
    ensures AttributesOfFields([key + (":" + (value + (":" + rest)))], attrs) == Some(attrs[key := value])
  {
    hide Split;
    var field := key + (":" + (value + (":" + rest)));
    assert field == key + [':'] + (value + (":" + rest)) && value + (":" + rest) == value + [':'] + rest;
    SplitFirst(key, value + (":" + rest), ':');
    SplitFirst(value, rest, ':');
    assert [field][1..] == [];
  }

  /**
    A blank serial is refused. A transport id that is no number, or none of 64 bits, leaves it at 0; any
    other is that number.
  */
  lemma TransportIdExactly(serial: string, state: string, attrs: Attributes, text: string)
    requires "transport_id" in attrs && attrs["transport_id"] == text
    ensures serial == "" ==> NewDevice(serial, state, attrs) == Invalid(AssertionError)
    ensures serial != "" ==>
            var d := NewDevice(serial, state, attrs);
            && d.Parsed? && d.device.serial == serial && d.device.state == state
            && (forall n :: ParseInt(text, 10) == Some(n) ==> d.device.transportId == n)
            && (ParseInt(text, 10) == None ==> d.device.transportId == 0)
  {
  }

  method ParseDeviceLong(line: string) returns (parsed: Parsed)
    ensures parsed == DeviceOfFields(Fields(line))
  {
    var fields := Fields(line);
    if |fields| < 2 {
      return Invalid(Panic);
    }
    var attrs: Attributes := map[];
    for i := 2 to |fields|
      invariant AttributesOfFields(fields[2..], map[]) == AttributesOfFields(fields[i..], attrs)
    {
      var split := Split(fields[i], ':');
      assert fields[i..][1..] == fields[i + 1..];
      if |split| < 2 {
        return Invalid(Panic);
      }
      attrs := attrs[split[0] := split[1]];
    }
    assert fields[|fields|..] == [];
    return NewDevice(fields[0], fields[1], attrs);
  }

  // ------------------------------------------------------ the buffer parser

  predicate IsBlank(c: char) {
    c == '\t' || c == ' '
  }

  /** The first blank (or non-blank) character, or the length. */
  function ScanTo(s: string, blank: bool): (i: nat)
    ensures i <= |s| && (forall j :: 0 <= j < i ==> IsBlank(s[j]) != blank) && (i < |s| ==> IsBlank(s[i]) == blank)
  {
    if s == "" || IsBlank(s[0]) == blank then 0 else 1 + ScanTo(s[1..], blank)
  }

  /** From the current key on: a value runs up to the last space before the next colon. */
  function ParseAttributes(key: string, rest: string, attrs: Attributes): Option<Attributes>
    decreases |rest|
  {
    var c := IndexOf(rest, ':');
    if c == |rest| then Some(attrs[key := rest])
    else
      var bi := LastSpace(rest[..c]);
      if bi < 0 then None
      else ParseAttributes(rest[bi + 1..c], rest[c + 1..], attrs[key := TrimSpace(rest[..bi])])
  }

  function BodyAttributes(body: string): Option<Attributes> {
    var c := IndexOf(body, ':');
    if c == |body| then None else ParseAttributes(body[..c], body[c + 1..], map[])
  }

  function ParseBody(serial: string, state: string, body: string): Parsed {
    var attrs := BodyAttributes(body);
    if attrs.None? then Invalid(ParseError) else NewDevice(serial, state, attrs.value)
  }

  /** Everything before the first blank, and everything from the next non-blank on. */
  function WordAndRest(b0: string): Option<(string, string)> {
    var i := ScanTo(b0, true);
    if i == |b0| then None
    else
      var b1 := b0[i..];
      var j := ScanTo(b1, false);
      if j == |b1| then None else Some((b0[..i], b1[j..]))
  }

  /** Serial, state and what follows them, on a trimmed line. */
  function Head(b0: string): Option<(string, string, string)> {
    var serial := WordAndRest(b0);
    if serial.None? then None
    else
      var state := WordAndRest(serial.value.1);
      if state.None? then None else Some((serial.value.0, state.value.0, state.value.1))
  }

  /** parseDeviceLongE on a trimmed line. */
  function ParseTrimmed(b0: string): Parsed {
    var h := Head(b0);
    if h.None? then Invalid(ParseError) else ParseBody(h.value.0, h.value.1, h.value.2)
  }

  /** bytes.Buffer, as far as it is used. */
  class Buffer {
    var data: string

    constructor (data: string)
      ensures this.data == data
    {
      this.data := data;
    }

    method Next(n: nat) returns (r: string)
      requires n <= |data|
      modifies this
      ensures r == old(data)[..n] && data == old(data)[n..]
    {
      r := data[..n];
      data := data[n..];
    }

    /** Up to and including `delim`; without one, everything and no success. */
    method ReadBytes(delim: char) returns (line: string, found: bool)
      modifies this
      ensures var c := IndexOf(old(data), delim);
              && found == (c < |old(data)|)
              && (found ==> line == old(data)[..c + 1] && data == old(data)[c + 1..])
              && (!found ==> line == old(data) && data == "")
    {
      var c := IndexOf(data, delim);
      if c < |data| {
        line := Next(c + 1);
        return line, true;
      }
      line := data;
      data := "";
      return line, false;
    }

    /** readBuff: take everything before the first blank (or non-blank) character. */
    method ReadBuff(toSpace: bool) returns (r: string, found: bool)
      modifies this
      ensures var i := ScanTo(old(data), toSpace);
              found == (i < |old(data)|)
              && (if found then r == old(data)[..i] && data == old(data)[i..] else r == "" && data == old(data))
    {
      for i := 0 to |data|
        invariant data == old(data)
        invariant ScanTo(data, toSpace) == i + ScanTo(data[i..], toSpace)
      {
        if IsBlank(data[i]) == toSpace {
          r := Next(i);
          return r, true;
        }
        assert data[i..][1..] == data[i + 1..];
      }
      return "", false;
    }
  }

  lemma TakeTwice(s: string, h: nat, i: nat, j: nat)
    requires h <= i <= j <= |s|
    ensures s[..j][..i] == s[..i] && s[..j][h..i] == s[h..i]
  {
  }

  lemma AttributesStep(key: string, rest: string, attrs: Attributes)
    ensures var c := IndexOf(rest, ':');
            ParseAttributes(key, rest, attrs)
            == (if c == |rest| then Some(attrs[key := rest])
                else var bi := LastSpace(rest[..c]);
                     if bi < 0 then None
                     else ParseAttributes(rest[bi + 1..c], rest[c + 1..], attrs[key := TrimSpace(rest[..bi])]))
  {
  }

  /** The loop over the attributes, after the first key. */
  method ReadAttributes(buf: Buffer, firstKey: string) returns (result: Option<Attributes>)
    modifies buf
    ensures result == ParseAttributes(firstKey, old(buf.data), map[])
  {
    hide ParseAttributes, TrimSpace, IndexOf, LastSpace;
    var attrs: Attributes := map[];
    var key := firstKey;
    while true
      invariant ParseAttributes(firstKey, old(buf.data), map[]) == ParseAttributes(key, buf.data, attrs)
      decreases |buf.data|
    {
      ghost var rest := buf.data;
      AttributesStep(key, rest, attrs);
      var rbuf, found := buf.ReadBytes(':');
      if !found {
        attrs := attrs[key := rbuf];
        return Some(attrs);
      }
      var c := |rbuf| - 1;
      TakeTwice(rest, 0, c, c + 1);
      var bi := LastSpace(rbuf[..c]);
      if bi < 0 {
        return None;
      }
      TakeTwice(rest, 0, bi, c + 1);
      TakeTwice(rest, bi + 1, c, c + 1);
      attrs := attrs[key := TrimSpace(rbuf[..bi])];
      key := rbuf[bi + 1..c];
    }
  }

  method ParseDeviceLongE(line: string) returns (parsed: Parsed)
    ensures parsed == ParseTrimmed(TrimSpace(line))
  {
    hide TrimSpace, ScanTo, IndexOf, LastSpace, NewDevice, ParseAttributes;
    var buf := new Buffer(TrimSpace(line));
    var serial, found := buf.ReadBuff(true);
    if !found {
      return Invalid(ParseError);
    }
    var skipped;
    skipped, found := buf.ReadBuff(false);
    if !found {
      return Invalid(ParseError);
    }
    var state;
    state, found := buf.ReadBuff(true);
    if !found {
      return Invalid(ParseError);
    }
    skipped, found := buf.ReadBuff(false);
    if !found {
      return Invalid(ParseError);
    }
    ghost var body := buf.data;
    assert ParseTrimmed(TrimSpace(line)) == ParseBody(serial, state, body);
    hide ParseTrimmed;
    var rbuf;
    rbuf, found := buf.ReadBytes(':');
    if !found {
      return Invalid(ParseError);
    }
    TakeTwice(body, 0, |rbuf| - 1, |rbuf|);
    var attrs := ReadAttributes(buf, rbuf[..|rbuf| - 1]);
    if attrs.None? {
      return Invalid(ParseError);
    }
    return NewDevice(serial, state, attrs.value);
  }

  // ------------------------------------------------------------- item lists

  /** An attribute and the white space in front of it. */
  datatype Item = Item(key: string, value: string, gap: string)

  predicate Gap(s: string) {
    s != "" && AllSpace(s)
  }

  predicate EndsInSpace(s: string) {
    s != "" && s[|s| - 1] == ' '
  }

  predicate GoodItem(item: Item) {
    Gap(item.gap) && ':' !in item.key && ' ' !in item.key && ':' !in item.value && Trimmed(item.value)
  }

  predicate GoodItems(items: seq<Item>) {
    items != [] && forall item :: item in items ==> GoodItem(item)
  }

  /** The text after the first key and colon. */
  function AfterKey(items: seq<Item>): string
    requires items != []
  {
    if |items| == 1 then items[0].value
    else items[0].value + (items[1].gap + (items[1].key + (":" + AfterKey(items[1..]))))
  }

  function ItemText(items: seq<Item>): string
    requires items != []
  {
    items[0].key + (":" + AfterKey(items))
  }

  /** Later attributes win. */
  function Collect(items: seq<Item>, attrs: Attributes): Attributes {
    if items == [] then attrs else Collect(items[1..], attrs[items[0].key := items[0].value])
  }

  lemma {:induction false} IndexOfFirst(a: string, c: char, b: string)
    requires c !in a
    ensures IndexOf(a + ([c] + b), c) == |a| && IndexOf(a, c) == |a|
    decreases |a|
  {
    if a == "" {
      assert a + ([c] + b) == [c] + b;
    } else {
      assert a[0] in a && forall x :: x in a[1..] ==> x in a;
      assert (a + ([c] + b))[1..] == a[1..] + ([c] + b);
      IndexOfFirst(a[1..], c, b);
    }
  }

  lemma {:induction false} LastSpaceOf(a: string, w: string)
    requires a != "" && a[|a| - 1] == ' ' && ' ' !in w
    ensures LastSpace(a + w) == |a| - 1
    decreases |w|
  {
    if w == "" {
      assert a + w == a;
    } else {
      var n := |w| - 1;
      assert w[n] in w && forall x :: x in w[..n] ==> x in w;
      assert (a + w)[..|a| + n] == a + w[..n];
      LastSpaceOf(a, w[..n]);
    }
  }

  /** What the next key gets from the gap: everything behind its last space. */
  function AfterSpace(gap: string): string {
    gap[LastSpace(gap) + 1..]
  }

  /** What the buffer parser makes of items, from the first key on. */
  function Scanned(items: seq<Item>, key: string, attrs: Attributes): Option<Attributes>
    requires items != []
  {
    var now := attrs[key := items[0].value];
    if |items| == 1 then Some(now)
    else if ' ' !in items[1].gap then None
    else Scanned(items[1..], AfterSpace(items[1].gap) + items[1].key, now)
  }

  lemma {:induction false} LastSpaceIn(s: string)
    ensures LastSpace(s) >= 0 <==> ' ' in s
    ensures var b := LastSpace(s); b < |s| && (b >= 0 ==> s[b] == ' ' && ' ' !in s[b + 1..])
    decreases |s|
  {
    if s != "" && s[|s| - 1] != ' ' {
      var n := |s| - 1;
      LastSpaceIn(s[..n]);
      var b := LastSpace(s[..n]);
      assert s == s[..n] + [s[n]];
      if b >= 0 {
        assert s[b + 1..] == s[..n][b + 1..] + [s[n]];
      }
    }
  }

  /** A gap with a space in it, around its last space. */
  lemma GapParts(gap: string) returns (before: string)
    requires Gap(gap) && ' ' in gap
    ensures gap == before + (" " + AfterSpace(gap)) && AllSpace(before) && AllSpace(AfterSpace(gap))
    ensures ' ' !in AfterSpace(gap) && ':' !in gap && (AfterSpace(gap) == "" <==> EndsInSpace(gap))
  {
    LastSpaceIn(gap);
    var b := LastSpace(gap);
    before := gap[..b];
    assert forall c :: c in before ==> c in gap;
    assert forall c :: c in gap[b + 1..] ==> c in gap;
    assert gap == gap[..b] + ([gap[b]] + gap[b + 1..]);
  }

  /** One turn of the loop, on a gap around its last space. */
  lemma TurnAtSpace(key: string, value: string, before: string, word: string, tail: string, attrs: Attributes)
    requires AllSpace(before) && ':' !in value && ':' !in before && ':' !in word && ' ' !in word && Trimmed(value)
    ensures ParseAttributes(key, (value + before + " " + word) + ([':'] + tail), attrs)
            == ParseAttributes(word, tail, attrs[key := value])
  {
    hide ParseAttributes, IndexOf, LastSpace, TrimSpace, Trimmed, AllSpace;
    var head := value + before + " ";
    var rest := (head + word) + ([':'] + tail);
    HeadParts(value, before, word, tail);
    IndexOfFirst(head + word, ':', tail);
    LastSpaceOf(head, word);
    EmptyLead(value, before);
    TrimSpaceOf("", value, before);
    AttributesStep(key, rest, attrs);
  }

  lemma EmptyLead(value: string, before: string)
    ensures "" + value + before == value + before && AllSpace("")
  {
  }

  lemma HeadParts(value: string, before: string, word: string, tail: string)
    ensures var head := value + before + " ";
            var rest := (head + word) + ([':'] + tail);
            && rest[..|head + word|] == head + word && rest[|head + word| + 1..] == tail
            && rest[|head|..|head + word|] == word && rest[..|head| - 1] == value + before && head[|head| - 1] == ' '
            && (':' !in value && ':' !in before && ':' !in word ==> ':' !in head + word)
  {
  }

  lemma TurnText(value: string, before: string, after: string, next: string, tail: string)
    ensures value + ((before + (" " + after)) + (next + (":" + tail)))
            == (value + before + " " + (after + next)) + ([':'] + tail)
  {
  }

  /** One turn of the loop: the value ends before the last space of the gap, behind it the next key. */
  lemma AttributeStep(key: string, value: string, gap: string, next: string, tail: string, attrs: Attributes)
    requires Gap(gap) && ' ' in gap && ':' !in value && Trimmed(value) && ':' !in next && ' ' !in next
    ensures ParseAttributes(key, value + (gap + (next + (":" + tail))), attrs)
            == ParseAttributes(AfterSpace(gap) + next, tail, attrs[key := value])
  {
    hide ParseAttributes, Trimmed, AfterSpace, AllSpace;
    var before := GapParts(gap);
    assert forall c :: c in before || c in AfterSpace(gap) ==> c in before + (" " + AfterSpace(gap));
    TurnText(value, before, AfterSpace(gap), next, tail);
    TurnAtSpace(key, value, before, AfterSpace(gap) + next, tail, attrs);
  }

  /** Without a space in the value and the gap, the parser gives up. */
  lemma NoSpaceStep(key: string, value: string, gap: string, next: string, tail: string, attrs: Attributes)
    requires Gap(gap) && ' ' !in gap && ' ' !in value && ':' !in value && ':' !in next && ' ' !in next
    ensures ParseAttributes(key, value + (gap + (next + (":" + tail))), attrs) == None
  {
    hide ParseAttributes, IndexOf, LastSpace;
    var chunk := value + (gap + next);
    var rest := value + (gap + (next + (":" + tail)));
    assert forall c :: c in chunk ==> c in value || c in gap || c in next;
    assert rest == chunk + ([':'] + tail) && rest[..|chunk|] == chunk;
    IndexOfFirst(chunk, ':', tail);
    LastSpaceIn(chunk);
    AttributesStep(key, rest, attrs);
  }

  /** Every list of items, with any gaps, as the buffer parser reads its text. */
  lemma {:induction false} ScannedItems(items: seq<Item>, key: string, attrs: Attributes)
    requires GoodItems(items)
    requires forall i :: 0 < i < |items| ==> ' ' in items[i].gap || ' ' !in items[i - 1].value
    ensures ParseAttributes(key, AfterKey(items), attrs) == Scanned(items, key, attrs)
    decreases |items|
  {
    hide Trimmed, TrimSpace, Gap, AfterSpace;
    var item := items[0];
    assert item in items;
    if |items| == 1 {
      IndexOfFirst(item.value, ':', "");
    } else {
      var rest := items[1..];
      var gap := rest[0].gap;
      assert rest[0] in items && forall x :: x in rest ==> x in items;
      assert ' ' in items[1].gap || ' ' !in items[1 - 1].value;
      if ' ' in gap {
        AttributeStep(key, item.value, gap, rest[0].key, AfterKey(rest), attrs);
        forall i | 0 < i < |rest| ensures ' ' in rest[i].gap || ' ' !in rest[i - 1].value {
          assert ' ' in items[i + 1].gap || ' ' !in items[(i + 1) - 1].value;
        }
        ScannedItems(rest, AfterSpace(gap) + rest[0].key, attrs[key := item.value]);
      } else {
        NoSpaceStep(key, item.value, gap, rest[0].key, AfterKey(rest), attrs);
      }
    }
  }

  predicate Spaced(items: seq<Item>) {
    forall i :: 0 < i < |items| ==> EndsInSpace(items[i].gap)
  }

  lemma {:induction false} ScannedIsCollected(items: seq<Item>, attrs: Attributes)
    requires GoodItems(items) && Spaced(items)
    ensures Scanned(items, items[0].key, attrs) == Some(Collect(items, attrs))
    decreases |items|
  {
    hide Gap, Trimmed;
    var item, rest := items[0], items[1..];
    if rest == [] {
      assert Collect(items, attrs) == Collect(rest, attrs[item.key := item.value]);
    } else {
      var gap := rest[0].gap;
      assert rest[0] in items && forall x :: x in rest ==> x in items;
      assert EndsInSpace(items[1].gap) && gap[|gap| - 1] in gap;
      forall i | 0 < i < |rest| ensures EndsInSpace(rest[i].gap) {
        assert EndsInSpace(items[i + 1].gap);
      }
      var before := GapParts(gap);
      assert AfterSpace(gap) + rest[0].key == rest[0].key;
      ScannedIsCollected(rest, attrs[item.key := item.value]);
    }
  }

  lemma AttributesOfItems(items: seq<Item>, attrs: Attributes)
    requires GoodItems(items) && Spaced(items)
    ensures ParseAttributes(items[0].key, AfterKey(items), attrs) == Some(Collect(items, attrs))
  {
    hide Gap, Trimmed, ParseAttributes;
    forall i | 0 < i < |items| ensures ' ' in items[i].gap || ' ' !in items[i - 1].value {
      var gap := items[i].gap;
      assert EndsInSpace(gap) && gap[|gap| - 1] in gap;
    }
    ScannedItems(items, items[0].key, attrs);
    ScannedIsCollected(items, attrs);
  }

  lemma {:induction false} ScanToOf(a: string, b: string, blank: bool)
    requires (forall x :: x in a ==> IsBlank(x) != blank) && (b == "" || IsBlank(b[0]) == blank)
    ensures ScanTo(a + b, blank) == |a|
    decreases |a|
  {
    if a == "" {
      assert a + b == b;
    } else {
      assert a[0] in a && forall x :: x in a[1..] ==> x in a;
      assert (a + b)[1..] == a[1..] + b;
      ScanToOf(a[1..], b, blank);
    }
  }

  predicate Blanks(s: string) {
    s != "" && forall c :: c in s ==> IsBlank(c)
  }

  predicate NoBlanks(s: string) {
    s != "" && forall c :: c in s ==> !IsBlank(c)
  }

  lemma WordAndBlanks(w: string, sep: string, rest: string)
    requires NoBlanks(w) && Blanks(sep) && rest != "" && !IsBlank(rest[0])
    ensures WordAndRest(w + (sep + rest)) == Some((w, rest))
  {
    hide ScanTo, IsBlank;
    assert sep[0] in sep;
    ScanToOf(w, sep + rest, true);
    ScanToOf(sep, rest, false);
    assert (w + (sep + rest))[..|w|] == w && (w + (sep + rest))[|w|..] == sep + rest && (sep + rest)[|sep|..] == rest;
  }

  /** A line of two words and a body, with any blanks between. */
  lemma HeadOfThree(serial: string, sep1: string, state: string, sep2: string, body: string)
    requires NoBlanks(serial) && Blanks(sep1) && NoBlanks(state) && Blanks(sep2) && body != "" && !IsBlank(body[0])
    ensures Head(serial + (sep1 + (state + (sep2 + body)))) == Some((serial, state, body))
  {
    hide WordAndRest, IsBlank;
    assert state[0] in state;
    WordAndBlanks(serial, sep1, state + (sep2 + body));
    WordAndBlanks(state, sep2, body);
  }

  lemma ParseThree(serial: string, sep1: string, state: string, sep2: string, body: string)
    requires NoBlanks(serial) && Blanks(sep1) && NoBlanks(state) && Blanks(sep2) && body != "" && !IsBlank(body[0])
    ensures ParseTrimmed(serial + (sep1 + (state + (sep2 + body)))) == ParseBody(serial, state, body)
  {
    hide Head, ParseBody;
    HeadOfThree(serial, sep1, state, sep2, body);
  }

  lemma ParseItems(serial: string, sep1: string, state: string, sep2: string, items: seq<Item>)
    requires NoBlanks(serial) && Blanks(sep1) && NoBlanks(state) && Blanks(sep2) && GoodItems(items) && Spaced(items)
    requires !IsBlank(ItemText(items)[0])
    ensures ParseTrimmed(serial + (sep1 + (state + (sep2 + ItemText(items)))))
            == NewDevice(serial, state, Collect(items, map[]))
  {
    var key, tail := items[0].key, AfterKey(items);
    assert items[0] in items;
    ParseThree(serial, sep1, state, sep2, ItemText(items));
    hide ParseTrimmed, NewDevice, AfterKey, ParseAttributes, Collect;
    IndexOfFirst(key, ':', tail);
    AttributesOfItems(items, map[]);
    assert ItemText(items)[..|key|] == key && ItemText(items)[|key| + 1..] == tail;
  }

  // -------------------------------------------------------- printed lines

  function Attribute(key: string, value: string): string {
    if value == "" then "" else key + ":" + value + " "
  }

  function TransportText(id: int): string {
    if id == 0 then "" else Itoa(id)
  }

  /** The line `adb devices` prints. */
  function PrintLine(d: Device): string {
    d.serial + "\t " + d.state + " "
    + Attribute("usb", d.usb) + Attribute("product", d.product) + Attribute("model", d.model)
    + Attribute("device", d.device) + Attribute("transport_id", TransportText(d.transportId)) + "\n"
  }

  predicate GoodValue(v: string) {
    ':' !in v && Trimmed(v)
  }

  predicate Printable(d: Device) {
    Word(d.serial) && Word(d.state) && GoodValue(d.usb) && GoodValue(d.product) && GoodValue(d.model)
    && GoodValue(d.device) && -TWO_TO_63 <= d.transportId < TWO_TO_63
  }

  function One(key: string, value: string): seq<Item> {
    if value == "" then [] else [Item(key, value, " ")]
  }

  function ItemsOf(d: Device): seq<Item> {
    One("usb", d.usb) + One("product", d.product) + One("model", d.model) + One("device", d.device)
    + One("transport_id", TransportText(d.transportId))
  }

  function Printed(items: seq<Item>): string {
    if items == [] then "" else Attribute(items[0].key, items[0].value) + Printed(items[1..])
  }

  lemma {:induction false} PrintedConcat(a: seq<Item>, b: seq<Item>)
    ensures Printed(a + b) == Printed(a) + Printed(b)
  {
    if a == [] {
      assert a + b == b;
    } else {
      assert (a + b)[1..] == a[1..] + b;
      PrintedConcat(a[1..], b);
    }
  }

  lemma PrintedOne(key: string, value: string)
    ensures Printed(One(key, value)) == Attribute(key, value)
  {
    var items := One(key, value);
    if value != "" {
      assert items[1..] == [];
    }
  }

  lemma PrintedItems(d: Device)
    ensures PrintLine(d) == d.serial + "\t " + d.state + " " + Printed(ItemsOf(d)) + "\n"
  {
    hide Attribute, Printed, TransportText, One;
    var a, b, c := One("usb", d.usb), One("product", d.product), One("model", d.model);
    var e, f := One("device", d.device), One("transport_id", TransportText(d.transportId));
    PrintedOne("usb", d.usb);
    PrintedOne("product", d.product);
    PrintedOne("model", d.model);
    PrintedOne("device", d.device);
    PrintedOne("transport_id", TransportText(d.transportId));
    PrintedConcat(a, b);
    PrintedConcat(a + b, c);
    PrintedConcat(a + b + c, e);
    PrintedConcat(a + b + c + e, f);
    FiveParts(d.serial + "\t " + d.state + " ", Printed(a), Printed(b), Printed(c), Printed(e), Printed(f));
  }

  lemma FiveParts(p: string, a: string, b: string, c: string, d: string, e: string)
    ensures p + a + b + c + d + e == p + (a + b + c + d + e)
  {
  }

  predicate PrintedItem(item: Item) {
    GoodItem(item) && item.gap == " " && item.value != "" && '\t' !in item.key
  }

  lemma PrintedItemParts(item: Item)
    requires PrintedItem(item)
    ensures item.gap == " " && item.value != "" && !IsSpace(item.value[|item.value| - 1])
  {
  }

  lemma Regroup(k: string, v: string, r: string)
    ensures (k + ":" + v + " ") + (r + " ") == (k + (":" + (v + (" " + r)))) + " "
    ensures (k + ":" + v + " ") + "" == (k + (":" + v)) + " "
  {
  }

  lemma LastOf(a: string, b: string)
    requires b != ""
    ensures (a + b)[|a + b| - 1] == b[|b| - 1]
  {
  }

  lemma ItemTextStep(items: seq<Item>)
    requires items != []
    ensures ItemText(items) == items[0].key + (":" + AfterKey(items))
    ensures AfterKey(items)
            == (if |items| == 1 then items[0].value
                else items[0].value + (items[1].gap + ItemText(items[1..])))
    ensures Printed(items) == Attribute(items[0].key, items[0].value) + Printed(items[1..])
    ensures items[0].value != "" ==>
              Attribute(items[0].key, items[0].value) == items[0].key + ":" + items[0].value + " "
    ensures Printed([]) == ""
  {
  }

  lemma {:induction false} PrintedIsItemText(items: seq<Item>)
    requires items != [] && forall item :: item in items ==> PrintedItem(item)
    ensures Printed(items) == ItemText(items) + " "
    ensures ItemText(items) != "" && !IsSpace(ItemText(items)[|ItemText(items)| - 1])
    decreases |items|
  {
    hide IsSpace, PrintedItem, Printed, ItemText, AfterKey, Attribute;
    ItemTextStep(items);
    var item, rest := items[0], items[1..];
    var k, v := item.key, item.value;
    assert item in items;
    PrintedItemParts(item);
    if rest == [] {
      Regroup(k, v, "");
      LastOf(k, ":" + v);
      LastOf(":", v);
    } else {
      assert items[1] in items && forall x :: x in rest ==> x in items;
      PrintedItemParts(items[1]);
      PrintedIsItemText(rest);
      var r := ItemText(rest);
      Regroup(k, v, r);
      LastOf(k, ":" + (v + (" " + r)));
      LastOf(":", v + (" " + r));
      LastOf(v, " " + r);
      LastOf(" ", r);
    }
  }

  lemma {:induction false} CollectConcat(a: seq<Item>, b: seq<Item>, attrs: Attributes)
    ensures Collect(a + b, attrs) == Collect(b, Collect(a, attrs))
  {
    if a == [] {
      assert a + b == b;
    } else {
      assert (a + b)[1..] == a[1..] + b;
      CollectConcat(a[1..], b, attrs[a[0].key := a[0].value]);
    }
  }

  lemma CollectOne(key: string, value: string, attrs: Attributes)
    requires key !in attrs
    ensures var m := Collect(One(key, value), attrs);
            Get(m, key) == value && forall k :: k != key ==> Get(m, k) == Get(attrs, k) && (k in m <==> k in attrs)
  {
    var items := One(key, value);
    if value != "" {
      assert Collect(items, attrs) == Collect(items[1..], attrs[key := value]);
    }
  }

  lemma KeysDiffer()
    ensures "usb" != "product" && "usb" != "model" && "usb" != "device" && "usb" != "transport_id"
    ensures "product" != "model" && "product" != "device" && "product" != "transport_id"
    ensures "model" != "device" && "model" != "transport_id" && "device" != "transport_id"
  {
    assert |"usb"| == 3 && |"product"| == 7 && |"model"| == 5 && |"device"| == 6 && |"transport_id"| == 12;
  }

  lemma CollectedItems(d: Device)
    ensures var m := Collect(ItemsOf(d), map[]);
            Get(m, "usb") == d.usb && Get(m, "product") == d.product && Get(m, "model") == d.model
            && Get(m, "device") == d.device && Get(m, "transport_id") == TransportText(d.transportId)
  {
    hide One, Collect, TransportText, Get;
    var a, b, c := One("usb", d.usb), One("product", d.product), One("model", d.model);
    var e, f := One("device", d.device), One("transport_id", TransportText(d.transportId));
    CollectConcat(a, b, map[]);
    CollectConcat(a + b, c, map[]);
    CollectConcat(a + b + c, e, map[]);
    CollectConcat(a + b + c + e, f, map[]);
    KeysDiffer();
    var m1 := Collect(a, map[]);
    var m2 := Collect(b, m1);
    var m3 := Collect(c, m2);
    var m4 := Collect(e, m3);
    CollectOne("usb", d.usb, map[]);
    CollectOne("product", d.product, m1);
    CollectOne("model", d.model, m2);
    CollectOne("device", d.device, m3);
    CollectOne("transport_id", TransportText(d.transportId), m4);
  }

  lemma TransportTextParses(id: int)
    requires -TWO_TO_63 <= id < TWO_TO_63
    ensures var p := ParseInt(TransportText(id), 10); if id == 0 then p.None? else p == Some(id)
    ensures GoodValue(TransportText(id)) && (TransportText(id) == "" <==> id == 0)
  {
    if id != 0 {
      ParseOfItoa(id);
      var t := Itoa(id);
      assert t != "";
      hide Itoa, ParseInt;
      assert t[0] in t && t[|t| - 1] in t;
    }
  }

  lemma OneIsPrinted(key: string, value: string)
    requires ':' !in key && ' ' !in key && '\t' !in key && GoodValue(value)
    ensures forall item :: item in One(key, value) ==> PrintedItem(item)
  {
  }

  lemma KeysArePlain()
    ensures ':' !in "usb" && ' ' !in "usb" && '\t' !in "usb"
    ensures ':' !in "product" && ' ' !in "product" && '\t' !in "product"
    ensures ':' !in "model" && ' ' !in "model" && '\t' !in "model"
    ensures ':' !in "device" && ' ' !in "device" && '\t' !in "device"
    ensures ':' !in "transport_id" && ' ' !in "transport_id" && '\t' !in "transport_id"
  {
  }

  lemma ItemsArePrinted(d: Device)
    requires Printable(d)
    ensures forall item :: item in ItemsOf(d) ==> PrintedItem(item)
  {
    hide TransportText, One, PrintedItem, GoodValue;
    TransportTextParses(d.transportId);
    KeysArePlain();
    OneIsPrinted("usb", d.usb);
    OneIsPrinted("product", d.product);
    OneIsPrinted("model", d.model);
    OneIsPrinted("device", d.device);
    OneIsPrinted("transport_id", TransportText(d.transportId));
  }

  /** A trimmed line of only two words is refused. */
  lemma ParseTwo(serial: string, sep: string, state: string)
    requires NoBlanks(serial) && Blanks(sep) && NoBlanks(state)
    ensures ParseTrimmed(serial + (sep + state)) == Invalid(ParseError)
  {
    hide ScanTo, ParseBody, IsBlank;
    var b1 := sep + state;
    assert sep[0] in sep && state[0] in state;
    ScanToOf(serial, b1, true);
    ScanToOf(sep, state, false);
    ScanToOf(state, "", true);
    assert state + "" == state;
    assert (serial + b1)[|serial|..] == b1 && b1[|sep|..] == state;
  }

  lemma WordsHaveNoBlanks(w: string)
    requires Word(w)
    ensures NoBlanks(w) && Trimmed(w)
  {
    assert w[0] in w && w[|w| - 1] in w;
    assert forall c :: IsBlank(c) ==> IsSpace(c);
  }

  /** A string between two that do not end in white space on the outside. */
  lemma TrimmedEnds(a: string, b: string, c: string)
    requires a != "" && !IsSpace(a[0]) && c != "" && !IsSpace(c[|c| - 1])
    ensures Trimmed(a + (b + c))
  {
  }

  lemma LineParts(serial: string, state: string, text: string)
    ensures serial + "\t " + state + " " + (text + " ") + "\n"
            == "" + (serial + ("\t " + (state + (" " + text)))) + " \n"
    ensures serial + "\t " + state + " " + "" + "\n" == "" + (serial + ("\t " + state)) + " \n"
    ensures serial + (("\t " + (state + " ")) + text) == serial + ("\t " + (state + (" " + text)))
    ensures AllSpace("") && AllSpace(" \n") && Blanks("\t ") && Blanks(" ")
  {
  }

  /**
    Printing and parsing: for a serial and a state without white space and trimmed values without
    colons (spaces inside are fine), the parser gives back the printed device, transport id
    included, if at least one attribute is printed, and refuses the line otherwise.
  */
  lemma PrintedLineParses(d: Device)
    requires Printable(d)
    ensures ParseTrimmed(TrimSpace(PrintLine(d))) == (if ItemsOf(d) == [] then Invalid(ParseError) else Parsed(d))
    ensures ItemsOf(d) == [] <==>
            d.usb == "" && d.product == "" && d.model == "" && d.device == "" && d.transportId == 0
  {
    hide PrintLine, TransportText, ParseInt, Printed, Word, GoodValue, PrintedItem, ItemText, ParseTrimmed;
    var items := ItemsOf(d);
    TransportTextParses(d.transportId);
    ItemsArePrinted(d);
    PrintedItems(d);
    WordsHaveNoBlanks(d.serial);
    WordsHaveNoBlanks(d.state);
    hide ItemsOf;
    if items == [] {
      NothingPrinted(items);
      LineParts(d.serial, d.state, "");
      TrimmedEnds(d.serial, "\t ", d.state);
      hide Trimmed, NoBlanks, Blanks, AllSpace, TrimSpace;
      TrimSpaceOf("", d.serial + ("\t " + d.state), " \n");
      ParseTwo(d.serial, "\t ", d.state);
    } else {
      var text := ItemText(items);
      PrintedIsItemText(items);
      LineParts(d.serial, d.state, text);
      TrimmedEnds(d.serial, "\t " + (d.state + " "), text);
      PrintedItemsAreGood(items);
      hide Trimmed, NoBlanks, Blanks, AllSpace, TrimSpace, ItemText, PrintedItem;
      TrimSpaceOf("", d.serial + ("\t " + (d.state + (" " + text))), " \n");
      ParseItems(d.serial, "\t ", d.state, " ", items);
      CollectedItems(d);
    }
  }

  lemma PrintedItemsAreGood(items: seq<Item>)
    requires items != [] && forall item :: item in items ==> PrintedItem(item)
    ensures GoodItems(items) && Spaced(items) && !IsBlank(ItemText(items)[0])
  {
    var key := items[0].key;
    assert items[0] in items;
    forall i | 0 < i < |items| ensures EndsInSpace(items[i].gap) {
      assert items[i] in items && " "[0] == ' ';
    }
    if key != "" {
      assert key[0] in key;
    }
  }

  lemma NothingPrinted(items: seq<Item>)
    requires items == []
    ensures Printed(items) == ""
  {
  }
}
