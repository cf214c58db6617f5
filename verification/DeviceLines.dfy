/** On which device lines the two parsers agree, and what becomes of the others. */
module DeviceLines {
  import opened Net
  import opened Numbers
  import opened Strings
  import opened DeviceInfo

  // ------------------------------------------------------------ word by word

  lemma JoinEmpty(s: string, w: string)
    ensures "" + s == s && w + "" == w
  {
  }

  lemma Regroup3(a: string, b: string, c: string)
    ensures a + (b + c) == (a + b) + c
  {
  }

  lemma TailIsTrimmed(a: string, rest: string)
    requires rest == "" || !IsSpace(rest[0])
    ensures Trimmed(a + rest) ==> Trimmed(rest)
  {
    if rest != "" {
      LastOf(a, rest);
    }
  }

  lemma SpaceShows(lead: string, s: string)
    requires AllSpace(lead)
    ensures lead != "" ==> !Trimmed(lead + s)
  {
    if lead != "" {
      assert lead[0] in lead && (lead + s)[0] == lead[0];
    }
  }

  lemma GapShows(w: string, gap: string)
    requires AllSpace(gap)
    ensures gap != "" ==> !Trimmed(w + gap)
  {
    if gap != "" {
      LastOf(w, gap);
      assert gap[|gap| - 1] in gap;
    }
  }

  /** The first word of a trimmed line, the white space after it, and the trimmed rest. */
  lemma SplitWord(s: string) returns (w: string, gap: string, rest: string)
    requires s != "" && Trimmed(s)
    ensures Word(w) && Trimmed(rest) && |rest| < |s| && AllSpace(gap)
    ensures Fields(s) == [w] + Fields(rest)
    ensures if rest == "" then s == w else Gap(gap) && s == w + (gap + rest)
  {
    hide Fields, TrimLeft, AllSpace, Trimmed, Word;
    FieldsOfTrimmedStart(s);
    var lead, tail;
    lead, w, tail := FirstWord(s);
    assert w != "" by { WordIsNotEmpty(w); }
    SpaceShows(lead, w + tail);
    JoinEmpty(w + tail, w);
    FieldsOfWord(lead, w, tail);
    rest := TrimLeft(tail);
    gap := tail[..|tail| - |rest|];
    LeadIsSpace(tail);
    FieldsOfTail(tail);
    assert tail == gap + rest;
    Regroup3(w, gap, rest);
    TailIsTrimmed(w + gap, rest);
    if rest == "" {
      JoinEmpty(gap, gap);
      GapShows(w, gap);
    } else if gap == "" {
      JoinEmpty(rest, w);
    }
  }

  lemma WordIsNotEmpty(w: string)
    requires Word(w)
    ensures w != ""
  {
  }

  lemma FieldsOfTrimmedStart(s: string)
    requires s != "" && Trimmed(s)
    ensures TrimLeft(s) != ""
  {
  }

  // --------------------------------------------------- the body of a line

  /** Every word but the first comes right after a space. */
  predicate SpaceBeforeWords(s: string) {
    forall i :: 0 < i < |s| && IsSpace(s[i - 1]) && !IsSpace(s[i]) ==> s[i - 1] == ' '
  }

  /** Some white space between two words, from i to j, has no space in it. */
  predicate SpacelessGap(s: string, i: nat, j: nat) {
    && 0 < i < j < |s| && !IsSpace(s[i - 1]) && !IsSpace(s[j])
    && forall k :: i <= k < j ==> IsSpace(s[k]) && s[k] != ' '
  }

  ghost predicate HasSpacelessGap(s: string) {
    exists i: nat, j: nat :: SpacelessGap(s, i, j)
  }

  lemma WordsStep(w: string, gap: string, rest: string)
    requires Word(w) && Gap(gap) && rest != "" && !IsSpace(rest[0])
    ensures var s := w + (gap + rest);
            && (SpaceBeforeWords(s) <==> EndsInSpace(gap) && SpaceBeforeWords(rest))
            && (HasSpacelessGap(s) <==> ' ' !in gap || HasSpacelessGap(rest))
  {
    var s, n, m := w + (gap + rest), |w|, |w| + |gap|;
    WordsParts(w, gap, rest);
    if SpaceBeforeWords(s) {
      assert s[m - 1] == gap[|gap| - 1];
      forall i | 0 < i < |rest| && IsSpace(rest[i - 1]) && !IsSpace(rest[i]) ensures rest[i - 1] == ' ' {
        assert s[m + i] == rest[i] && s[(m + i) - 1] == rest[i - 1];
      }
    }
    GapsStep(w, gap, rest);
  }

  lemma WordsParts(w: string, gap: string, rest: string)
    requires Word(w) && Gap(gap) && rest != "" && !IsSpace(rest[0])
    ensures var s, n, m := w + (gap + rest), |w|, |w| + |gap|;
            && |s| == m + |rest|
            && (forall k :: 0 <= k < n ==> s[k] == w[k] && !IsSpace(s[k]))
            && (forall k :: n <= k < m ==> s[k] == gap[k - n] && IsSpace(s[k]))
            && (forall k :: m <= k < |s| ==> s[k] == rest[k - m]) && !IsSpace(s[m])
  {
    var s, n, m := w + (gap + rest), |w|, |w| + |gap|;
    forall k | 0 <= k < n ensures s[k] == w[k] && !IsSpace(s[k]) {
      assert w[k] in w;
    }
    forall k | n <= k < m ensures s[k] == gap[k - n] && IsSpace(s[k]) {
      assert gap[k - n] in gap;
    }
  }

  lemma GapsStep(w: string, gap: string, rest: string)
    requires Word(w) && Gap(gap) && rest != "" && !IsSpace(rest[0])
    ensures HasSpacelessGap(w + (gap + rest)) <==> ' ' !in gap || HasSpacelessGap(rest)
  {
    var s, n, m := w + (gap + rest), |w|, |w| + |gap|;
    WordsParts(w, gap, rest);
    if HasSpacelessGap(s) {
      var i: nat, j: nat :| SpacelessGap(s, i, j);
      assert IsSpace(s[i]);
      if i < m {
        assert i == n && j == m;
        forall c | c in gap ensures c != ' ' {
          var k :| 0 <= k < |gap| && gap[k] == c;
          assert s[n + k] == c;
        }
      } else {
        assert i > m;
        forall k | i - m <= k < j - m ensures IsSpace(rest[k]) && rest[k] != ' ' {
          assert s[m + k] == rest[k];
        }
        assert SpacelessGap(rest, i - m, j - m);
      }
    }
    if ' ' !in gap {
      forall k | n <= k < m ensures IsSpace(s[k]) && s[k] != ' ' {
        assert gap[k - n] in gap;
      }
      assert SpacelessGap(s, n, m);
    }
    if HasSpacelessGap(rest) {
      var i: nat, j: nat :| SpacelessGap(rest, i, j);
      assert SpacelessGap(s, m + i, m + j);
    }
  }

  lemma OneWord(w: string)
    requires Word(w)
    ensures SpaceBeforeWords(w) && !HasSpacelessGap(w)
  {
    forall i | 0 <= i < |w| ensures !IsSpace(w[i]) {
      assert w[i] in w;
    }
    forall i: nat, j: nat ensures !SpacelessGap(w, i, j) {
      if 0 < i < j < |w| {
        assert !IsSpace(w[i]);
      }
    }
  }

  // -------------------------------------------------- the body as a list of items

  /** A field with exactly one colon. */
  predicate KeyValue(field: string) {
    |Split(field, ':')| == 2
  }

  /** Items whose keys and values are free of white space. */
  predicate Clear(s: string) {
    forall c :: c in s ==> !IsSpace(c)
  }

  predicate ClearItems(items: seq<Item>) {
    GoodItems(items) && forall item :: item in items ==> Clear(item.key) && Clear(item.value)
  }

  lemma KeyValueParts(field: string)
    requires KeyValue(field) && Word(field)
    ensures var p := Split(field, ':');
            && |p| == 2 && p == [p[0], p[1]] && field == p[0] + (":" + p[1])
            && GoodItem(Item(p[0], p[1], " ")) && Clear(p[0]) && Clear(p[1])
  {
    var p := Split(field, ':');
    SplitJoins(field, ':');
    assert p[1..] == [p[1]];
    assert field == p[0] + ":" + p[1];
    forall c | c in p[0] || c in p[1] ensures !IsSpace(c) {
      assert c in field;
    }
    if p[1] != "" {
      assert p[1][0] in p[1] && p[1][|p[1]| - 1] in p[1];
    }
  }

  lemma ItemGap(key: string, value: string, gap: string)
    requires GoodItem(Item(key, value, " ")) && Gap(gap)
    ensures GoodItem(Item(key, value, gap))
  {
  }

  lemma ItemTextOfTwo(k: string, v: string, sp: string, k2: string, after: string)
    ensures (k + (":" + v)) + (sp + (k2 + (":" + after))) == k + (":" + (v + (sp + (k2 + (":" + after)))))
  {
  }

  lemma FieldsAreItems(w: string, later: seq<string>, item: Item, items: seq<Item>)
    requires Split(w, ':') == [item.key, item.value] && items != [] && items[0] == item
    requires forall attrs :: AttributesOfFields(later, attrs) == Some(Collect(items[1..], attrs))
    ensures forall attrs :: AttributesOfFields([w] + later, attrs) == Some(Collect(items, attrs))
  {
    assert ([w] + later)[1..] == later;
  }

  predicate Gapped(items: seq<Item>) {
    forall i :: 0 < i < |items| ==> ' ' in items[i].gap
  }

  lemma MoreItems(item: Item, more: seq<Item>)
    requires ClearItems(more) && GoodItem(item) && Clear(item.key) && Clear(item.value)
    ensures var items := [item] + more;
            && ClearItems(items) && (Spaced(items) <==> EndsInSpace(more[0].gap) && Spaced(more))
            && (Gapped(items) <==> ' ' in more[0].gap && Gapped(more))
  {
    hide GoodItem, Clear;
    var items := [item] + more;
    assert forall x :: x in items <==> x == item || x in more;
    forall i | 0 < i < |more| ensures items[i + 1] == more[i] {
    }
    if Spaced(items) {
      assert EndsInSpace(items[1].gap);
      forall i | 0 < i < |more| ensures EndsInSpace(more[i].gap) {
        assert EndsInSpace(items[i + 1].gap);
      }
    }
    if Gapped(items) {
      assert ' ' in items[1].gap;
      forall i | 0 < i < |more| ensures ' ' in more[i].gap {
        assert ' ' in items[i + 1].gap;
      }
    }
  }

  lemma OneItem(item: Item)
    requires GoodItem(item) && Clear(item.key) && Clear(item.value)
    ensures ClearItems([item]) && Spaced([item]) && Gapped([item])
    ensures ItemText([item]) == item.key + (":" + item.value) && [item][1..] == []
    ensures Fields("") == [] && forall attrs :: AttributesOfFields([], attrs) == Some(Collect([], attrs))
  {
  }

  /** A body of key:value words, with any white space between, is a list of items. */
  lemma {:induction false} ItemsOfBody(body: string, gap: string) returns (items: seq<Item>)
    requires body != "" && Trimmed(body) && Gap(gap)
    requires forall f :: f in Fields(body) ==> KeyValue(f)
    ensures ClearItems(items) && items[0].gap == gap && body == ItemText(items)
    ensures (SpaceBeforeWords(body) <==> Spaced(items)) && (HasSpacelessGap(body) <==> !Gapped(items))
    ensures forall attrs :: AttributesOfFields(Fields(body), attrs) == Some(Collect(items, attrs))
    decreases |body|
  {
    hide Fields, Trimmed, KeyValue, Word, GoodItem, GoodItems, ClearItems, Clear, Spaced, Gapped, Gap, SpaceBeforeWords,
      HasSpacelessGap, Collect, AttributesOfFields;
    var w, g, rest := SplitWord(body);
    assert w in Fields(body);
    KeyValueParts(w);
    var p := Split(w, ':');
    ItemGap(p[0], p[1], gap);
    var item := Item(p[0], p[1], gap);
    OneItem(item);
    if rest == "" {
      items := [item];
      OneWord(w);
    } else {
      assert forall f :: f in Fields(rest) ==> f in Fields(body);
      var more := ItemsOfBody(rest, g);
      assert more != [] by { SomeItems(more); }
      items := [item] + more;
      assert items[1..] == more && items[1] == more[0];
      ItemTextOfTwo(p[0], p[1], g, more[0].key, AfterKey(more));
      MoreItems(item, more);
      assert rest[0] == rest[0] && !IsSpace(rest[0]) by { TrimmedStart(rest); }
      WordsStep(w, g, rest);
    }
    FieldsAreItems(w, Fields(rest), item, items);
  }

  lemma SomeItems(items: seq<Item>)
    requires ClearItems(items)
    ensures items != []
  {
  }

  lemma TrimmedStart(s: string)
    requires s != "" && Trimmed(s)
    ensures !IsSpace(s[0])
  {
  }

  // -------------------------------------------------------- keys that are read

  lemma {:induction false} ScannedKeys(items: seq<Item>, key: string, attrs: Attributes)
    requires items != [] && Scanned(items, key, attrs).Some?
    ensures var m := Scanned(items, key, attrs).value;
            && key in m && (forall k :: k in attrs ==> k in m)
            && forall i :: 0 < i < |items| ==> ' ' in items[i].gap && AfterSpace(items[i].gap) + items[i].key in m
    decreases |items|
  {
    hide AfterSpace;
    if |items| > 1 {
      var rest := items[1..];
      ScannedKeys(rest, AfterSpace(rest[0].gap) + rest[0].key, attrs[key := items[0].value]);
      var m := Scanned(items, key, attrs).value;
      forall i | 0 < i < |items| ensures ' ' in items[i].gap && AfterSpace(items[i].gap) + items[i].key in m {
        if i > 1 {
          assert items[i] == rest[i - 1];
        }
      }
    }
  }

  lemma {:induction false} CollectedKeys(items: seq<Item>, attrs: Attributes)
    ensures forall k :: k in Collect(items, attrs) ==> k in attrs || exists item :: item in items && item.key == k
    decreases |items|
  {
    if items != [] {
      var now := attrs[items[0].key := items[0].value];
      CollectedKeys(items[1..], now);
      assert items[0] in items && forall item :: item in items[1..] ==> item in items;
      assert forall k :: k in now ==> k in attrs || k == items[0].key;
    }
  }

  /** A gap that has a space but ends otherwise leaves white space in front of the next key. */
  lemma DirtyKey(item: Item)
    requires GoodItem(item) && ' ' in item.gap && !EndsInSpace(item.gap)
    ensures !Clear(AfterSpace(item.gap) + item.key)
  {
    var before := GapParts(item.gap);
    var after := AfterSpace(item.gap);
    var k := after + item.key;
    assert after[0] in after && k[0] == after[0] && k[0] in k;
  }

  lemma CollectedAreClear(items: seq<Item>)
    requires ClearItems(items)
    ensures forall k :: k in Collect(items, map[]) ==> Clear(k)
  {
    hide Clear, GoodItem, Collect;
    CollectedKeys(items, map[]);
  }

  /** The buffer parser reads the items as they are exactly if every gap ends in a space. */
  lemma ScannedExactly(items: seq<Item>)
    requires ClearItems(items)
    ensures Scanned(items, items[0].key, map[]) == Some(Collect(items, map[])) <==> Spaced(items)
    ensures Scanned(items, items[0].key, map[]).None? <==> !Gapped(items)
  {
    hide GoodItem, Clear, Scanned, Collect, EndsInSpace, AfterSpace;
    if Spaced(items) {
      ScannedIsCollected(items, map[]);
    }
    GapsAreScanned(items, items[0].key, map[]);
    if Gapped(items) && !Spaced(items) {
      var i :| 0 < i < |items| && !EndsInSpace(items[i].gap);
      assert items[i] in items && ' ' in items[i].gap;
      DirtyKey(items[i]);
      ScannedKeys(items, items[0].key, map[]);
      CollectedAreClear(items);
    }
  }

  lemma {:induction false} GapsAreScanned(items: seq<Item>, key: string, attrs: Attributes)
    requires items != []
    ensures Scanned(items, key, attrs).Some? <==> Gapped(items)
    decreases |items|
  {
    hide AfterSpace;
    if |items| > 1 {
      var rest := items[1..];
      GapsAreScanned(rest, AfterSpace(rest[0].gap) + rest[0].key, attrs[key := items[0].value]);
      if Gapped(items) {
        forall i | 0 < i < |rest| ensures ' ' in rest[i].gap {
          assert ' ' in items[i + 1].gap;
        }
      }
      if ' ' in items[1].gap && Gapped(rest) {
        forall i | 0 < i < |items| ensures ' ' in items[i].gap {
          if i > 1 {
            assert items[i] == rest[i - 1];
          }
        }
      }
    }
  }

  /** The attributes of a body, as both parsers read them. */
  lemma BodyExactly(body: string)
    requires body != "" && Trimmed(body) && forall f :: f in Fields(body) ==> KeyValue(f)
    ensures AttributesOfFields(Fields(body), map[]).Some?
    ensures BodyAttributes(body) == AttributesOfFields(Fields(body), map[]) <==> SpaceBeforeWords(body)
    ensures BodyAttributes(body).None? <==> HasSpacelessGap(body)
    ensures BodyAttributes(body).Some? ==> Fields(body) != []
    ensures forall k :: k in AttributesOfFields(Fields(body), map[]).value ==> Clear(k)
  {
    hide Fields, Trimmed, KeyValue, SpaceBeforeWords, HasSpacelessGap, AttributesOfFields, ParseAttributes, Scanned,
      Collect, Spaced, Gapped, Clear, Gap;
    assert Gap(" ") by { OneBlank(); }
    var items := ItemsOfBody(body, " ");
    ScannedExactly(items);
    BodyItems(items);
    CollectedKeys(items, map[]);
    ClearKeys(items);
    assert AttributesOfFields(Fields(body), map[]) == Some(Collect(items, map[]));
    if Fields(body) == [] {
      NoWords(body);
    }
  }

  lemma OneBlank()
    ensures Gap(" ") && Blanks(" ")
  {
  }

  lemma NoWords(body: string)
    requires Trimmed(body) && Fields(body) == []
    ensures body == ""
  {
  }

  lemma ClearKeys(items: seq<Item>)
    requires ClearItems(items)
    ensures forall i :: 0 <= i < |items| ==> Clear(items[i].key)
  {
    forall i | 0 <= i < |items| ensures Clear(items[i].key) {
      assert items[i] in items;
    }
  }

  lemma BodyItems(items: seq<Item>)
    requires ClearItems(items)
    ensures BodyAttributes(ItemText(items)) == Scanned(items, items[0].key, map[])
  {
    hide Scanned, ParseAttributes, AfterKey;
    var key, tail := items[0].key, AfterKey(items);
    assert items[0] in items;
    IndexOfFirst(key, ':', tail);
    assert ItemText(items)[..|key|] == key && ItemText(items)[|key| + 1..] == tail;
    forall i | 0 < i < |items| ensures ' ' in items[i].gap || ' ' !in items[i - 1].value {
      assert items[i - 1] in items && Clear(items[i - 1].value);
    }
    ScannedItems(items, key, map[]);
  }

  // -------------------------------------------------------------- whole lines

  /** Serial, state and attributes, as the buffer parser reads them from a trimmed line. */
  function BufferReads(b0: string): Option<(string, string, Attributes)> {
    var h := Head(b0);
    if h.None? then None
    else
      var attrs := BodyAttributes(h.value.2);
      if attrs.None? then None else Some((h.value.0, h.value.1, attrs.value))
  }

  /** And as the fields parser reads them from the words of a line. */
  function FieldsRead(fields: seq<string>): Option<(string, string, Attributes)> {
    if |fields| < 2 then None
    else
      var attrs := AttributesOfFields(fields[2..], map[]);
      if attrs.None? then None else Some((fields[0], fields[1], attrs.value))
  }

  lemma ReadingsDecide(b0: string, fields: seq<string>)
    requires FieldsRead(fields).Some?
    ensures BufferReads(b0) == FieldsRead(fields) ==> ParseTrimmed(b0) == DeviceOfFields(fields)
    ensures ParseTrimmed(b0) == (var r := BufferReads(b0);
                                 if r.None? then Invalid(ParseError) else NewDevice(r.value.0, r.value.1, r.value.2))
  {
    hide Head, BodyAttributes, AttributesOfFields, NewDevice;
  }

  lemma {:induction false} ParsedKeys(key: string, rest: string, attrs: Attributes)
    requires ParseAttributes(key, rest, attrs).Some?
    ensures key in ParseAttributes(key, rest, attrs).value
    ensures forall k :: k in attrs ==> k in ParseAttributes(key, rest, attrs).value
    decreases |rest|
  {
    hide TrimSpace, LastSpace;
    var c := IndexOf(rest, ':');
    if c < |rest| {
      var bi := LastSpace(rest[..c]);
      ParsedKeys(rest[bi + 1..c], rest[c + 1..], attrs[key := TrimSpace(rest[..bi])]);
    }
  }

  /** A body that starts with white space gives a key with white space in it. */
  lemma DirtyBody(body: string)
    requires body != "" && IsSpace(body[0]) && BodyAttributes(body).Some?
    ensures exists k :: k in BodyAttributes(body).value && !Clear(k)
  {
    hide ParseAttributes;
    var c := IndexOf(body, ':');
    var key := body[..c];
    assert c > 0;
    ParsedKeys(key, body[c + 1..], map[]);
    assert key[0] == body[0] && key[0] in key && !Clear(key);
  }

  lemma FirstNotBlank(sep: string, rest: string)
    requires Gap(sep) && !Blanks(sep)
    ensures var j := ScanTo(sep + rest, false); j < |sep| && IsSpace((sep + rest)[j])
  {
    hide IsBlank;
    var c :| c in sep && !IsBlank(c);
    var p :| 0 <= p < |sep| && sep[p] == c;
    assert (sep + rest)[p] == c;
    var j := ScanTo(sep + rest, false);
    assert j <= p && (sep + rest)[j] == sep[j] && sep[j] in sep;
  }

  /** A word and what follows are told apart by length. */
  lemma SameStart(w: string, rest: string, i: nat)
    requires i <= |w + rest| && (w + rest)[..i] == w
    ensures i == |w| && (w + rest)[i..] == rest
  {
  }

  /** Reading a word off: other white space behind it spoils the word, or what follows. */
  lemma WordExactly(w: string, sep: string, rest: string)
    requires Word(w) && Gap(sep) && rest != "" && !IsSpace(rest[0])
    ensures var r := WordAndRest(w + (sep + rest));
            && (Blanks(sep) ==> r == Some((w, rest)))
            && (!Blanks(sep) && r.Some? && r.value.0 == w ==> r.value.1 != "" && IsSpace(r.value.1[0]))
  {
    hide ScanTo, Blanks, Gap, Word, NoBlanks;
    if Blanks(sep) {
      WordsHaveNoBlanks(w);
      WordAndBlanks(w, sep, rest);
    } else {
      FirstNotBlank(sep, rest);
      var i := ScanTo(w + (sep + rest), true);
      if (w + (sep + rest))[..i] == w {
        SameStart(w, sep + rest, i);
      }
    }
  }

  lemma DirtyWord(b: string)
    requires b != "" && IsSpace(b[0])
    ensures var r := WordAndRest(b); r.Some? ==> !Word(r.value.0)
  {
    hide ScanTo;
    var r := WordAndRest(b);
    if r.Some? && r.value.0 != "" {
      assert r.value.0[0] == b[0] && r.value.0[0] in r.value.0;
    }
  }

  /** Where the head of a line is not separated by blanks only, something read begins with white space. */
  lemma HeadExactly(serial: string, sep1: string, state: string, sep2: string, body: string)
    requires Word(serial) && Gap(sep1) && Word(state) && Gap(sep2) && body != "" && !IsSpace(body[0])
    ensures var h := Head(serial + (sep1 + (state + (sep2 + body))));
            && (Blanks(sep1) && Blanks(sep2) ==> h == Some((serial, state, body)))
            && (h.Some? && !(Blanks(sep1) && Blanks(sep2)) ==>
                  h.value.0 != serial || h.value.1 != state || (h.value.2 != "" && IsSpace(h.value.2[0])))
  {
    hide WordAndRest, Word, Gap, Blanks, IsSpace;
    var b2 := state + (sep2 + body);
    assert state != "" && b2[0] == state[0] && !IsSpace(state[0]) by { WordStart(state); }
    WordExactly(serial, sep1, b2);
    WordExactly(state, sep2, body);
    var r := WordAndRest(serial + (sep1 + b2));
    if r.Some? && r.value.1 != "" && IsSpace(r.value.1[0]) {
      DirtyWord(r.value.1);
    }
  }

  lemma WordStart(w: string)
    requires Word(w)
    ensures w != "" && !IsSpace(w[0])
  {
    assert w[0] in w;
  }

  /**
    Every line with a serial, a state and key:value words, with any white space around and between
    them. The parsers read the same serial, state and attributes if and only if blanks alone separate
    serial, state and first attribute, and every later word comes right after a space. Then the
    results are equal. With blanks there, the buffer parser refuses the line if and only if some gap
    between two attributes has no space in it; the fields parser never does.
  */
  lemma ReadingsAgree(lead: string, serial: string, sep1: string, state: string, sep2: string, body: string,
                      trail: string)
    requires AllSpace(lead) && Word(serial) && Gap(sep1) && Word(state) && Gap(sep2) && AllSpace(trail)
    requires body != "" && Trimmed(body) && forall f :: f in Fields(body) ==> KeyValue(f)
    ensures var core := serial + (sep1 + (state + (sep2 + body)));
            var line := lead + core + trail;
            && TrimSpace(line) == core && Fields(line) == [serial, state] + Fields(body)
            && FieldsRead(Fields(line)).Some? && DeviceOfFields(Fields(line)).Parsed?
            && (BufferReads(core) == FieldsRead(Fields(line)) <==>
                  Blanks(sep1) && Blanks(sep2) && SpaceBeforeWords(body))
            && (Blanks(sep1) && Blanks(sep2) && SpaceBeforeWords(body) ==>
                  ParseTrimmed(TrimSpace(line)) == DeviceOfFields(Fields(line)))
            && (Blanks(sep1) && Blanks(sep2) ==>
                  (ParseTrimmed(TrimSpace(line)) == Invalid(ParseError) <==> HasSpacelessGap(body)))
  {
    hide Fields, TrimSpace, AllSpace, Trimmed, Word, Gap, Blanks, KeyValue, SpaceBeforeWords, HasSpacelessGap, Head,
      BodyAttributes, AttributesOfFields, ParseTrimmed, DeviceOfFields, Clear;
    var core := serial + (sep1 + (state + (sep2 + body)));
    LineFields(lead, serial, sep1, state, sep2, body, trail);
    TrimmedStart(body);
    HeadExactly(serial, sep1, state, sep2, body);
    BodyExactly(body);
    var fields := [serial, state] + Fields(body);
    assert fields[2..] == Fields(body);
    ReadingsDecide(core, fields);
    var h := Head(core);
    if h.Some? && h.value.2 != "" && IsSpace(h.value.2[0]) && BodyAttributes(h.value.2).Some? {
      DirtyBody(h.value.2);
    }
    FieldsParse(fields);
    if Blanks(sep1) && Blanks(sep2) {
      BufferParses(core);
    }
  }

  lemma FieldsParse(fields: seq<string>)
    requires FieldsRead(fields).Some? && Word(fields[0])
    ensures DeviceOfFields(fields).Parsed?
  {
    hide AttributesOfFields;
  }

  lemma BufferParses(b0: string)
    requires BufferReads(b0).Some? ==> Word(BufferReads(b0).value.0)
    ensures ParseTrimmed(b0) == Invalid(ParseError) <==> BufferReads(b0).None?
  {
    hide Head, BodyAttributes;
  }

  lemma LineFields(lead: string, serial: string, sep1: string, state: string, sep2: string, body: string, trail: string)
    requires AllSpace(lead) && Word(serial) && Gap(sep1) && Word(state) && Gap(sep2) && AllSpace(trail)
    requires body != "" && Trimmed(body)
    ensures var core := serial + (sep1 + (state + (sep2 + body)));
            TrimSpace(lead + core + trail) == core && Fields(lead + core + trail) == [serial, state] + Fields(body)
  {
    hide Fields, TrimSpace, IsSpace, Word, Trimmed;
    var b3 := sep2 + body;
    var b1 := sep1 + (state + b3);
    var core := serial + b1;
    CoreIsTrimmed(serial, sep1 + (state + sep2), body);
    assert core == serial + (sep1 + (state + sep2)) + body;
    TrimSpaceOf(lead, core, trail);
    FieldsOfTrimmed(lead + core + trail);
    StartsWithSpace(sep1, state + b3);
    StartsWithSpace(sep2, body);
    JoinEmpty(core, core);
    FieldsOfWord("", serial, b1);
    FieldsOfWord(sep1, state, b3);
    FieldsBehindSpace(sep2, body);
    assert [serial] + ([state] + Fields(body)) == [serial, state] + Fields(body);
  }

  lemma CoreIsTrimmed(serial: string, middle: string, body: string)
    requires Word(serial) && Trimmed(body) && body != ""
    ensures Trimmed(serial + middle + body)
  {
    assert serial[0] in serial;
    LastOf(serial + middle, body);
  }

  lemma StartsWithSpace(gap: string, rest: string)
    requires Gap(gap)
    ensures gap + rest != "" && IsSpace((gap + rest)[0])
  {
    assert gap[0] in gap;
  }

  lemma FieldsBehindSpace(gap: string, body: string)
    requires AllSpace(gap) && Trimmed(body)
    ensures Fields(gap + body) == Fields(body)
  {
    hide Fields;
    TrimLeftOf(gap, body);
    FieldsOfTail(gap + body);
  }

  // ------------------------------------------------------- lines by condition

  /** Spaces are the only white space. */
  predicate PlainSpaces(s: string) {
    forall c :: c in s && IsSpace(c) ==> c == ' '
  }

  /** Every line of three words and more, taken apart. */
  lemma LineParts3(line: string)
      returns (lead: string, serial: string, sep1: string, state: string, sep2: string, body: string, trail: string)
    requires |Fields(line)| >= 3
    ensures AllSpace(lead) && Word(serial) && Gap(sep1) && Word(state) && Gap(sep2) && AllSpace(trail)
    ensures body != "" && Trimmed(body) && line == lead + (serial + (sep1 + (state + (sep2 + body)))) + trail
    ensures Fields(line) == [serial, state] + Fields(body)
  {
    hide Fields, Trimmed, Word, Gap, AllSpace, TrimLeft, TrimRight;
    var t := TrimLeft(line);
    var core := TrimRight(t);
    lead, trail := line[..|line| - |t|], t[|core|..];
    LeadIsSpace(line);
    TrailIsSpace(t);
    FieldsOfTrimmed(line);
    assert core == TrimSpace(line);
    assert lead + core + trail == line;
    NoFieldsOfNothing();
    var rest1;
    serial, sep1, rest1 := SplitWord(core);
    state, sep2, body := SplitWord(rest1);
    assert [serial] + ([state] + Fields(body)) == [serial, state] + Fields(body);
  }

  lemma NoFieldsOfNothing()
    ensures Fields("") == []
  {
  }

  /**
    On every line of at least three words, with spaces only and exactly one colon in each word from
    the third on, the two parsers give equal results: duplicates, several spaces and spaces at the
    ends included.
  */
  lemma ParsersAgree(line: string)
    requires PlainSpaces(line) && |Fields(line)| >= 3
    requires forall i :: 2 <= i < |Fields(line)| ==> KeyValue(Fields(line)[i])
    ensures ParseTrimmed(TrimSpace(line)) == DeviceOfFields(Fields(line))
  {
    hide Fields, Trimmed, KeyValue, TrimSpace, Word, Gap, AllSpace, PlainSpaces, SpaceBeforeWords, Blanks, ParseTrimmed,
      DeviceOfFields;
    var lead, serial, sep1, state, sep2, body, trail := LineParts3(line);
    forall f | f in Fields(body) ensures KeyValue(f) {
      var i :| 0 <= i < |Fields(body)| && Fields(body)[i] == f;
      assert Fields(line)[i + 2] == f;
    }
    PlainParts(lead, serial, sep1, state, sep2, body, trail);
    ReadingsAgree(lead, serial, sep1, state, sep2, body, trail);
  }

  lemma PlainParts(lead: string, serial: string, sep1: string, state: string, sep2: string, body: string, trail: string)
    requires PlainSpaces(lead + (serial + (sep1 + (state + (sep2 + body)))) + trail) && Gap(sep1) && Gap(sep2)
    ensures Blanks(sep1) && Blanks(sep2) && SpaceBeforeWords(body)
  {
    hide IsSpace;
    var line := lead + (serial + (sep1 + (state + (sep2 + body)))) + trail;
    assert forall c :: c in sep1 || c in sep2 || c in body ==> c in line;
    forall i | 0 < i < |body| && IsSpace(body[i - 1]) && !IsSpace(body[i]) ensures body[i - 1] == ' ' {
      assert body[i - 1] in body;
    }
  }
}
