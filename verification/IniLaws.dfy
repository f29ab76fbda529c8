/** What the INI writers and readers promise together: reading back what was written,
    leaving every other setting alone, and writing twice like writing once. */
module IniLaws {
  import opened Wrappers
  import opened Lines
  import opened Ascii
  import opened IniSyntax
  import opened IniMerge
  import opened IniScan

  // ------------------------------------------------------------- new entries

  /** The text up to its first newline. */
  function FirstLine(r: string): (u: string)
    ensures u <= r && '\n' !in u && (|u| < |r| ==> r[|u|] == '\n')
  {
    if r == "" || r[0] == '\n' then "" else [r[0]] + FirstLine(r[1..])
  }

  lemma {:induction false} LineEndIsFirst(r: string)
    ensures LineEnd(r + "\n") == |FirstLine(r)| + 1
  {
    if r == "" || r[0] == '\n' {
    } else {
      assert (r + "\n")[1..] == r[1..] + "\n";
      LineEndIsFirst(r[1..]);
    }
  }

  lemma {:induction false} FirstLineConcat(a: string, r: string)
    requires '\n' !in a
    ensures FirstLine(a + r) == a + FirstLine(r)
  {
    if a == "" {
      assert a + r == r;
    } else {
      assert (a + r)[1..] == a[1..] + r;
      FirstLineConcat(a[1..], r);
    }
  }

  lemma WholeLine(s: string)
    requires '\n' !in s
    ensures FirstLine(s) == s
  {
    FirstLineConcat(s, "");
    assert s + "" == s;
  }

  lemma SplitEnds(s: string)
    requires Ended(s)
    ensures SplitKeep(s) != [] && forall l | l in SplitKeep(s) :: IsLine(l) && Ended(l)
  {
    var ls := SplitKeep(s);
    JoinSplit(s);
    assert ls != [];
    JoinEnds(ls);
  }

  lemma SplitFirst(s: string)
    requires s != ""
    ensures SplitKeep(s) != [] && SplitKeep(s)[0] == s[..LineEnd(s)]
    ensures |SplitKeep(s)| == 1 <==> LineEnd(s) == |s|
  {
    var n := LineEnd(s);
    assert SplitKeep(s) == [s[..n]] + SplitKeep(s[n..]);
  }

  lemma EntryEnds(key: string, rendered: string)
    requires ValidKey(key)
    ensures Ended(Entry(key, rendered)) && '\n' !in key + "="
  {
    var s := Entry(key, rendered);
    assert s[|s| - 1] == '\n';
  }

  lemma EntryText(key: string, rendered: string)
    ensures Entry(key, rendered) == (key + "=" + rendered) + "\n"
  {
  }

  /** A written entry starts with the key's line; it is one line unless the value spans lines. */
  lemma EntryLines(key: string, rendered: string)
    requires ValidKey(key)
    ensures var ls := SplitKeep(Entry(key, rendered));
            && ls != [] && ls[0] == key + "=" + (FirstLine(rendered) + "\n")
            && (|ls| == 1 <==> '\n' !in rendered)
            && (forall l | l in ls :: IsLine(l) && Ended(l))
  {
    hide SplitKeep, LineEnd, FirstLine, Entry, ValidKey, IsLine, Ended;
    var s, head, u := Entry(key, rendered), key + "=", FirstLine(rendered);
    EntryText(key, rendered);
    assert Ended(s) && '\n' !in head by { EntryEnds(key, rendered); }
    SplitEnds(s);
    SplitFirst(s);
    LineEndIsFirst(head + rendered);
    FirstLineConcat(head, rendered);
    assert s[..|head| + |u| + 1] == head + (u + "\n");
    assert |u| < |rendered| ==> rendered[|u|] in rendered;
  }

  /** strip() keeps every visible character and what lies between them. */
  lemma StripReaches(r: string, k: nat)
    requires k < |r| && !IsSpace(r[k])
    ensures var i := SpaceEnd(r, 0); i <= k < i + |Strip(r)| <= |r| && Strip(r) == r[i..i + |Strip(r)|]
  {
    hide RTrim, SpaceEnd;
    var i := SpaceEnd(r, 0);
    var t := RTrim(r[i..]);
    forall j | i + |t| <= j < |r| ensures IsSpace(r[j]) { assert r[j] == r[i..][|t|..][j - i - |t|]; }
    assert r[i..][..|t|] == r[i..i + |t|];
  }

  lemma StripBlank(u: string)
    requires Blank(u)
    ensures Strip(u) == ""
  {
    SpaceEndUnique(u, 0, |u|);
  }

  /** The first line of a value strips to the whole value exactly when nothing visible follows it. */
  lemma StripFirstLine(r: string)
    ensures Strip(FirstLine(r)) == Strip(r) <==> Blank(r[|FirstLine(r)|..])
  {
    var u := FirstLine(r);
    var tail := r[|u|..];
    assert r == u + tail;
    if Blank(tail) {
      StripEnd(u, tail);
    } else {
      NoNewline(u);
      var k :| 0 <= k < |tail| && !IsSpace(tail[k]);
      assert r[|u| + k] == tail[k];
      StripReaches(r, |u| + k);
      var i := SpaceEnd(r, 0);
      hide Strip;
      if i <= |u| {
        assert Strip(r)[|u| - i] == r[|u|] == '\n';
        assert '\n' in Strip(r);
      } else {
        forall j | 0 <= j < |u| ensures IsSpace(u[j]) { assert u[j] == r[j]; }
        StripBlank(u);
      }
    }
  }

  lemma NoNewline(u: string)
    requires '\n' !in u
    ensures '\n' !in Strip(u)
  {
    var i := SpaceEnd(u, 0);
    assert forall c | c in Strip(u) :: c in u[i..];
  }

  // ----------------------------------------------------------- the shape written

  /** Where an entry was set, the section is current, undecided, and the lines are whole. */
  ghost predicate Shape(pre: seq<string>, post: seq<string>, section: string, m: Match) {
    && Scan(pre, section, m, false) == Some(true)
    && AreLines(pre) && AreLines(post) && (pre != [] ==> Ended(pre[|pre| - 1]))
  }

  lemma SubLines(ls: seq<string>, at: nat)
    requires AreLines(ls) && at <= |ls|
    ensures AreLines(ls[..at]) && AreLines(ls[at..]) && (0 < at < |ls| ==> Ended(ls[..at][at - 1]))
  {
  }

  lemma AddHeader(ls: seq<string>, section: string)
    requires AreLines(ls) && ValidSection(section)
    ensures var pre := Close(ls) + HeaderLines(section); AreLines(pre) && Ended(pre[|pre| - 1])
  {
    CloseIsLines(ls);
    HeaderIsLine(section);
  }

  function Before(ls: seq<string>, section: string, p: Place): seq<string>
    requires !p.Absent? ==> p.at <= |ls|
  {
    if p.Absent? then Close(ls) + HeaderLines(section)
    else if p == Insert(|ls|) then Close(ls)
    else ls[..p.at]
  }

  function Behind(ls: seq<string>, p: Place): seq<string>
    requires (p.Insert? ==> p.at <= |ls|) && (p.Replace? ==> p.at < |ls|)
  {
    if p.Absent? then [] else if p.Insert? then ls[p.at..] else ls[p.at + 1..]
  }

  lemma SetShape(ls: seq<string>, section: string, m: Match, entry: seq<string>)
      returns (pre: seq<string>, post: seq<string>)
    requires ValidKey(m.key) && ValidSection(section) && AreLines(ls)
    ensures Shape(pre, post, section, m) && SetLines(ls, section, m, entry) == pre + entry + post
  {
    var p := Find(ls, section, m, 0, false);
    pre, post := Before(ls, section, p), Behind(ls, p);
    assert ls[..0] == [];
    FindPlaced(ls, section, m, 0, false);
    BeforeShape(ls, section, m, p);
    hide Shape, Close, HeaderLines, Hits, AreLines, Scan;
  }

  lemma BeforeShape(ls: seq<string>, section: string, m: Match, p: Place)
    requires ValidKey(m.key) && ValidSection(section) && AreLines(ls) && Placed(ls, section, m, p)
    ensures Shape(Before(ls, section, p), Behind(ls, p), section, m)
  {
    hide Hits, Header, Target, Close, HeaderLines, AreLines, Ended, Scan, ValidKey, ValidSection, Next;
    CloseIsLines(ls);
    AddHeader(ls, section);
    SubLines(ls, |ls|);
    assert ls[..|ls|] == ls && ls[|ls|..] == [];
    if p.Absent? {
      ScanNewSection(ls, section, m);
    } else if p == Insert(|ls|) {
      ScanClose(ls, section, m);
    } else {
      SubLines(ls, p.at);
      if p.Replace? { SubLines(ls, p.at + 1); }
    }
  }

  lemma HeaderIsLine(section: string)
    requires ValidSection(section)
    ensures AreLines(HeaderLines(section)) && Ended(HeaderLines(section)[1])
  {
    var h := "[" + section + "]\n";
    assert h[|h| - 1] == '\n';
    forall i | 0 <= i < |h| - 1 ensures h[i] != '\n' {
      if 0 < i < |h| - 2 { assert h[i] == section[i - 1] && section[i - 1] in section; }
    }
  }

  lemma ShapeIsLines(pre: seq<string>, mid: seq<string>, post: seq<string>)
    requires AreLines(pre) && AreLines(post) && (pre != [] ==> Ended(pre[|pre| - 1]))
    requires forall l | l in mid :: IsLine(l) && Ended(l)
    ensures AreLines(pre + mid + post)
  {
  }

  /** The lines of the written text are the lines the writer put down. */
  lemma KeyedLinesOf(text: string, section: string, key: string, rendered: string)
    returns (pre: seq<string>, post: seq<string>)
    requires ValidKey(key) && ValidSection(section)
    ensures Shape(pre, post, section, Key(key))
    ensures var entry := SplitKeep(Entry(key, rendered));
            && SetLines(SplitKeep(text), section, Key(key), entry) == pre + entry + post
            && SplitKeep(UpsertKeyed(text, section, key, rendered)) == pre + entry + post
  {
    var entry := SplitKeep(Entry(key, rendered));
    EntryLines(key, rendered);
    hide SetLines, Find, Hits, Header, Target;
    pre, post := SetShape(SplitKeep(text), section, Key(key), entry);
    ShapeIsLines(pre, entry, post);
    SplitJoin(pre + entry + post);
  }

  // ---------------------------------------------------------------- read back

  lemma {:induction false} ScanReadsNothing(ls: seq<string>, section: string, m: Match, prefixes: string, within: bool)
    requires ValidKey(m.key) && Scan(ls, section, m, within).Some?
    requires (m.Key? && prefixes == "") || (m.Live? && prefixes == "+.")
    ensures Values(ls, section, prefixes, m.key, within) == []
    decreases ls
  {
    if ls != [] {
      ReadIsHit(ls[0], m.key);
      hide Hits, Header, Target, ValueOf;
      ScanReadsNothing(ls[1..], section, m, prefixes, Next(ls[0], section, within));
    }
  }

  /** Whatever the text, the key reads back as the stripped first line of what was written. */
  lemma KeyedReadBack(text: string, section: string, key: string, rendered: string)
    requires ValidKey(key) && ValidSection(section)
    ensures ReadKeyed(UpsertKeyed(text, section, key, rendered), section, key) == Some(Strip(FirstLine(rendered)))
  {
    var entry := SplitKeep(Entry(key, rendered));
    var pre, post := KeyedLinesOf(text, section, key, rendered);
    EntryLines(key, rendered);
    ScanReadsNothing(pre, section, Key(key), "", false);
    ScanState(pre, section, Key(key), false);
    var rest := FirstLine(rendered) + "\n";
    BareEntry(key, rest, section);
    StripEnd(FirstLine(rendered), "\n");
    hide Header, Target, ValueOf, Strip, SplitKeep, SetLines, Scan, State, Hits;
    ValuesChomp(pre + entry + post, section, "", key, false);
    FirstRead(pre, entry, post, section, "", key);
  }

  /** Where nothing was read before and the section is current, an entry is read first. */
  lemma FirstRead(pre: seq<string>, entry: seq<string>, post: seq<string>, section: string, prefixes: string,
                  key: string)
    requires Values(pre, section, prefixes, key, false) == [] && State(pre, section, false)
    requires entry != [] && !Header(entry[0]) && !Target(entry[0], section) && ValueOf(entry[0], prefixes, key).Some?
    ensures First(Values(pre + entry + post, section, prefixes, key, false)) == ValueOf(entry[0], prefixes, key)
  {
    hide Header, Target, ValueOf, State;
    assert pre + entry + post == pre + (entry + post);
    ValuesConcat(pre, entry + post, section, prefixes, key, false);
    assert (entry + post)[0] == entry[0];
  }

  /** It reads back as the whole stripped value exactly when nothing visible follows the
      value's first newline. */
  lemma KeyedReadBackIff(text: string, section: string, key: string, rendered: string)
    requires ValidKey(key) && ValidSection(section)
    ensures ReadKeyed(UpsertKeyed(text, section, key, rendered), section, key) == Some(Strip(rendered))
            <==> Blank(rendered[|FirstLine(rendered)|..])
  {
    KeyedReadBack(text, section, key, rendered);
    StripFirstLine(rendered);
  }

  // -------------------------------------------------------------------- frame

  lemma ReadersSplit(pre: seq<string>, mid: seq<string>, post: seq<string>, section: string, prefixes: string,
                     key: string)
    ensures var w := State(pre, section, false);
            Values(pre + mid + post, section, prefixes, key, false) ==
            Values(pre, section, prefixes, key, false) + Values(mid, section, prefixes, key, w)
            + Values(post, section, prefixes, key, State(mid, section, w))
  {
    hide Values, State;
    ValuesConcat(pre + mid, post, section, prefixes, key, false);
    ValuesConcat(pre, mid, section, prefixes, key, false);
    StateConcat(pre, mid, section, false);
  }

  lemma ValuesOne(l: string, section: string, prefixes: string, key: string, within: bool)
    ensures Values([l], section, prefixes, key, within) == ValueAt(l, section, prefixes, key, within)
    ensures State([l], section, within) == Next(l, section, within)
  {
    hide ValueAt, Target, Header;
    assert [l][1..] == [];
  }

  /** The reader sees the same with the silent lines between as without them. */
  lemma SilentBetween(pre: seq<string>, mid: seq<string>, post: seq<string>, section2: string, prefixes: string,
                      key2: string)
    requires var w := State(pre, section2, false);
             Values(mid, section2, prefixes, key2, w) == [] && State(mid, section2, w) == w
    ensures Values(pre + mid + post, section2, prefixes, key2, false) ==
            Values(pre + post, section2, prefixes, key2, false)
  {
    hide Values, State;
    ReadersSplit(pre, mid, post, section2, prefixes, key2);
    ValuesConcat(pre, post, section2, prefixes, key2, false);
  }

  /** Setting silent lines hides nothing from a reader of another section or key. */
  lemma SetFrame(ls: seq<string>, section: string, m: Match, entry: seq<string>,
                 section2: string, prefixes: string, key2: string)
    requires ValidKey(m.key) && ValidSection(section) && ValidKey(key2) && ValidSection(section2)
    requires !(SameText(section, section2) && SameText(m.key, key2)) && (prefixes == "" || prefixes == "+.")
    requires var w := SameText(section, section2);
             Values(entry, section2, prefixes, key2, w) == [] && State(entry, section2, w) == w
    ensures Values(SetLines(ls, section, m, entry), section2, prefixes, key2, false) ==
            Values(ls, section2, prefixes, key2, false)
  {
    hide Hits, Header, Target, Blank, Close, ValueAt, Find, Values, Scan, State, ValidKey, ValidSection, SameText,
        HeaderLines;
    assert ls[..0] == [];
    ScanNothing(section, m);
    FindPlaced(ls, section, m, 0, false);
    var p := Find(ls, section, m, 0, false);
    var pre := Before(ls, section, p);
    if p.Replace? {
      CurrentToBoth(pre, section, m, section2);
      SilentBetween(pre, entry, ls[p.at + 1..], section2, prefixes, key2);
      SilentAfter(pre, ls[p.at], section, m, section2, prefixes, key2);
      SilentBetween(pre, [ls[p.at]], ls[p.at + 1..], section2, prefixes, key2);
      assert ls == ls[..p.at] + [ls[p.at]] + ls[p.at + 1..];
    } else if p.Insert? && p.at < |ls| {
      CurrentToBoth(pre, section, m, section2);
      SilentBetween(pre, entry, ls[p.at..], section2, prefixes, key2);
      assert ls == ls[..p.at] + ls[p.at..];
    } else {
      LastFrame(ls, section, m, p, section2, prefixes, key2);
      CurrentToBoth(pre, section, m, section2);
      SilentBetween(pre, entry, [], section2, prefixes, key2);
      assert pre + entry + [] == pre + entry && pre + [] == pre;
    }
  }

  /** Where a section is current, another is current exactly when it is the same one. */
  lemma CurrentToBoth(pre: seq<string>, section: string, m: Match, section2: string)
    requires ValidSection(section) && ValidSection(section2) && Scan(pre, section, m, false) == Some(true)
    ensures State(pre, section2, false) == SameText(section, section2)
  {
    hide Scan, ValidSection;
    ScanState(pre, section, m, false);
    OneCurrent(pre, section, section2, false, false);
    if SameText(section, section2) { SameState(pre, section, section2, false); }
  }

  lemma {:induction false} SameState(ls: seq<string>, a: string, b: string, within: bool)
    requires SameText(a, b)
    ensures State(ls, a, within) == State(ls, b, within)
    decreases ls
  {
    if ls != [] {
      SameTarget(ls[0], a, b);
      hide Target, Header, SameText;
      SameState(ls[1..], a, b, Next(ls[0], a, within));
    }
  }

  lemma SameTarget(l: string, a: string, b: string)
    requires SameText(a, b)
    ensures Target(l, a) == Target(l, b)
  {
    hide Strip;
    var x, y := "[" + a + "]", "[" + b + "]";
    assert |x| == |y| && forall k | 0 <= k < |x| :: Lower(x[k]) == Lower(y[k]);
  }

  lemma ScanNothing(section: string, m: Match)
    ensures Scan([], section, m, false) == Some(false)
  {
  }

  /** Ending the last line, and a new section header, are silent to the other reader. */
  lemma LastFrame(ls: seq<string>, section: string, m: Match, p: Place, section2: string, prefixes: string,
                  key2: string)
    requires ValidKey(m.key) && ValidSection(section) && ValidKey(key2) && (prefixes == "" || prefixes == "+.")
    requires Placed(ls, section, m, p) && (p.Absent? || p == Insert(|ls|))
    ensures var pre := Before(ls, section, p);
            && Scan(pre, section, m, false) == Some(true)
            && Values(pre, section2, prefixes, key2, false) == Values(ls, section2, prefixes, key2, false)
  {
    hide Scan, Values, Close, ValidKey, ValidSection, HeaderLines;
    if p.Absent? {
      ScanNewSection(ls, section, m);
      NewSectionSilent(ls, section, section2, prefixes, key2);
    } else {
      assert ls[..|ls|] == ls;
      ScanClose(ls, section, m);
      CloseInert(ls, section2, prefixes, key2);
    }
  }

  /** A line the writer owns, where its section is current, is silent to the other reader. */
  lemma SilentAfter(pre: seq<string>, l: string, section: string, m: Match, section2: string, prefixes: string,
                    key2: string)
    requires ValidKey(m.key) && ValidSection(section) && ValidKey(key2) && ValidSection(section2)
    requires !(SameText(section, section2) && SameText(m.key, key2)) && (prefixes == "" || prefixes == "+.")
    requires Hits(m, l) && !Header(l) && Scan(pre, section, m, false) == Some(true)
    ensures var w := State(pre, section2, false);
            Values([l], section2, prefixes, key2, w) == [] && State([l], section2, w) == w
  {
    hide Hits, Header, Target, ValueAt;
    var w := State(pre, section2, false);
    ScanState(pre, section, m, false);
    OneCurrent(pre, section, section2, false, false);
    OwnedIsSilent(l, m, section2, prefixes, key2, w);
    ValuesOne(l, section2, prefixes, key2, w);
  }

  lemma NewSectionSilent(ls: seq<string>, section: string, section2: string, prefixes: string, key2: string)
    requires ValidSection(section) && ValidKey(key2) && '\n' !in prefixes
    ensures Values(Close(ls) + HeaderLines(section), section2, prefixes, key2, false) ==
            Values(ls, section2, prefixes, key2, false)
  {
    var header := "[" + section + "]\n";
    var w := State(Close(ls), section2, false);
    BlankIsSilent("\n", prefixes, key2);
    BlankIsPlain("\n", section2, Key(key2));
    HeaderLine(section);
    TargetIsHeader(header, section);
    hide Header, Target, Close, ValueOf, Hits;
    assert HeaderLines(section) == ["\n"] + [header];
    CloseInert(ls, section2, prefixes, key2);
    ValuesConcat(Close(ls), HeaderLines(section), section2, prefixes, key2, false);
    ValuesConcat(["\n"], [header], section2, prefixes, key2, w);
    ValuesOne("\n", section2, prefixes, key2, w);
    ValuesOne(header, section2, prefixes, key2, State(["\n"], section2, w));
  }

  /** What the lines of a value past its first say to a reader of another setting: nothing,
      and they leave the section they stand in. */
  predicate Inert(section: string, key: string, rendered: string, section2: string, key2: string) {
    var tail, w := SplitKeep(Entry(key, rendered))[1..], SameText(section, section2);
    && Values(tail, section2, "", key2, w) == []
    && Values(tail, section2, "+.", key2, w) == []
    && State(tail, section2, w) == w
  }

  /** The other setting reads as before, as a plain key and as an array key. */
  predicate ReadsAsBefore(text: string, after: string, section2: string, key2: string) {
    && ReadKeyed(after, section2, key2) == ReadKeyed(text, section2, key2)
    && ReadRepeated(after, section2, key2) == ReadRepeated(text, section2, key2)
  }

  /** The entry's own line is silent to the other reader, so the entry says what its tail says. */
  lemma EntryReads(section: string, key: string, rendered: string, section2: string, prefixes: string, key2: string)
    requires ValidKey(key) && ValidSection(section) && ValidKey(key2) && ValidSection(section2)
    requires !(SameText(section, section2) && SameText(key, key2)) && (prefixes == "" || prefixes == "+.")
    ensures var entry, w := SplitKeep(Entry(key, rendered)), SameText(section, section2);
            && Values(entry, section2, prefixes, key2, w) == Values(entry[1..], section2, prefixes, key2, w)
            && State(entry, section2, w) == State(entry[1..], section2, w)
  {
    var entry, w := SplitKeep(Entry(key, rendered)), SameText(section, section2);
    EntryLines(key, rendered);
    BareEntry(key, FirstLine(rendered) + "\n", section);
    hide SplitKeep, Entry, Values, State, ValidKey, ValidSection, Hits, Header, SameText, ValueAt, Next;
    OwnedIsSilent(entry[0], Key(key), section2, prefixes, key2, w);
    ValuesOne(entry[0], section2, prefixes, key2, w);
    assert entry == [entry[0]] + entry[1..];
    ValuesConcat([entry[0]], entry[1..], section2, prefixes, key2, w);
    StateConcat([entry[0]], entry[1..], section2, w);
  }

  /** After a value is set whose further lines are inert, every other key and every other
      section read as before. */
  lemma KeyedFrame(text: string, section: string, key: string, rendered: string, section2: string, key2: string)
    requires ValidKey(key) && ValidSection(section) && ValidKey(key2) && ValidSection(section2)
    requires !(SameText(section, section2) && SameText(key, key2)) && Inert(section, key, rendered, section2, key2)
    ensures ReadsAsBefore(text, UpsertKeyed(text, section, key, rendered), section2, key2)
  {
    var pre, post := KeyedLinesOf(text, section, key, rendered);
    EntryReads(section, key, rendered, section2, "", key2);
    EntryReads(section, key, rendered, section2, "+.", key2);
    hide SetLines, Hits, Header, Target, Values, State, SplitKeep, Scan, ValidKey, Entry, SameText;
    var ls, entry := SplitKeep(text), SplitKeep(Entry(key, rendered));
    SetFrame(ls, section, Key(key), entry, section2, "", key2);
    SetFrame(ls, section, Key(key), entry, section2, "+.", key2);
    SameReadings(UpsertKeyed(text, section, key, rendered), text, section2, key2);
  }

  /** The lines of a one-line value are inert to everyone. */
  lemma OneLineIsInert(section: string, key: string, rendered: string, section2: string, key2: string)
    requires ValidKey(key) && '\n' !in rendered
    ensures Inert(section, key, rendered, section2, key2)
  {
    EntryLines(key, rendered);
    hide SplitKeep;
    assert SplitKeep(Entry(key, rendered))[1..] == [];
  }

  /** So a one-line value never touches another setting. */
  lemma OneLineFrame(text: string, section: string, key: string, rendered: string, section2: string, key2: string)
    requires ValidKey(key) && ValidSection(section) && ValidKey(key2) && ValidSection(section2)
    requires !(SameText(section, section2) && SameText(key, key2)) && '\n' !in rendered
    ensures ReadsAsBefore(text, UpsertKeyed(text, section, key, rendered), section2, key2)
  {
    hide Inert, ReadsAsBefore, UpsertKeyed, ValidKey, ValidSection, SameText;
    OneLineIsInert(section, key, rendered, section2, key2);
    KeyedFrame(text, section, key, rendered, section2, key2);
  }

  /** What is written into an empty text. */
  lemma WrittenAlone(section: string, key: string, rendered: string)
    requires ValidKey(key) && ValidSection(section)
    ensures SplitKeep(UpsertKeyed("", section, key, rendered)) == HeaderLines(section) + SplitKeep(Entry(key, rendered))
  {
    var pre, post := KeyedLinesOf("", section, key, rendered);
    SplitNothing();
    hide SplitKeep, Entry, HeaderLines, ValidKey, ValidSection;
    var entry := SplitKeep(Entry(key, rendered));
    assert SetLines([], section, Key(key), entry) == HeaderLines(section) + entry;
  }

  /** A further line that holds a value for the other reader is read in an empty text. */
  lemma TailIsRead(section: string, key: string, rendered: string, section2: string, prefixes: string, key2: string)
    requires ValidKey(key) && ValidSection(section) && ValidKey(key2) && ValidSection(section2)
    requires !(SameText(section, section2) && SameText(key, key2)) && (prefixes == "" || prefixes == "+.")
    ensures var tail := SplitKeep(Entry(key, rendered))[1..];
            Values(Split(UpsertKeyed("", section, key, rendered)), section2, prefixes, key2, false)
            == Values(tail, section2, prefixes, key2, SameText(section, section2))
    ensures Split("") == [] && Values([], section2, prefixes, key2, false) == []
  {
    hide SplitKeep, Entry, HeaderLines, ValidKey, ValidSection, SameText, State, Header, Target, ValueOf, UpsertKeyed;
    var entry, m := SplitKeep(Entry(key, rendered)), Key(key);
    WrittenAlone(section, key, rendered);
    EntryReads(section, key, rendered, section2, prefixes, key2);
    SplitNothing();
    var after := HeaderLines(section) + entry;
    ValuesChomp(after, section2, prefixes, key2, false);
    NewSectionSilent([], section, section2, prefixes, key2);
    ScanNothing(section, m);
    ScanNewSection([], section, m);
    assert Close([]) + HeaderLines(section) == HeaderLines(section);
    CurrentToBoth(HeaderLines(section), section, m, section2);
    ValuesConcat(HeaderLines(section), entry, section2, prefixes, key2, false);
  }

  /** The section, the key with nothing behind it, and the other key. */
  function Neighbours(section: string, key: string, key2: string): seq<string> {
    ["[" + section + "]\n", Entry(key, ""), Entry(key2, "x")]
  }

  lemma NeighboursAreLines(section: string, key: string, key2: string)
    requires ValidKey(key) && ValidSection(section) && ValidKey(key2)
    ensures var ls := Neighbours(section, key, key2);
            AreLines(ls) && AreLines([ls[0]]) && AreLines([ls[2]]) && Ended(ls[0])
  {
    var ls := Neighbours(section, key, key2);
    HeaderIsLine(section);
    EntryIsLine(key, "");
    EntryIsLine(key2, "x");
    hide IsLine, Ended, ValidKey, ValidSection, Entry;
    assert HeaderLines(section)[1] == ls[0];
    EntryIs(key, "");
    EntryIs(key2, "x");
    assert ls[1] == Entry(key, "") && ls[2] == Entry(key2, "x") && |ls| == 3;
    forall i | 0 <= i < |ls| ensures IsLine(ls[i]) && Ended(ls[i]) { assert i == 0 || i == 1 || i == 2; }
  }

  lemma NeighboursSay(section: string, key: string, key2: string)
    requires ValidKey(key) && ValidSection(section) && ValidKey(key2)
    ensures var ls := Neighbours(section, key, key2);
            && Target(ls[0], section) && Header(ls[0])
            && Hits(Key(key), ls[1]) && !Header(ls[1]) && !Target(ls[1], section)
            && !Header(ls[2]) && ValueOf(ls[2], "", key2) == Some("x")
  {
    hide Header, Target, Hits, ValueOf, Strip, ValidKey, ValidSection, Entry;
    HeaderLine(section);
    TargetIsHeader("[" + section + "]\n", section);
    BareEntry(key, "\n", section);
    BareEntry(key2, "x\n", section);
    StripX();
    EntryIs(key, "");
    EntryIs(key2, "x");
    assert "" + "\n" == "\n" && "x" + "\n" == "x\n";
  }

  lemma EntryIs(key: string, v: string)
    ensures Entry(key, v) == key + "=" + (v + "\n")
  {
  }

  lemma StripX()
    ensures Strip("x\n") == "x"
  {
    StripEnd("x", "\n");
    RTrimUnique("x", 1);
    assert "x"[0..] == "x";
  }

  /** Before and after the write, the other key is read where its section is current. */
  lemma NeighbourReads(section: string, key: string, rendered: string, section2: string, key2: string)
    requires ValidKey(key) && ValidSection(section) && ValidKey(key2) && ValidSection(section2)
    requires !(SameText(section, section2) && SameText(key, key2))
    ensures var text, tail, w := Join(Neighbours(section, key, key2)), SplitKeep(Entry(key, rendered))[1..],
            SameText(section, section2);
            && Values(Split(text), section2, "", key2, false) == (if w then ["x"] else [])
            && (Values(tail, section2, "", key2, w) == [] ==>
                  Values(Split(UpsertKeyed(text, section, key, rendered)), section2, "", key2, false)
                  == if State(tail, section2, w) then ["x"] else [])
  {
    var ls, m, w := Neighbours(section, key, key2), Key(key), SameText(section, section2);
    var entry := SplitKeep(Entry(key, rendered));
    var pre, post, own := [ls[0]], [ls[2]], [ls[1]];
    NeighboursAreLines(section, key, key2);
    NeighboursSay(section, key, key2);
    NeighbourPlace(section, key, key2);
    EntryReads(section, key, rendered, section2, "", key2);
    EntryLines(key, rendered);
    SplitJoin(ls);
    hide SplitKeep, Entry, ValidKey, ValidSection, SameText, State, Header, Target, ValueOf, Hits, Neighbours, Join,
        Values, Scan,
         AreLines, Find, ChompAll, IsLine, Ended;
    assert SetLines(ls, section, m, entry) == pre + entry + post;
    ShapeIsLines(pre, entry, post);
    SplitJoin(pre + entry + post);
    CurrentToBoth(pre, section, m, section2);
    SilentAfter(pre, ls[1], section, m, section2, "", key2);
    AroundReads(pre[0], entry, post[0], section, m, section2, key2);
    AroundReads(pre[0], own, post[0], section, m, section2, key2);
    ValuesChomp(ls, section2, "", key2, false);
    ValuesChomp(pre + entry + post, section2, "", key2, false);
  }

  lemma AroundReads(header: string, mid: seq<string>, last: string, section: string, m: Match, section2: string,
                    key2: string)
    requires ValidSection(section) && ValidSection(section2) && Header(header) && Scan([header], section, m, false) ==
             Some(true)
    requires !Header(last) && ValueOf(last, "", key2).Some?
    ensures var w := SameText(section, section2);
            Values([header] + mid + [last], section2, "", key2, false) ==
            Values(mid, section2, "", key2, w) + if State(mid, section2, w) then [ValueOf(last, "", key2).value] else []
  {
    hide SameText, State, Header, ValueOf, Values, Scan, ValidSection;
    HeaderSilent(header, section2, key2);
    CurrentToBoth([header], section, m, section2);
    ReadersSplit([header], mid, [last], section2, "", key2);
    LastRead(last, section2, key2);
  }

  lemma LastRead(l: string, section: string, key: string)
    requires ValidSection(section) && !Header(l) && ValueOf(l, "", key).Some?
    ensures forall w :: Values([l], section, "", key, w) == if w then [ValueOf(l, "", key).value] else []
  {
    hide Header, ValueOf;
    if Target(l, section) { TargetIsHeader(l, section); }
    forall w ensures Values([l], section, "", key, w) == if w then [ValueOf(l, "", key).value] else [] {
      ValuesOne(l, section, "", key, w);
    }
  }

  lemma HeaderSilent(l: string, section2: string, key2: string)
    requires Header(l)
    ensures Values([l], section2, "", key2, false) == []
  {
    ValuesOne(l, section2, "", key2, false);
  }

  lemma NeighbourPlace(section: string, key: string, key2: string)
    requires ValidKey(key) && ValidSection(section) && ValidKey(key2)
    ensures var ls := Neighbours(section, key, key2);
            && Scan([ls[0]], section, Key(key), false) == Some(true)
            && Find(ls, section, Key(key), 0, false) == Replace(1)
            && ls[..1] == [ls[0]] && ls[2..] == [ls[2]] && ls == [ls[0]] + [ls[1]] + [ls[2]]
  {
    NeighboursSay(section, key, key2);
    hide Header, Target, Hits, Entry, ValidKey, ValidSection, ValueOf;
    var ls := Neighbours(section, key, key2);
    ScanOne(ls[0], section, Key(key), false);
    FoundAt(ls, section, Key(key), 1);
    Three(ls);
    hide Neighbours;
  }

  lemma Three(ls: seq<string>)
    requires |ls| == 3
    ensures ls[..1] == [ls[0]] && ls[2..] == [ls[2]] && ls == [ls[0]] + [ls[1]] + [ls[2]]
  {
  }

  /** Whatever the text, another setting reads as before the write exactly when the lines
      of the value past its first hold no value for its readers and leave its section
      as current, or not, as it was. */
  lemma KeyedFrameIff(section: string, key: string, rendered: string, section2: string, key2: string)
    requires ValidKey(key) && ValidSection(section) && ValidKey(key2) && ValidSection(section2)
    requires !(SameText(section, section2) && SameText(key, key2))
    ensures (forall text :: ReadsAsBefore(text, UpsertKeyed(text, section, key, rendered), section2, key2))
            <==> Inert(section, key, rendered, section2, key2)
  {
    var tail, w := SplitKeep(Entry(key, rendered))[1..], SameText(section, section2);
    hide SplitKeep, Entry, ValidKey, ValidSection, SameText, State, Values, UpsertKeyed, Neighbours;
    if Inert(section, key, rendered, section2, key2) {
      forall text ensures ReadsAsBefore(text, UpsertKeyed(text, section, key, rendered), section2, key2) {
        KeyedFrame(text, section, key, rendered, section2, key2);
      }
    } else {
      TailIsRead(section, key, rendered, section2, "", key2);
      TailIsRead(section, key, rendered, section2, "+.", key2);
      NeighbourReads(section, key, rendered, section2, key2);
      var text := Join(Neighbours(section, key, key2));
      assert !ReadsAsBefore("", UpsertKeyed("", section, key, rendered), section2, key2)
          || !ReadsAsBefore(text, UpsertKeyed(text, section, key, rendered), section2, key2);
    }
  }

  lemma SameReadings(a: string, b: string, section: string, key: string)
    requires ValidKey(key)
    requires forall prefixes | prefixes == "" || prefixes == "+." ::
      Values(SplitKeep(a), section, prefixes, key, false) == Values(SplitKeep(b), section, prefixes, key, false)
    ensures ReadKeyed(a, section, key) == ReadKeyed(b, section, key)
    ensures ReadRepeated(a, section, key) == ReadRepeated(b, section, key)
  {
    hide Values, SplitKeep, ValidKey;
    ValuesChomp(SplitKeep(a), section, "", key, false);
    ValuesChomp(SplitKeep(a), section, "+.", key, false);
    ValuesChomp(SplitKeep(b), section, "", key, false);
    ValuesChomp(SplitKeep(b), section, "+.", key, false);
  }

  // -------------------------------------------------------------- idempotence

  /** Setting the entry again replaces its first line. */
  lemma SetAgain(pre: seq<string>, post: seq<string>, section: string, m: Match, entry: seq<string>)
    requires ValidKey(m.key) && Scan(pre, section, m, false) == Some(true) && entry != []
    requires Hits(m, entry[0]) && !Header(entry[0]) && !Target(entry[0], section)
    ensures SetLines(pre + entry + post, section, m, entry) == pre + entry + (entry[1..] + post)
  {
    hide Hits, Header, Target, Blank, Find, Scan, Close, HeaderLines;
    var ls, p := pre + entry + post, |pre|;
    assert ls == pre + (entry + post) && (entry + post)[0] == entry[0];
    FindsHit(pre, entry + post, section, m);
    assert ls[..p] == pre && ls[p + 1..] == entry[1..] + post;
  }

  /** Setting the same value twice is setting it once, exactly when the value is one line. */
  lemma KeyedIdempotentIff(text: string, section: string, key: string, rendered: string)
    requires ValidKey(key) && ValidSection(section)
    ensures var once := UpsertKeyed(text, section, key, rendered);
            UpsertKeyed(once, section, key, rendered) == once <==> '\n' !in rendered
  {
    var entry := SplitKeep(Entry(key, rendered));
    var pre, post := KeyedLinesOf(text, section, key, rendered);
    EntryLines(key, rendered);
    var rest := FirstLine(rendered) + "\n";
    BareEntry(key, rest, section);
    hide SetLines, Hits, Header, Target, SplitKeep, FirstLine;
    SetAgain(pre, post, section, Key(key), entry);
    WrittenLonger(pre, entry, post);
  }

  /** Lines left behind by a value that spans lines make the text longer. */
  lemma WrittenLonger(pre: seq<string>, entry: seq<string>, post: seq<string>)
    requires entry != [] && forall l | l in entry :: l != ""
    ensures Join(pre + entry + (entry[1..] + post)) == Join(pre + entry + post) <==> |entry| == 1
  {
    if |entry| == 1 {
      assert entry[1..] + post == post;
    } else {
      JoinThree(pre, entry, entry[1..] + post);
      JoinThree(pre, entry, post);
      JoinConcat(entry[1..], post);
      assert entry[1] in entry;
    }
  }

  /** A value that spans lines can set another key: a value pasted with a line break in
      it leaves a second setting behind, where there was none. */
  lemma MultiLineValueLeaks(section: string, key: string, other: string, v: string, w: string)
    requires ValidSection(section) && ValidKey(key) && ValidKey(other) && !SameText(key, other)
    requires '\n' !in v && '\n' !in w
    ensures ReadKeyed("", section, other) == None
    ensures ReadKeyed(UpsertKeyed("", section, key, v + "\n" + other + "=" + w), section, other) == Some(Strip(w))
  {
    var rendered := v + "\n" + other + "=" + w;
    var pre, post := KeyedLinesOf("", section, key, rendered);
    LeakLines(key, other, v, w);
    LeakReads(section, key, other, v, w);
    hide SplitKeep, Values, ValidKey, Entry, HeaderLines, ValidSection;
    var first, second := key + "=" + (v + "\n"), other + "=" + (w + "\n");
    var ls := HeaderLines(section) + [first] + [second];
    assert SetLines([], section, Key(key), [first, second]) == ls;
    ValuesChomp(ls, section, "", other, false);
  }

  lemma LeakReads(section: string, key: string, other: string, v: string, w: string)
    requires ValidSection(section) && ValidKey(key) && ValidKey(other) && !SameText(key, other)
    ensures var first, second := key + "=" + (v + "\n"), other + "=" + (w + "\n");
            First(Values(HeaderLines(section) + [first] + [second], section, "", other, false)) == Some(Strip(w))
    ensures SplitKeep("") == [] && Values([], section, "", other, false) == []
  {
    hide Hits, Header, Target, ValueOf, Strip, HeaderLines, ValidKey, ValidSection, SameText;
    var m := Key(key);
    var first, second := key + "=" + (v + "\n"), other + "=" + (w + "\n");
    BareEntry(key, v + "\n", section);
    BareEntry(other, w + "\n", section);
    StripEnd(w, "\n");
    ScanNothing(section, m);
    ScanNewSection([], section, m);
    assert Close([]) + HeaderLines(section) == HeaderLines(section);
    ScanState(HeaderLines(section), section, m, false);
    NewSectionSilent([], section, section, "", other);
    OwnedIsSilent(first, m, section, "", other, true);
    ReadsSecond(HeaderLines(section), first, second, section, other);
  }

  lemma ReadsSecond(pre: seq<string>, first: string, second: string, section: string, key: string)
    requires Values(pre, section, "", key, false) == [] && State(pre, section, false)
    requires ValueAt(first, section, "", key, true) == [] && Next(first, section, true)
    requires !Header(second) && !Target(second, section) && ValueOf(second, "", key).Some?
    ensures First(Values(pre + [first] + [second], section, "", key, false)) == ValueOf(second, "", key)
  {
    hide Values, State, ValueOf, ValueAt, Next, Header, Target;
    ValuesOne(first, section, "", key, true);
    ValuesConcat(pre, [first], section, "", key, false);
    StateConcat(pre, [first], section, false);
    FirstRead(pre + [first], [second], [], section, "", key);
    assert pre + [first] + [second] + [] == pre + [first] + [second];
  }

  lemma LeakLines(key: string, other: string, v: string, w: string)
    requires ValidKey(key) && ValidKey(other) && '\n' !in v && '\n' !in w
    ensures SplitKeep(Entry(key, v + "\n" + other + "=" + w)) == [key + "=" + (v + "\n"), other + "=" + (w + "\n")]
  {
    var first, second := key + "=" + (v + "\n"), other + "=" + (w + "\n");
    assert Entry(key, v + "\n" + other + "=" + w) == first + second;
    EntryIsLine(key, v);
    EntryIsLine(other, w);
    hide SplitKeep, IsLine, ValidKey;
    SplitHead(first, second);
    SplitHead(second, "");
    assert second + "" == second;
    SplitNothing();
  }

  lemma SplitNothing()
    ensures SplitKeep("") == []
  {
  }

  lemma EntryIsLine(key: string, v: string)
    requires ValidKey(key) && '\n' !in v
    ensures var l := key + "=" + (v + "\n"); IsLine(l) && Ended(l)
  {
    var l := key + "=" + (v + "\n");
    forall i | 0 <= i < |l| - 1 ensures l[i] != '\n' {
      assert i < |key| ==> l[i] == key[i] && key[i] in key;
      assert |key| < i ==> l[i] == v[i - |key| - 1] && v[i - |key| - 1] in v;
    }
  }
}
