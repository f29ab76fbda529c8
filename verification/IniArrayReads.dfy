/** When an array reads back as written: exactly when every value is blank past its first
    line. A value that spans lines says less to the reader than it is long. */
module IniArrayReads {
  import opened Wrappers
  import opened Lines
  import opened Ascii
  import opened IniSyntax
  import opened IniMerge
  import opened IniScan
  import opened IniLaws
  import opened IniArrayLaws

  // ------------------------------------------------------- how long strip() leaves

  /** strip() keeps everything from one visible character to another. */
  lemma StripSpan(r: string, i: nat, n: nat)
    requires i < n <= |r| && !IsSpace(r[i]) && !IsSpace(r[n - 1])
    ensures |Strip(r)| >= n - i
  {
    StripReaches(r, i);
    StripReaches(r, n - 1);
  }

  lemma StripEnds(r: string) returns (i: nat, n: nat)
    ensures i <= n <= |r| && |Strip(r)| == n - i
    ensures i < n ==> !IsSpace(r[i]) && !IsSpace(r[n - 1])
  {
    i := SpaceEnd(r, 0);
    n := i + |Strip(r)|;
    assert Strip(r) == r[i..][..|Strip(r)|];
  }

  lemma StripSum(a: string, b: string)
    ensures |Strip(a + b)| >= |Strip(a)| + |Strip(b)|
  {
    hide Strip, IsSpace;
    var i, n := StripEnds(a);
    var j, m := StripEnds(b);
    var r := a + b;
    if i < n && j < m {
      assert r[i] == a[i] && r[|a| + m - 1] == b[m - 1];
      StripSpan(r, i, |a| + m);
    } else if i < n {
      assert r[i] == a[i] && r[n - 1] == a[n - 1];
      StripSpan(r, i, n);
    } else if j < m {
      assert r[|a| + j] == b[j] && r[|a| + m - 1] == b[m - 1];
      StripSpan(r, |a| + j, |a| + m);
    }
  }

  lemma BlankIsEmpty(r: string)
    ensures Strip(r) == "" <==> Blank(r)
  {
    if Blank(r) {
      StripBlank(r);
    } else {
      var k :| 0 <= k < |r| && !IsSpace(r[k]);
      StripSpan(r, k, k + 1);
    }
  }

  // ------------------------------------------------------------- weight of values

  /** The length of the values, each with its comma. */
  function Weight(values: seq<string>): nat { if values == [] then 0 else |values[0]| + 1 + Weight(values[1..]) }

  lemma {:induction false} WeightConcat(a: seq<string>, b: seq<string>)
    ensures Weight(a + b) == Weight(a) + Weight(b)
    decreases a
  {
    if a == [] {
      assert a + b == b;
    } else {
      assert (a + b)[1..] == a[1..] + b;
      WeightConcat(a[1..], b);
    }
  }

  lemma {:induction false} CommaLength(values: seq<string>)
    requires values != []
    ensures |Comma(values)| == Weight(values) - 1
    decreases values
  {
    if |values| > 1 { CommaLength(values[1..]); }
  }

  /** What a line says is shorter than the line. */
  lemma LineWeight(l: string, section: string, key: string, within: bool)
    requires ValidKey(key)
    ensures Weight(ValueAt(l, section, "+.", key, within)) <= |Strip(l)|
    ensures Strip(l) != "" ==> Weight(ValueAt(l, section, "+.", key, within)) < |Strip(l)|
  {
    var e := AfterPrefixed(l, "+.", key);
    if e.Some? {
      var j := KeyBounds(l, key);
      hide Strip, IsSpace, AfterPrefixed, ValidKey, Target, Header;
      var a, b := l[..e.value], l[e.value..];
      assert l == a + b && a[j] == l[j] && a[e.value - 1] == l[e.value - 1];
      StripSpan(a, j, e.value);
      StripSum(a, b);
      WeightOne(Strip(b));
    }
  }

  /** The key and the equals sign: two visible characters before the value. */
  lemma KeyBounds(l: string, key: string) returns (j: nat)
    requires ValidKey(key) && AfterPrefixed(l, "+.", key).Some?
    ensures var e := AfterPrefixed(l, "+.", key).value;
            j + 2 <= e <= |l| && !IsSpace(l[j]) && !IsSpace(l[e - 1])
  {
    var i, e := SpaceEnd(l, 0), AfterPrefixed(l, "+.", key).value;
    j := if AfterKey(l, i, key).Some? then i else i + 1;
    KeyStart(l, j, key);
    assert l[e - 1] == '=';
  }

  lemma WeightOne(v: string)
    ensures Weight([v]) == |v| + 1
  {
    assert [v][1..] == [];
  }

  /** So is what the lines of a text say. */
  lemma {:induction false} TextWeight(t: string, section: string, key: string, within: bool)
    requires ValidKey(key)
    ensures Weight(Values(SplitKeep(t), section, "+.", key, within)) <= |Strip(t)|
    ensures Strip(t) != "" ==> Weight(Values(SplitKeep(t), section, "+.", key, within)) < |Strip(t)|
    decreases |t|
  {
    if t != "" {
      hide Strip, ValueAt, Next, LineEnd, ValidKey;
      var n := LineEnd(t);
      var l, rest := t[..n], t[n..];
      assert t == l + rest && SplitKeep(t) == [l] + SplitKeep(rest);
      assert ([l] + SplitKeep(rest))[1..] == SplitKeep(rest);
      var next := Next(l, section, within);
      LineWeight(l, section, key, within);
      TextWeight(rest, section, key, next);
      StripSum(l, rest);
      WeightConcat(ValueAt(l, section, "+.", key, within), Values(SplitKeep(rest), section, "+.", key, next));
      NothingVisible(l, rest);
    }
  }

  lemma NothingVisible(a: string, b: string)
    ensures Strip(a) == "" && Strip(b) == "" ==> Strip(a + b) == ""
  {
    BlankIsEmpty(a);
    BlankIsEmpty(b);
    BlankIsEmpty(a + b);
  }

  /** Blank lines leave the section as it is. */
  lemma {:induction false} BlankState(t: string, section: string, key: string, within: bool)
    requires ValidKey(key) && Blank(t)
    ensures State(SplitKeep(t), section, within) == within
    decreases |t|
  {
    if t != "" {
      var n := LineEnd(t);
      BlankIsPlain(t[..n], section, Key(key));
      hide Header, Target, Hits;
      assert SplitKeep(t) == [t[..n]] + SplitKeep(t[n..]);
      BlankState(t[n..], section, key, within);
    }
  }

  // ------------------------------------------------------------- one value written

  /** What stands past the first line of a written value. */
  function Past(v: string): string { if |FirstLine(v)| == |v| then "" else v[|FirstLine(v)| + 1..] + "\n" }

  predicate OneLineOnly(v: string) { Blank(v[|FirstLine(v)|..]) }

  lemma PlusSplit(key: string, v: string)
    requires ValidKey(key)
    ensures var first := "+" + (key + "=" + (FirstLine(v) + "\n"));
            && IsLine(first) && Ended(first) && "+" + Entry(key, v) == first + Past(v)
            && SplitKeep("+" + Entry(key, v)) == [first] + SplitKeep(Past(v))
  {
    var u := FirstLine(v);
    EntryIsLine(key, u);
    PlusIsLine(key + "=" + (u + "\n"));
    var first := "+" + (key + "=" + (u + "\n"));
    hide IsLine, Ended, ValidKey;
    assert "+" + Entry(key, v) == first + Past(v);
    SplitHead(first, Past(v));
  }

  lemma PastWeighs(v: string)
    ensures OneLineOnly(v) <==> Blank(Past(v))
    ensures OneLineOnly(v) ==> Strip(FirstLine(v)) == Strip(v)
    ensures Strip(v) != "" || OneLineOnly(v)
    ensures !OneLineOnly(v) ==> |Strip(v)| >= |Strip(FirstLine(v))| + |Strip(Past(v))|
  {
    hide Strip, Blank;
    var u, past := FirstLine(v), Past(v);
    StripFirstLine(v);
    NewlineIsBlank();
    if |u| == |v| {
      assert v[|u|..] == "" && u == v;
    } else {
      var rest := v[|u| + 1..];
      assert v[|u|..] == "\n" + rest && v == u + "\n" + rest && past == rest + "\n";
      BlankParts("\n", rest);
      BlankParts(rest, "\n");
      StripEnd(rest, "\n");
      StripSum(u + "\n", rest);
      StripEnd(u, "\n");
      BlankIsEmpty(v);
      BlankParts(u + "\n", rest);
    }
  }

  lemma NewlineIsBlank()
    ensures Blank("\n") && Blank("")
  {
  }

  lemma BlankParts(a: string, b: string)
    ensures Blank(a + b) <==> Blank(a) && Blank(b)
  {
    var r := a + b;
    if Blank(r) {
      forall k | 0 <= k < |a| ensures IsSpace(a[k]) { assert r[k] == a[k]; }
      forall k | 0 <= k < |b| ensures IsSpace(b[k]) { assert r[|a| + k] == b[k]; }
    }
  }

  /** A written value reads as itself, or as less. */
  lemma ValueReads(key: string, v: string, section: string, within: bool)
    requires ValidKey(key)
    ensures var ls := SplitKeep("+" + Entry(key, v)); var read := Values(ls, section, "+.", key, within);
            if within && OneLineOnly(v) then read == [Strip(v)] && State(ls, section, within)
            else Weight(read) <= |Strip(v)|
  {
    hide Strip, ValueOf, Header, Target, ValidKey, SplitKeep, OneLineOnly, Past, Hits, IsLine, Ended, Entry, Blank;
    var first, past := "+" + (key + "=" + (FirstLine(v) + "\n")), Past(v);
    PlusSplit(key, v);
    PlusEntry(key, FirstLine(v) + "\n", section);
    NewlineIsBlank();
    StripEnd(FirstLine(v), "\n");
    PastWeighs(v);
    BlankIsEmpty(past);
    var tail, next := SplitKeep(past), Next(first, section, within);
    assert next == within;
    TextWeight(past, section, key, within);
    ValuesOne(first, section, "+.", key, within);
    ValuesConcat([first], tail, section, "+.", key, within);
    StateConcat([first], tail, section, within);
    var said, rest := ValueAt(first, section, "+.", key, within), Values(tail, section, "+.", key, within);
    assert said == if within then [Strip(FirstLine(v))] else [];
    WeightConcat(said, rest);
    WeightOne(Strip(FirstLine(v)));
    if within && OneLineOnly(v) {
      BlankState(past, section, key, within);
      assert rest == [] && said + rest == said;
    }
  }

  // ------------------------------------------------------------------ many values

  function StripAll(values: seq<string>): (r: seq<string>)
    ensures |r| == |values|
  {
    if values == [] then [] else [Strip(values[0])] + StripAll(values[1..])
  }

  /** The lines of the block as they stand in the text. */
  function BlockText(key: string, values: seq<string>): string { Join(PlusLines(key, values)) }

  lemma {:induction false} BlockTextIs(key: string, values: seq<string>)
    requires ValidKey(key) && values != []
    ensures SplitKeep(BlockText(key, values)) == SplitKeep("+" + Entry(key, values[0]))
            + SplitKeep(BlockText(key, values[1..]))
  {
    var e := "+" + Entry(key, values[0]);
    assert Ended(e) by { assert e[|e| - 1] == '\n'; }
    assert PlusLines(key, values)[1..] == PlusLines(key, values[1..]);
    SplitConcat(e, BlockText(key, values[1..]));
  }

  predicate AllOneLine(values: seq<string>) { forall v | v in values :: OneLineOnly(v) }

  lemma {:induction false} BlockSays(key: string, values: seq<string>, section: string, within: bool)
    requires ValidKey(key)
    ensures var ls := SplitKeep(BlockText(key, values)); var read := Values(ls, section, "+.", key, within);
            if within && AllOneLine(values) then read == StripAll(values) && State(ls, section, within)
            else Weight(read) <= Weight(StripAll(values)) && (values != [] ==> Weight(read) < Weight(StripAll(values)))
    decreases values
  {
    hide Strip, Header, Target, ValueAt, ValidKey, SplitKeep, OneLineOnly;
    if values == [] {
      SplitNothing();
    } else {
      var e, rest := SplitKeep("+" + Entry(key, values[0])), SplitKeep(BlockText(key, values[1..]));
      BlockTextIs(key, values);
      ValueReads(key, values[0], section, within);
      var next := State(e, section, within);
      BlockSays(key, values[1..], section, next);
      ValuesConcat(e, rest, section, "+.", key, within);
      StateConcat(e, rest, section, within);
      WeightConcat(Values(e, section, "+.", key, within), Values(rest, section, "+.", key, next));
      WeightOne(Strip(values[0]));
      assert forall v | v in values :: v == values[0] || v in values[1..];
    }
  }

  // ------------------------------------------------------------------ read back

  lemma {:induction false} DroppedSaysNothing(ls: seq<string>, section: string, key: string, dropping: bool,
                                              within: bool)
    requires ValidKey(key) && (within ==> dropping)
    ensures Values(Drop(ls, section, Live(key), dropping), section, "+.", key, within) == []
    decreases ls
  {
    if ls != [] {
      var m := Live(key);
      ReadIsHit(ls[0], key);
      hide Hits, Header, Target, ValueOf;
      var rest := Drop(ls[1..], section, m, Next(ls[0], section, dropping));
      assert ls == [ls[0]] + ls[1..];
      DropHead(ls[0], ls[1..], section, m, dropping);
      DroppedSaysNothing(ls[1..], section, key, Next(ls[0], section, dropping), Next(ls[0], section, within));
      if !Dropped(ls[0], section, m, dropping) { assert ([ls[0]] + rest)[1..] == rest; }
    }
  }

  /** Around the block, which is split into the lines it makes, the lines are as they were. */
  lemma WrittenText(text: string, section: string, key: string, values: seq<string>)
      returns (pre: seq<string>, suf: seq<string>)
    requires ValidKey(key) && ValidSection(section) && values != []
    ensures SplitKeep(UpsertRepeated(text, section, key, values)) == pre + SplitKeep(BlockText(key, values)) + suf
    ensures var ls, m, block := SplitKeep(text), Live(key), PlusLines(key, values);
            var p := Find(ls, section, m, 0, false);
            && block != [] && Placed(ls, section, m, p)
            && pre == Ahead(ls, section, p, block) && suf == Kept(ls, section, m, p)
            && Drop(suf, section, m, true) == suf
    ensures Scan(pre, section, Live(key), false) == Some(true)
    ensures forall within :: Values(suf, section, "+.", key, within) == []
  {
    var ls, m, block := SplitKeep(text), Live(key), PlusLines(key, values);
    hide Find, Hits, Header, Target, Scan, SplitKeep, AreLines, Drop, PlusLines;
    pre, suf := BlockShape(ls, section, m, block);
    var mid := SplitKeep(BlockText(key, values));
    var p := Find(ls, section, m, 0, false);
    BlockEnds(key, values);
    assert block != [];
    AheadLines(ls, section, m, p, block);
    ShapeIsLines(pre, mid, suf);
    SplitJoin(pre + mid + suf);
    JoinThree(pre, block, suf);
    JoinThree(pre, mid, suf);
    JoinSplit(BlockText(key, values));
    forall within ensures Values(suf, section, "+.", key, within) == [] {
      KeptSaysNothing(ls, section, key, p, within);
    }
  }

  lemma KeptSaysNothing(ls: seq<string>, section: string, key: string, p: Place, within: bool)
    requires ValidKey(key) && (!p.Absent? ==> p.at <= |ls|)
    ensures Values(Kept(ls, section, Live(key), p), section, "+.", key, within) == []
  {
    hide Drop, Header, Target;
    if !p.Absent? { DroppedSaysNothing(ls[p.at..], section, key, true, within); }
  }

  lemma AheadLines(ls: seq<string>, section: string, m: Match, p: Place, block: seq<string>)
    requires AreLines(ls) && ValidSection(section) && ValidKey(m.key) && Placed(ls, section, m, p) && block != []
    ensures var pre, suf := Ahead(ls, section, p, block), Kept(ls, section, m, p);
            AreLines(pre) && AreLines(suf) && (pre != [] ==> Ended(pre[|pre| - 1]))
  {
    BeforeShape(ls, section, m, p);
    hide Hits, Header, Target, Scan, Drop, AreLines, Ended, Close, HeaderLines, ValidKey, ValidSection;
    if !p.Absent? {
      SubLines(ls, p.at);
      DropIsLines(ls[p.at..], section, m, true);
    } else {
      NoLines();
    }
  }

  lemma NoLines()
    ensures AreLines([])
  {
  }

  lemma BlockEnds(key: string, values: seq<string>)
    requires values != []
    ensures PlusLines(key, values) != [] && forall l | l in SplitKeep(BlockText(key, values)) :: IsLine(l) && Ended(l)
  {
    var block := PlusLines(key, values);
    JoinLast(block[..|block| - 1], block[|block| - 1]);
    assert block == block[..|block| - 1] + [block[|block| - 1]];
    var s, e := BlockText(key, values), block[|block| - 1];
    assert e[|e| - 1] == '\n' && s[|s| - 1] == e[|e| - 1];
    SplitEnds(s);
  }

  /** Whatever the text, an array reads back as the values written, stripped and in order,
      and as unset when there are none, exactly when every value is blank past its first
      line. */
  lemma RepeatedReadBackIff(text: string, section: string, key: string, values: seq<string>)
    requires ValidKey(key) && ValidSection(section)
    ensures ReadRepeated(UpsertRepeated(text, section, key, values), section, key) ==
            (if values == [] then None else Some(Comma(StripAll(values))))
            <==> AllOneLine(values)
  {
    hide Values, UpsertRepeated, ValidKey, ValidSection, OneLineOnly, SplitKeep, BlockText;
    if values == [] {
      ClearedReads(text, section, key);
    } else {
      BlockRead(text, section, key, values);
      BlockSays(key, values, section, true);
      var read := Values(SplitKeep(BlockText(key, values)), section, "+.", key, true);
      CommaLength(StripAll(values));
      if read != [] { CommaLength(read); }
    }
  }

  /** Clearing an array leaves nothing to read. */
  lemma ClearedReads(text: string, section: string, key: string)
    requires ValidKey(key) && ValidSection(section)
    ensures Values(Split(UpsertRepeated(text, section, key, [])), section, "+.", key, false) == []
  {
    hide Hits, Header, Target, SplitKeep, Drop, Values, BlockLines, ChompAll;
    var ls, m := SplitKeep(text), Live(key);
    BlockLinesOf(text, section, m, []);
    Cleared(ls, section, m);
    DroppedSaysNothing(ls, section, key, false, false);
    ValuesChomp(Drop(ls, section, m, false), section, "+.", key, false);
  }

  /** So one-line values always read back. */
  lemma RepeatedReadBack(text: string, section: string, key: string, values: seq<string>)
    requires ValidKey(key) && ValidSection(section) && (forall v | v in values :: '\n' !in v)
    ensures ReadRepeated(UpsertRepeated(text, section, key, values), section, key) ==
            if values == [] then None else Some(Comma(StripAll(values)))
  {
    RepeatedReadBackIff(text, section, key, values);
    forall v | v in values ensures OneLineOnly(v) {
      WholeLine(v);
      assert v[|v|..] == "";
    }
    hide ReadRepeated, UpsertRepeated;
  }

  /** The array reader sees what the block says where its section is current. */
  lemma BlockRead(text: string, section: string, key: string, values: seq<string>)
    requires ValidKey(key) && ValidSection(section) && values != []
    ensures Values(Split(UpsertRepeated(text, section, key, values)), section, "+.", key, false) ==
            Values(SplitKeep(BlockText(key, values)), section, "+.", key, true)
  {
    hide BlockText, Scan, Values, SplitKeep, State, UpsertRepeated, ValidKey, ValidSection, ChompAll, Ahead, Kept,
        Placed,
        Find, PlusLines, Drop;
    var pre, suf := WrittenText(text, section, key, values);
    var mid := SplitKeep(BlockText(key, values));
    ScanReadsNothing(pre, section, Live(key), "+.", false);
    ScanState(pre, section, Live(key), false);
    ReadersSplit(pre, mid, suf, section, "+.", key);
    ValuesChomp(pre + mid + suf, section, "+.", key, false);
  }
}
