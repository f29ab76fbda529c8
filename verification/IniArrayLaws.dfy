/** What the INI array writers promise: entries that are not theirs stay in order, other
    settings read as before, and when writing twice is writing once. */
module IniArrayLaws {
  import opened Wrappers
  import opened Lines
  import opened Ascii
  import opened IniSyntax
  import opened IniMerge
  import opened IniScan
  import opened IniLaws

  // ----------------------------------------------------------- the shape written

  /** The lines kept behind the block. */
  function Kept(ls: seq<string>, section: string, m: Match, p: Place): seq<string>
    requires !p.Absent? ==> p.at <= |ls|
  {
    if p.Absent? then [] else Drop(ls[p.at..], section, m, true)
  }

  /** Where the block goes, unless there is nothing to write. */
  function Ahead(ls: seq<string>, section: string, p: Place, block: seq<string>): seq<string>
    requires !p.Absent? ==> p.at <= |ls|
  {
    if block == [] then if p.Absent? then ls else ls[..p.at] else Before(ls, section, p)
  }

  lemma BlockShape(ls: seq<string>, section: string, m: Match, block: seq<string>)
      returns (pre: seq<string>, suf: seq<string>)
    requires ValidKey(m.key) && ValidSection(section) && AreLines(ls)
    ensures BlockLines(ls, section, m, block) == pre + block + suf
    ensures var p := Find(ls, section, m, 0, false);
            Placed(ls, section, m, p) && pre == Ahead(ls, section, p, block) && suf == Kept(ls, section, m, p)
    ensures Scan(pre, section, m, false) == Some(!(block == [] && Find(ls, section, m, 0, false).Absent?))
    ensures Drop(suf, section, m, true) == suf
  {
    hide Find, Hits, Header, Target, Close, HeaderLines, AreLines, Scan, Drop, ValidKey, ValidSection;
    var p := Find(ls, section, m, 0, false);
    pre, suf := Ahead(ls, section, p, block), Kept(ls, section, m, p);
    assert ls[..0] == [];
    ScanNothing(section, m);
    FindPlaced(ls, section, m, 0, false);
    BeforeShape(ls, section, m, p);
    if !p.Absent? {
      DropTwice(ls[p.at..], section, m, true);
      if p == Insert(|ls|) { NothingBehind(ls, section, m); }
    } else {
      DropsNothing(section, m, true);
    }
  }

  lemma NothingBehind(ls: seq<string>, section: string, m: Match)
    ensures ls[|ls|..] == [] && ls[..|ls|] == ls && Drop(ls[|ls|..], section, m, true) == []
  {
  }

  lemma {:induction false} DropTwice(ls: seq<string>, section: string, m: Match, within: bool)
    ensures Drop(Drop(ls, section, m, within), section, m, within) == Drop(ls, section, m, within)
    decreases ls
  {
    hide Hits, Header, Target;
    if ls != [] {
      var next := Next(ls[0], section, within);
      assert ls == [ls[0]] + ls[1..];
      DropHead(ls[0], ls[1..], section, m, within);
      DropTwice(ls[1..], section, m, next);
      DropHead(ls[0], Drop(ls[1..], section, m, next), section, m, within);
    }
  }

  lemma {:induction false} DropIsLines(ls: seq<string>, section: string, m: Match, within: bool)
    requires AreLines(ls)
    ensures AreLines(Drop(ls, section, m, within))
    decreases ls
  {
    hide Hits, Header, Target;
    if ls != [] {
      var next := Next(ls[0], section, within);
      assert ls == [ls[0]] + ls[1..];
      DropHead(ls[0], ls[1..], section, m, within);
      SubLines(ls, 1);
      if |ls| == 1 { assert ls[1..] == []; }
      DropIsLines(ls[1..], section, m, next);
    }
  }

  predicate Block(block: seq<string>) { forall l | l in block :: IsLine(l) && Ended(l) && !Header(l) }

  /** The lines of the written text are the lines the writer put down. */
  lemma BlockLinesOf(text: string, section: string, m: Match, block: seq<string>)
    requires ValidKey(m.key) && ValidSection(section)
    requires forall l | l in block :: IsLine(l) && Ended(l)
    ensures var ls := SplitKeep(text);
            AreLines(BlockLines(ls, section, m, block))
            && SplitKeep(UpsertBlock(text, section, m, block)) == BlockLines(ls, section, m, block)
  {
    var ls := SplitKeep(text);
    hide BlockLines, Find, Hits, Header, Target, Scan, SplitKeep;
    var pre, suf := BlockShape(ls, section, m, block);
    var p := Find(ls, section, m, 0, false);
    AheadIsLines(ls, section, m, p, block);
    SplitJoin(pre + block + suf);
  }

  lemma AheadIsLines(ls: seq<string>, section: string, m: Match, p: Place, block: seq<string>)
    requires AreLines(ls) && ValidSection(section) && ValidKey(m.key) && Placed(ls, section, m, p)
    requires forall l | l in block :: IsLine(l) && Ended(l)
    ensures AreLines(Ahead(ls, section, p, block) + block + Kept(ls, section, m, p))
  {
    var pre, suf := Ahead(ls, section, p, block), Kept(ls, section, m, p);
    if !p.Absent? {
      SubLines(ls, p.at);
      DropIsLines(ls[p.at..], section, m, true);
    }
    if block == [] {
      assert pre + block == pre;
      if !p.Absent? && p.at == |ls| { assert ls[p.at..] == [] && suf == []; }
      JoinedLines(pre, suf);
    } else {
      BeforeShape(ls, section, m, p);
      hide Hits, Header, Target, Scan, Drop;
      ShapeIsLines(pre, block, suf);
    }
  }

  lemma JoinedLines(a: seq<string>, b: seq<string>)
    requires AreLines(a) && AreLines(b) && (b == [] || a == [] || Ended(a[|a| - 1]))
    ensures AreLines(a + b)
  {
    if b == [] { assert a + b == a; }
  }

  // ---------------------------------------------------------- others stay in order

  /** The entries that are not the writer's own, and every other line, are kept in
      order around one contiguous block; a missing section is created at the end, and
      only when there is something to write. */
  lemma OthersKeptInOrder(text: string, section: string, m: Match, block: seq<string>)
    requires ValidKey(m.key) && ValidSection(section)
    requires forall l | l in block :: IsLine(l) && Ended(l)
    ensures var kept := ChompAll(Drop(SplitKeep(text), section, m, false));
            var after := Split(UpsertBlock(text, section, m, block));
            if Find(SplitKeep(text), section, m, 0, false).Absent? then
              after == if block == [] then Split(text)
                  else Split(text) + ChompAll(HeaderLines(section)) + ChompAll(block)
            else
              exists k: nat :: k <= |kept| && after == kept[..k] + ChompAll(block) + kept[k..]
  {
    var ls := SplitKeep(text);
    BlockLinesOf(text, section, m, block);
    hide BlockLines, Find, Hits, Header, Target, Scan, SplitKeep, HeaderLines, Close;
    var pre, suf := BlockShape(ls, section, m, block);
    var p := Find(ls, section, m, 0, false);
    ChompConcat(pre + block, suf);
    ChompConcat(pre, block);
    ChompClose(ls);
    if p.Absent? {
      ChompConcat(Close(ls), HeaderLines(section));
      assert ChompAll(suf) == [];
    } else {
      KeptAround(ls, section, m, p.at);
      assert p == Insert(|ls|) ==> ls[..|ls|] == ls;
      var kept := ChompAll(Drop(ls, section, m, false));
      ChompConcat(ls[..p.at], suf);
      assert ChompAll(pre) == ChompAll(ls[..p.at]);
      var k := |ChompAll(pre)|;
      assert kept[..k] == ChompAll(pre) && kept[k..] == ChompAll(suf);
    }
  }

  lemma KeptAround(ls: seq<string>, section: string, m: Match, at: nat)
    requires at <= |ls| && Scan(ls[..at], section, m, false) == Some(true)
    ensures Drop(ls, section, m, false) == ls[..at] + Drop(ls[at..], section, m, true)
  {
    assert ls == ls[..at] + ls[at..];
    DropConcat(ls[..at], ls[at..], section, m, false);
    ScanState(ls[..at], section, m, false);
  }

  // ------------------------------------------------------------------ new entries

  /** One-line values make a block of live entries of the key. */
  lemma PlusBlock(key: string, values: seq<string>)
    requires ValidKey(key) && (forall v | v in values :: '\n' !in v)
    ensures Block(PlusLines(key, values)) && forall l | l in PlusLines(key, values) :: Hits(Live(key), l)
  {
    var ls := PlusLines(key, values);
    forall i | 0 <= i < |ls| ensures IsLine(ls[i]) && Ended(ls[i]) && !Header(ls[i]) && Hits(Live(key), ls[i]) {
      PlusLine(key, values[i]);
    }
  }

  lemma PlusLine(key: string, v: string)
    requires ValidKey(key) && '\n' !in v
    ensures var l := "+" + Entry(key, v); IsLine(l) && Ended(l) && !Header(l) && Hits(Live(key), l)
  {
    PlusEntry(key, v + "\n", "");
    EntryIsLine(key, v);
    PlusIsLine(Entry(key, v));
    hide Hits, Header, IsLine, Ended;
  }

  lemma PlusIsLine(e: string)
    requires IsLine(e) && Ended(e)
    ensures IsLine("+" + e) && Ended("+" + e)
  {
  }

  // ---------------------------------------------------------------- idempotence

  lemma PlainInside(l: string, section: string)
    requires ValidSection(section) && !Header(l)
    ensures !Target(l, section) && Next(l, section, true)
  {
    if Target(l, section) { TargetIsHeader(l, section); }
  }

  lemma {:induction false} BlockState(block: seq<string>, section: string)
    requires ValidSection(section) && (forall l | l in block :: !Header(l))
    ensures State(block, section, true)
    decreases block
  {
    hide Header, Target, Next, ValidSection;
    if block != [] {
      assert block[0] in block && forall l | l in block[1..] :: l in block;
      PlainInside(block[0], section);
      BlockState(block[1..], section);
    }
  }

  lemma {:induction false} DropHits(block: seq<string>, section: string, m: Match)
    requires ValidSection(section) && (forall l | l in block :: !Header(l))
    ensures |Drop(block, section, m, true)| == 0 <==> forall l | l in block :: Hits(m, l)
    decreases block
  {
    hide Header, Target, Next, ValidSection, Hits;
    if block != [] {
      var rest := block[1..];
      assert block[0] in block && forall l | l in rest :: l in block;
      PlainInside(block[0], section);
      DropHits(rest, section, m);
      assert block == [block[0]] + rest;
      DropHead(block[0], rest, section, m, true);
      hide Drop;
      assert forall l | l in block :: l == block[0] || l in rest;
    }
  }

  /** Writing over lines where the section is known: a second block replaces what the
      writer owns, so only the lines of the first it does not own are left behind. */
  lemma WrittenAgain(ls: seq<string>, section: string, m: Match, block: seq<string>)
    requires ValidKey(m.key) && ValidSection(section) && AreLines(ls) && Block(block) && block != []
    ensures var once := BlockLines(ls, section, m, block);
            && (AreLines(once) ==> |BlockLines(once, section, m, block)| == |once| + |Drop(block, section, m, true)|)
            && ((forall l | l in block :: Hits(m, l)) ==> BlockLines(once, section, m, block) == once)
  {
    hide Hits, Header, Target, Close, HeaderLines, AreLines, BlockLines, Find, Ahead, Kept, Drop, IsLine, Ended, Scan;
    var pre, suf := BlockShape(ls, section, m, block);
    var once := pre + block + suf;
    NoHeaders(block);
    BlockState(block, section);
    DropHits(block, section, m);
    DropOnce(pre, block, suf, section, m);
    if AreLines(once) {
      var pre2, suf2 := BlockShape(once, section, m, block);
      FoundAgain(once, pre, section, m);
      RestKept(once, section, m, block, pre2, suf2);
    }
    if forall l | l in block :: Hits(m, l) {
      OverAgain(pre, block, suf, section, m);
    }
  }

  lemma NoHeaders(block: seq<string>)
    requires Block(block)
    ensures forall l | l in block :: !Header(l)
  {
  }

  lemma DropOnce(pre: seq<string>, block: seq<string>, suf: seq<string>, section: string, m: Match)
    requires Scan(pre, section, m, false) == Some(true) && State(block, section, true)
             && Drop(suf, section, m, true) == suf
    ensures Drop(pre + block + suf, section, m, false) == pre + Drop(block, section, m, true) + suf
  {
    hide Drop, Scan, State;
    ScanState(pre, section, m, false);
    DropConcat(pre + block, suf, section, m, false);
    DropConcat(pre, block, section, m, false);
    StateConcat(pre, block, section, false);
  }

  lemma FoundAgain(ls: seq<string>, pre: seq<string>, section: string, m: Match)
    requires pre <= ls && Scan(pre, section, m, false) == Some(true)
    ensures !Find(ls, section, m, 0, false).Absent?
  {
    hide Scan, Hits, Header, Target;
    assert ls[0..|pre|] == pre;
    ScanFind(ls, section, m, 0, |pre|, false);
    StillThere(ls, section, m, |pre|);
  }

  lemma {:induction false} StillThere(ls: seq<string>, section: string, m: Match, i: nat)
    requires i <= |ls|
    ensures !Find(ls, section, m, i, true).Absent?
    decreases |ls| - i
  {
    hide Hits, Header, Target;
    if i < |ls| { StillThere(ls, section, m, i + 1); }
  }

  lemma RestKept(ls: seq<string>, section: string, m: Match, block: seq<string>, pre: seq<string>, suf: seq<string>)
    requires block != [] && !Find(ls, section, m, 0, false).Absent?
    requires var p := Find(ls, section, m, 0, false);
             Placed(ls, section, m, p) && pre == Ahead(ls, section, p, block) && suf == Kept(ls, section, m, p)
    ensures |pre + block + suf| == |Drop(ls, section, m, false)| + |block|
  {
    hide Find, Hits, Header, Target, Scan;
    var p := Find(ls, section, m, 0, false);
    KeptAround(ls, section, m, p.at);
    if p == Insert(|ls|) { assert ls[..|ls|] == ls; }
  }

  lemma OverAgain(pre: seq<string>, block: seq<string>, suf: seq<string>, section: string, m: Match)
    requires ValidKey(m.key) && ValidSection(section) && Block(block) && block != []
    requires Scan(pre, section, m, false) == Some(true) && Drop(suf, section, m, true) == suf
    requires forall l | l in block :: Hits(m, l)
    ensures BlockLines(pre + block + suf, section, m, block) == pre + block + suf
  {
    hide Hits, Header, Target, Scan, Drop, IsLine, Ended, State, ValidKey, ValidSection, Find, Close, HeaderLines, Next;
    var ls, p := pre + block + suf, |pre|;
    NoHeaders(block);
    assert block[0] in block;
    PlainInside(block[0], section);
    BlockState(block, section);
    DropHits(block, section, m);
    assert ls == pre + (block + suf) && (block + suf)[0] == block[0];
    FindsHit(pre, block + suf, section, m);
    assert ls[..p] == pre && ls[p..] == block + suf;
    DropConcat(block, suf, section, m, true);
    assert Drop(block, section, m, true) == [];
  }

  /** Writing a block of single entries twice is writing it once, exactly when the block
      holds nothing but entries the writer owns. */
  lemma BlockIdempotentIff(text: string, section: string, m: Match, block: seq<string>)
    requires ValidKey(m.key) && ValidSection(section) && Block(block)
    ensures var once := UpsertBlock(text, section, m, block);
            UpsertBlock(once, section, m, block) == once <==> forall l | l in block :: Hits(m, l)
  {
    hide Hits, Header, Target, BlockLines, IsLine, Ended;
    var ls := SplitKeep(text);
    var once := UpsertBlock(text, section, m, block);
    BlockLinesOf(text, section, m, block);
    BlockLinesOf(once, section, m, block);
    if block == [] {
      ClearedTwice(ls, section, m);
    } else {
      WrittenAgain(ls, section, m, block);
      NoHeaders(block);
      DropHits(block, section, m);
    }
  }

  lemma ClearedTwice(ls: seq<string>, section: string, m: Match)
    requires ValidKey(m.key) && ValidSection(section) && AreLines(ls)
    ensures var once := BlockLines(ls, section, m, []);
            AreLines(once) ==> BlockLines(once, section, m, []) == once
  {
    hide Hits, Header, Target, AreLines, Scan;
    Cleared(ls, section, m);
    var once := BlockLines(ls, section, m, []);
    if AreLines(once) {
      Cleared(once, section, m);
      DropTwice(ls, section, m, false);
    }
  }

  lemma Cleared(ls: seq<string>, section: string, m: Match)
    requires ValidKey(m.key) && ValidSection(section) && AreLines(ls)
    ensures BlockLines(ls, section, m, []) == Drop(ls, section, m, false)
  {
    hide Hits, Header, Target, AreLines, Scan, Find;
    var pre, suf := BlockShape(ls, section, m, []);
    var p := Find(ls, section, m, 0, false);
    if p.Absent? {
      ScanState(ls, section, m, false);
    } else {
      KeptAround(ls, section, m, p.at);
    }
  }

  /** upsert_repeated twice is once, for any one-line values. */
  lemma RepeatedIdempotent(text: string, section: string, key: string, values: seq<string>)
    requires ValidKey(key) && ValidSection(section) && (forall v | v in values :: '\n' !in v)
    ensures var once := UpsertRepeated(text, section, key, values);
            UpsertRepeated(once, section, key, values) == once
  {
    PlusBlock(key, values);
    BlockIdempotentIff(text, section, Live(key), PlusLines(key, values));
  }

  /** upsert_matched twice is once, exactly when every new line's value is among those
      it replaces; otherwise a second run would write the block again. */
  lemma MatchedIdempotentIff(text: string, section: string, key: string, values: set<string>, newLines: seq<string>)
    requires ValidKey(key) && ValidSection(section) && Block(EndAll(newLines))
    ensures var once := UpsertMatched(text, section, key, values, newLines);
            UpsertMatched(once, section, key, values, newLines) == once
            <==> forall l | l in EndAll(newLines) :: Hits(Holding(key, values), l)
  {
    BlockIdempotentIff(text, section, Holding(key, values), EndAll(newLines));
  }

  // ---------------------------------------------------------------------- frame

  lemma {:induction false} DropFrame(ls: seq<string>, section: string, m: Match, section2: string, prefixes: string,
                                     key2: string,
                                     within: bool, within2: bool)
    requires ValidKey(m.key) && ValidSection(section) && ValidKey(key2) && ValidSection(section2)
    requires !(SameText(section, section2) && SameText(m.key, key2)) && (prefixes == "" || prefixes == "+.")
    requires within && within2 ==> SameText(section, section2)
    ensures Values(Drop(ls, section, m, within), section2, prefixes, key2, within2) ==
            Values(ls, section2, prefixes, key2, within2)
    decreases ls
  {
    hide Hits, Header, Target, ValueAt;
    if ls != [] {
      var l, next, next2 := ls[0], Next(ls[0], section, within), Next(ls[0], section2, within2);
      NextAgree(l, section, section2, within, within2);
      assert ls == [l] + ls[1..];
      DropHead(l, ls[1..], section, m, within);
      DropFrame(ls[1..], section, m, section2, prefixes, key2, next, next2);
      if Dropped(l, section, m, within) {
        OwnedIsSilent(l, m, section2, prefixes, key2, within2);
      } else {
        var rest := Drop(ls[1..], section, m, next);
        assert ([l] + rest)[1..] == rest;
      }
    }
  }

  lemma {:induction false} BlockSilent(block: seq<string>, key: string, section2: string, prefixes: string,
                                       key2: string, within: bool)
    requires ValidKey(key) && ValidKey(key2) && ValidSection(section2) && (prefixes == "" || prefixes == "+.")
    requires forall l | l in block :: Hits(Live(key), l) && !Header(l)
    requires within ==> !SameText(key, key2)
    ensures Values(block, section2, prefixes, key2, within) == [] && State(block, section2, within) == within
    decreases block
  {
    hide Hits, Header, Target, ValueAt;
    if block != [] {
      OwnedIsSilent(block[0], Live(key), section2, prefixes, key2, within);
      assert forall l | l in block[1..] :: l in block;
      BlockSilent(block[1..], key, section2, prefixes, key2, within);
    }
  }

  /** Rewriting an array hides nothing from a reader of another section or key. */
  lemma BlockFrame(text: string, section: string, m: Match, block: seq<string>, section2: string, key2: string)
    requires ValidKey(m.key) && ValidSection(section) && ValidKey(key2) && ValidSection(section2)
    requires Block(block) && (forall l | l in block :: Hits(Live(m.key), l))
    requires !(SameText(section, section2) && SameText(m.key, key2))
    ensures var after := UpsertBlock(text, section, m, block);
            && ReadKeyed(after, section2, key2) == ReadKeyed(text, section2, key2)
            && ReadRepeated(after, section2, key2) == ReadRepeated(text, section2, key2)
  {
    hide Hits, Header, Target, BlockLines, IsLine, Ended, Values, SplitKeep;
    BlockLinesOf(text, section, m, block);
    LinesFrame(SplitKeep(text), section, m, block, section2, "", key2);
    LinesFrame(SplitKeep(text), section, m, block, section2, "+.", key2);
    SameReadings(UpsertBlock(text, section, m, block), text, section2, key2);
  }

  lemma LinesFrame(ls: seq<string>, section: string, m: Match, block: seq<string>, section2: string, prefixes: string,
                   key2: string)
    requires ValidKey(m.key) && ValidSection(section) && ValidKey(key2) && ValidSection(section2) && AreLines(ls)
    requires Block(block) && (forall l | l in block :: Hits(Live(m.key), l))
    requires !(SameText(section, section2) && SameText(m.key, key2)) && (prefixes == "" || prefixes == "+.")
    ensures Values(BlockLines(ls, section, m, block), section2, prefixes, key2, false) ==
            Values(ls, section2, prefixes, key2, false)
  {
    hide Hits, Header, Target, Find, BlockLines, IsLine, Ended, Values, Scan, State, Drop, AreLines, ValidKey,
        ValidSection;
    var p := Find(ls, section, m, 0, false);
    var pre, suf := BlockShape(ls, section, m, block);
    if block == [] {
      Cleared(ls, section, m);
      DropFrame(ls, section, m, section2, prefixes, key2, false, false);
    } else {
      var w := State(pre, section2, false);
      ScanState(pre, section, m, false);
      OneCurrent(pre, section, section2, false, false);
      BlockSilent(block, m.key, section2, prefixes, key2, w);
      ReadersSplit(pre, block, suf, section2, prefixes, key2);
      AheadReads(ls, section, m, p, block, section2, prefixes, key2);
    }
  }

  lemma AheadReads(ls: seq<string>, section: string, m: Match, p: Place, block: seq<string>,
                   section2: string, prefixes: string, key2: string)
    requires ValidKey(m.key) && ValidSection(section) && ValidKey(key2) && ValidSection(section2) && AreLines(ls)
    requires Placed(ls, section, m, p) && block != []
    requires !(SameText(section, section2) && SameText(m.key, key2)) && (prefixes == "" || prefixes == "+.")
    ensures var pre, suf := Ahead(ls, section, p, block), Kept(ls, section, m, p);
            Values(pre, section2, prefixes, key2, false) + [] +
            Values(suf, section2, prefixes, key2, State(pre, section2, false)) ==
                Values(ls, section2, prefixes, key2, false)
  {
    hide Hits, Header, Target, Values, Scan, State, Drop, AreLines, ValidKey, ValidSection, Close, HeaderLines;
    if p.Absent? {
      NewSectionSilent(ls, section, section2, prefixes, key2);
      NoValues(section2, prefixes, key2, State(Ahead(ls, section, p, block), section2, false));
    } else {
      var pre := ls[..p.at];
      if p == Insert(|ls|) {
        CloseInert(ls, section2, prefixes, key2);
        assert pre == ls;
      }
      ScanState(pre, section, m, false);
      OneCurrent(pre, section, section2, false, false);
      DropFrame(ls[p.at..], section, m, section2, prefixes, key2, true, State(pre, section2, false));
      assert ls == pre + ls[p.at..];
      ValuesConcat(pre, ls[p.at..], section2, prefixes, key2, false);
    }
  }

  lemma NoValues(section: string, prefixes: string, key: string, within: bool)
    ensures Values([], section, prefixes, key, within) == []
  {
  }
}
