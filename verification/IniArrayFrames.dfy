/** What an array write does to other settings and to itself, whatever the values: a value
    that spans lines leaves more lines behind than the writer owns. */
module IniArrayFrames {
  import opened Wrappers
  import opened Lines
  import opened Ascii
  import opened IniSyntax
  import opened IniMerge
  import opened IniScan
  import opened IniLaws
  import opened IniArrayLaws
  import opened IniArrayReads

  // -------------------------------------------------------------------- frame

  /** The written lines say nothing to the readers of another setting, and leave its
      section as current, or not, as it was. The second does not matter to the same key in
      another section: the lines it could then read by mistake are those the writer removes. */
  predicate ArrayInert(section: string, key: string, values: seq<string>, section2: string, key2: string) {
    var lines, w := SplitKeep(BlockText(key, values)), SameText(section, section2);
    && Values(lines, section2, "", key2, w) == []
    && Values(lines, section2, "+.", key2, w) == []
    && (State(lines, section2, w) == w || SameText(key, key2))
  }

  /** What is dropped is what another reader could not read, or reads of the key itself. */
  lemma ReadsNoHit(l: string, prefixes: string, key: string, key2: string)
    requires ValidKey(key) && ValidKey(key2) && SameText(key, key2) && (prefixes == "" || prefixes == "+.")
    ensures ValueOf(l, prefixes, key2).Some? ==> Hits(Live(key), l)
  {
    var i := SpaceEnd(l, 0);
    SameAfter(l, i, key, key2);
    if i < |l| { SameAfter(l, i + 1, key, key2); }
  }

  lemma SameAfter(l: string, i: nat, key: string, key2: string)
    requires i <= |l| && SameText(key, key2)
    ensures AfterKey(l, i, key).Some? == AfterKey(l, i, key2).Some?
  {
    assert LiteralAt(l, i, key) == LiteralAt(l, i, key2) by {
      if LiteralAt(l, i, key) {
        forall k | 0 <= k < |key2| ensures Lower(l[i + k]) == Lower(key2[k]) { assert Lower(key[k]) == Lower(key2[k]); }
      }
      if LiteralAt(l, i, key2) {
        forall k | 0 <= k < |key| ensures Lower(l[i + k]) == Lower(key[k]) { assert Lower(key[k]) == Lower(key2[k]); }
      }
    }
  }

  /** A reader of the same key in another section, who takes its section for current too
      early, reads the same once the entries of this section are gone. */
  lemma {:induction false} DroppedHidesNothing(ls: seq<string>, section: string, key: string, section2: string,
                                               prefixes: string, key2: string, within: bool, early: bool, within2: bool)
    requires ValidKey(key) && ValidSection(section) && ValidKey(key2) && ValidSection(section2)
    requires SameText(key, key2) && !SameText(section, section2) && (prefixes == "" || prefixes == "+.")
    requires !(within && within2) && (early == within2 || (within && early))
    ensures Values(Drop(ls, section, Live(key), within), section2, prefixes, key2, early) ==
            Values(ls, section2, prefixes, key2, within2)
    decreases ls
  {
    if ls != [] {
      var l, m := ls[0], Live(key);
      var next, soon, next2 := Next(l, section, within), Next(l, section2, early), Next(l, section2, within2);
      ReadsNoHit(l, prefixes, key, key2);
      NextAgree(l, section, section2, within, within2);
      if Target(l, section2) { TargetIsHeader(l, section2); }
      if Target(l, section) { TargetIsHeader(l, section); }
      if Target(l, section) && Target(l, section2) { OneSection(l, section, section2); }
      hide Hits, Header, Target, ValueOf, SameText, ValidKey, ValidSection, Drop;
      assert ls == [l] + ls[1..];
      DropHead(l, ls[1..], section, m, within);
      DroppedHidesNothing(ls[1..], section, key, section2, prefixes, key2, next, soon, next2);
      var rest := Drop(ls[1..], section, m, next);
      assert ([l] + rest)[1..] == rest && [] + rest == rest;
    }
  }

  /** What is kept behind the block reads the same to it whether it takes its section for
      current there or not. */
  lemma KeptEarly(ls: seq<string>, section: string, key: string, p: Place, section2: string, prefixes: string,
                  key2: string, early: bool)
    requires ValidKey(key) && ValidSection(section) && ValidKey(key2) && ValidSection(section2)
    requires SameText(key, key2) && !SameText(section, section2) && (prefixes == "" || prefixes == "+.")
    requires !p.Absent? ==> p.at <= |ls|
    ensures var suf := Kept(ls, section, Live(key), p);
            Values(suf, section2, prefixes, key2, early) == Values(suf, section2, prefixes, key2, false)
  {
    hide Drop, Header, Target, ValidKey, ValidSection, SameText;
    if !p.Absent? {
      DroppedHidesNothing(ls[p.at..], section, key, section2, prefixes, key2, true, early, false);
      DroppedHidesNothing(ls[p.at..], section, key, section2, prefixes, key2, true, false, false);
    }
  }

  lemma WrittenReads(text: string, section: string, key: string, values: seq<string>, section2: string,
                     prefixes: string, key2: string)
    requires ValidKey(key) && ValidSection(section) && ValidKey(key2) && ValidSection(section2) && values != []
    requires !(SameText(section, section2) && SameText(key, key2)) && (prefixes == "" || prefixes == "+.")
    requires ArrayInert(section, key, values, section2, key2)
    ensures Values(SplitKeep(UpsertRepeated(text, section, key, values)), section2, prefixes, key2, false) ==
            Values(SplitKeep(text), section2, prefixes, key2, false)
  {
    hide Values, State, SplitKeep, BlockText, SameText, ValidKey, ValidSection, AreLines, Drop, Scan, Placed, Find,
        UpsertRepeated, PlusLines, Ahead, Kept;
    var ls, m, mid, w := SplitKeep(text), Live(key), SplitKeep(BlockText(key, values)), SameText(section, section2);
    var pre, suf := WrittenText(text, section, key, values);
    var p := Find(ls, section, m, 0, false);
    PlacedInside(ls, section, m, p);
    CurrentToBoth(pre, section, m, section2);
    ReadersSplit(pre, mid, suf, section2, prefixes, key2);
    AheadReads(ls, section, m, p, PlusLines(key, values), section2, prefixes, key2);
    if State(mid, section2, w) != w {
      KeptEarly(ls, section, key, p, section2, prefixes, key2, State(mid, section2, w));
    }
  }

  lemma PlacedInside(ls: seq<string>, section: string, m: Match, p: Place)
    requires Placed(ls, section, m, p)
    ensures !p.Absent? ==> p.at <= |ls|
  {
  }

  lemma FramedByInert(text: string, section: string, key: string, values: seq<string>, section2: string, key2: string)
    requires ValidKey(key) && ValidSection(section) && ValidKey(key2) && ValidSection(section2)
    requires !(SameText(section, section2) && SameText(key, key2)) && ArrayInert(section, key, values, section2, key2)
    ensures ReadsAsBefore(text, UpsertRepeated(text, section, key, values), section2, key2)
  {
    hide ArrayInert, ValidKey, ValidSection, SameText, Values, SplitKeep;
    if values == [] {
      BlockFrame(text, section, Live(key), [], section2, key2);
    } else {
      hide UpsertRepeated;
      WrittenReads(text, section, key, values, section2, "", key2);
      WrittenReads(text, section, key, values, section2, "+.", key2);
      SameReadings(UpsertRepeated(text, section, key, values), text, section2, key2);
    }
  }

  // --------------------------------------------------------------- both ways

  /** What is written into an empty text is what the other reader is told. */
  lemma ArrayAlone(section: string, key: string, values: seq<string>, section2: string, prefixes: string, key2: string)
    requires ValidKey(key) && ValidSection(section) && ValidKey(key2) && ValidSection(section2) && values != []
    requires prefixes == "" || prefixes == "+."
    ensures Values(Split(UpsertRepeated("", section, key, values)), section2, prefixes, key2, false) ==
            Values(SplitKeep(BlockText(key, values)), section2, prefixes, key2, SameText(section, section2))
    ensures Split("") == [] && Values([], section2, prefixes, key2, false) == []
  {
    hide SplitKeep, HeaderLines, ValidKey, ValidSection, SameText, State, Header, Target, ValueOf, UpsertRepeated,
        BlockText, PlusLines, Scan, Drop;
    var m, mid, header := Live(key), SplitKeep(BlockText(key, values)), HeaderLines(section);
    var pre, suf := WrittenText("", section, key, values);
    SplitNothing();
    assert pre == Close([]) + header && suf == [];
    assert pre == header && pre + mid + suf == header + mid;
    ValuesChomp(header + mid, section2, prefixes, key2, false);
    NewSectionSilent([], section, section2, prefixes, key2);
    CurrentToBoth(header, section, m, section2);
    ValuesConcat(header, mid, section2, prefixes, key2, false);
  }

  /** The array owns its own bare entry, and not the other key's. */
  lemma NeighbourHits(section: string, key: string, key2: string)
    requires ValidKey(key) && ValidSection(section) && ValidKey(key2) && !SameText(key, key2)
    ensures var ls := Neighbours(section, key, key2); Hits(Live(key), ls[1]) && !Hits(Live(key), ls[2])
  {
    NeighboursSay(section, key, key2);
    BareEntry(key, "\n", section);
    SameSelf(key);
    hide Header, Target, Entry, ValidKey, ValidSection, ValueOf, Hits, SameText;
    var ls := Neighbours(section, key, key2);
    EntryIs(key, "");
    assert "" + "\n" == "\n";
    ReadsNoHit(ls[1], "", key, key);
    if Hits(Live(key), ls[2]) { HitIsSilent(Live(key), ls[2], "", key2); }
  }

  lemma SameSelf(s: string)
    ensures SameText(s, s)
  {
  }

  /** The other key, behind the array's own. */
  lemma NeighbourKept(section: string, key: string, key2: string)
    requires ValidKey(key) && ValidSection(section) && ValidKey(key2) && !SameText(key, key2)
    ensures var ls, m := Neighbours(section, key, key2), Live(key);
            && Scan([ls[0]], section, m, false) == Some(true) && Hits(m, ls[1])
            && Find(ls, section, m, 0, false) == Replace(1)
            && ls[..1] == [ls[0]] && Drop(ls[1..], section, m, true) == [ls[2]] && ls == [ls[0]] + [ls[1]] + [ls[2]]
  {
    hide Header, Target, Entry, ValidKey, ValidSection, ValueOf, Hits, SameText, Neighbours;
    NeighboursSay(section, key, key2);
    NeighbourHits(section, key, key2);
    var ls := Neighbours(section, key, key2);
    assert |ls| == 3 by { NeighbourCount(section, key, key2); }
    if Target(ls[2], section) { TargetIsHeader(ls[2], section); }
    PlacedSecond(ls, section, Live(key));
  }

  lemma NeighbourCount(section: string, key: string, key2: string)
    ensures |Neighbours(section, key, key2)| == 3
  {
  }

  lemma PlacedSecond(ls: seq<string>, section: string, m: Match)
    requires |ls| == 3 && Target(ls[0], section) && Header(ls[0])
    requires Hits(m, ls[1]) && !Header(ls[1]) && !Target(ls[1], section)
    requires !Hits(m, ls[2]) && !Header(ls[2]) && !Target(ls[2], section)
    ensures Scan([ls[0]], section, m, false) == Some(true) && Find(ls, section, m, 0, false) == Replace(1)
    ensures ls[..1] == [ls[0]] && Drop(ls[1..], section, m, true) == [ls[2]] && ls == [ls[0]] + [ls[1]] + [ls[2]]
  {
    hide Header, Target, Hits, Drop, Find, Scan;
    ScanOne(ls[0], section, m, false);
    assert ls[0..1] == [ls[0]];
    ScanFind(ls, section, m, 0, 1, false);
    FoundAt(ls, section, m, 1);
    Three(ls);
    assert ls[1..] == [ls[1]] + [ls[2]] && [ls[2]] == [ls[2]] + [];
    DropHead(ls[1], [ls[2]], section, m, true);
    DropHead(ls[2], [], section, m, true);
    DropsNothing(section, m, Next(ls[2], section, true));
  }

  /** Before and after the write, the other key is read where its section is current. */
  lemma NeighbourArray(section: string, key: string, values: seq<string>, section2: string, key2: string)
    requires ValidKey(key) && ValidSection(section) && ValidKey(key2) && ValidSection(section2) && values != []
    requires !SameText(key, key2)
    ensures var text, mid, w := Join(Neighbours(section, key, key2)), SplitKeep(BlockText(key, values)),
            SameText(section, section2);
            && Values(Split(text), section2, "", key2, false) == (if w then ["x"] else [])
            && (Values(mid, section2, "", key2, w) == [] ==>
                  Values(Split(UpsertRepeated(text, section, key, values)), section2, "", key2, false)
                  == if State(mid, section2, w) then ["x"] else [])
  {
    hide SplitKeep, Entry, ValidKey, ValidSection, SameText, State, Header, Target, ValueOf, Hits, Neighbours, Join,
        Values,
        Scan, AreLines, Find, ChompAll, BlockText, UpsertRepeated, PlusLines, Drop, IsLine, Ended;
    var ls, m, mid := Neighbours(section, key, key2), Live(key), SplitKeep(BlockText(key, values));
    assert |ls| == 3 by { NeighbourCount(section, key, key2); }
    NeighboursAreLines(section, key, key2);
    NeighboursSay(section, key, key2);
    NeighbourKept(section, key, key2);
    SplitJoin(ls);
    var text := Join(ls);
    var pre, suf := WrittenText(text, section, key, values);
    assert pre == [ls[0]] && suf == [ls[2]];
    CurrentToBoth([ls[0]], section, m, section2);
    SilentAfter([ls[0]], ls[1], section, m, section2, "", key2);
    AroundReads(ls[0], mid, ls[2], section, m, section2, key2);
    AroundReads(ls[0], [ls[1]], ls[2], section, m, section2, key2);
    ValuesChomp(ls, section2, "", key2, false);
    ValuesChomp(pre + mid + suf, section2, "", key2, false);
  }

  /** Whatever the text, another setting reads as before an array is written exactly when
      the written lines say nothing to its readers and do not move them into its section
      or out of it; the same key in another section bears that as well. */
  lemma RepeatedFrameIff(section: string, key: string, values: seq<string>, section2: string, key2: string)
    requires ValidKey(key) && ValidSection(section) && ValidKey(key2) && ValidSection(section2)
    requires !(SameText(section, section2) && SameText(key, key2))
    ensures (forall text :: ReadsAsBefore(text, UpsertRepeated(text, section, key, values), section2, key2))
            <==> ArrayInert(section, key, values, section2, key2)
  {
    hide SplitKeep, ValidKey, ValidSection, SameText, State, Values, UpsertRepeated, Neighbours, BlockText;
    if ArrayInert(section, key, values, section2, key2) {
      forall text ensures ReadsAsBefore(text, UpsertRepeated(text, section, key, values), section2, key2) {
        FramedByInert(text, section, key, values, section2, key2);
      }
    } else {
      if values == [] { NothingIsInert(section, key, section2, key2); }
      ArrayAlone(section, key, values, section2, "", key2);
      ArrayAlone(section, key, values, section2, "+.", key2);
      if !SameText(key, key2) { NeighbourArray(section, key, values, section2, key2); }
      var text := Join(Neighbours(section, key, key2));
      assert !ReadsAsBefore("", UpsertRepeated("", section, key, values), section2, key2)
          || !ReadsAsBefore(text, UpsertRepeated(text, section, key, values), section2, key2);
    }
  }

  lemma NothingIsInert(section: string, key: string, section2: string, key2: string)
    ensures ArrayInert(section, key, [], section2, key2)
  {
    SplitNothing();
    assert BlockText(key, []) == "";
  }

  // -------------------------------------------------------------- idempotence

  lemma LiveIsNoHeader(l: string, key: string)
    requires ValidKey(key) && Hits(Live(key), l)
    ensures !Header(l)
  {
    var i := SpaceEnd(l, 0);
    if AfterKey(l, i, key).Some? { KeyStart(l, i, key); }
    assert i < |l| && l[i] != '[' && !IsSpace(l[i]);
    var t := Strip(l);
    assert t != "" ==> t[0] == l[i..][0] == l[i];
  }

  /** Only lines that are all the array's own leave nothing behind. */
  lemma {:induction false} AllDropped(ls: seq<string>, section: string, key: string)
    requires ValidKey(key) && ValidSection(section)
    ensures Drop(ls, section, Live(key), true) == [] <==> forall l | l in ls :: Hits(Live(key), l)
    decreases ls
  {
    if ls != [] {
      var l, m := ls[0], Live(key);
      if Hits(m, l) { LiveIsNoHeader(l, key); }
      if Target(l, section) { TargetIsHeader(l, section); }
      hide Hits, Header, Target, ValidKey, ValidSection, Drop;
      assert ls == [l] + ls[1..];
      DropHead(l, ls[1..], section, m, true);
      AllDropped(ls[1..], section, key);
      assert forall x | x in ls :: x == l || x in ls[1..];
    }
  }

  lemma {:induction false} DropShrinks(ls: seq<string>, section: string, m: Match, within: bool)
    ensures |Drop(ls, section, m, within)| <= |ls|
    decreases ls
  {
    hide Hits, Header, Target;
    if ls != [] {
      var next := Next(ls[0], section, within);
      assert ls == [ls[0]] + ls[1..];
      DropHead(ls[0], ls[1..], section, m, within);
      DropShrinks(ls[1..], section, m, next);
    }
  }

  /** What loses nothing inside the section loses nothing outside it. */
  lemma {:induction false} DropsLess(ls: seq<string>, section: string, m: Match, within: bool)
    requires Drop(ls, section, m, true) == ls
    ensures Drop(ls, section, m, within) == ls
    decreases ls
  {
    hide Hits, Header, Target, Drop;
    if ls == [] {
      DropsNothing(section, m, within);
    } else {
      var l, rest := ls[0], ls[1..];
      var next := Next(l, section, true);
      assert ls == [l] + rest;
      DropHead(l, rest, section, m, true);
      DropHead(l, rest, section, m, within);
      DropShrinks(rest, section, m, next);
      assert Drop(rest, section, m, next) == rest;
      if next { DropsLess(rest, section, m, Next(l, section, within)); }
    }
  }

  /** The block starts with an entry of its own array. */
  lemma BlockStarts(key: string, values: seq<string>, section: string)
    requires ValidKey(key) && values != []
    ensures var mid := SplitKeep(BlockText(key, values));
            mid != [] && Hits(Live(key), mid[0]) && !Header(mid[0]) && !Target(mid[0], section)
  {
    hide SplitKeep, BlockText, Hits, Header, Target, IsLine, Ended, Entry, Past, FirstLine;
    BlockTextIs(key, values);
    PlusSplit(key, values[0]);
    PlusEntry(key, FirstLine(values[0]) + "\n", section);
  }

  /** Writing the array again puts the block where it was and keeps what the array does
      not own. */
  lemma WrittenTwice(text: string, section: string, key: string, values: seq<string>)
    requires ValidKey(key) && ValidSection(section) && values != []
    ensures var once, m := UpsertRepeated(text, section, key, values), Live(key);
            var lines, mid := SplitKeep(once), SplitKeep(BlockText(key, values));
            |SplitKeep(UpsertRepeated(once, section, key, values))| == |lines| + |Drop(mid, section, m, true)|
            && (Drop(mid, section, m, true) == [] ==> SplitKeep(UpsertRepeated(once, section, key, values)) == lines)
  {
    hide SplitKeep, BlockText, UpsertRepeated, Hits, Header, Target, Scan, Find, Drop, Placed, PlusLines, ValidKey,
        ValidSection, State;
    var m, mid, once := Live(key), SplitKeep(BlockText(key, values)), UpsertRepeated(text, section, key, values);
    var pre, suf := WrittenText(text, section, key, values);
    var lines := SplitKeep(once);
    BlockStarts(key, values, section);
    assert lines == pre + (mid + suf) && (mid + suf)[0] == mid[0];
    FindsHit(pre, mid + suf, section, m);
    var pre2, suf2 := WrittenText(once, section, key, values);
    assert lines[..|pre|] == pre && lines[|pre|..] == mid + suf;
    assert pre2 == pre && suf2 == Drop(mid + suf, section, m, true);
    DropConcat(mid, suf, section, m, true);
    DropsLess(suf, section, m, State(mid, section, true));
  }

  /** Writing the same array twice is writing it once exactly when every line it puts down
      is an entry of the array: a value that spans lines must hold nothing else. */
  lemma RepeatedIdempotentIff(text: string, section: string, key: string, values: seq<string>)
    requires ValidKey(key) && ValidSection(section)
    ensures var once := UpsertRepeated(text, section, key, values);
            UpsertRepeated(once, section, key, values) == once <==>
            forall l | l in SplitKeep(BlockText(key, values)) :: Hits(Live(key), l)
  {
    if values == [] {
      SplitNothing();
      assert BlockText(key, values) == "";
      BlockIdempotentIff(text, section, Live(key), []);
    } else {
      hide UpsertRepeated, SplitKeep, BlockText, Hits, ValidKey, ValidSection, Drop;
      var once := UpsertRepeated(text, section, key, values);
      WrittenTwice(text, section, key, values);
      AllDropped(SplitKeep(BlockText(key, values)), section, key);
      JoinSplit(once);
      JoinSplit(UpsertRepeated(once, section, key, values));
    }
  }
}
