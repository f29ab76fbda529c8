/** How the INI writers and readers see a text line by line: what a prefix decides, and
    which lines a reader ignores. */
module IniScan {
  import opened Wrappers
  import opened Lines
  import opened Ascii
  import opened IniSyntax
  import opened IniMerge

  /** Whether the section is current after the lines, None once the place to write has
      been decided. */
  function Scan(ls: seq<string>, section: string, m: Match, within: bool): Option<bool>
    decreases ls
  {
    if ls == [] then Some(within)
    else if Header(ls[0]) && !Target(ls[0], section) && within then None
    else if Dropped(ls[0], section, m, within) then None
    else Scan(ls[1..], section, m, Next(ls[0], section, within))
  }

  function State(ls: seq<string>, section: string, within: bool): bool
    decreases ls
  {
    if ls == [] then within else State(ls[1..], section, Next(ls[0], section, within))
  }

  lemma {:induction false} StateConcat(a: seq<string>, b: seq<string>, section: string, within: bool)
    ensures State(a + b, section, within) == State(b, section, State(a, section, within))
    decreases a
  {
    hide Hits, Header, Target;
    if a == [] {
      assert a + b == b;
    } else {
      assert (a + b)[1..] == a[1..] + b;
      StateConcat(a[1..], b, section, Next(a[0], section, within));
    }
  }

  lemma {:induction false} ScanConcat(a: seq<string>, b: seq<string>, section: string, m: Match, within: bool)
    ensures Scan(a + b, section, m, within) ==
            var w := Scan(a, section, m, within); if w.Some? then Scan(b, section, m, w.value) else None
    decreases a
  {
    hide Hits, Header, Target;
    if a == [] {
      assert a + b == b;
    } else {
      assert (a + b)[1..] == a[1..] + b;
      ScanConcat(a[1..], b, section, m, Next(a[0], section, within));
    }
  }

  lemma DropsNothing(section: string, m: Match, within: bool)
    ensures Drop([], section, m, within) == []
  {
  }

  lemma {:induction false} DropConcat(a: seq<string>, b: seq<string>, section: string, m: Match, within: bool)
    ensures Drop(a + b, section, m, within) == Drop(a, section, m, within)
            + Drop(b, section, m, State(a, section, within))
    decreases a
  {
    hide Hits, Header, Target, Drop, Dropped;
    if a == [] {
      assert a + b == b;
      DropsNothing(section, m, within);
    } else {
      var rest, next := a[1..] + b, Next(a[0], section, within);
      assert a + b == [a[0]] + rest && a == [a[0]] + a[1..];
      DropHead(a[0], rest, section, m, within);
      DropHead(a[0], a[1..], section, m, within);
      DropConcat(a[1..], b, section, m, next);
    }
  }

  lemma {:induction false} ValuesConcat(a: seq<string>, b: seq<string>, section: string, prefixes: string,
                                        key: string, within: bool)
    ensures Values(a + b, section, prefixes, key, within) ==
            Values(a, section, prefixes, key, within) + Values(b, section, prefixes, key, State(a, section, within))
    decreases a
  {
    hide ValueAt, Header, Target;
    if a == [] {
      assert a + b == b;
    } else {
      var next := Next(a[0], section, within);
      assert (a + b)[1..] == a[1..] + b;
      ValuesConcat(a[1..], b, section, prefixes, key, next);
    }
  }

  /** A prefix that decides nothing holds no hit and leaves the search where it ends. */
  lemma {:induction false} ScanFind(ls: seq<string>, section: string, m: Match, i: nat, j: nat, within: bool)
    requires i <= j <= |ls| && Scan(ls[i..j], section, m, within).Some?
    ensures Find(ls, section, m, i, within) == Find(ls, section, m, j, Scan(ls[i..j], section, m, within).value)
    decreases j - i
  {
    hide Hits, Header, Target, Blank;
    if i < j {
      assert ls[i..j][1..] == ls[i + 1..j];
      ScanFind(ls, section, m, i + 1, j, Next(ls[i], section, within));
    }
  }

  lemma FoundAt(ls: seq<string>, section: string, m: Match, p: nat)
    requires p < |ls| && Hits(m, ls[p]) && !Header(ls[p]) && !Target(ls[p], section)
    ensures Find(ls, section, m, p, true) == Replace(p)
  {
    hide Hits, Header, Target;
  }

  /** The first hit behind an undecided prefix is where the writer goes. */
  lemma FindsHit(pre: seq<string>, rest: seq<string>, section: string, m: Match)
    requires Scan(pre, section, m, false) == Some(true) && rest != []
    requires Hits(m, rest[0]) && !Header(rest[0]) && !Target(rest[0], section)
    ensures Find(pre + rest, section, m, 0, false) == Replace(|pre|)
  {
    hide Hits, Header, Target, Find, Scan;
    var ls := pre + rest;
    assert ls[0..|pre|] == pre && ls[|pre|] == rest[0];
    ScanFind(ls, section, m, 0, |pre|, false);
    FoundAt(ls, section, m, |pre|);
  }

  lemma {:induction false} ScanState(ls: seq<string>, section: string, m: Match, within: bool)
    requires Scan(ls, section, m, within).Some?
    ensures State(ls, section, within) == Scan(ls, section, m, within).value
    ensures Drop(ls, section, m, within) == ls
    decreases ls
  {
    hide Hits, Header, Target;
    if ls != [] { ScanState(ls[1..], section, m, Next(ls[0], section, within)); }
  }

  lemma ScanLast(ls: seq<string>, i: nat, section: string, m: Match)
    requires i < |ls|
    ensures Scan(ls[..i + 1], section, m, false) ==
            var w := Scan(ls[..i], section, m, false); if w.Some? then Scan([ls[i]], section, m, w.value) else None
  {
    assert ls[..i + 1] == ls[..i] + [ls[i]];
    ScanConcat(ls[..i], [ls[i]], section, m, false);
  }

  lemma ScanOne(l: string, section: string, m: Match, within: bool)
    ensures Scan([l], section, m, within) ==
            if (Header(l) && !Target(l, section) && within) || Dropped(l, section, m, within) then None
            else Some(Next(l, section, within))
  {
    hide Hits, Header, Target;
    assert [l][1..] == [];
  }

  /** What the place found says about the lines before it. */
  predicate Placed(ls: seq<string>, section: string, m: Match, p: Place) {
    match p
    case Replace(at) => at < |ls| && Scan(ls[..at], section, m, false) == Some(true)
      && Dropped(ls[at], section, m, true)
    case Insert(at) => at <= |ls| && Scan(ls[..at], section, m, false) == Some(true)
    case Absent => Scan(ls, section, m, false) == Some(false)
  }

  lemma {:induction false} FindPlaced(ls: seq<string>, section: string, m: Match, i: nat, within: bool)
    requires ValidKey(m.key) && i <= |ls| && Scan(ls[..i], section, m, false) == Some(within)
    ensures Placed(ls, section, m, Find(ls, section, m, i, within))
    decreases |ls| - i
  {
    hide Hits, Header, Target, Blank;
    if i == |ls| {
      assert ls[..i] == ls;
    } else {
      ScanLast(ls, i, section, m);
      ScanOne(ls[i], section, m, within);
      if Header(ls[i]) && !Target(ls[i], section) && within {
        if i > 0 && Blank(ls[i - 1]) { BlankBefore(ls, i, section, m); }
      } else if !Dropped(ls[i], section, m, within) {
        FindPlaced(ls, section, m, i + 1, Next(ls[i], section, within));
      }
    }
  }

  lemma BlankBefore(ls: seq<string>, i: nat, section: string, m: Match)
    requires ValidKey(m.key) && 0 < i <= |ls| && Scan(ls[..i], section, m, false) == Some(true) && Blank(ls[i - 1])
    ensures Scan(ls[..i - 1], section, m, false) == Some(true)
  {
    BlankIsPlain(ls[i - 1], section, m);
    hide Hits, Header, Target, Blank;
    ScanLast(ls, i - 1, section, m);
    var w := Scan(ls[..i - 1], section, m, false);
    if w.Some? { ScanOne(ls[i - 1], section, m, w.value); }
  }

  // ------------------------------------------------------- silent to a reader

  lemma BlankIsSilent(l: string, prefixes: string, key: string)
    requires Blank(l) && ValidKey(key)
    ensures ValueOf(l, prefixes, key) == None
  {
    NoKeyAtEnd(l, key);
  }

  /** Two sections are never current at once. */
  lemma {:induction false} OneCurrent(ls: seq<string>, a: string, b: string, inA: bool, inB: bool)
    requires ValidSection(a) && ValidSection(b) && (inA && inB ==> SameText(a, b))
    ensures State(ls, a, inA) && State(ls, b, inB) ==> SameText(a, b)
    decreases ls
  {
    if ls != [] {
      NextAgree(ls[0], a, b, inA, inB);
      hide Header, Target;
      OneCurrent(ls[1..], a, b, Next(ls[0], a, inA), Next(ls[0], b, inB));
    }
  }

  lemma NextAgree(l: string, a: string, b: string, inA: bool, inB: bool)
    requires ValidSection(a) && ValidSection(b) && (inA && inB ==> SameText(a, b))
    ensures Next(l, a, inA) && Next(l, b, inB) ==> SameText(a, b)
  {
    if Target(l, a) {
      TargetIsHeader(l, a);
      if Target(l, b) { OneSection(l, a, b); }
    } else if Target(l, b) {
      TargetIsHeader(l, b);
    }
  }

  /** Another reader passes over a line that some writer owns. */
  lemma OwnedIsSilent(l: string, m: Match, section: string, prefixes: string, key: string, within: bool)
    requires Hits(m, l) && !Header(l) && ValidKey(m.key) && ValidKey(key) && ValidSection(section)
    requires prefixes == "" || prefixes == "+."
    requires within ==> !SameText(m.key, key)
    ensures ValueAt(l, section, prefixes, key, within) == [] && Next(l, section, within) == within
  {
    hide Hits, Header, ValueOf;
    if Target(l, section) { TargetIsHeader(l, section); }
    if within { HitIsSilent(m, l, prefixes, key); }
  }

  // ------------------------------------------------------- line ends are inert

  lemma LineEndInert(l: string, section: string, m: Match, prefixes: string)
    requires ValidKey(m.key) && '\n' !in prefixes
    ensures Target(l + "\n", section) == Target(l, section) && Header(l + "\n") == Header(l)
    ensures Hits(m, l + "\n") == Hits(m, l)
    ensures ValueOf(l + "\n", prefixes, m.key) == ValueOf(l, prefixes, m.key)
  {
    hide Hits, ValueOf, Strip, ValidKey;
    StripEnd(l, "\n");
    HitsEnd(m, l);
    ValueOfEnd(l, prefixes, m.key);
  }

  /** A reader sees the same values with and without the line ends. */
  lemma {:induction false} ValuesChomp(ls: seq<string>, section: string, prefixes: string, key: string, within: bool)
    requires ValidKey(key) && '\n' !in prefixes
    ensures Values(ChompAll(ls), section, prefixes, key, within) == Values(ls, section, prefixes, key, within)
    ensures State(ChompAll(ls), section, within) == State(ls, section, within)
    decreases ls
  {
    hide Hits, ValueOf, Strip, Target, Header;
    if ls != [] {
      var c := Chomp(ls[0]);
      assert c == ls[0] || ls[0] == c + "\n";
      LineEndInert(c, section, Key(key), prefixes);
      ValuesChomp(ls[1..], section, prefixes, key, Next(ls[0], section, within));
      assert ChompAll(ls)[1..] == ChompAll(ls[1..]);
    }
  }

  lemma ChompClose(ls: seq<string>)
    ensures ChompAll(Close(ls)) == ChompAll(ls)
  {
    if ls != [] && !Ended(ls[|ls| - 1]) {
      var front, last := ls[..|ls| - 1], ls[|ls| - 1];
      assert ls == front + [last];
      ChompConcat(front, [last]);
      ChompConcat(front, [last + "\n"]);
      assert (last + "\n")[..|last|] == last;
    }
  }

  /** Ending the last line changes nothing a reader sees. */
  lemma CloseInert(ls: seq<string>, section: string, prefixes: string, key: string)
    requires ValidKey(key) && '\n' !in prefixes
    ensures Values(Close(ls), section, prefixes, key, false) == Values(ls, section, prefixes, key, false)
    ensures State(Close(ls), section, false) == State(ls, section, false)
  {
    hide Close;
    ChompClose(ls);
    ValuesChomp(ls, section, prefixes, key, false);
    ValuesChomp(Close(ls), section, prefixes, key, false);
  }

  lemma ScanClose(ls: seq<string>, section: string, m: Match)
    requires ValidKey(m.key)
    ensures Scan(Close(ls), section, m, false) == Scan(ls, section, m, false)
  {
    if ls != [] && !Ended(ls[|ls| - 1]) {
      var n := |ls| - 1;
      var closed := Close(ls);
      LineEndInert(ls[n], section, m, "");
      hide Hits, Header, Target;
      assert closed[..n] == ls[..n] && closed[..n + 1] == closed && ls[..n + 1] == ls;
      ScanLast(ls, n, section, m);
      ScanLast(closed, n, section, m);
      var w := Scan(ls[..n], section, m, false);
      if w.Some? {
        ScanOne(ls[n], section, m, w.value);
        ScanOne(ls[n] + "\n", section, m, w.value);
      }
    }
  }

  lemma CloseIsLines(ls: seq<string>)
    requires AreLines(ls)
    ensures AreLines(Close(ls)) && (Close(ls) != [] ==> Ended(Close(ls)[|Close(ls)| - 1]))
  {
  }

  /** A new section starts at the end of any text. */
  lemma ScanNewSection(ls: seq<string>, section: string, m: Match)
    requires ValidKey(m.key) && ValidSection(section) && Scan(ls, section, m, false) == Some(false)
    ensures Scan(Close(ls) + HeaderLines(section), section, m, false) == Some(true)
  {
    HeaderLine(section);
    BlankIsPlain("\n", section, m);
    hide Hits, Header, Target;
    var header := "[" + section + "]\n";
    ScanClose(ls, section, m);
    assert Close(ls) + HeaderLines(section) == Close(ls) + ["\n"] + [header];
    ScanConcat(Close(ls) + ["\n"], [header], section, m, false);
    ScanConcat(Close(ls), ["\n"], section, m, false);
    ScanOne("\n", section, m, false);
    ScanOne(header, section, m, false);
  }
}
