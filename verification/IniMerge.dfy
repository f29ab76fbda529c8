/** The INI reconciliation engine (scripts/admin_ini_merge.py): single-pass writers over
    the lines of a text, and the readers they are paired with. */
module IniMerge {
  import opened Wrappers
  import opened Lines
  import opened Ascii
  import opened IniSyntax

  // ---------------------------------------------------------- where to write

  /** Replace the hit at a line, insert before a line, or the section is absent. */
  datatype Place = Replace(at: nat) | Insert(at: nat) | Absent

  /** The first hit in the first stretch of the section; failing that, the end of the
      stretch, before the blank line that separates it from the next header. */
  function Find(ls: seq<string>, section: string, m: Match, i: nat, within: bool): (p: Place)
    requires i <= |ls|
    ensures p.Replace? ==> i <= p.at < |ls|
    ensures p.Insert? ==> p.at <= |ls|
    decreases |ls| - i
  {
    if i == |ls| then if within then Insert(i) else Absent
    else if Target(ls[i], section) then Find(ls, section, m, i + 1, true)
    else if Header(ls[i]) then
      if !within then Find(ls, section, m, i + 1, false)
      else if i > 0 && Blank(ls[i - 1]) then Insert(i - 1)
      else Insert(i)
    else if within && Hits(m, ls[i]) then Replace(i)
    else Find(ls, section, m, i + 1, within)
  }

  function HeaderLines(section: string): seq<string> { ["\n", "[" + section + "]\n"] }

  // ------------------------------------------------------------ upsert_keyed

  function Entry(key: string, rendered: string): string { key + "=" + (rendered + "\n") }

  /** The lines after the key's own line is set; a rendered value may itself span lines. */
  function SetLines(ls: seq<string>, section: string, m: Match, entry: seq<string>): seq<string> {
    match Find(ls, section, m, 0, false)
    case Replace(p) => ls[..p] + entry + ls[p + 1..]
    case Insert(p) => if p == |ls| then Close(ls) + entry else ls[..p] + entry + ls[p..]
    case Absent => Close(ls) + HeaderLines(section) + entry
  }

  function UpsertKeyed(text: string, section: string, key: string, rendered: string): string {
    Join(SetLines(SplitKeep(text), section, Key(key), SplitKeep(Entry(key, rendered))))
  }

  lemma JoinOne(l: string)
    ensures Join([l]) == l
  {
    assert [l][1..] == [];
    assert l + "" == l;
  }

  lemma JoinThree(a: seq<string>, b: seq<string>, c: seq<string>)
    ensures Join(a + b + c) == Join(a) + Join(b) + Join(c)
  {
    JoinConcat(a + b, c);
    JoinConcat(a, b);
  }

  /** A separator newline appended after an unended last line. */
  lemma JoinClose(ls: seq<string>)
    ensures Join(Close(ls)) == if ls != [] && !Ended(ls[|ls| - 1]) then Join(ls) + "\n" else Join(ls)
  {
    hide Join, Ended, Close;
    if ls == [] {
      CloseNothing();
    } else {
      var front, last := FrontAndLast(ls);
      JoinCloseSplit(ls, front, last);
    }
  }

  lemma FrontAndLast(ls: seq<string>) returns (front: seq<string>, last: string)
    requires ls != []
    ensures ls == front + [last] && last == ls[|ls| - 1]
  {
    front, last := ls[..|ls| - 1], ls[|ls| - 1];
  }

  lemma CloseNothing()
    ensures Close([]) == []
  {
  }

  lemma JoinCloseSplit(ls: seq<string>, front: seq<string>, last: string)
    requires ls == front + [last]
    ensures Join(Close(ls)) == if Ended(last) then Join(ls) else Join(ls) + "\n"
  {
    hide *;
    JoinCloseLast(front, last);
  }

  lemma JoinCloseLast(front: seq<string>, last: string)
    ensures var ls := front + [last]; Join(Close(ls)) == if Ended(last) then Join(ls) else Join(ls) + "\n"
  {
    hide Join, Ended, Close;
    CloseIs(front, last);
    JoinEnded(front, last);
  }

  lemma CloseIs(front: seq<string>, last: string)
    ensures Close(front + [last]) == if Ended(last) then front + [last] else front + [last + "\n"]
  {
    hide Ended;
  }

  lemma JoinEnded(front: seq<string>, last: string)
    ensures Join(front + [last + "\n"]) == Join(front + [last]) + "\n"
  {
    hide Join;
    JoinLast(front, last);
    JoinLast(front, last + "\n");
    Regroup(Join(front), last);
  }

  lemma Regroup(a: string, b: string)
    ensures a + (b + "\n") == a + b + "\n"
  {
  }

  lemma JoinLast(front: seq<string>, last: string)
    ensures Join(front + [last]) == Join(front) + last
  {
    JoinConcat(front, [last]);
    JoinOne(last);
  }

  lemma JoinEntry(a: seq<string>, entry: string, c: seq<string>)
    ensures Join(a + SplitKeep(entry) + c) == Join(a + [entry] + c)
  {
    JoinThree(a, SplitKeep(entry), c);
    JoinThree(a, [entry], c);
    JoinOne(entry);
    JoinSplit(entry);
  }

  /** Append the line, after a newline when the last line lacks one. */
  method AppendLine(out: seq<string>, l: string) returns (r: seq<string>)
    ensures Join(r) == Join(Close(out)) + l
  {
    r := out;
    if r != [] && !Ended(r[|r| - 1]) {
      r := r + ["\n"];
      JoinConcat(out, ["\n"]);
      JoinOne("\n");
    }
    JoinClose(out);
    JoinConcat(r, [l]);
    JoinOne(l);
    r := r + [l];
  }

  /** The section ran out of lines: the block goes in before the header to come, or
      before the blank line that separates it. Its lines keep their order. */
  method BeforeHeader(out: seq<string>, block: seq<string>) returns (r: seq<string>)
    ensures r == Injected(out, block)
  {
    if out == [] || !Blank(out[|out| - 1]) {
      return out + block;
    }
    r := out;
    for j := 0 to |block|
      invariant r == out[..|out| - 1] + block[..j] + [out[|out| - 1]]
    {
      assert block[..j + 1] == block[..j] + [block[j]];
      r := r[..|r| - 1] + [block[j]] + [r[|r| - 1]];
    }
    assert block[..|block|] == block;
  }

  function Injected(out: seq<string>, block: seq<string>): seq<string> {
    if out != [] && Blank(out[|out| - 1]) then out[..|out| - 1] + block + [out[|out| - 1]] else out + block
  }

  method WriteKeyed(text: string, section: string, key: string, rendered: string) returns (r: string)
    requires ValidKey(key)
    ensures r == UpsertKeyed(text, section, key, rendered)
  {
    r := WriteEntry(SplitKeep(text), section, Key(key), Entry(key, rendered));
  }

  /** The loop of upsert_keyed: one entry, written once. */
  method WriteEntry(lines: seq<string>, section: string, m: Match, entry: string) returns (r: string)
    ensures r == Join(SetLines(lines, section, m, SplitKeep(entry)))
  {
    hide Hits, Header, Target, Join, Close, SplitKeep, HeaderLines;
    var out: seq<string> := [];
    var inTarget, sectionSeen, keyDone := false, false, false;
    ghost var place := Find(lines, section, m, 0, false);
    for i := 0 to |lines|
      invariant !keyDone ==> out == lines[..i] && sectionSeen == inTarget
      invariant !keyDone ==> place == Find(lines, section, m, i, inTarget)
      invariant keyDone ==> sectionSeen && Written(lines, place, entry, i, out)
    {
      var line := lines[i];
      if keyDone { WrittenOn(lines, place, entry, i, out); }
      if Target(line, section) {
        sectionSeen, inTarget := true, true;
        out := out + [line];
      } else if Header(line) {
        if inTarget && !keyDone {
          out := BeforeHeader(out, [entry]);
          InjectedWritten(lines, section, m, entry, i);
          WrittenOn(lines, place, entry, i, out);
          keyDone := true;
        }
        inTarget := false;
        out := out + [line];
      } else if inTarget && !keyDone && Hits(m, line) {
        out := out + [entry];
        keyDone := true;
      } else {
        out := out + [line];
      }
    }
    if !sectionSeen {
      r := AddSection(lines, section, entry);
    } else if !keyDone {
      r := AddLast(lines, entry);
    } else {
      WrittenAll(lines, section, m, entry, out);
      r := Join(out);
    }
  }

  method AddSection(out: seq<string>, section: string, entry: string) returns (r: string)
    ensures r == Join(Close(out) + HeaderLines(section) + SplitKeep(entry))
  {
    var ls := AppendLine(out, "\n[" + section + "]\n" + entry);
    AbsentText(out, section, entry);
    r := Join(ls);
  }

  method AddLast(out: seq<string>, entry: string) returns (r: string)
    ensures r == Join(Close(out) + SplitKeep(entry))
  {
    var ls := AppendLine(out, entry);
    JoinConcat(Close(out), SplitKeep(entry));
    JoinSplit(entry);
    r := Join(ls);
  }

  lemma WrittenOn(ls: seq<string>, place: Place, entry: string, i: nat, out: seq<string>)
    requires i < |ls| && Around(ls, place, entry, i, out)
    ensures Written(ls, place, entry, i + 1, out + [ls[i]])
  {
    if place.Replace? {
      assert ls[place.at + 1..i + 1] == ls[place.at + 1..i] + [ls[i]];
    } else {
      assert ls[place.at..i + 1] == ls[place.at..i] + [ls[i]];
    }
  }

  lemma InjectedWritten(ls: seq<string>, section: string, m: Match, entry: string, i: nat)
    requires i < |ls| && Header(ls[i]) && !Target(ls[i], section)
    ensures Find(ls, section, m, i, true).Insert? && Find(ls, section, m, i, true).at <= i
    ensures var p := Find(ls, section, m, i, true).at; Injected(ls[..i], [entry]) == ls[..p] + [entry] + ls[p..i]
  {
    if i > 0 && Blank(ls[i - 1]) {
      assert ls[..i][..i - 1] == ls[..i - 1] && ls[i - 1..i] == [ls[i - 1]];
    }
  }

  lemma WrittenAll(ls: seq<string>, section: string, m: Match, entry: string, out: seq<string>)
    requires Written(ls, Find(ls, section, m, 0, false), entry, |ls|, out)
    ensures Join(out) == Join(SetLines(ls, section, m, SplitKeep(entry)))
  {
    var place := Find(ls, section, m, 0, false);
    var rest := if place.Replace? then ls[place.at + 1..] else ls[place.at..];
    assert rest == if place.Replace? then ls[place.at + 1..|ls|] else ls[place.at..|ls|];
    JoinEntry(ls[..place.at], entry, rest);
  }

  /** The entry is in its place and the lines up to i have been copied around it. */
  predicate Around(ls: seq<string>, place: Place, entry: string, i: nat, out: seq<string>)
    requires i <= |ls|
  {
    && !place.Absent? && place.at <= i && (place.Replace? ==> place.at < i)
    && (place.Replace? ==> out == ls[..place.at] + [entry] + ls[place.at + 1..i])
    && (place.Insert? ==> out == ls[..place.at] + [entry] + ls[place.at..i])
  }

  predicate Written(ls: seq<string>, place: Place, entry: string, i: nat, out: seq<string>)
    requires i <= |ls|
  {
    Around(ls, place, entry, i, out) && place.at < i
  }

  lemma AbsentText(lines: seq<string>, section: string, entry: string)
    ensures Join(Close(lines) + HeaderLines(section) + SplitKeep(entry)) ==
            Join(Close(lines)) + ("\n[" + section + "]\n" + entry)
  {
    hide Join, Close, SplitKeep;
    var header := "[" + section + "]\n";
    JoinThree(Close(lines), HeaderLines(section), SplitKeep(entry));
    JoinSplit(entry);
    HeaderText(section);
    assert "\n" + header + entry == "\n[" + section + "]\n" + entry;
  }

  lemma HeaderText(section: string)
    ensures Join(HeaderLines(section)) == "\n" + ("[" + section + "]\n") == "\n[" + section + "]\n"
  {
    var header := "[" + section + "]\n";
    assert HeaderLines(section) == ["\n"] + [header];
    JoinConcat(["\n"], [header]);
    JoinOne("\n");
    JoinOne(header);
  }

  // ------------------------------------------ upsert_repeated, upsert_matched

  /** The lines without the section's hits. */
  function Drop(ls: seq<string>, section: string, m: Match, within: bool): seq<string>
    decreases ls
  {
    if ls == [] then []
    else if Target(ls[0], section) then [ls[0]] + Drop(ls[1..], section, m, true)
    else if Header(ls[0]) then [ls[0]] + Drop(ls[1..], section, m, false)
    else if within && Hits(m, ls[0]) then Drop(ls[1..], section, m, within)
    else [ls[0]] + Drop(ls[1..], section, m, within)
  }

  /** The lines after the section's hits gave way to the block of new lines. */
  function BlockLines(ls: seq<string>, section: string, m: Match, block: seq<string>): seq<string> {
    match Find(ls, section, m, 0, false)
    case Replace(p) => ls[..p] + block + Drop(ls[p..], section, m, true)
    case Insert(p) =>
      if block != [] && p == |ls| then Close(ls) + block else ls[..p] + block + Drop(ls[p..], section, m, true)
    case Absent => if block == [] then ls else Close(ls) + HeaderLines(section) + block
  }

  function UpsertBlock(text: string, section: string, m: Match, block: seq<string>): string {
    Join(BlockLines(SplitKeep(text), section, m, block))
  }

  function PlusLines(key: string, values: seq<string>): (ls: seq<string>)
    ensures |ls| == |values| && forall i | 0 <= i < |ls| :: ls[i] == "+" + Entry(key, values[i])
  {
    if values == [] then [] else ["+" + Entry(key, values[0])] + PlusLines(key, values[1..])
  }

  function UpsertRepeated(text: string, section: string, key: string, values: seq<string>): string {
    UpsertBlock(text, section, Live(key), PlusLines(key, values))
  }

  function EndAll(ls: seq<string>): (es: seq<string>)
    ensures |es| == |ls| && forall i | 0 <= i < |es| :: es[i] == if Ended(ls[i]) then ls[i] else ls[i] + "\n"
  {
    if ls == [] then [] else [if Ended(ls[0]) then ls[0] else ls[0] + "\n"] + EndAll(ls[1..])
  }

  function UpsertMatched(text: string, section: string, key: string, values: set<string>,
                         newLines: seq<string>): string {
    UpsertBlock(text, section, Holding(key, values), EndAll(newLines))
  }

  method WriteRepeated(text: string, section: string, key: string, values: seq<string>) returns (r: string)
    requires ValidKey(key)
    ensures r == UpsertRepeated(text, section, key, values)
  {
    r := WriteBlock(text, section, Live(key), PlusLines(key, values));
  }

  method WriteMatched(text: string, section: string, key: string, values: set<string>, newLines: seq<string>)
    returns (r: string)
    requires ValidKey(key)
    ensures r == UpsertMatched(text, section, key, values, newLines)
  {
    r := WriteBlock(text, section, Holding(key, values), EndAll(newLines));
  }

  /** Whether the section is current after the line. */
  predicate Next(l: string, section: string, within: bool) {
    if Target(l, section) then true else if Header(l) then false else within
  }

  predicate Dropped(l: string, section: string, m: Match, within: bool) {
    within && !Target(l, section) && !Header(l) && Hits(m, l)
  }

  lemma DropHead(l: string, rest: seq<string>, section: string, m: Match, within: bool)
    ensures Drop([l] + rest, section, m, within) ==
            (if Dropped(l, section, m, within) then [] else [l]) + Drop(rest, section, m, Next(l, section, within))
  {
    assert ([l] + rest)[1..] == rest;
  }

  /** What has been written so far, and the rest without its hits, make the result. */
  predicate OnTrack(ls: seq<string>, i: nat, section: string, m: Match, within: bool, out: seq<string>,
                    result: seq<string>)
    requires i <= |ls|
  {
    out + Drop(ls[i..], section, m, within) == result
  }

  lemma CopyOn(ls: seq<string>, i: nat, section: string, m: Match, within: bool, out: seq<string>, result: seq<string>)
    requires i < |ls| && OnTrack(ls, i, section, m, within, out, result)
    ensures OnTrack(ls, i + 1, section, m, Next(ls[i], section, within),
                    if Dropped(ls[i], section, m, within) then out else out + [ls[i]], result)
  {
    assert ls[i..] == [ls[i]] + ls[i + 1..];
    DropHead(ls[i], ls[i + 1..], section, m, within);
  }

  /** Leaving the section before any hit: the block goes in here. */
  lemma LeaveSection(ls: seq<string>, i: nat, section: string, m: Match, block: seq<string>, out: seq<string>)
    requires i < |ls| && Find(ls, section, m, 0, false) == Find(ls, section, m, i, true) && ValidKey(m.key)
    requires Header(ls[i]) && !Target(ls[i], section)
    requires out == Injected(ls[..i], block) || (block == [] && out == ls[..i])
    ensures OnTrack(ls, i, section, m, true, out, BlockLines(ls, section, m, block))
  {
    hide Hits, Header, Target, Blank, Drop, Find, BlockLines, ValidKey;
    InjectedNothing(ls[..i]);
    BlockAtHeader(ls, i, section, m, block);
    if i > 0 && Blank(ls[i - 1]) {
      var blank, rest := ls[i - 1], Drop(ls[i..], section, m, true);
      BlankIsPlain(blank, section, m);
      DropHead(blank, ls[i..], section, m, true);
      assert ls[i - 1..] == [blank] + ls[i..];
      BeforeBlank(ls, i, block, rest);
    }
  }

  lemma BeforeBlank(ls: seq<string>, i: nat, block: seq<string>, rest: seq<string>)
    requires 0 < i <= |ls| && Blank(ls[i - 1])
    ensures Injected(ls[..i], block) + rest == ls[..i - 1] + block + ([ls[i - 1]] + rest)
  {
    hide Blank;
    assert ls[..i][..i - 1] == ls[..i - 1];
  }

  lemma BlockAtHeader(ls: seq<string>, i: nat, section: string, m: Match, block: seq<string>)
    requires i < |ls| && Find(ls, section, m, 0, false) == Find(ls, section, m, i, true)
    requires Header(ls[i]) && !Target(ls[i], section)
    ensures var p := if i > 0 && Blank(ls[i - 1]) then i - 1 else i;
            BlockLines(ls, section, m, block) == ls[..p] + block + Drop(ls[p..], section, m, true)
  {
    hide Hits, Header, Target, Blank, Drop;
  }

  lemma InjectedNothing(out: seq<string>)
    ensures Injected(out, []) == out
  {
  }

  lemma FirstHit(ls: seq<string>, i: nat, section: string, m: Match, block: seq<string>)
    requires i < |ls| && Find(ls, section, m, 0, false) == Replace(i) && Dropped(ls[i], section, m, true)
    ensures OnTrack(ls, i + 1, section, m, true, ls[..i] + block, BlockLines(ls, section, m, block))
  {
    assert ls[i..] == [ls[i]] + ls[i + 1..];
    DropHead(ls[i], ls[i + 1..], section, m, true);
  }

  /** The one loop behind both array writers: the new lines go to the place, every hit
      of the section goes away. */
  method WriteBlock(text: string, section: string, m: Match, block: seq<string>) returns (r: string)
    requires ValidKey(m.key)
    ensures r == UpsertBlock(text, section, m, block)
  {
    JoinSplit(text);
    var out, sectionSeen, pending := WriteBlockLines(SplitKeep(text), section, m, block);
    if !sectionSeen && block == [] {
      return text;
    }
    if !sectionSeen {
      var headed := AppendLine(out, "\n[" + section + "]\n");
      AbsentBlock(out, section, block, headed);
      out := headed + block;
    } else if pending {
      out := AppendBlock(out, block);
    }
    r := Join(out);
  }

  method WriteBlockLines(lines: seq<string>, section: string, m: Match, block: seq<string>)
    returns (out: seq<string>, sectionSeen: bool, pending: bool)
    requires ValidKey(m.key)
    ensures sectionSeen == !Find(lines, section, m, 0, false).Absent?
    ensures pending ==> sectionSeen && block != []
    ensures !sectionSeen || pending ==> out == lines
    ensures pending ==> BlockLines(lines, section, m, block) == Close(lines) + block
    ensures sectionSeen && !pending ==> out == BlockLines(lines, section, m, block)
  {
    hide Hits, Header, Target, Blank, BlockLines, OnTrack, Drop, Close, HeaderLines;
    out := [];
    sectionSeen := false;
    var inTarget, written := false, false;
    ghost var passed := false;
    ghost var result := BlockLines(lines, section, m, block);
    for i := 0 to |lines|
      invariant !passed ==> out == lines[..i] && sectionSeen == inTarget && !written
      invariant !passed ==> Find(lines, section, m, 0, false) == Find(lines, section, m, i, inTarget)
      invariant passed ==> sectionSeen && (written || block == []) && !Find(lines, section, m, 0, false).Absent?
      invariant passed ==> OnTrack(lines, i, section, m, inTarget, out, result)
    {
      var line := lines[i];
      if passed { CopyOn(lines, i, section, m, inTarget, out, result); }
      if Target(line, section) {
        sectionSeen, inTarget := true, true;
        out := out + [line];
      } else if Header(line) {
        ghost var leaving := !passed && inTarget;
        if inTarget && !written && block != [] {
          out := BeforeHeader(out, block);
          written := true;
        }
        if leaving {
          LeaveSection(lines, i, section, m, block, out);
          CopyOn(lines, i, section, m, true, out, result);
          passed := true;
        }
        inTarget := false;
        out := out + [line];
      } else if inTarget && Hits(m, line) {
        if !passed {
          FirstHit(lines, i, section, m, block);
          passed := true;
        }
        if !written {
          assert block == [] ==> out + block == out;
          out := out + block;
          written := true;
        }
      } else {
        out := out + [line];
      }
    }
    pending := sectionSeen && inTarget && !written && block != [];
    assert lines[..|lines|] == lines;
    if passed {
      PassedEnd(lines, section, m, inTarget, out, result);
    } else {
      UndecidedEnd(lines, section, m, block, inTarget);
    }
  }

  lemma PassedEnd(ls: seq<string>, section: string, m: Match, within: bool, out: seq<string>, result: seq<string>)
    requires OnTrack(ls, |ls|, section, m, within, out, result)
    ensures out == result
  {
    assert ls[|ls|..] == [] && out + [] == out;
  }

  /** At the end of the text with nothing decided: the block goes last, or the section is absent. */
  lemma UndecidedEnd(ls: seq<string>, section: string, m: Match, block: seq<string>, within: bool)
    requires Find(ls, section, m, 0, false) == Find(ls, section, m, |ls|, within)
    ensures Find(ls, section, m, 0, false).Absent? == !within
    ensures within ==> BlockLines(ls, section, m, block) == if block == [] then ls else Close(ls) + block
  {
    hide Close;
    assert ls[|ls|..] == [] && ls[..|ls|] == ls && ls + [] + [] == ls;
  }

  lemma AbsentBlock(lines: seq<string>, section: string, block: seq<string>, out: seq<string>)
    requires Join(out) == Join(Close(lines)) + ("\n[" + section + "]\n")
    ensures Join(out + block) == Join(Close(lines) + HeaderLines(section) + block)
  {
    JoinConcat(out, block);
    JoinThree(Close(lines), HeaderLines(section), block);
    HeaderText(section);
  }

  method AppendBlock(out: seq<string>, block: seq<string>) returns (r: seq<string>)
    ensures Join(r) == Join(Close(out) + block)
  {
    r := out;
    if r != [] && !Ended(r[|r| - 1]) {
      r := r + ["\n"];
      JoinConcat(out, ["\n"]);
      JoinOne("\n");
    }
    JoinClose(out);
    JoinConcat(r, block);
    JoinConcat(Close(out), block);
    r := r + block;
  }

  // -------------------------------------------------------------- upsert_flat

  function FindFlat(ls: seq<string>, key: string, i: nat): (p: nat)
    requires i <= |ls|
    ensures i <= p <= |ls|
    decreases |ls| - i
  {
    if i == |ls| || Hits(Key(key), ls[i]) then i else FindFlat(ls, key, i + 1)
  }

  function FlatLines(ls: seq<string>, key: string, entry: seq<string>): seq<string> {
    var p := FindFlat(ls, key, 0);
    if p == |ls| then Close(ls) + entry else ls[..p] + entry + ls[p + 1..]
  }

  function UpsertFlat(text: string, key: string, value: string): string {
    Join(FlatLines(SplitKeep(text), key, SplitKeep(Entry(key, value))))
  }

  method WriteFlat(text: string, key: string, value: string) returns (r: string)
    ensures r == UpsertFlat(text, key, value)
  {
    r := WriteFlatEntry(SplitKeep(text), key, Entry(key, value));
  }

  method WriteFlatEntry(lines: seq<string>, key: string, entry: string) returns (r: string)
    ensures r == Join(FlatLines(lines, key, SplitKeep(entry)))
  {
    hide Hits, Close, Join, SplitKeep;
    var out: seq<string> := [];
    var replaced := false;
    ghost var p := FindFlat(lines, key, 0);
    for i := 0 to |lines|
      invariant !replaced ==> out == lines[..i] && p == FindFlat(lines, key, i)
      invariant replaced ==> Written(lines, Replace(p), entry, i, out)
    {
      if !replaced && Hits(Key(key), lines[i]) {
        out := out + [entry];
        replaced := true;
      } else {
        out := out + [lines[i]];
      }
    }
    if replaced {
      assert lines[p + 1..|lines|] == lines[p + 1..];
      JoinEntry(lines[..p], entry, lines[p + 1..]);
      r := Join(out);
    } else {
      assert out == lines;
      r := AddLast(out, entry);
    }
  }

  // ------------------------------------------------------------------ readers

  /** Every value the section holds under the key, in file order. */
  function Values(ls: seq<string>, section: string, prefixes: string, key: string, within: bool): seq<string>
    decreases ls
  {
    if ls == [] then []
    else ValueAt(ls[0], section, prefixes, key, within)
         + Values(ls[1..], section, prefixes, key, Next(ls[0], section, within))
  }

  function ValueAt(l: string, section: string, prefixes: string, key: string, within: bool): seq<string> {
    if within && !Target(l, section) && !Header(l) && ValueOf(l, prefixes, key).Some?
    then [ValueOf(l, prefixes, key).value]
    else []
  }

  function First(values: seq<string>): Option<string> { if values == [] then None else Some(values[0]) }

  function Comma(values: seq<string>): string {
    if values == [] then ""
    else if |values| == 1 then values[0]
    else values[0] + "," + Comma(values[1..])
  }

  /** read_keyed: the first value. */
  function ReadKeyed(text: string, section: string, key: string): Option<string> {
    First(Values(Split(text), section, "", key, false))
  }

  /** read_repeated: every value, joined by commas. */
  function ReadRepeated(text: string, section: string, key: string): Option<string> {
    var values := Values(Split(text), section, "+.", key, false);
    if values == [] then None else Some(Comma(values))
  }

  function FlatValues(ls: seq<string>, key: string): seq<string> {
    if ls == [] then []
    else
      var v := ValueOf(ls[0], "", key);
      (if v.Some? then [v.value] else []) + FlatValues(ls[1..], key)
  }

  function ReadFlat(text: string, key: string): Option<string> { First(FlatValues(Split(text), key)) }

  method FindKeyed(text: string, section: string, key: string) returns (r: Option<string>)
    ensures r == ReadKeyed(text, section, key)
  {
    hide ValueOf, Target, Header, ChompAll, SplitKeep;
    var lines := Split(text);
    var inTarget := false;
    for i := 0 to |lines|
      invariant ReadKeyed(text, section, key) == First(Values(lines[i..], section, "", key, inTarget))
    {
      assert lines[i..][0] == lines[i] && lines[i..][1..] == lines[i + 1..];
      if Target(lines[i], section) {
        inTarget := true;
      } else if Header(lines[i]) {
        inTarget := false;
      } else if inTarget {
        var v := ValueOf(lines[i], "", key);
        if v.Some? {
          return v;
        }
      }
    }
    return None;
  }

  method FindRepeated(text: string, section: string, key: string) returns (r: Option<string>)
    ensures r == ReadRepeated(text, section, key)
  {
    hide ValueOf, Target, Header, ChompAll, SplitKeep;
    var lines := Split(text);
    var inTarget := false;
    var vals: seq<string> := [];
    ghost var all := Values(lines, section, "+.", key, false);
    for i := 0 to |lines|
      invariant all == vals + Values(lines[i..], section, "+.", key, inTarget)
    {
      assert lines[i..][0] == lines[i] && lines[i..][1..] == lines[i + 1..];
      if Target(lines[i], section) {
        inTarget := true;
      } else if Header(lines[i]) {
        inTarget := false;
      } else if inTarget {
        var v := ValueOf(lines[i], "+.", key);
        if v.Some? {
          vals := vals + [v.value];
        }
      }
    }
    assert lines[|lines|..] == [] && vals + [] == vals;
    if vals == [] {
      return None;
    }
    return Some(Comma(vals));
  }

  method FindFlatValue(text: string, key: string) returns (r: Option<string>)
    ensures r == ReadFlat(text, key)
  {
    var lines := Split(text);
    for i := 0 to |lines|
      invariant ReadFlat(text, key) == First(FlatValues(lines[i..], key))
    {
      assert lines[i..][0] == lines[i] && lines[i..][1..] == lines[i + 1..];
      var v := ValueOf(lines[i], "", key);
      if v.Some? {
        return v;
      }
    }
    return None;
  }
}
