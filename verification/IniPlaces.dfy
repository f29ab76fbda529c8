/** Where the INI writers put an entry and what they take away, line by line: which lines
    they own, which line they replace, before which line they insert, what they append. */
module IniPlaces {
  import opened Wrappers
  import opened Lines
  import opened Ascii
  import opened IniSyntax
  import opened IniMerge

  // ------------------------------------------------------------- reading a line

  /** The key stands at i, whatever its case, and its equals sign at e, white space between. */
  predicate KeyEquals(l: string, key: string, i: nat, e: nat) {
    && i + |key| <= e < |l| && l[e] == '='
    && (forall k | 0 <= k < |key| :: Alike(l[i + k], key[k]))
    && (forall k | i + |key| <= k < e :: White(l[k]))
  }

  /** White space and semicolons, nothing else, stand before i. */
  predicate Commented(l: string, i: nat) { forall k | 0 <= k < i && k < |l| :: White(l[k]) || l[k] == ';' }

  /** White space stands before i, but for at most one mark right before it. */
  predicate Marked(l: string, i: nat, marks: string) {
    i <= |l| && forall k | 0 <= k < i :: White(l[k]) || (k == i - 1 && l[k] in marks)
  }

  lemma KeyEqualsIs(l: string, key: string, i: nat, e: nat)
    requires i <= |l| && ValidKey(key)
    ensures AfterKey(l, i, key) == Some(e + 1) <==> KeyEquals(l, key, i, e)
  {
    forall k | i + k < |l| && 0 <= k < |key| ensures Alike(l[i + k], key[k]) <==> Lower(l[i + k]) == Lower(key[k]) {
      AlikeIsLower(l[i + k], key[k]);
    }
    if KeyEquals(l, key, i, e) {
      SpaceEndUnique(l, i + |key|, e);
    }
  }

  lemma {:induction false} NoiseIs(l: string, i: nat, j: nat)
    requires i <= j <= |l| && (forall k | i <= k < j :: IsSpace(l[k]) || l[k] == ';')
    requires j < |l| ==> !IsSpace(l[j]) && l[j] != ';'
    ensures NoiseEnd(l, i) == j
    decreases j - i
  {
    if i < j { NoiseIs(l, i + 1, j); }
  }

  /** A keyed writer owns the lines that set its key, commented out or not. */
  lemma KeyedOwns(l: string, key: string)
    requires ValidKey(key)
    ensures Hits(Key(key), l) <==> exists i: nat, e: nat :: Commented(l, i) && KeyEquals(l, key, i, e)
  {
    var n := NoiseEnd(l, 0);
    if Hits(Key(key), l) {
      var e := AfterKey(l, n, key).value - 1;
      KeyEqualsIs(l, key, n, e);
      assert Commented(l, n);
    }
    if i: nat, e: nat :| Commented(l, i) && KeyEquals(l, key, i, e) {
      StartIs(l, key, i, e);
      NoiseIs(l, 0, i);
      KeyEqualsIs(l, key, i, e);
    }
  }

  lemma StartIs(l: string, key: string, i: nat, e: nat)
    requires ValidKey(key) && KeyEquals(l, key, i, e)
    ensures i < |l| && l[i] !in ";[-+.!" && !IsSpace(l[i])
  {
    assert Alike(l[i + 0], key[0]);
    AlikeIsLower(l[i], key[0]);
  }

  /** A marked key is where the readers and the array writers find it. */
  lemma MarkedIsFound(l: string, marks: string, key: string, i: nat, e: nat)
    requires ValidKey(key) && marks in ["", "+.", "-+.!"] && Marked(l, i, marks) && KeyEquals(l, key, i, e)
    ensures AfterPrefixed(l, marks, key) == Some(e + 1)
  {
    StartIs(l, key, i, e);
    KeyEqualsIs(l, key, i, e);
    if i > 0 && !White(l[i - 1]) {
      SpaceEndUnique(l, 0, i - 1);
      MarkIsNoKey(l, key, i - 1, marks);
    } else {
      SpaceEndUnique(l, 0, i);
    }
  }

  lemma MarkIsNoKey(l: string, key: string, i: nat, marks: string)
    requires ValidKey(key) && marks in ["", "+.", "-+.!"] && i < |l| && l[i] in marks
    ensures AfterKey(l, i, key) == None
  {
    if LiteralAt(l, i, key) { KeyStart(l, i, key); }
  }

  lemma FoundIsMarked(l: string, marks: string, key: string) returns (i: nat, e: nat)
    requires ValidKey(key) && AfterPrefixed(l, marks, key).Some?
    ensures AfterPrefixed(l, marks, key) == Some(e + 1) && Marked(l, i, marks) && KeyEquals(l, key, i, e)
  {
    var s := SpaceEnd(l, 0);
    i := if AfterKey(l, s, key).Some? then s else s + 1;
    e := AfterPrefixed(l, marks, key).value - 1;
    KeyEqualsIs(l, key, i, e);
  }

  /** An array writer owns every live form of its key: bare, or behind one of the four array
      marks. A comment is not its own. */
  lemma ArrayOwns(l: string, key: string)
    requires ValidKey(key)
    ensures Hits(Live(key), l) <==> exists i: nat, e: nat :: Marked(l, i, "-+.!") && KeyEquals(l, key, i, e)
  {
    hide AfterPrefixed, Marked, KeyEquals;
    if Hits(Live(key), l) { var i, e := FoundIsMarked(l, "-+.!", key); }
    if i: nat, e: nat :| Marked(l, i, "-+.!") && KeyEquals(l, key, i, e) { MarkedIsFound(l, "-+.!", key, i, e); }
  }

  /** The matched writer owns those of them that hold, stripped, a listed value. */
  lemma MatchedOwns(l: string, key: string, values: set<string>)
    requires ValidKey(key)
    ensures Hits(Holding(key, values), l) <==>
            exists i: nat, e: nat :: Marked(l, i, "-+.!") && KeyEquals(l, key, i, e) && Strip(l[e + 1..]) in values
  {
    hide AfterPrefixed, Marked, Strip;
    if Hits(Holding(key, values), l) { var i, e := FoundIsMarked(l, "-+.!", key); }
    if i: nat, e: nat :| Marked(l, i, "-+.!") && KeyEquals(l, key, i, e) && Strip(l[e + 1..]) in values {
      MarkedIsFound(l, "-+.!", key, i, e);
    }
  }

  /** A reader takes from a line what stands behind the key and its equals sign, stripped:
      the keyed one a bare key only, the array one a key behind a plus sign or a dot too. */
  lemma ReadsLine(l: string, marks: string, key: string, v: string)
    requires ValidKey(key) && marks in ["", "+."]
    ensures ValueOf(l, marks, key) == Some(v) <==>
            exists i: nat, e: nat :: Marked(l, i, marks) && KeyEquals(l, key, i, e) && v == Strip(l[e + 1..])
  {
    hide AfterPrefixed, Marked, Strip;
    if ValueOf(l, marks, key) == Some(v) { var i, e := FoundIsMarked(l, marks, key); }
    if i: nat, e: nat :| Marked(l, i, marks) && KeyEquals(l, key, i, e) && v == Strip(l[e + 1..]) {
      MarkedIsFound(l, marks, key, i, e);
    }
  }

  /** Stripping leaves what stands between the outer white space. */
  predicate Core(s: string, i: nat, j: nat) {
    && i <= j <= |s|
    && (forall k | 0 <= k < |s| && !(i <= k < j) :: White(s[k]))
    && (i < j ==> !White(s[i]) && !White(s[j - 1]))
  }

  lemma StripIs(s: string, i: nat, j: nat)
    requires Core(s, i, j)
    ensures Strip(s) == s[i..j]
  {
    if i == j {
      SpaceEndUnique(s, 0, |s|);
      RTrimUnique(s[|s|..], 0);
    } else {
      SpaceEndUnique(s, 0, i);
      var rest := s[i..][j - i..];
      forall k | 0 <= k < |rest| ensures IsSpace(rest[k]) { assert rest[k] == s[j + k]; }
      RTrimUnique(s[i..], j - i);
      assert s[i..][..j - i] == s[i..j];
    }
  }

  lemma CoreOf(s: string) returns (i: nat, j: nat)
    ensures Core(s, i, j)
  {
    i := SpaceEnd(s, 0);
    var t := RTrim(s[i..]);
    j := i + |t|;
    forall k | j <= k < |s| ensures White(s[k]) { assert s[k] == s[i..][|t|..][k - j]; }
    if i < j { assert t[|t| - 1] == s[j - 1]; }
  }

  /** A header line: brackets around one or more characters, none of them a closing one. */
  lemma HeaderIs(l: string, i: nat, j: nat)
    requires Core(l, i, j)
    ensures Header(l) <==>
            j - i >= 3 && l[i] == '[' && l[j - 1] == ']' && forall k | i < k < j - 1 :: l[k] != ']'
  {
    StripIs(l, i, j);
    var t := Strip(l);
    if Header(l) {
      forall k | i < k < j - 1 ensures l[k] != ']' { assert l[k] == t[k - i]; }
    }
  }

  /** The header of the section: its name in brackets, whatever the case. */
  lemma TargetIs(l: string, section: string, i: nat, j: nat)
    requires Core(l, i, j)
    ensures Target(l, section) <==>
            j - i == |section| + 2 && l[i] == '[' && l[j - 1] == ']'
            && forall k | 0 <= k < |section| :: Alike(l[i + 1 + k], section[k])
  {
    hide Strip, Alike, Lower;
    StripIs(l, i, j);
    var t, b := Strip(l), "[" + section + "]";
    if j - i == |b| {
      forall k | 0 <= k < |b| ensures Lower(t[k]) == Lower(b[k]) <==> Alike(l[i + k], b[k]) {
        AlikeIsLower(t[k], b[k]);
      }
      Bracketed(l, section, i);
    }
  }

  lemma Bracketed(l: string, section: string, i: nat)
    requires i + |section| + 2 <= |l|
    ensures var b := "[" + section + "]";
            (forall k | 0 <= k < |b| :: Alike(l[i + k], b[k])) <==>
            l[i] == '[' && l[i + |section| + 1] == ']'
            && forall k | 0 <= k < |section| :: Alike(l[i + 1 + k], section[k])
  {
    var b := "[" + section + "]";
    assert Alike(l[i + 0], b[0]) <==> l[i] == '[';
    assert Alike(l[i + (|section| + 1)], b[|section| + 1]) <==> l[i + |section| + 1] == ']';
    hide Alike;
    if forall k | 0 <= k < |b| :: Alike(l[i + k], b[k]) {
      forall k | 0 <= k < |section| ensures Alike(l[i + 1 + k], section[k]) { assert Alike(l[i + (k + 1)], b[k + 1]); }
    }
    if l[i] == '[' && l[i + |section| + 1] == ']' && forall k | 0 <= k < |section| :: Alike(l[i + 1 + k], section[k]) {
      forall k | 0 <= k < |b| ensures Alike(l[i + k], b[k]) {
        if 0 < k <= |section| { assert Alike(l[i + 1 + (k - 1)], section[k - 1]); }
      }
    }
  }

  // -------------------------------------------------------- where a section runs

  /** A header of the section stands before line i with no other header since. */
  ghost predicate Inside(ls: seq<string>, section: string, i: nat) {
    exists h: nat | h < i && h < |ls| ::
      Target(ls[h], section) && forall k | h < k < i && k < |ls| :: Header(ls[k]) ==> Target(ls[k], section)
  }

  /** The line is the writer's own: in the section, no header, and a hit. */
  ghost predicate Owned(ls: seq<string>, section: string, m: Match, i: nat)
    requires i < |ls|
  {
    Inside(ls, section, i) && !Target(ls[i], section) && !Header(ls[i]) && Hits(m, ls[i])
  }

  /** The section first comes at line h, and its stretch runs up to line e: another header,
      or the end of the text. */
  ghost predicate Stretch(ls: seq<string>, section: string, h: nat, e: nat) {
    && h < e <= |ls| && Target(ls[h], section)
    && (forall k | 0 <= k < h :: !Target(ls[k], section))
    && (forall k | h < k < e :: Header(ls[k]) ==> Target(ls[k], section))
    && (e < |ls| ==> Header(ls[e]) && !Target(ls[e], section))
  }

  lemma InsideStep(ls: seq<string>, section: string, i: nat)
    requires i < |ls|
    ensures Inside(ls, section, i + 1) == Next(ls[i], section, Inside(ls, section, i))
  {
    hide Target, Header;
    if Target(ls[i], section) {
      assert Inside(ls, section, i + 1);
    } else if Header(ls[i]) {
    } else {
      if Inside(ls, section, i) {
        var h: nat :| h < i && h < |ls| && Target(ls[h], section)
                      && forall k | h < k < i && k < |ls| :: Header(ls[k]) ==> Target(ls[k], section);
        assert Inside(ls, section, i + 1);
      }
    }
  }

  lemma InsideStretch(ls: seq<string>, section: string, h: nat, e: nat, i: nat)
    requires Stretch(ls, section, h, e) && h < i <= e
    ensures Inside(ls, section, i)
  {
    assert h < i && h < |ls| && Target(ls[h], section);
  }

  // ---------------------------------------------------------- the place decided

  lemma {:induction false} BeforeSection(ls: seq<string>, section: string, m: Match, i: nat, j: nat)
    requires i <= j <= |ls| && forall k | i <= k < j :: !Target(ls[k], section)
    ensures Find(ls, section, m, i, false) == Find(ls, section, m, j, false)
    decreases j - i
  {
    hide Target, Header, Hits;
    if i < j { BeforeSection(ls, section, m, i + 1, j); }
  }

  lemma {:induction false} InSection(ls: seq<string>, section: string, m: Match, i: nat, j: nat)
    requires i <= j <= |ls|
    requires forall k | i <= k < j :: Header(ls[k]) ==> Target(ls[k], section)
    requires forall k | i <= k < j && !Target(ls[k], section) :: !Hits(m, ls[k])
    ensures Find(ls, section, m, i, true) == Find(ls, section, m, j, true)
    decreases j - i
  {
    hide Target, Header, Hits;
    if i < j { InSection(ls, section, m, i + 1, j); }
  }

  /** Without the section the writer finds no place; with it, its first own line of the
      first stretch; without one of those, the end of that stretch, before a blank line
      that separates it from the next header. */
  lemma PlaceIs(ls: seq<string>, section: string, m: Match, h: nat, e: nat)
    requires Stretch(ls, section, h, e)
    ensures forall p | h < p < e && Owned(ls, section, m, p) && (forall k | h < k < p :: !Owned(ls, section, m, k)) ::
              Find(ls, section, m, 0, false) == Replace(p)
    ensures (forall p | h < p < e :: !Owned(ls, section, m, p)) ==>
            Find(ls, section, m, 0, false) == Insert(if e < |ls| && Blank(ls[e - 1]) then e - 1 else e)
  {
    hide Target, Header, Hits;
    BeforeSection(ls, section, m, 0, h);
    forall p | h < p < e ensures Owned(ls, section, m, p) <==> !Target(ls[p], section) && Hits(m, ls[p]) {
      InsideStretch(ls, section, h, e, p);
    }
    hide Inside, Owned;
    forall p | h < p < e && Owned(ls, section, m, p) && (forall k | h < k < p :: !Owned(ls, section, m, k))
      ensures Find(ls, section, m, 0, false) == Replace(p)
    {
      forall k | h < k < p && !Target(ls[k], section) ensures !Hits(m, ls[k]) { assert !Owned(ls, section, m, k); }
      InSection(ls, section, m, h + 1, p);
    }
    if forall p | h < p < e :: !Owned(ls, section, m, p) {
      forall k | h < k < e && !Target(ls[k], section) ensures !Hits(m, ls[k]) { assert !Owned(ls, section, m, k); }
      InSection(ls, section, m, h + 1, e);
    }
  }

  lemma PlaceAbsent(ls: seq<string>, section: string, m: Match)
    requires forall l | l in ls :: !Target(l, section)
    ensures Find(ls, section, m, 0, false) == Absent
  {
    BeforeSection(ls, section, m, 0, |ls|);
  }

  // ------------------------------------------------------------ the keyed writer

  function Line(key: string, value: string): string { key + "=" + value + "\n" }

  lemma LineIs(key: string, value: string)
    ensures Entry(key, value) == Line(key, value)
  {
    assert key + "=" + (value + "\n") == key + "=" + value + "\n";
  }

  /** The text, ended. */
  function Closed(text: string): string {
    if text != "" && text[|text| - 1] != '\n' then text + "\n" else text
  }

  lemma ClosedIs(text: string)
    ensures Join(Close(SplitKeep(text))) == Closed(text)
  {
    JoinSplit(text);
    JoinClose(SplitKeep(text));
    if text != "" { JoinEnds(SplitKeep(text)); }
  }

  /** The first line the writer owns in the first stretch gives way to the new line, and
      nothing else changes. */
  lemma KeyedReplaces(text: string, section: string, key: string, rendered: string, h: nat, e: nat, p: nat)
    requires var ls := SplitKeep(text);
             && Stretch(ls, section, h, e) && h < p < e && Owned(ls, section, Key(key), p)
             && forall k | h < k < p :: !Owned(ls, section, Key(key), k)
    ensures var ls := SplitKeep(text);
            UpsertKeyed(text, section, key, rendered) == Join(ls[..p]) + Line(key, rendered) + Join(ls[p + 1..])
  {
    hide Find, Stretch, Owned, SplitKeep, Join, Close;
    var ls := SplitKeep(text);
    PlaceIs(ls, section, Key(key), h, e);
    JoinThree(ls[..p], SplitKeep(Entry(key, rendered)), ls[p + 1..]);
    JoinSplit(Entry(key, rendered));
    LineIs(key, rendered);
  }

  /** Without such a line the new one goes at the end of that stretch: before the next
      header and the blank line ahead of it, or last. */
  lemma KeyedInserts(text: string, section: string, key: string, rendered: string, h: nat, e: nat)
    requires var ls := SplitKeep(text);
             Stretch(ls, section, h, e) && forall k | h < k < e :: !Owned(ls, section, Key(key), k)
    ensures var ls := SplitKeep(text);
            var at := if e < |ls| && Blank(ls[e - 1]) then e - 1 else e;
            UpsertKeyed(text, section, key, rendered) ==
            if e == |ls| then Closed(text) + Line(key, rendered)
            else Join(ls[..at]) + Line(key, rendered) + Join(ls[at..])
  {
    hide Find, Owned, SplitKeep, Join, Close;
    var ls := SplitKeep(text);
    PlaceIs(ls, section, Key(key), h, e);
    hide Stretch;
    var at := if e < |ls| && Blank(ls[e - 1]) then e - 1 else e;
    LineIs(key, rendered);
    JoinSplit(Entry(key, rendered));
    if e == |ls| {
      JoinConcat(Close(ls), SplitKeep(Entry(key, rendered)));
      ClosedIs(text);
    } else {
      JoinThree(ls[..at], SplitKeep(Entry(key, rendered)), ls[at..]);
    }
  }

  /** Without the section both are appended, a blank line ahead. */
  lemma KeyedCreates(text: string, section: string, key: string, rendered: string)
    requires forall l | l in SplitKeep(text) :: !Target(l, section)
    ensures UpsertKeyed(text, section, key, rendered) ==
            Closed(text) + ("\n[" + section + "]\n" + Line(key, rendered))
  {
    hide Find, Target, SplitKeep, Join, Close;
    PlaceAbsent(SplitKeep(text), section, Key(key));
    AbsentText(SplitKeep(text), section, Entry(key, rendered));
    LineIs(key, rendered);
    ClosedIs(text);
  }

  // ------------------------------------------------------------ the array writers

  /** The lines from i on that are not the writer's own. */
  ghost function Without(ls: seq<string>, section: string, m: Match, i: nat): seq<string>
    requires i <= |ls|
    decreases |ls| - i
  {
    if i == |ls| then []
    else (if Owned(ls, section, m, i) then [] else [ls[i]]) + Without(ls, section, m, i + 1)
  }

  lemma {:induction false} DropIsWithout(ls: seq<string>, section: string, m: Match, i: nat)
    requires i <= |ls|
    ensures Drop(ls[i..], section, m, Inside(ls, section, i)) == Without(ls, section, m, i)
    decreases |ls| - i
  {
    hide Target, Header, Hits, Inside;
    if i < |ls| {
      InsideStep(ls, section, i);
      assert ls[i..] == [ls[i]] + ls[i + 1..];
      DropHead(ls[i], ls[i + 1..], section, m, Inside(ls, section, i));
      DropIsWithout(ls, section, m, i + 1);
    }
  }

  /** The first own line of the first stretch gives way to the block, the later ones, in any
      stretch of the section, go, and the rest stays as it is. */
  lemma BlockReplaces(text: string, section: string, m: Match, block: seq<string>, h: nat, e: nat, p: nat)
    requires var ls := SplitKeep(text);
             && Stretch(ls, section, h, e) && h < p < e && Owned(ls, section, m, p)
             && forall k | h < k < p :: !Owned(ls, section, m, k)
    ensures var ls := SplitKeep(text);
            UpsertBlock(text, section, m, block) == Join(ls[..p]) + Join(block) + Join(Without(ls, section, m, p + 1))
  {
    hide Find, SplitKeep, Join, Close, Drop, Target, Header, Hits, Inside;
    var ls := SplitKeep(text);
    PlaceIs(ls, section, m, h, e);
    DropIsWithout(ls, section, m, p);
    assert Without(ls, section, m, p) == [] + Without(ls, section, m, p + 1) == Without(ls, section, m, p + 1);
    JoinThree(ls[..p], block, Without(ls, section, m, p));
  }

  /** Without one the block goes at the end of that stretch, and the own lines of later
      stretches go. With nothing to write they go all the same. */
  lemma BlockInserts(text: string, section: string, m: Match, block: seq<string>, h: nat, e: nat)
    requires var ls := SplitKeep(text);
             Stretch(ls, section, h, e) && forall k | h < k < e :: !Owned(ls, section, m, k)
    ensures var ls := SplitKeep(text);
            var at := if e < |ls| && Blank(ls[e - 1]) then e - 1 else e;
            UpsertBlock(text, section, m, block) ==
            if e == |ls| then (if block == [] then text else Closed(text) + Join(block))
            else Join(ls[..at]) + Join(block) + Join(Without(ls, section, m, at))
  {
    hide Find, SplitKeep, Close, Drop, Target, Header, Hits, Inside, Owned;
    var ls := SplitKeep(text);
    PlaceIs(ls, section, m, h, e);
    var at := if e < |ls| && Blank(ls[e - 1]) then e - 1 else e;
    if at > h { InsideStretch(ls, section, h, e, at); } else { BlankTarget(ls[h], section); }
    hide Stretch, Join;
    DropIsWithout(ls, section, m, at);
    ClosedIs(text);
    JoinSplit(text);
    if e == |ls| {
      assert ls[..|ls|] == ls;
      JoinConcat(Close(ls), block);
      JoinThree(ls, [], []);
      assert Join([]) == "" by { JoinSplit(""); assert SplitKeep("") == []; }
    } else {
      JoinThree(ls[..at], block, Without(ls, section, m, at));
    }
  }

  lemma BlankTarget(l: string, section: string)
    ensures Blank(l) ==> !Target(l, section)
  {
    if Blank(l) { StripIs(l, 0, 0); }
  }

  /** Without the section it is created at the end, when there is something to write. */
  lemma BlockCreates(text: string, section: string, m: Match, block: seq<string>)
    requires forall l | l in SplitKeep(text) :: !Target(l, section)
    ensures UpsertBlock(text, section, m, block) ==
            if block == [] then text else Closed(text) + ("\n[" + section + "]\n") + Join(block)
  {
    hide Find, Target, SplitKeep, Join, Close, HeaderLines;
    var ls := SplitKeep(text);
    PlaceAbsent(ls, section, m);
    JoinSplit(text);
    JoinThree(Close(ls), HeaderLines(section), block);
    HeaderText(section);
    ClosedIs(text);
  }

  /** The lines the two array writers put down, and what each owns. */
  lemma ArrayWriters(text: string, section: string, key: string, values: seq<string>, matched: set<string>)
    ensures exists block ::
              && |block| == |values| && (forall i | 0 <= i < |block| :: block[i] == "+" + Line(key, values[i]))
              && UpsertRepeated(text, section, key, values) == UpsertBlock(text, section, Live(key), block)
    ensures exists block ::
              && |block| == |values| && (forall i | 0 <= i < |block| :: block[i] == Terminated(values[i]))
              && UpsertMatched(text, section, key, matched, values) ==
                 UpsertBlock(text, section, Holding(key, matched), block)
  {
    hide UpsertBlock;
    var plus, ended := PlusLines(key, values), EndAll(values);
    forall i | 0 <= i < |plus| ensures plus[i] == "+" + Line(key, values[i]) { LineIs(key, values[i]); }
    assert forall i | 0 <= i < |ended| :: ended[i] == Terminated(values[i]);
  }

  /** The line with a newline at its end, which an empty one lacks. */
  function Terminated(l: string): string { if l == "" || l[|l| - 1] != '\n' then l + "\n" else l }

  // ------------------------------------------------------------- the flat writer

  /** The first line of the file that sets the key, commented or not, gives way to the new
      line; without one the new line is appended. */
  lemma {:induction false} FlatFirst(ls: seq<string>, key: string, i: nat, p: nat)
    requires i <= p <= |ls| && (forall k | i <= k < p :: !Hits(Key(key), ls[k]))
    requires p < |ls| ==> Hits(Key(key), ls[p])
    ensures FindFlat(ls, key, i) == p
    decreases p - i
  {
    hide Hits;
    if i < p { FlatFirst(ls, key, i + 1, p); }
  }

  lemma FlatPlaces(text: string, key: string, value: string, p: nat)
    requires var ls := SplitKeep(text);
             && p <= |ls| && (forall k | 0 <= k < p :: !Hits(Key(key), ls[k]))
             && (p < |ls| ==> Hits(Key(key), ls[p]))
    ensures var ls := SplitKeep(text);
            UpsertFlat(text, key, value) ==
            if p == |ls| then Closed(text) + Line(key, value)
            else Join(ls[..p]) + Line(key, value) + Join(ls[p + 1..])
  {
    hide Hits, SplitKeep, Join, Close;
    var ls := SplitKeep(text);
    FlatFirst(ls, key, 0, p);
    LineIs(key, value);
    JoinSplit(Entry(key, value));
    if p == |ls| {
      JoinConcat(Close(ls), SplitKeep(Entry(key, value)));
      ClosedIs(text);
    } else {
      JoinThree(ls[..p], SplitKeep(Entry(key, value)), ls[p + 1..]);
    }
  }

  // ------------------------------------------------------------------ the readers

  /** What the section's lines from i on hold under the key. */
  ghost function Held(ls: seq<string>, section: string, marks: string, key: string, i: nat): seq<string>
    requires i <= |ls|
    decreases |ls| - i
  {
    if i == |ls| then []
    else
      (if Inside(ls, section, i) && !Header(ls[i]) && ValueOf(ls[i], marks, key).Some? then
         [ValueOf(ls[i], marks, key).value]
       else []) + Held(ls, section, marks, key, i + 1)
  }

  lemma {:induction false} ValuesAreHeld(ls: seq<string>, section: string, marks: string, key: string, i: nat)
    requires ValidSection(section) && i <= |ls|
    ensures Values(ls[i..], section, marks, key, Inside(ls, section, i)) == Held(ls, section, marks, key, i)
    decreases |ls| - i
  {
    if i < |ls| {
      assert ls[i..][0] == ls[i] && ls[i..][1..] == ls[i + 1..];
      if Target(ls[i], section) { TargetIsHeader(ls[i], section); }
      hide Target, Header, ValueOf;
      InsideStep(ls, section, i);
      hide Inside;
      ValuesAreHeld(ls, section, marks, key, i + 1);
    }
  }

  /** The keyed reader answers the first value the section holds; the array reader all of
      them, in order, comma between them. */
  lemma ReadersAnswer(text: string, section: string, key: string)
    requires ValidSection(section)
    ensures var held := Held(Split(text), section, "", key, 0);
            ReadKeyed(text, section, key) == if held == [] then None else Some(held[0])
    ensures var all := Held(Split(text), section, "+.", key, 0);
            ReadRepeated(text, section, key) == if all == [] then None else Some(Comma(all))
  {
    hide Split, Values, Held;
    var ls := Split(text);
    assert ls[0..] == ls;
    ValuesAreHeld(ls, section, "", key, 0);
    ValuesAreHeld(ls, section, "+.", key, 0);
  }
}
