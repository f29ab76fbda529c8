/** The base-backup wipe guard (scripts/admin_baseguard.py): one predicate added to a
    function definition, and taken out again. */
module BaseGuard {
  import opened Wrappers
  import opened Ascii

  function DetectWords(): seq<string> { ["IS", "DISTINCT", "FROM", "'BaseBackup'"] }
  function AnchorWords(): seq<string> { ["AND", "s.state", "IS", "DISTINCT", "FROM", "'VehicleRecovery'"] }
  function RemoveWords(): seq<string> { ["AND", "s.state", "IS", "DISTINCT", "FROM", "'BaseBackup'"] }

  /** The words with single spaces between them. */
  function Spaced(words: seq<string>): string {
    if words == [] then "" else if |words| == 1 then words[0] else words[0] + " " + Spaced(words[1..])
  }

  /** AND s.state IS DISTINCT FROM 'BaseBackup' */
  function Predicate(): string { Spaced(RemoveWords()) }

  // ---------------------------------------------------------------- patterns

  predicate At(s: string, i: nat, word: string) { i + |word| <= |s| && s[i..i + |word|] == word }

  /** The words at i, with white space between them: where they end. */
  function MatchWords(s: string, i: nat, words: seq<string>): (e: Option<nat>)
    ensures e.Some? ==> i <= e.value && (i <= |s| ==> e.value <= |s|)
    decreases words
  {
    if words == [] then Some(i)
    else if !At(s, i, words[0]) then None
    else
      var j := i + |words[0]|;
      if |words| == 1 then Some(j)
      else
        var k := SpaceEnd(s, j);
        if k == j then None else MatchWords(s, k, words[1..])
  }

  predicate IsApplied(s: string) { exists i | 0 <= i <= |s| :: MatchWords(s, i, DetectWords()).Some? }

  /** Where the run of blanks and tabs at i ends. */
  function TabEnd(s: string, i: nat): (j: nat)
    requires i <= |s|
    ensures i <= j <= |s| && (forall k | i <= k < j :: s[k] == ' ' || s[k] == '\t')
    ensures j < |s| ==> s[j] != ' ' && s[j] != '\t'
    decreases |s| - i
  {
    if i < |s| && (s[i] == ' ' || s[i] == '\t') then TabEnd(s, i + 1) else i
  }

  predicate LineStart(s: string, i: nat) { i <= |s| && (i == 0 || s[i - 1] == '\n') }

  /** The words alone on the line that starts at i: where its text ends, before the newline. */
  function LineOf(s: string, i: nat, words: seq<string>): (e: Option<nat>)
    requires i <= |s|
    ensures e.Some? ==> i <= e.value <= |s| && (e.value < |s| ==> s[e.value] == '\n')
  {
    var w := MatchWords(s, TabEnd(s, i), words);
    if w.None? then None
    else
      var t := TabEnd(s, w.value);
      var u := if t < |s| && s[t] == '\r' then t + 1 else t;
      if u == |s| || s[u] == '\n' then Some(u) else None
  }

  datatype Found = Nowhere | Found(start: nat, end: nat)

  /** The first line from i on that holds nothing but the words. */
  function FindLine(s: string, i: nat, words: seq<string>): (f: Found)
    requires i <= |s|
    ensures f.Found? ==> i <= f.start <= f.end <= |s|
    decreases |s| - i
  {
    if LineStart(s, i) && LineOf(s, i, words).Some? then Found(i, LineOf(s, i, words).value)
    else if i == |s| then Nowhere
    else FindLine(s, i + 1, words)
  }

  /** The words on a line of their own, with the newline that ends it. */
  predicate Removable(s: string, i: nat, words: seq<string>) {
    LineStart(s, i) && LineOf(s, i, words).Some? && LineOf(s, i, words).value < |s|
  }

  function FindRemovable(s: string, i: nat, words: seq<string>): (f: Found)
    requires i <= |s|
    ensures f.Found? ==> i <= f.start < f.end <= |s|
    decreases |s| - i
  {
    if Removable(s, i, words) then Found(i, LineOf(s, i, words).value + 1)
    else if i == |s| then Nowhere
    else FindRemovable(s, i + 1, words)
  }

  // -------------------------------------------------------------- operations

  datatype Reason = EmptyDefinition | AlreadyApplied | AnchorNotFound | Patched
                  | AlreadyAbsent | NotOnItsOwnLine | Reverted
  datatype Outcome = Outcome(ok: bool, reason: Reason, definition: string, changed: bool)

  /** The anchor line, a line end of its own style, and the predicate at its indent. */
  function WithPredicate(d: string, f: Found): string
    requires f.Found? && f.start <= f.end <= |d|
  {
    var text := d[f.start..f.end];
    var crlf := text != "" && text[|text| - 1] == '\r';
    var anchor := if crlf then text[..|text| - 1] else text;
    var indent := d[f.start..TabEnd(d, f.start)];
    d[..f.start] + (anchor + (if crlf then "\r\n" else "\n") + indent + Predicate() + (if crlf then "\r" else ""))
        + d[f.end..]
  }

  function AddPredicate(d: string): Outcome {
    if d == "" then Outcome(false, EmptyDefinition, "", false)
    else if IsApplied(d) then Outcome(true, AlreadyApplied, d, false)
    else
      var f := FindLine(d, 0, AnchorWords());
      if f.Nowhere? then Outcome(false, AnchorNotFound, d, false)
      else Outcome(true, Patched, WithPredicate(d, f), true)
  }

  function RemovePredicate(d: string): Outcome {
    if d == "" then Outcome(false, EmptyDefinition, "", false)
    else if !IsApplied(d) then Outcome(true, AlreadyAbsent, d, false)
    else
      var f := FindRemovable(d, 0, RemoveWords());
      if f.Nowhere? then Outcome(false, NotOnItsOwnLine, d, false)
      else Outcome(true, Reverted, d[..f.start] + d[f.end..], true)
  }

  // -------------------------------------------------------------------- words

  lemma AtLocal(s: string, t: string, i: nat, word: string, n: nat)
    requires n <= |s| && n <= |t| && s[..n] == t[..n] && i + |word| <= n
    ensures At(s, i, word) == At(t, i, word)
  {
    assert s[i..i + |word|] == s[..n][i..i + |word|] && t[i..i + |word|] == t[..n][i..i + |word|];
  }

  lemma SpaceEndLocal(s: string, t: string, j: nat, n: nat)
    requires n <= |s| && n <= |t| && s[..n] == t[..n] && j <= |s| && SpaceEnd(s, j) < n
    ensures SpaceEnd(t, j) == SpaceEnd(s, j)
  {
    assert forall x | 0 <= x < n :: s[x] == s[..n][x] && t[x] == t[..n][x];
    SpaceEndUnique(t, j, SpaceEnd(s, j));
  }

  /** A match depends on nothing past its end. */
  lemma {:induction false} MatchIsLocal(s: string, t: string, i: nat, words: seq<string>, n: nat)
    requires n <= |s| && n <= |t| && s[..n] == t[..n] && (forall w | w in words :: w != "")
    requires MatchWords(s, i, words).Some? && MatchWords(s, i, words).value <= n && words != []
    ensures MatchWords(t, i, words) == MatchWords(s, i, words)
    decreases words
  {
    hide At, SpaceEnd, IsSpace;
    assert words[0] in words;
    var j := i + |words[0]|;
    MatchLength(s, i, words);
    AtLocal(s, t, i, words[0], n);
    if |words| > 1 {
      assert forall w | w in words[1..] :: w in words;
      assert words[1..][0] == words[1] && words[1] in words;
      MatchLength(s, SpaceEnd(s, j), words[1..]);
      SpaceEndLocal(s, t, j, n);
      MatchIsLocal(s, t, SpaceEnd(s, j), words[1..], n);
    }
  }

  lemma MatchLength(s: string, i: nat, words: seq<string>)
    requires words != [] && MatchWords(s, i, words).Some?
    ensures i + |words[0]| <= MatchWords(s, i, words).value && At(s, i, words[0])
  {
  }

  /** A match reads only letters of its words, and white space. */
  lemma {:induction false} MatchReads(s: string, i: nat, words: seq<string>, c: char)
    requires i <= |s| && !IsSpace(c) && (forall w | w in words :: c !in w) && MatchWords(s, i, words).Some?
    ensures forall x | i <= x < MatchWords(s, i, words).value :: s[x] != c
    decreases words
  {
    if words != [] {
      var j := i + |words[0]|;
      assert words[0] in words;
      forall x | i <= x < j ensures s[x] != c { assert s[i..j][x - i] == s[x]; }
      if |words| > 1 {
        assert forall w | w in words[1..] :: w in words;
        MatchReads(s, SpaceEnd(s, j), words[1..], c);
      }
    }
  }

  /** A match ends with its last word. */
  lemma {:induction false} MatchEnds(s: string, i: nat, words: seq<string>)
    requires i <= |s| && words != [] && MatchWords(s, i, words).Some?
    ensures var e, last := MatchWords(s, i, words).value, words[|words| - 1];
            i + |last| <= e <= |s| && s[e - |last|..e] == last
    decreases words
  {
    if |words| > 1 { MatchEnds(s, SpaceEnd(s, i + |words[0]|), words[1..]); }
  }

  /** The guard's line holds what the detector looks for. */
  lemma RemoveIsDetected(s: string, i: nat)
    requires i <= |s| && MatchWords(s, i, RemoveWords()).Some?
    ensures exists j :: i <= j <= |s| && MatchWords(s, j, DetectWords()) == MatchWords(s, i, RemoveWords())
  {
    var k := SpaceEnd(s, i + 3);
    var j := SpaceEnd(s, k + 7);
    assert RemoveWords()[1..][0] == "s.state" && RemoveWords()[1..][1..] == DetectWords();
    assert MatchWords(s, k, RemoveWords()[1..]) == MatchWords(s, i, RemoveWords());
  }

  // --------------------------------------------------------------- the inverse

  lemma {:induction false} FoundLine(s: string, i: nat, words: seq<string>)
    requires i <= |s| && FindLine(s, i, words).Found?
    ensures var f := FindLine(s, i, words); LineStart(s, f.start) && LineOf(s, f.start, words) == Some(f.end)
    decreases |s| - i
  {
    hide LineStart, LineOf;
    if !(LineStart(s, i) && LineOf(s, i, words).Some?) && i < |s| { FoundLine(s, i + 1, words); }
  }

  lemma {:induction false} FirstRemovable(s: string, i: nat, words: seq<string>, q: nat)
    requires i <= q <= |s| && Removable(s, q, words) && (forall k | i <= k < q :: !Removable(s, k, words))
    ensures FindRemovable(s, i, words) == Found(q, LineOf(s, q, words).value + 1)
    decreases q - i
  {
    hide Removable, LineOf;
    if i < q { FirstRemovable(s, i + 1, words, q); }
  }

  lemma {:induction false} NoneRemovable(s: string, i: nat, words: seq<string>)
    requires i <= |s| && (forall k | i <= k <= |s| :: !Removable(s, k, words))
    ensures FindRemovable(s, i, words) == Nowhere
    decreases |s| - i
  {
    hide Removable, LineOf;
    if i < |s| { NoneRemovable(s, i + 1, words); }
  }

  lemma TabEndUnique(s: string, i: nat, j: nat)
    requires i <= j <= |s| && (forall k | i <= k < j :: s[k] == ' ' || s[k] == '\t')
    requires j < |s| ==> s[j] != ' ' && s[j] != '\t'
    ensures TabEnd(s, i) == j
  {
  }

  /** On a line of words there is no newline from the last word on. */
  lemma LineTail(d: string, start: nat, words: seq<string>, last: string)
    requires start <= |d| && LineOf(d, start, words).Some?
    requires words != [] && words[|words| - 1] == last && '\n' !in last
    ensures var e, end := MatchWords(d, TabEnd(d, start), words).value, LineOf(d, start, words).value;
            && start + |last| <= e <= end && d[e - |last|..e] == last
            && forall x | e - |last| <= x < end :: d[x] != '\n'
  {
    var i := TabEnd(d, start);
    MatchEnds(d, i, words);
    TailOfLine(d, start, words);
    hide MatchWords, LineOf, TabEnd;
    var e, end := MatchWords(d, i, words).value, LineOf(d, start, words).value;
    forall x | e - |last| <= x < end ensures d[x] != '\n' {
      if x < e { assert d[e - |last|..e][x - (e - |last|)] == d[x]; }
    }
  }

  lemma TailOfLine(d: string, start: nat, words: seq<string>)
    requires start <= |d| && LineOf(d, start, words).Some?
    ensures MatchWords(d, TabEnd(d, start), words).Some?
    ensures var e, end := MatchWords(d, TabEnd(d, start), words).value, LineOf(d, start, words).value;
            e <= end <= |d| && forall x | e <= x < end :: d[x] != '\n'
  {
    hide MatchWords;
  }

  /** Where the anchor's own letter stands: on its line there is no newline from there on. */
  lemma AnchorLetter(d: string, start: nat, end: nat) returns (v: nat)
    requires start <= |d| && LineOf(d, start, AnchorWords()) == Some(end)
    ensures start <= v < end && d[v] == 'V' && forall x | v <= x < end :: d[x] != '\n'
  {
    AnchorEnds();
    hide MatchWords, LineOf, TabEnd, AnchorWords;
    var last := AnchorWords()[5];
    LineHasMatch(d, start, AnchorWords());
    LineTail(d, start, AnchorWords(), last);
    var e := MatchWords(d, TabEnd(d, start), AnchorWords()).value;
    v := e - 16;
    assert d[v] == d[e - 17..e][1];
  }

  lemma AnchorEnds()
    ensures |AnchorWords()| == 6
    ensures var last := AnchorWords()[5]; |last| == 17 && last[1] == 'V' && '\n' !in last
  {
  }

  /** A line whose words have no V ends its words before the V of a later line. */
  lemma EndsBefore(p: string, k: nat, words: seq<string>, v: nat, end: nat)
    requires k <= end && v < end <= |p| && p[v] == 'V' && (forall x | v <= x < end :: p[x] != '\n')
    requires (forall w | w in words :: 'V' !in w) && LineStart(p, k) && LineOf(p, k, words).Some?
    ensures MatchWords(p, TabEnd(p, k), words).value <= v
  {
    MatchReads(p, TabEnd(p, k), words, 'V');
    hide MatchWords;
  }

  /** Nothing before the inserted line can be taken for it. */
  lemma NothingEarlier(d: string, p: string, start: nat, end: nat, k: nat)
    requires !IsApplied(d) && start <= |d| && LineOf(d, start, AnchorWords()) == Some(end)
    requires end < |p| && p[..end] == d[..end] && k <= end
    ensures !Removable(p, k, RemoveWords())
  {
    hide MatchWords, IsApplied, LineOf, TabEnd, RemoveWords, AnchorWords, DetectWords;
    var v := AnchorLetter(d, start, end);
    if LineStart(p, k) && LineOf(p, k, RemoveWords()).Some? {
      SameUpTo(d, p, end, v);
      WordsHaveNoV();
      LineHasMatch(p, k, RemoveWords());
      EndsBefore(p, k, RemoveWords(), v, end);
      DetectedInside(d, p, TabEnd(p, k), end);
    }
  }

  lemma SameUpTo(d: string, p: string, end: nat, v: nat)
    requires end <= |p| && end <= |d| && p[..end] == d[..end] && v < end && d[v] == 'V' && forall x | v <= x < end ::
             d[x] != '\n'
    ensures p[v] == 'V' && forall x | v <= x < end :: p[x] != '\n'
  {
    assert forall x | 0 <= x < end :: p[x] == p[..end][x] && d[x] == d[..end][x];
  }

  lemma LineHasMatch(p: string, k: nat, words: seq<string>)
    requires k <= |p| && LineOf(p, k, words).Some?
    ensures MatchWords(p, TabEnd(p, k), words).Some?
  {
  }

  lemma WordsHaveNoV()
    ensures forall w | w in RemoveWords() :: 'V' !in w
    ensures forall w | w in DetectWords() :: w != ""
  {
  }

  lemma DetectedInside(d: string, p: string, i: nat, n: nat)
    requires n <= |p| && n <= |d| && p[..n] == d[..n] && i <= |p|
    requires MatchWords(p, i, RemoveWords()).Some? && MatchWords(p, i, RemoveWords()).value <= n
    ensures IsApplied(d)
  {
    RemoveIsDetected(p, i);
    var j :| i <= j <= |p| && MatchWords(p, j, DetectWords()) == MatchWords(p, i, RemoveWords());
    WordsHaveNoV();
    MatchIsLocal(p, d, j, DetectWords(), n);
    assert j <= |d|;
  }

  // ---------------------------------------------------------- the inserted line

  predicate Words(words: seq<string>) { words != [] && forall w | w in words :: w != "" && !IsSpace(w[0]) }

  lemma {:induction false} SpacedMatches(s: string, i: nat, words: seq<string>)
    requires Words(words) && At(s, i, Spaced(words))
    ensures MatchWords(s, i, words) == Some(i + |Spaced(words)|)
    decreases words
  {
    hide At, MatchWords;
    var n := |words[0]|;
    assert words[0] in words;
    if |words| > 1 {
      var rest := Spaced(words[1..]);
      assert forall w | w in words[1..] :: w in words;
      RestStarts(words[1..]);
      assert Spaced(words) == words[0] + (" " + rest);
      AtParts(s, i, words[0], " " + rest);
      AtParts(s, i + n, " ", rest);
      OneSpace(s, i + n, rest);
      MatchStep(s, i, words, i + n + 1);
      SpacedMatches(s, i + n + 1, words[1..]);
    } else {
      MatchLast(s, i, words);
    }
  }

  lemma OneSpace(s: string, i: nat, rest: string)
    requires At(s, i, " ") && At(s, i + 1, rest) && rest != "" && !IsSpace(rest[0])
    ensures i <= |s| && SpaceEnd(s, i) == i + 1
  {
    assert s[i..i + 1][0] == s[i] && s[i + 1..i + 1 + |rest|][0] == s[i + 1];
    SpaceEndUnique(s, i, i + 1);
  }

  lemma MatchStep(s: string, i: nat, words: seq<string>, k: nat)
    requires |words| > 1 && At(s, i, words[0]) && i + |words[0]| <= |s|
             && SpaceEnd(s, i + |words[0]|) == k > i + |words[0]|
    ensures MatchWords(s, i, words) == MatchWords(s, k, words[1..])
  {
  }

  lemma MatchLast(s: string, i: nat, words: seq<string>)
    requires |words| == 1 && At(s, i, words[0])
    ensures MatchWords(s, i, words) == Some(i + |words[0]|)
  {
  }

  lemma RestStarts(words: seq<string>)
    requires Words(words)
    ensures Spaced(words) != "" && !IsSpace(Spaced(words)[0])
  {
    assert words[0] in words;
  }

  lemma AtParts(s: string, i: nat, a: string, b: string)
    requires At(s, i, a + b)
    ensures At(s, i, a) && At(s, i + |a|, b)
  {
    var t := s[i..i + |a + b|];
    assert s[i..i + |a|] == t[..|a|] && s[i + |a|..i + |a| + |b|] == t[|a|..];
  }

  lemma {:induction false} SpacedLacks(words: seq<string>, c: char)
    requires c != ' ' && forall w | w in words :: c !in w
    ensures c !in Spaced(words)
    decreases words
  {
    if words != [] {
      assert words[0] in words;
      if |words| > 1 {
        assert forall w | w in words[1..] :: w in words;
        SpacedLacks(words[1..], c);
        var head, rest := words[0] + " ", Spaced(words[1..]);
        forall k | 0 <= k < |head + rest| ensures (head + rest)[k] != c {
          assert (head + rest)[k] == if k < |words[0]| then words[0][k] else if k == |words[0]| then ' '
            else rest[k - |head|];
        }
      }
    }
  }

  lemma PredicateFacts()
    ensures Words(RemoveWords())
    ensures Predicate() != "" && Predicate()[0] == 'A' && '\n' !in Predicate() && '\r' !in Predicate()
  {
    RemoveFacts();
    hide RemoveWords;
    SpacedLacks(RemoveWords(), '\n');
    SpacedLacks(RemoveWords(), '\r');
  }

  lemma RemoveFacts()
    ensures Words(RemoveWords()) && |RemoveWords()| == 6 && |RemoveWords()[0]| == 3 && RemoveWords()[0][0] == 'A'
    ensures forall w | w in RemoveWords() :: '\n' !in w && '\r' !in w
  {
  }

  predicate Tabs(s: string) { forall k | 0 <= k < |s| :: s[k] == ' ' || s[k] == '\t' }

  /** What the insertion puts after the anchor line. */
  lemma PatchedShape(d: string, f: Found) returns (indent: string, cr: string)
    requires f.Found? && f.start <= f.end <= |d|
    ensures Tabs(indent) && indent == d[f.start..TabEnd(d, f.start)]
    ensures cr == if f.start < f.end && d[f.end - 1] == '\r' then "\r" else ""
    ensures WithPredicate(d, f) == d[..f.end] + "\n" + (indent + Predicate() + cr) + d[f.end..]
  {
    hide Predicate, TabEnd;
    var text := d[f.start..f.end];
    var crlf := text != "" && text[|text| - 1] == '\r';
    indent := d[f.start..TabEnd(d, f.start)];
    TabRun(d, f.start);
    cr := if crlf then "\r" else "";
    var anchor := if crlf then text[..|text| - 1] else text;
    assert d[..f.end] == d[..f.start] + text;
    assert text == anchor + cr;
    assert (if crlf then "\r\n" else "\n") == cr + "\n";
    Reassociate(d[..f.start], anchor, cr, indent, Predicate(), d[f.end..]);
  }

  lemma TabRun(d: string, i: nat)
    requires i <= |d|
    ensures Tabs(d[i..TabEnd(d, i)])
  {
  }

  lemma Reassociate(a: string, anchor: string, cr: string, indent: string, text: string, z: string)
    ensures a + (anchor + (cr + "\n") + indent + text + cr) + z == a + (anchor + cr) + "\n" + (indent + text + cr) + z
  {
  }

  /** The inserted line reads as the predicate on a line of its own. */
  lemma InsertedLine(p: string, q: nat, indent: string, cr: string)
    requires Tabs(indent) && (cr == "" || cr == "\r") && At(p, q, indent + Predicate() + cr)
    requires var end := q + |indent + Predicate() + cr|; end < |p| ==> p[end] == '\n'
    ensures LineOf(p, q, RemoveWords()) == Some(q + |indent + Predicate() + cr|)
  {
    hide RemoveWords, Words, MatchWords, Spaced, LineOf, At;
    PredicateFacts();
    var text := Predicate();
    assert indent + text + cr == indent + (text + cr);
    AtParts(p, q, indent, text + cr);
    var i := q + |indent|;
    AtParts(p, i, text, cr);
    SpacedMatches(p, i, RemoveWords());
    var t := i + |text|;
    TabsThen(p, q, indent, text);
    hide Predicate;
    NoTabs(p, t, cr);
    LineOfIs(p, q, RemoveWords(), t, cr);
  }

  lemma TabsThen(p: string, q: nat, indent: string, text: string)
    requires Tabs(indent) && At(p, q, indent) && At(p, q + |indent|, text) && text != "" && text[0] != ' '
             && text[0] != '\t'
    ensures q <= |p| && TabEnd(p, q) == q + |indent|
  {
    var i := q + |indent|;
    assert forall k | q <= k < i :: p[k] == p[q..i][k - q];
    assert p[i] == p[i..i + |text|][0];
    TabEndUnique(p, q, i);
  }

  lemma NoTabs(p: string, t: nat, cr: string)
    requires (cr == "" || cr == "\r") && At(p, t, cr) && (t + |cr| < |p| ==> p[t + |cr|] == '\n')
    ensures t <= |p| && TabEnd(p, t) == t
  {
    assert cr != "" ==> p[t] == p[t..t + |cr|][0];
    TabEndUnique(p, t, t);
  }

  lemma LineOfIs(p: string, q: nat, words: seq<string>, t: nat, cr: string)
    requires q <= |p| && MatchWords(p, TabEnd(p, q), words) == Some(t) && t <= |p| && TabEnd(p, t) == t
    requires (cr == "" || cr == "\r") && At(p, t, cr) && (t + |cr| < |p| ==> p[t + |cr|] == '\n')
    ensures LineOf(p, q, words) == Some(t + |cr|)
  {
    hide MatchWords;
    assert cr != "" ==> p[t] == p[t..t + |cr|][0];
  }

  /** Adding the predicate is undone by removing it exactly when the anchor line ends in
      a newline; when the definition ends on the anchor line, removal refuses. */
  lemma AddThenRemove(d: string)
    requires AddPredicate(d).reason.Patched?
    ensures var p, f := AddPredicate(d).definition, FindLine(d, 0, AnchorWords());
            && f.Found? && IsApplied(p)
            && (RemovePredicate(p) == Outcome(true, Reverted, d, true) <==> f.end < |d|)
            && (f.end == |d| ==> RemovePredicate(p) == Outcome(false, NotOnItsOwnLine, p, false))
  {
    FoundLine(d, 0, AnchorWords());
    hide AnchorWords, IsApplied, WithPredicate, RemovePredicate, FindLine, LineOf;
    AddThenRemoveAt(d, AddPredicate(d).definition, FindLine(d, 0, AnchorWords()));
  }

  lemma AddThenRemoveAt(d: string, p: string, f: Found)
    requires !IsApplied(d) && f.Found? && f.start <= f.end <= |d| && p == WithPredicate(d, f)
    requires LineOf(d, f.start, AnchorWords()) == Some(f.end)
    ensures IsApplied(p)
    ensures RemovePredicate(p) ==
            if f.end < |d| then Outcome(true, Reverted, d, true) else Outcome(false, NotOnItsOwnLine, p, false)
  {
    hide IsApplied, RemoveWords, AnchorWords, LineOf, Removable, RemovePredicate, WithPredicate, At;
    LineEndsThere(d, f.start, AnchorWords());
    var line := Inserted(d, p, f);
    Applied(p, f.end + 1);
    forall k | 0 <= k <= f.end ensures !Removable(p, k, RemoveWords()) {
      NothingEarlier(d, p, f.start, f.end, k);
    }
    Removed(d, p, f.end, line);
  }

  /** What removal makes of the patched definition. */
  lemma Removed(d: string, p: string, end: nat, line: string)
    requires end <= |d| && (end < |d| ==> d[end] == '\n') && end + 1 + |line| <= |p| && IsApplied(p)
    requires p[..end] == d[..end] && p[end] == '\n' && At(p, end + 1, line) && p[end + 1 + |line|..] == d[end..]
    requires '\n' !in line && LineOf(p, end + 1, RemoveWords()) == Some(end + 1 + |line|)
    requires forall k | 0 <= k <= end :: !Removable(p, k, RemoveWords())
    ensures RemovePredicate(p) ==
            if end < |d| then Outcome(true, Reverted, d, true) else Outcome(false, NotOnItsOwnLine, p, false)
  {
    hide IsApplied, RemoveWords, LineOf, FindRemovable, Removable;
    var q := end + 1;
    assert |p[q + |line|..]| == |d| - end;
    if end < |d| {
      IsRemovable(p, q, RemoveWords());
      FirstRemovable(p, 0, RemoveWords(), q);
      Restored(d, p, end, |line|);
    } else {
      NoneLater(p, q, line);
      NoneRemovable(p, 0, RemoveWords());
    }
  }

  lemma Restored(d: string, p: string, end: nat, n: nat)
    requires end < |d| && end + 1 + n <= |p| && p[..end] == d[..end] && p[end] == '\n' == d[end]
             && p[end + 1 + n..] == d[end..]
    ensures end + 1 + n + 1 <= |p| && p[..end + 1] + p[end + 1 + n + 1..] == d
  {
    assert p[..end + 1] == d[..end + 1];
    assert |p[end + 1 + n..]| == |d| - end;
    assert p[end + 1 + n + 1..] == p[end + 1 + n..][1..] == d[end..][1..] == d[end + 1..];
  }

  lemma IsRemovable(p: string, q: nat, words: seq<string>)
    requires LineStart(p, q) && LineOf(p, q, words).Some? && LineOf(p, q, words).value < |p|
    ensures Removable(p, q, words)
  {
  }

  /** The patched definition: a new line behind the anchor's, the rest unchanged. */
  lemma Inserted(d: string, p: string, f: Found) returns (line: string)
    requires f.Found? && f.start <= f.end <= |d| && (f.end < |d| ==> d[f.end] == '\n') && p == WithPredicate(d, f)
    ensures var q := f.end + 1;
            && q + |line| <= |p| && p[..f.end] == d[..f.end] && p[f.end] == '\n' && At(p, q, line)
            && p[q + |line|..] == d[f.end..] && '\n' !in line
            && LineOf(p, q, RemoveWords()) == Some(q + |line|)
  {
    PredicateFacts();
    hide WithPredicate, Predicate, LineOf, RemoveWords, Words, TabEnd;
    var indent, cr := PatchedShape(d, f);
    line := indent + Predicate() + cr;
    InsertedAt(p, d[..f.end], line, d[f.end..]);
    var q := f.end + 1;
    assert q + |line| < |p| ==> p[q + |line|] == p[q + |line|..][0];
    InsertedLine(p, q, indent, cr);
    assert forall k | 0 <= k < |indent| :: indent[k] != '\n';
  }

  lemma LineEndsThere(d: string, start: nat, words: seq<string>)
    requires start <= |d| && LineOf(d, start, words).Some?
    ensures var e := LineOf(d, start, words).value; e <= |d| && (e < |d| ==> d[e] == '\n')
  {
  }

  lemma InsertedAt(p: string, a: string, line: string, z: string)
    requires p == a + "\n" + line + z
    ensures var q := |a| + 1; p[..|a|] == a && p[|a|] == '\n' && At(p, q, line) && p[q + |line|..] == z
  {
  }

  lemma Applied(p: string, q: nat)
    requires q <= |p| && LineOf(p, q, RemoveWords()).Some?
    ensures IsApplied(p)
  {
    LineHasMatch(p, q, RemoveWords());
    DetectedInside(p, p, TabEnd(p, q), |p|);
  }

  /** The inserted line is the last one, and has no newline in it. */
  lemma NoneLater(p: string, q: nat, line: string)
    requires 0 < q && q + |line| == |p| && At(p, q, line) && '\n' !in line
    requires LineOf(p, q, RemoveWords()) == Some(|p|)
    ensures forall k | q <= k <= |p| :: !Removable(p, k, RemoveWords())
  {
    hide LineOf;
    forall x | q <= x < |p| ensures p[x] != '\n' { assert p[x] == p[q..q + |line|][x - q]; }
  }

  /** What is refused, or needs nothing done, comes back as it was; adding twice is adding once. */
  lemma UntouchedUnlessChanged(d: string)
    ensures !AddPredicate(d).changed ==> AddPredicate(d).definition == d
    ensures !RemovePredicate(d).changed ==> RemovePredicate(d).definition == d
    ensures var once := AddPredicate(d);
            once.ok ==> AddPredicate(once.definition) == Outcome(true, AlreadyApplied, once.definition, false)
  {
    hide FindLine, LineOf;
    if AddPredicate(d).reason.Patched? {
      AddThenRemove(d);
      assert AddPredicate(d).definition != "" by { NotEmpty(d); }
    }
  }

  lemma NotEmpty(d: string)
    requires AddPredicate(d).reason.Patched?
    ensures AddPredicate(d).definition != ""
  {
    var indent, cr := PatchedShape(d, FindLine(d, 0, AnchorWords()));
  }
}
