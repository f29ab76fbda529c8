/** What the base guard looks for and what it writes, character by character. */
module BaseGuardReads {
  import opened Wrappers
  import opened Ascii
  import opened BaseGuard

  predicate WordAt(s: string, i: nat, word: string) {
    i + |word| <= |s| && forall k | 0 <= k < |word| :: s[i + k] == word[k]
  }

  /** The words stand from i to e, with white space between any two. */
  ghost predicate WordsAt(s: string, i: nat, e: nat, words: seq<string>)
    decreases words
  {
    && words != [] && WordAt(s, i, words[0])
    && if |words| == 1 then e == i + |words[0]|
       else exists k: nat :: Gap(s, i + |words[0]|, k) && WordsAt(s, k, e, words[1..])
  }

  /** White space, and some of it, from i to k. */
  predicate Gap(s: string, i: nat, k: nat) { i < k <= |s| && forall x | i <= x < k :: White(s[x]) }

  predicate Solid(words: seq<string>) { forall w | w in words :: w != "" && !White(w[0]) }

  lemma WordAtIs(s: string, i: nat, word: string)
    ensures WordAt(s, i, word) <==> At(s, i, word)
  {
    if At(s, i, word) {
      forall k | 0 <= k < |word| ensures s[i + k] == word[k] { assert s[i..i + |word|][k] == word[k]; }
    }
    if WordAt(s, i, word) { assert s[i..i + |word|] == word; }
  }

  lemma {:induction false} WordsIff(s: string, i: nat, e: nat, words: seq<string>)
    requires i <= |s| && words != [] && Solid(words)
    ensures MatchWords(s, i, words) == Some(e) <==> WordsAt(s, i, e, words)
    decreases words
  {
    WordAtIs(s, i, words[0]);
    if At(s, i, words[0]) && |words| > 1 {
      hide At, WordAt;
      var k := SpaceEnd(s, i + |words[0]|);
      var rest := words[1..];
      assert words[1] in words && (forall w | w in rest :: w in words) && rest[0] == words[1];
      WordsIff(s, k, e, rest);
      GapIff(s, i, e, words);
    }
  }

  /** Between two words lies all the white space there is. */
  lemma GapIff(s: string, i: nat, e: nat, words: seq<string>)
    requires |words| > 1 && At(s, i, words[0]) && words[1] != "" && !White(words[1][0])
    ensures WordsAt(s, i, e, words) <==>
            var j := i + |words[0]|;
            var k := SpaceEnd(s, j);
            k > j && WordsAt(s, k, e, words[1..])
  {
    WordAtIs(s, i, words[0]);
    hide At, WordAt;
    var j, rest := i + |words[0]|, words[1..];
    var k := SpaceEnd(s, j);
    if WordsAt(s, i, e, words) {
      var x: nat :| Gap(s, j, x) && WordsAt(s, x, e, rest);
      StartsSolid(s, x, e, rest);
      SpaceEndUnique(s, j, x);
    }
    assert k > j ==> Gap(s, j, k);
  }

  lemma StartsSolid(s: string, i: nat, e: nat, words: seq<string>)
    requires words != [] && words[0] != "" && !White(words[0][0]) && WordsAt(s, i, e, words)
    ensures i < |s| && !White(s[i])
  {
    assert s[i + 0] == words[0][0];
  }

  lemma WordsFit(s: string, i: nat, e: nat, words: seq<string>)
    requires WordsAt(s, i, e, words)
    ensures i <= e <= |s|
    decreases words
  {
    if |words| > 1 {
      var k: nat :| Gap(s, i + |words[0]|, k) && WordsAt(s, k, e, words[1..]);
      WordsFit(s, k, e, words[1..]);
    }
  }

  predicate Tab(c: char) { c == ' ' || c == '\t' }

  /** The words alone on a line that starts at i and ends before `end`: behind blanks and tabs
      up to a, from a to b, and before blanks and tabs and at most one carriage return. */
  ghost predicate Alone(s: string, i: nat, a: nat, b: nat, end: nat, words: seq<string>) {
    && i <= a <= b <= end <= |s| && (i == 0 || s[i - 1] == '\n') && (end == |s| || s[end] == '\n')
    && (forall k | i <= k < a :: Tab(s[k])) && WordsAt(s, a, b, words)
    && (forall k | b <= k < end :: Tab(s[k]) || (k == end - 1 && s[k] == '\r'))
  }

  lemma AloneIs(s: string, i: nat, a: nat, b: nat, end: nat, words: seq<string>)
    requires words != [] && Solid(words) && Alone(s, i, a, b, end, words)
    ensures LineStart(s, i) && LineOf(s, i, words) == Some(end) && TabEnd(s, i) == a
  {
    hide WordsAt, MatchWords;
    assert words[0] in words;
    StartsSolid(s, a, b, words);
    TabEndUnique(s, i, a);
    WordsIff(s, a, b, words);
    if b < end && s[end - 1] == '\r' { TabEndUnique(s, b, end - 1); } else { TabEndUnique(s, b, end); }
  }

  lemma IsAlone(s: string, i: nat, words: seq<string>)
    requires words != [] && Solid(words) && LineStart(s, i) && LineOf(s, i, words).Some?
    ensures exists a, b :: Alone(s, i, a, b, LineOf(s, i, words).value, words)
  {
    hide WordsAt, MatchWords;
    var a := TabEnd(s, i);
    var b := MatchWords(s, a, words).value;
    WordsIff(s, a, b, words);
    WordsFit(s, a, b, words);
    var t := TabEnd(s, b);
    assert Alone(s, i, a, b, LineOf(s, i, words).value, words);
  }

  // -------------------------------------------------------------------- adding

  const GUARD: seq<string> := ["IS", "DISTINCT", "FROM", "'BaseBackup'"]
  const ANCHOR: seq<string> := ["AND", "s.state", "IS", "DISTINCT", "FROM", "'VehicleRecovery'"]
  const WHOLE: seq<string> := ["AND", "s.state", "IS", "DISTINCT", "FROM", "'BaseBackup'"]

  lemma TheWords()
    ensures DetectWords() == GUARD && AnchorWords() == ANCHOR && RemoveWords() == WHOLE
    ensures Solid(GUARD) && Solid(ANCHOR) && Solid(WHOLE)
    ensures Predicate() == "AND s.state IS DISTINCT FROM 'BaseBackup'"
  {
    TheyAreSolid();
    hide Solid;
    PredicateReads();
  }

  lemma PredicateReads()
    ensures Predicate() == "AND s.state IS DISTINCT FROM 'BaseBackup'"
  {
    hide Spaced;
    GuardReads();
    var text := "IS DISTINCT FROM 'BaseBackup'";
    WholeIs();
    InFront(text);
    assert "AND s.state " + text == "AND s.state IS DISTINCT FROM 'BaseBackup'";
  }

  lemma LastWord(rest: seq<string>)
    requires rest != [] && Spaced(rest) == "DISTINCT FROM 'BaseBackup'" && ["IS"] + rest == GUARD
    ensures Spaced(GUARD) == "IS DISTINCT FROM 'BaseBackup'"
  {
    hide Spaced;
    assert "IS" + " " == "IS ";
    assert "IS " + "DISTINCT FROM 'BaseBackup'" == "IS DISTINCT FROM 'BaseBackup'";
    Before("IS", rest, "DISTINCT FROM 'BaseBackup'", "IS DISTINCT FROM 'BaseBackup'");
  }

  lemma InFront(text: string)
    requires Spaced(GUARD) == text
    ensures Spaced(["AND"] + (["s.state"] + GUARD)) == "AND s.state " + text
  {
    hide Spaced;
    assert "s.state" + " " + text == "s.state " + text;
    Before("s.state", GUARD, text, "s.state " + text);
    assert "AND" + " " + ("s.state " + text) == "AND s.state " + text;
    Before("AND", ["s.state"] + GUARD, "s.state " + text, "AND s.state " + text);
  }

  lemma GuardReads()
    ensures Spaced(GUARD) == "IS DISTINCT FROM 'BaseBackup'"
  {
    hide Spaced;
    var r1: seq<string> := ["'BaseBackup'"];
    var r2: seq<string> := ["FROM"] + r1;
    var r3: seq<string> := ["DISTINCT"] + r2;
    OneWord("'BaseBackup'");
    Before("FROM", r1, "'BaseBackup'", "FROM 'BaseBackup'");
    Before("DISTINCT", r2, "FROM 'BaseBackup'", "DISTINCT FROM 'BaseBackup'");
    assert ["IS"] + r3 == GUARD;
    LastWord(r3);
  }

  lemma WholeIs()
    ensures RemoveWords() == ["AND"] + (["s.state"] + GUARD)
  {
  }

  lemma OneWord(word: string)
    ensures Spaced([word]) == word
  {
  }

  lemma Before(word: string, rest: seq<string>, text: string, whole: string)
    requires rest != [] && Spaced(rest) == text && whole == word + " " + text
    ensures Spaced([word] + rest) == whole
  {
    assert ([word] + rest)[1..] == rest;
  }

  lemma TheyAreSolid()
    ensures Solid(GUARD) && Solid(ANCHOR) && Solid(WHOLE)
  {
    hide White;
    PlainStarts();
    assert forall w | w in GUARD + ANCHOR + WHOLE :: w != "" && w[0] in {'A', 's', 'I', 'D', 'F', '\''};
  }

  lemma PlainStarts()
    ensures forall c | c in {'A', 's', 'I', 'D', 'F', '\''} :: !White(c)
  {
  }

  /** The guard is in place when its words stand anywhere, however they are spaced. */
  ghost predicate Guarded(d: string) { exists i: nat, e: nat :: i <= |d| && WordsAt(d, i, e, GUARD) }

  lemma GuardedIs(d: string)
    ensures IsApplied(d) <==> Guarded(d)
  {
    TheWords();
    hide WordsAt, MatchWords, DetectWords, AnchorWords, RemoveWords, Solid;
    if IsApplied(d) {
      var i :| 0 <= i <= |d| && MatchWords(d, i, GUARD).Some?;
      WordsIff(d, i, MatchWords(d, i, GUARD).value, GUARD);
    }
    if i: nat, e: nat :| i <= |d| && WordsAt(d, i, e, GUARD) { WordsIff(d, i, e, GUARD); }
  }

  /** The anchor stands alone on no line before line start n. */
  ghost predicate NoneBefore(d: string, n: nat, words: seq<string>) {
    forall i: nat, a: nat, b: nat, end: nat | i < n :: !Alone(d, i, a, b, end, words)
  }

  lemma {:induction false} FirstLine(s: string, i: nat, n: nat, words: seq<string>)
    requires words != [] && Solid(words) && i <= n <= |s| && NoneBefore(s, n, words)
    requires LineStart(s, n) && LineOf(s, n, words).Some?
    ensures FindLine(s, i, words) == Found(n, LineOf(s, n, words).value)
    decreases n - i
  {
    hide LineOf, Alone, Solid;
    if i < n {
      if LineStart(s, i) && LineOf(s, i, words).Some? { IsAlone(s, i, words); }
      FirstLine(s, i + 1, n, words);
    }
  }

  /** The guard is added behind the first line that holds nothing but the anchor: on a line of
      its own, at the indent of the anchor's, with its kind of line end, in these words. */
  lemma AddWrites(d: string, i: nat, a: nat, b: nat, end: nat)
    requires !Guarded(d) && Alone(d, i, a, b, end, ANCHOR) && NoneBefore(d, i, ANCHOR)
    ensures var cr := if d[end - 1] == '\r' then "\r" else "";
            end > 0 && AddPredicate(d) ==
            Outcome(true, Patched,
                    d[..end] + "\n" + (d[i..a] + "AND s.state IS DISTINCT FROM 'BaseBackup'" + cr) + d[end..], true)
  {
    TheWords();
    GuardedIs(d);
    hide AnchorWords, DetectWords, RemoveWords, Predicate, IsApplied, FindLine, WithPredicate, WordsAt, LineOf;
    assert ANCHOR[0] == "AND" && ANCHOR[0] in ANCHOR;
    StartsSolid(d, a, b, ANCHOR);
    WordsFit(d, a, b, ANCHOR);
    AloneIs(d, i, a, b, end, ANCHOR);
    FirstLine(d, 0, i, ANCHOR);
    AfterStart(d, i, a, b, end);
    var indent, cr := PatchedShape(d, Found(i, end));
  }

  lemma AfterStart(d: string, i: nat, a: nat, b: nat, end: nat)
    requires Alone(d, i, a, b, end, ANCHOR)
    ensures i <= a < end && end > 0
  {
    assert WordAt(d, a, ANCHOR[0]);
    var k: nat :| Gap(d, a + 3, k) && WordsAt(d, k, b, ANCHOR[1..]);
    WordsFit(d, k, b, ANCHOR[1..]);
  }

  /** It is added exactly when it is not there and some line holds nothing but the anchor; a
      definition that is empty, guarded already, or without such a line says so. */
  lemma AddsIff(d: string)
    ensures var r := AddPredicate(d).reason;
            && (r == Patched <==> d != "" && !Guarded(d)
                                  && exists i: nat, a: nat, b: nat, end: nat :: Alone(d, i, a, b, end, ANCHOR))
            && (r == EmptyDefinition <==> d == "") && (r == AlreadyApplied <==> d != "" && Guarded(d))
            && AddPredicate(d).changed == (r == Patched) && AddPredicate(d).ok == (r in {Patched, AlreadyApplied})
  {
    TheWords();
    GuardedIs(d);
    hide AnchorWords, DetectWords, RemoveWords, IsApplied, WithPredicate, WordsAt, LineOf, Alone;
    FoundIff(d, 0, ANCHOR);
    hide FindLine;
  }

  lemma {:induction false} FoundIff(s: string, n: nat, words: seq<string>)
    requires words != [] && Solid(words) && n <= |s|
    ensures FindLine(s, n, words).Found? <==>
            exists i: nat, a: nat, b: nat, end: nat :: n <= i && Alone(s, i, a, b, end, words)
    decreases |s| - n
  {
    hide LineOf, Alone, Solid;
    if LineStart(s, n) && LineOf(s, n, words).Some? {
      IsAlone(s, n, words);
    } else {
      forall a: nat, b: nat, end: nat ensures !Alone(s, n, a, b, end, words) {
        if Alone(s, n, a, b, end, words) { AloneIs(s, n, a, b, end, words); }
      }
      if n < |s| { FoundIff(s, n + 1, words); } else { AloneFits(s, words); }
    }
  }

  lemma AloneFits(s: string, words: seq<string>)
    ensures forall i: nat, a: nat, b: nat, end: nat :: Alone(s, i, a, b, end, words) ==> i <= |s|
  {
  }

  // ------------------------------------------------------------------ removing

  /** Removing takes out the first line that holds nothing but the guard, with the newline that
      ends it; without one it refuses. */
  lemma RemoveWrites(d: string, i: nat, a: nat, b: nat, end: nat)
    requires Guarded(d) && Alone(d, i, a, b, end, WHOLE) && end < |d|
    requires forall k: nat, x: nat, y: nat, z: nat | k < i && z < |d| :: !Alone(d, k, x, y, z, WHOLE)
    ensures d != "" && RemovePredicate(d) == Outcome(true, Reverted, d[..i] + d[end + 1..], true)
  {
    TheWords();
    GuardedIs(d);
    hide AnchorWords, DetectWords, RemoveWords, IsApplied, WordsAt, LineOf, FindRemovable;
    AloneIs(d, i, a, b, end, WHOLE);
    forall k | 0 <= k < i ensures !Removable(d, k, WHOLE) {
      if Removable(d, k, WHOLE) { IsAlone(d, k, WHOLE); }
    }
    FirstRemovable(d, 0, WHOLE, i);
  }

  lemma RemoveRefuses(d: string)
    requires forall i: nat, a: nat, b: nat, end: nat | end < |d| :: !Alone(d, i, a, b, end, WHOLE)
    ensures RemovePredicate(d) ==
            if d == "" then Outcome(false, EmptyDefinition, "", false)
            else if Guarded(d) then Outcome(false, NotOnItsOwnLine, d, false)
            else Outcome(true, AlreadyAbsent, d, false)
  {
    TheWords();
    GuardedIs(d);
    hide AnchorWords, DetectWords, RemoveWords, IsApplied, WordsAt, LineOf, FindRemovable, Alone;
    forall k | 0 <= k <= |d| ensures !Removable(d, k, WHOLE) {
      if Removable(d, k, WHOLE) { IsAlone(d, k, WHOLE); }
    }
    NoneRemovable(d, 0, WHOLE);
  }
}
