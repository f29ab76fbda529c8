/** Text as lines ended by newline characters. */
module Lines {
  /** A line with its ending: one or more characters, a newline nowhere but at the end. */
  predicate IsLine(l: string) { l != "" && forall i | 0 <= i < |l| - 1 :: l[i] != '\n' }

  predicate Ended(l: string) { l != "" && l[|l| - 1] == '\n' }

  /** The lines of a text: every line but the last one is ended. */
  predicate AreLines(ls: seq<string>) {
    && (forall i | 0 <= i < |ls| :: IsLine(ls[i]))
    && (forall i | 0 <= i < |ls| - 1 :: Ended(ls[i]))
  }

  /** One past the first newline, or the length of the text. */
  function LineEnd(s: string): (n: nat)
    ensures n <= |s| && (s != "" ==> n > 0 && IsLine(s[..n]) && (n < |s| ==> Ended(s[..n])))
  {
    if s == "" then 0 else if s[0] == '\n' then 1 else 1 + LineEnd(s[1..])
  }

  /** splitlines(keepends=True). */
  function SplitKeep(s: string): (ls: seq<string>)
    ensures AreLines(ls)
  {
    if s == "" then []
    else
      var n := LineEnd(s);
      assert n == |s| ==> s[n..] == "";
      [s[..n]] + SplitKeep(s[n..])
  }

  function Chomp(l: string): string { if Ended(l) then l[..|l| - 1] else l }

  function ChompAll(ls: seq<string>): seq<string> {
    if ls == [] then [] else [Chomp(ls[0])] + ChompAll(ls[1..])
  }

  /** splitlines(). */
  function Split(s: string): seq<string> { ChompAll(SplitKeep(s)) }

  function Join(ls: seq<string>): string {
    if ls == [] then "" else ls[0] + Join(ls[1..])
  }

  /** The same lines, the last one ended. */
  function Close(ls: seq<string>): seq<string> {
    if ls == [] || Ended(ls[|ls| - 1]) then ls else ls[..|ls| - 1] + [ls[|ls| - 1] + "\n"]
  }

  lemma {:induction false} JoinSplit(s: string)
    ensures Join(SplitKeep(s)) == s
    decreases |s|
  {
    if s != "" {
      var n := LineEnd(s);
      JoinSplit(s[n..]);
      assert s == s[..n] + s[n..];
    }
  }

  lemma {:induction false} JoinConcat(a: seq<string>, b: seq<string>)
    ensures Join(a + b) == Join(a) + Join(b)
    decreases a
  {
    if a == [] {
      assert a + b == b;
    } else {
      assert (a + b)[1..] == a[1..] + b;
      JoinConcat(a[1..], b);
    }
  }

  lemma {:induction false} LineEndOfLine(l: string, rest: string)
    requires IsLine(l) && (Ended(l) || rest == "")
    ensures LineEnd(l + rest) == |l|
    decreases |l|
  {
    if |l| > 1 {
      assert (l + rest)[1..] == l[1..] + rest;
      LineEndOfLine(l[1..], rest);
    } else {
      assert (l + rest)[0] == l[0];
      if l[0] != '\n' { assert (l + rest)[1..] == ""; }
    }
  }

  lemma SplitHead(l: string, rest: string)
    requires IsLine(l) && (Ended(l) || rest == "")
    ensures SplitKeep(l + rest) == [l] + SplitKeep(rest)
  {
    LineEndOfLine(l, rest);
    assert (l + rest)[..|l|] == l && (l + rest)[|l|..] == rest;
  }

  /** Joining lines and splitting them again gives the same lines. */
  lemma {:induction false} SplitJoin(ls: seq<string>)
    requires AreLines(ls)
    ensures SplitKeep(Join(ls)) == ls
    decreases ls
  {
    if ls != [] {
      SplitJoin(ls[1..]);
      if |ls| == 1 { assert Join(ls[1..]) == ""; }
      SplitHead(ls[0], Join(ls[1..]));
    }
  }

  lemma {:induction false} JoinEnds(ls: seq<string>)
    requires AreLines(ls) && ls != []
    ensures Join(ls) != "" && Ended(Join(ls)) == Ended(ls[|ls| - 1])
    decreases ls
  {
    if |ls| > 1 {
      JoinEnds(ls[1..]);
    } else {
      assert Join(ls[1..]) == "";
      assert Join(ls) == ls[0];
    }
  }

  /** A text that ends where a line ends splits independently of what follows. */
  lemma SplitConcat(a: string, b: string)
    requires a == "" || Ended(a)
    ensures SplitKeep(a + b) == SplitKeep(a) + SplitKeep(b)
  {
    hide SplitKeep, Join, IsLine, Ended;
    var la, lb := SplitKeep(a), SplitKeep(b);
    JoinSplit(a);
    JoinSplit(b);
    JoinConcat(la, lb);
    if la != [] { JoinEnds(la); }
    SplitJoin(la + lb);
  }

  lemma {:induction false} ChompConcat(a: seq<string>, b: seq<string>)
    ensures ChompAll(a + b) == ChompAll(a) + ChompAll(b)
    decreases a
  {
    if a == [] {
      assert a + b == b;
    } else {
      assert (a + b)[1..] == a[1..] + b;
      ChompConcat(a[1..], b);
    }
  }
}
