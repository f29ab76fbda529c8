/** Characters and texts compared in ASCII: case folding, white space, strip(). */
module Ascii {
  function Lower(c: char): char {
    if 'A' <= c <= 'Z' then c - 'A' + 'a' else c
  }

  predicate IsDigit(c: char) { '0' <= c <= '9' }
  predicate IsSpace(c: char) { c == ' ' || c == '\t' || c == '\n' || c == '\r' || c == '\U{000B}' || c == '\U{000C}' }

  predicate Blank(s: string) { forall i | 0 <= i < |s| :: IsSpace(s[i]) }

  predicate SameText(a: string, b: string) {
    |a| == |b| && forall k | 0 <= k < |a| :: Lower(a[k]) == Lower(b[k])
  }

  /** The literal stands at position i, whatever the case of either. */
  predicate LiteralAt(s: string, i: nat, literal: string) {
    i + |literal| <= |s| && forall k | 0 <= k < |literal| :: Lower(s[i + k]) == Lower(literal[k])
  }

  /** Where the run of white space at i ends. */
  function SpaceEnd(s: string, i: nat): (j: nat)
    requires i <= |s|
    ensures i <= j <= |s| && (forall k | i <= k < j :: IsSpace(s[k])) && (j < |s| ==> !IsSpace(s[j]))
    decreases |s| - i
  {
    if i < |s| && IsSpace(s[i]) then SpaceEnd(s, i + 1) else i
  }

  function RTrim(s: string): (t: string)
    ensures |t| <= |s| && t == s[..|t|] && Blank(s[|t|..]) && (t != "" ==> !IsSpace(t[|t| - 1]))
  {
    if s == "" || !IsSpace(s[|s| - 1]) then s
    else
      var t := RTrim(s[..|s| - 1]);
      assert forall k | |t| <= k < |s| - 1 :: s[k] == s[..|s| - 1][|t|..][k - |t|];
      t
  }

  /** strip(). */
  function Strip(s: string): string { RTrim(s[SpaceEnd(s, 0)..]) }

  /** Trailing white space after the last visible character is all that RTrim drops. */
  lemma RTrimUnique(s: string, n: nat)
    requires n <= |s| && Blank(s[n..]) && (n > 0 ==> !IsSpace(s[n - 1]))
    ensures RTrim(s) == s[..n]
  {
    var t := RTrim(s);
    forall k | n <= k < |s| ensures IsSpace(s[k]) { assert s[k] == s[n..][k - n]; }
    forall k | |t| <= k < |s| ensures IsSpace(s[k]) { assert s[k] == s[|t|..][k - |t|]; }
  }

  /** White space added at the end does not show. */
  lemma StripEnd(s: string, tail: string)
    requires Blank(tail)
    ensures Strip(s + tail) == Strip(s)
  {
    var i := SpaceEnd(s, 0);
    var u := s + tail;
    if i == |s| {
      assert Blank(u) by {
        forall k | 0 <= k < |u| ensures IsSpace(u[k]) { assert k < |s| ==> u[k] == s[k]; }
      }
    } else {
      SpaceEndUnique(u, 0, i);
      var t := RTrim(s[i..]);
      assert u[i..] == s[i..] + tail;
      assert u[i..][|t|..] == s[i..][|t|..] + tail;
      RTrimUnique(u[i..], |t|);
    }
  }

  lemma SpaceEndUnique(s: string, i: nat, j: nat)
    requires i <= j <= |s| && (forall k | i <= k < j :: IsSpace(s[k])) && (j < |s| ==> !IsSpace(s[j]))
    ensures SpaceEnd(s, i) == j
  {
  }

  // ------------------------------------------------- the same, character by character

  predicate White(c: char) { c in [' ', '\t', '\n', '\r', '\U{000B}', '\U{000C}'] }

  /** The same character, or the same letter in the other case. */
  predicate Alike(a: char, b: char) {
    a == b || ('A' <= a <= 'Z' && b as int == a as int + 32) || ('A' <= b <= 'Z' && a as int == b as int + 32)
  }

  lemma AlikeIsLower(a: char, b: char)
    ensures Alike(a, b) <==> Lower(a) == Lower(b)
  {
  }
}
