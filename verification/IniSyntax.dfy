/** How the INI engine (scripts/admin_ini_merge.py) tells one line from another: section
    headers, keyed entries and UE array entries. */
module IniSyntax {
  import opened Wrappers
  import opened Ascii

  predicate Target(l: string, section: string) { SameText(Strip(l), "[" + section + "]") }

  predicate Header(l: string) {
    var t := Strip(l);
    |t| >= 3 && t[0] == '[' && t[|t| - 1] == ']' && forall i | 0 < i < |t| - 1 :: t[i] != ']'
  }

  /** The position after the equals sign when the key stands at i. */
  function AfterKey(l: string, i: nat, key: string): (r: Option<nat>)
    requires i <= |l|
    ensures r.Some? ==> r.value <= |l|
  {
    if !LiteralAt(l, i, key) then None
    else
      var e := SpaceEnd(l, i + |key|);
      if e < |l| && l[e] == '=' then Some(e + 1) else None
  }

  /** Where the run of semicolons and white space at i ends. */
  function NoiseEnd(l: string, i: nat): (j: nat)
    requires i <= |l|
    ensures i <= j <= |l| && (forall k | i <= k < j :: IsSpace(l[k]) || l[k] == ';')
    ensures j < |l| ==> !IsSpace(l[j]) && l[j] != ';'
    decreases |l| - i
  {
    if i < |l| && (IsSpace(l[i]) || l[i] == ';') then NoiseEnd(l, i + 1) else i
  }

  /** The key, after at most one of the given prefix characters. */
  function AfterPrefixed(l: string, prefixes: string, key: string): (r: Option<nat>)
    ensures r.Some? ==> r.value <= |l|
  {
    var i := SpaceEnd(l, 0);
    if AfterKey(l, i, key).Some? then AfterKey(l, i, key)
    else if i < |l| && l[i] in prefixes then AfterKey(l, i + 1, key)
    else None
  }

  /** What a writer owns: the key, commented or not; every live form of an array
      key; or the live entries that hold one of the given values. */
  datatype Match = Key(key: string) | Live(key: string) | Holding(key: string, values: set<string>)

  predicate Hits(m: Match, l: string) {
    match m
    case Key(key) => AfterKey(l, NoiseEnd(l, 0), key).Some?
    case Live(key) => AfterPrefixed(l, "-+.!", key).Some?
    case Holding(key, values) =>
      var e := AfterPrefixed(l, "-+.!", key);
      e.Some? && Strip(l[e.value..]) in values
  }

  /** The stripped value a reader takes from the line: a keyed reader accepts the bare
      key, an array reader also "+key=" and ".key=". */
  function ValueOf(l: string, prefixes: string, key: string): Option<string> {
    var e := AfterPrefixed(l, prefixes, key);
    if e.Some? then Some(Strip(l[e.value..])) else None
  }

  /** A key the catalogue can name: an array prefix or a comment mark cannot start it. */
  predicate ValidKey(key: string) {
    && key != "" && key[0] !in ";[-+.!" && !IsSpace(key[0]) && !IsSpace(key[|key| - 1])
    && '=' !in key && '\n' !in key
  }

  predicate ValidSection(section: string) { section != "" && ']' !in section && '\n' !in section }

  // ------------------------------------------------------------ one key a line

  lemma BracketsMatch(l: string, section: string)
    requires Target(l, section)
    ensures var t := Strip(l); |t| == |section| + 2 && t[0] == '[' && t[|t| - 1] == ']'
    ensures forall k | 0 <= k < |section| :: Lower(Strip(l)[k + 1]) == Lower(section[k])
  {
    var t, b := Strip(l), "[" + section + "]";
    assert Lower(t[0]) == Lower(b[0]) && Lower(t[|t| - 1]) == Lower(b[|t| - 1]);
    forall k | 0 <= k < |section| ensures Lower(t[k + 1]) == Lower(section[k]) {
      assert Lower(t[k + 1]) == Lower(b[k + 1]);
    }
  }

  lemma TargetIsHeader(l: string, section: string)
    requires ValidSection(section) && Target(l, section)
    ensures Header(l)
  {
    BracketsMatch(l, section);
    var t := Strip(l);
    forall i | 0 < i < |t| - 1 ensures t[i] != ']' {
      assert Lower(t[i - 1 + 1]) == Lower(section[i - 1]);
      assert section[i - 1] in section;
    }
  }

  lemma OneSection(l: string, a: string, b: string)
    requires Target(l, a) && Target(l, b)
    ensures SameText(a, b)
  {
    BracketsMatch(l, a);
    BracketsMatch(l, b);
  }

  lemma HeaderLine(section: string)
    requires ValidSection(section)
    ensures Target("[" + section + "]\n", section)
  {
    var b := "[" + section + "]";
    StripEnd(b, "\n");
    assert "[" + section + "]\n" == b + "\n";
    RTrimUnique(b, |b|);
    assert b[0..] == b;
  }

  /** Two keys found at the same place are the same key. */
  lemma OneKey(l: string, i: nat, a: string, b: string)
    requires i <= |l| && ValidKey(a) && ValidKey(b) && AfterKey(l, i, a).Some? && AfterKey(l, i, b).Some?
    ensures SameText(a, b)
  {
    KeyLength(l, i, a, b);
    KeyLength(l, i, b, a);
  }

  lemma KeyLength(l: string, i: nat, a: string, b: string)
    requires i <= |l| && AfterKey(l, i, a).Some? && LiteralAt(l, i, b) && ValidKey(b)
    ensures |b| <= |a|
  {
    forall p | i <= p < i + |b| ensures l[p] != '=' && (p == i + |b| - 1 ==> !IsSpace(l[p])) {
      assert Lower(l[i + (p - i)]) == Lower(b[p - i]);
      assert b[p - i] in b;
    }
  }

  /** A line's key cannot be read at two places: past the white space, and past the
      comment marks or an array prefix as well. */
  lemma KeyStart(l: string, i: nat, key: string)
    requires ValidKey(key) && i <= |l| && LiteralAt(l, i, key)
    ensures i < |l| && l[i] !in ";[-+.!" && !IsSpace(l[i])
  {
    assert Lower(l[i + 0]) == Lower(key[0]);
  }

  /** A line one writer owns is no entry of another key to any reader. */
  lemma HitIsSilent(m: Match, l: string, prefixes: string, other: string)
    requires Hits(m, l) && ValidKey(m.key) && ValidKey(other) && !SameText(m.key, other)
    requires prefixes == "" || prefixes == "+."
    ensures ValueOf(l, prefixes, other) == None
  {
    var i := SpaceEnd(l, 0);
    var e := AfterPrefixed(l, prefixes, other);
    if e.Some? {
      var j := if AfterKey(l, i, other).Some? then i else i + 1;
      KeyStart(l, j, other);
      var h := HitStart(m, l);
      KeyStart(l, h, m.key);
      StartsAgree(m, l, prefixes, j, h);
      OneKey(l, j, m.key, other);
    }
  }

  /** Where a hit has its key. */
  function HitStart(m: Match, l: string): (h: nat)
    requires Hits(m, l)
    ensures h <= |l| && AfterKey(l, h, m.key).Some?
  {
    if m.Key? then NoiseEnd(l, 0)
    else if AfterKey(l, SpaceEnd(l, 0), m.key).Some? then SpaceEnd(l, 0)
    else SpaceEnd(l, 0) + 1
  }

  lemma StartsAgree(m: Match, l: string, prefixes: string, j: nat, h: nat)
    requires Hits(m, l) && h == HitStart(m, l) && (prefixes == "" || prefixes == "+.")
    requires h < |l| && l[h] !in ";[-+.!" && !IsSpace(l[h]) && j < |l| && l[j] !in ";[-+.!" && !IsSpace(l[j])
    requires var i := SpaceEnd(l, 0); j == i || (i < |l| && l[i] in prefixes && j == i + 1)
    ensures j == h
  {
  }

  // -------------------------------------------------- the end of line is inert

  lemma SpaceEndEnd(l: string, i: nat)
    requires i <= |l|
    ensures SpaceEnd(l + "\n", i) == if SpaceEnd(l, i) == |l| then |l| + 1 else SpaceEnd(l, i)
  {
    var u, e := l + "\n", SpaceEnd(l, i);
    SpaceEndUnique(u, i, if e == |l| then |l| + 1 else e);
  }

  lemma {:induction false} NoiseEndEnd(l: string, i: nat)
    requires i <= |l|
    ensures NoiseEnd(l + "\n", i) == if NoiseEnd(l, i) == |l| then |l| + 1 else NoiseEnd(l, i)
    decreases |l| - i
  {
    var u := l + "\n";
    if i == |l| {
      assert NoiseEnd(u, i + 1) == i + 1;
    } else {
      assert u[i] == l[i];
      NoiseEndEnd(l, i + 1);
    }
  }

  lemma AfterKeyEnd(l: string, i: nat, key: string)
    requires ValidKey(key) && i <= |l|
    ensures AfterKey(l + "\n", i, key) == AfterKey(l, i, key)
  {
    var u := l + "\n";
    if LiteralAt(u, i, key) {
      var k := |key| - 1;
      assert Lower(u[i + k]) == Lower(key[k]) && key[k] in key;
      assert i + (|key| - 1) < |l|;
      forall k | 0 <= k < |key| ensures Lower(l[i + k]) == Lower(key[k]) { assert u[i + k] == l[i + k]; }
    }
    if LiteralAt(l, i, key) {
      forall k | 0 <= k < |key| ensures Lower(u[i + k]) == Lower(key[k]) { assert u[i + k] == l[i + k]; }
      SpaceEndEnd(l, i + |key|);
    }
  }

  lemma NoKeyAtEnd(l: string, key: string)
    requires ValidKey(key)
    ensures AfterKey(l, |l|, key) == None
  {
  }

  lemma AfterPrefixedEnd(l: string, prefixes: string, key: string)
    requires ValidKey(key) && '\n' !in prefixes
    ensures AfterPrefixed(l + "\n", prefixes, key) == AfterPrefixed(l, prefixes, key)
  {
    var u, i := l + "\n", SpaceEnd(l, 0);
    SpaceEndEnd(l, 0);
    NoKeyAtEnd(l, key);
    NoKeyAtEnd(u, key);
    AfterKeyEnd(l, i, key);
    if i < |l| {
      AfterKeyEnd(l, i + 1, key);
    }
  }

  lemma StripSuffixEnd(l: string, e: nat)
    requires e <= |l|
    ensures Strip((l + "\n")[e..]) == Strip(l[e..])
  {
    assert (l + "\n")[e..] == l[e..] + "\n";
    StripEnd(l[e..], "\n");
  }

  lemma ValueOfEnd(l: string, prefixes: string, key: string)
    requires ValidKey(key) && '\n' !in prefixes
    ensures ValueOf(l + "\n", prefixes, key) == ValueOf(l, prefixes, key)
  {
    AfterPrefixedEnd(l, prefixes, key);
    var e := AfterPrefixed(l, prefixes, key);
    if e.Some? { StripSuffixEnd(l, e.value); }
  }

  lemma HitsEnd(m: Match, l: string)
    requires ValidKey(m.key)
    ensures Hits(m, l + "\n") == Hits(m, l)
  {
    var u := l + "\n";
    if m.Key? {
      NoiseEndEnd(l, 0);
      NoKeyAtEnd(l, m.key);
      NoKeyAtEnd(u, m.key);
      AfterKeyEnd(l, NoiseEnd(l, 0), m.key);
    } else {
      AfterPrefixedEnd(l, "-+.!", m.key);
      var e := AfterPrefixed(l, "-+.!", m.key);
      if e.Some? { StripSuffixEnd(l, e.value); }
    }
  }

  /** A blank line is no header and no entry. */
  lemma BlankIsPlain(l: string, section: string, m: Match)
    requires Blank(l) && ValidKey(m.key)
    ensures !Target(l, section) && !Header(l) && !Hits(m, l)
  {
    RTrimUnique(l[SpaceEnd(l, 0)..], 0);
    assert Strip(l) == "";
    if m.Key? {
      var i := NoiseEnd(l, 0);
      NoKeyAtEnd(l, m.key);
    } else {
      NoKeyAtEnd(l, m.key);
    }
  }

  // ---------------------------------------------------------------- new entries

  lemma StripFirst(l: string)
    requires l != "" && !IsSpace(l[0])
    ensures Strip(l) != "" && Strip(l)[0] == l[0]
  {
    assert l[0..] == l;
    var t := RTrim(l);
    assert l[|t|..] != "" ==> l[|t|..][0] == l[|t|];
  }

  lemma NoHeader(l: string, section: string)
    requires l != "" && !IsSpace(l[0]) && l[0] != '['
    ensures !Header(l) && !Target(l, section)
  {
    StripFirst(l);
    assert ("[" + section + "]")[0] == '[';
  }

  lemma KeyAt(mark: string, key: string, rest: string)
    requires ValidKey(key)
    ensures AfterKey(mark + (key + "=" + rest), |mark|, key) == Some(|mark| + |key| + 1)
    ensures (mark + (key + "=" + rest))[|mark| + |key| + 1..] == rest
  {
    var l := mark + (key + "=" + rest);
    forall k | 0 <= k < |key| ensures Lower(l[|mark| + k]) == Lower(key[k]) { assert l[|mark| + k] == key[k]; }
    assert l[|mark| + |key|] == '=';
    SpaceEndUnique(l, |mark| + |key|, |mark| + |key|);
  }

  lemma StartsPlain(l: string)
    requires l != "" && !IsSpace(l[0])
    ensures SpaceEnd(l, 0) == 0 && (l[0] != ';' ==> NoiseEnd(l, 0) == 0)
  {
  }

  /** "key=rest" is the key's own line, and reads back as the rest. */
  lemma BareEntry(key: string, rest: string, section: string)
    requires ValidKey(key)
    ensures var l := key + "=" + rest;
            !Header(l) && !Target(l, section) && Hits(Key(key), l) && ValueOf(l, "", key) == Some(Strip(rest))
  {
    hide AfterKey, NoiseEnd, SpaceEnd, Header, Target, Strip;
    var l := key + "=" + rest;
    assert l == "" + (key + "=" + rest);
    assert l[0] == key[0];
    KeyAt("", key, rest);
    NoHeader(l, section);
    StartsPlain(l);
  }

  /** "+key=rest" is a live entry of the array key, and reads back as the rest. */
  lemma PlusEntry(key: string, rest: string, section: string)
    requires ValidKey(key)
    ensures var l := "+" + (key + "=" + rest);
            !Header(l) && !Target(l, section) && Hits(Live(key), l) && ValueOf(l, "+.", key) == Some(Strip(rest))
  {
    hide AfterKey, NoiseEnd, SpaceEnd, Header, Target, Strip;
    var l := "+" + (key + "=" + rest);
    assert l[0] == '+';
    KeyAt("+", key, rest);
    NoHeader(l, section);
    StartsPlain(l);
    NoKeyAtPrefix(l, key);
  }

  lemma NoKeyAtPrefix(l: string, key: string)
    requires ValidKey(key) && l != "" && l[0] == '+'
    ensures AfterKey(l, 0, key) == None
  {
    if LiteralAt(l, 0, key) { KeyStart(l, 0, key); }
  }

  /** A line a reader takes for the key is a line its writer owns. */
  lemma ReadIsHit(l: string, key: string)
    requires ValidKey(key)
    ensures ValueOf(l, "", key).Some? ==> Hits(Key(key), l)
    ensures ValueOf(l, "+.", key).Some? ==> Hits(Live(key), l)
  {
    var i := SpaceEnd(l, 0);
    if AfterKey(l, i, key).Some? {
      KeyStart(l, i, key);
      NoiseEndAt(l, 0, i);
    }
  }

  lemma {:induction false} NoiseEndAt(l: string, i: nat, j: nat)
    requires i <= j < |l| && (forall k | i <= k < j :: IsSpace(l[k])) && !IsSpace(l[j]) && l[j] != ';'
    ensures NoiseEnd(l, i) == j
    decreases j - i
  {
    if i < j { NoiseEndAt(l, i + 1, j); }
  }
}
