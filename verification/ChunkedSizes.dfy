/** What the decoder takes for a size, and what it does with a line that is none. */
module ChunkedSizes {
  import opened Wrappers
  import opened Chunked

  // ----------------------------------------------------------------- hexadecimal

  lemma HexValueIs(b: Byte, v: nat)
    ensures HexValue(b) == Some(v) <==>
            (v <= 9 && b == 48 + v) || (10 <= v <= 15 && (b == 65 + (v - 10) || b == 97 + (v - 10)))
  {
  }

  /** The hexadecimal digits of a number, letters in either case. */
  function Hex(n: nat, upper: bool): (s: seq<Byte>)
    ensures s != []
  {
    var d := n % 16;
    var digit: Byte := if d < 10 then 48 + d else if upper then 55 + d else 87 + d;
    if n < 16 then [digit] else Hex(n / 16, upper) + [digit]
  }

  /** A size written in hexadecimal reads as that size. */
  lemma {:induction false} HexReads(n: nat, upper: bool)
    ensures HexDigits(Hex(n, upper)) && Value(Hex(n, upper)) == n && ParseSize(Hex(n, upper)) == Some(n)
    decreases n
  {
    var s := Hex(n, upper);
    HexValueIs(s[|s| - 1], n % 16);
    if n < 16 {
      assert s[..0] == [];
    } else {
      HexReads(n / 16, upper);
      assert s[..|s| - 1] == Hex(n / 16, upper);
    }
    ParseHex(s);
  }

  // --------------------------------------------------------------- int(s, 16)

  predicate IsHex(b: Byte) { 48 <= b <= 57 || 65 <= b <= 70 || 97 <= b <= 102 }

  /** Digits, with single underscores between them. */
  predicate Grouped(s: seq<Byte>) {
    && s != [] && IsHex(s[0]) && IsHex(s[|s| - 1])
    && (forall i | 0 <= i < |s| :: IsHex(s[i]) || s[i] == 95)
    && forall i | 0 <= i < |s| - 1 :: s[i] == 95 ==> s[i + 1] != 95
  }

  /** The number they write, the underscores left out. */
  function Number(s: seq<Byte>): nat {
    if s == [] then 0
    else
      var b, before := s[|s| - 1], Number(s[..|s| - 1]);
      if b == 95 then before
      else 16 * before + if b <= 57 then if b < 48 then 0 else b - 48 else if b <= 70 then if b < 65 then 0 else b - 55
                         else if b < 97 then 0 else b - 87
  }

  lemma {:induction false} NumberSplit(a: seq<Byte>, s: seq<Byte>)
    requires a != [] && (forall b | b in a + s :: IsHex(b) || b == 95)
    ensures Number(a + s) == Number(a) * Power(Bare(s)) + Number(s)
    decreases s
  {
    if s == [] {
      assert a + s == a;
    } else {
      var front, b := s[..|s| - 1], s[|s| - 1];
      assert (a + s)[..|a + s| - 1] == a + front && (a + s)[|a + s| - 1] == b;
      assert forall x | x in a + front :: x in a + s;
      NumberSplit(a, front);
      assert b in a + s;
      Distribute(Number(a), Power(Bare(front)), Number(front));
    }
  }

  lemma Distribute(a: nat, p: nat, n: nat)
    ensures 16 * (a * p + n) == a * (16 * p) + 16 * n
  {
  }

  /** How many digits there are. */
  function Bare(s: seq<Byte>): nat {
    if s == [] then 0 else Bare(s[..|s| - 1]) + if s[|s| - 1] == 95 then 0 else 1
  }

  function Power(n: nat): nat { if n == 0 then 1 else 16 * Power(n - 1) }

  lemma {:induction false} ValueSplit(d: Byte, s: seq<Byte>)
    requires HexValue(d).Some? && HexDigits(s)
    ensures HexDigits([d] + s) && Value([d] + s) == HexValue(d).value * Power(|s|) + Value(s)
    decreases s
  {
    var all := [d] + s;
    assert forall i | 0 <= i < |all| :: HexValue(all[i]).Some?;
    if s == [] {
      assert all == [d] && all[..0] == [] && Value(all) == 16 * Value(all[..0]) + HexValue(d).value;
    } else {
      var front := s[..|s| - 1];
      assert all[..|all| - 1] == [d] + front;
      ValueSplit(d, front);
      Distribute(HexValue(d).value, Power(|front|), Value(front));
    }
  }

  /** Such digits are read, as the number they write, and nothing else is. */
  lemma {:induction false} DigitsIff(s: seq<Byte>)
    ensures Digits(s).Some? <==> Grouped(s)
    ensures Digits(s).Some? ==> HexDigits(Digits(s).value) && Value(Digits(s).value) == Number(s)
                                && |Digits(s).value| == Bare(s)
    decreases |s|
  {
    DigitsAreHex(s);
    if s != [] && HexValue(s[0]).Some? {
      if |s| == 1 {
        assert s[..0] == [] && Value(s) == 16 * Value(s[..0]) + HexValue(s[0]).value;
        assert Number(s[..0]) == 0 && Bare(s[..0]) == 0;
      } else {
        var skip := if s[1] == 95 then 2 else 1;
        DigitsIff(s[skip..]);
        GroupedOn(s, skip);
        if Grouped(s) {
          ReadOn(s, skip);
          ValueSplit(s[0], Digits(s[skip..]).value);
        }
      }
    }
  }

  lemma GroupedOn(s: seq<Byte>, skip: nat)
    requires |s| > 1 && HexValue(s[0]).Some? && skip == (if s[1] == 95 then 2 else 1)
    ensures Grouped(s) <==> Grouped(s[skip..])
  {
    var t := s[skip..];
    assert forall i | skip <= i < |s| :: s[i] == t[i - skip];
    assert forall i | 0 <= i < |t| :: t[i] == s[i + skip];
    if Grouped(t) {
      assert t[0] == s[skip] && t[|t| - 1] == s[|s| - 1];
      forall i | 0 <= i < |s| - 1 ensures s[i] == 95 ==> s[i + 1] != 95 {
        if i >= skip { assert t[i - skip] == 95 ==> t[i - skip + 1] != 95; }
      }
    }
    if Grouped(s) {
      assert t != [] && t[|t| - 1] == s[|s| - 1];
      forall i | 0 <= i < |t| - 1 ensures t[i] == 95 ==> t[i + 1] != 95 { assert s[i + skip + 1] == t[i + 1]; }
    }
  }

  lemma ReadOn(s: seq<Byte>, skip: nat)
    requires |s| > 1 && Grouped(s) && HexValue(s[0]).Some? && skip == (if s[1] == 95 then 2 else 1)
    ensures Number(s) == HexValue(s[0]).value * Power(Bare(s[skip..])) + Number(s[skip..])
    ensures Bare(s) == 1 + Bare(s[skip..])
  {
    var a, t := s[..skip], s[skip..];
    assert a + t == s;
    forall b | b in a + t ensures IsHex(b) || b == 95 { var i :| 0 <= i < |s| && s[i] == b; }
    NumberSplit(a, t);
    BareSplit(a, t);
    assert Number(a) == HexValue(s[0]).value && Bare(a) == 1 by {
      assert [s[0]][..0] == [] && Number([s[0]]) == HexValue(s[0]).value && Bare([s[0]]) == 1;
      if skip == 2 { assert a[..1] == [s[0]] && a[1] == 95; } else { assert a == [s[0]]; }
    }
  }

  lemma {:induction false} BareSplit(a: seq<Byte>, s: seq<Byte>)
    ensures Bare(a + s) == Bare(a) + Bare(s)
    decreases s
  {
    if s == [] {
      assert a + s == a;
    } else {
      assert (a + s)[..|a + s| - 1] == a + s[..|s| - 1];
      BareSplit(a, s[..|s| - 1]);
    }
  }

  predicate Signed(s: seq<Byte>) { s != [] && (s[0] == 43 || s[0] == 45) }

  /** From where on the digits stand: behind a sign, and behind "0x" and one underscore. */
  predicate DigitsFrom(s: seq<Byte>, from: nat) {
    var i := if Signed(s) then 1 else 0;
    && from <= |s| && Grouped(s[from..])
    && (from == i || (from == i + 2 && s[i] == 48 && s[i + 1] in {120, 88})
        || (from == i + 3 && s[i] == 48 && s[i + 1] in {120, 88} && s[i + 2] == 95))
  }

  /** The size a line states: the number behind the sign and the prefix, negative with a minus. */
  lemma SizeIff(s: seq<Byte>, n: int)
    ensures ParseSize(s) == Some(n) <==>
            exists from: nat :: DigitsFrom(s, from)
                                && n == Number(s[from..]) as int * if s[0] == 45 then -1 else 1
  {
    hide Digits, Number, Value, HexDigits, ParseSize;
    var i: nat := if Signed(s) then 1 else 0;
    var at := PrefixEnd(s);
    DigitsIff(s[at..]);
    ParsesThere(s);
    if ParseSize(s) == Some(n) {
      assert DigitsFrom(s, at) && n == Number(s[at..]) as int * if s[0] == 45 then -1 else 1;
    }
    if from: nat :| DigitsFrom(s, from) { OneStart(s, from); }
  }

  lemma ParsesThere(s: seq<Byte>)
    ensures var d := Digits(s[PrefixEnd(s)..]);
            ParseSize(s) == if d.None? then None
                            else (DigitsAreHex(s[PrefixEnd(s)..]);
                                  Some(Value(d.value) as int * if Signed(s) && s[0] == 45 then -1 else 1))
  {
    hide Digits, Value;
    assert |s| >= 1 ==> forall k | 0 <= k < |s| :: s[1..][k..] == s[1 + k..];
    DigitsAreHex(s[PrefixEnd(s)..]);
  }

  /** Where int() looks for them. */
  function PrefixEnd(s: seq<Byte>): (r: nat)
    ensures r <= |s|
  {
    var i := if Signed(s) then 1 else 0;
    if |s| >= i + 2 && s[i] == 48 && (s[i + 1] == 120 || s[i + 1] == 88) then
      if |s| >= i + 3 && s[i + 2] == 95 then i + 3 else i + 2
    else i
  }

  lemma OneStart(s: seq<Byte>, from: nat)
    requires DigitsFrom(s, from)
    ensures from == PrefixEnd(s)
  {
    var i := if Signed(s) then 1 else 0;
    var t := s[from..];
    assert t[0] == s[from] && (|t| > 1 ==> t[1] == s[from + 1]);
    if from == i && |s| >= i + 2 { assert IsHex(t[1]) || t[1] == 95; }
  }

  // ------------------------------------------------------------------ the lines

  /** The next line end at or after a position. */
  predicate LineEnds(raw: seq<Byte>, pos: nat, eol: nat) {
    && pos <= eol && eol + 2 <= |raw| && raw[eol] == CR && raw[eol + 1] == LF
    && forall k | pos <= k < eol :: !(raw[k] == CR && raw[k + 1] == LF)
  }

  lemma {:induction false} FindsLineEnd(raw: seq<Byte>, pos: nat, eol: nat)
    requires LineEnds(raw, pos, eol)
    ensures Find(raw, pos) == Some(eol)
    decreases eol - pos
  {
    if pos < eol { FindsLineEnd(raw, pos + 1, eol); }
  }

  lemma {:induction false} FindsNone(raw: seq<Byte>, pos: nat)
    requires pos <= |raw| && forall k | pos <= k < |raw| - 1 :: !(raw[k] == CR && raw[k + 1] == LF)
    ensures Find(raw, pos) == None
    decreases |raw| - pos
  {
    if pos + 2 <= |raw| { FindsNone(raw, pos + 1); }
  }

  predicate Space(b: Byte) { b in {9, 10, 11, 12, 13, 32} }

  /** The part of the line from i to j: what stands before any semicolon, without the white
      space around it. */
  predicate SizePart(raw: seq<Byte>, pos: nat, eol: nat, i: nat, j: nat) {
    && pos <= i <= j <= eol <= |raw|
    && (forall k | pos <= k < i :: Space(raw[k]))
    && (forall k | i <= k < j :: raw[k] != SEMICOLON)
    && (i < j ==> !Space(raw[i]) && !Space(raw[j - 1]))
    && exists e | j <= e <= eol ::
         (e < eol ==> raw[e] == SEMICOLON) && forall k | j <= k < e :: Space(raw[k])
  }

  lemma {:induction false} BeforeIs(s: seq<Byte>, n: nat)
    requires n <= |s| && (forall k | 0 <= k < n :: s[k] != SEMICOLON) && (n < |s| ==> s[n] == SEMICOLON)
    ensures BeforeSemicolon(s) == s[..n]
    decreases s
  {
    if n > 0 {
      BeforeIs(s[1..], n - 1);
      assert [s[0]] + s[1..][..n - 1] == s[..n];
    }
  }

  lemma {:induction false} LStripIs(s: seq<Byte>, i: nat)
    requires i <= |s| && (forall k | 0 <= k < i :: Space(s[k])) && (i < |s| ==> !Space(s[i]))
    ensures LStrip(s) == s[i..]
    decreases s
  {
    if i > 0 { LStripIs(s[1..], i - 1); }
  }

  lemma {:induction false} RStripIs(s: seq<Byte>, n: nat)
    requires n <= |s| && (forall k | n <= k < |s| :: Space(s[k])) && (n > 0 ==> !Space(s[n - 1]))
    ensures RStrip(s) == s[..n]
    decreases s
  {
    if n < |s| {
      RStripIs(s[..|s| - 1], n);
      assert s[..|s| - 1][..n] == s[..n];
    } else {
      assert s[..n] == s;
    }
  }

  lemma SizeLineIs(raw: seq<Byte>, pos: nat, eol: nat, i: nat, j: nat)
    requires SizePart(raw, pos, eol, i, j)
    ensures SizeLine(raw, pos, eol) == raw[i..j]
  {
    hide BeforeSemicolon, LStrip, RStrip;
    var e :| j <= e <= eol && (e < eol ==> raw[e] == SEMICOLON) && forall k | j <= k < e :: Space(raw[k]);
    assert pos < eol ==> Slice(raw, pos, eol) == raw[pos..eol];
    Ahead(raw, pos, eol, i, j, e);
    Stripped(raw[pos..e], i - pos, j - pos);
    SliceOfSlice(raw, pos, i, j, e);
  }

  lemma SliceOfSlice(raw: seq<Byte>, a: nat, i: nat, j: nat, b: nat)
    requires a <= i <= j <= b <= |raw|
    ensures raw[a..b][i - a..j - a] == raw[i..j]
  {
    var x, y := raw[a..b][i - a..j - a], raw[i..j];
    forall k | 0 <= k < j - i ensures x[k] == y[k] { assert x[k] == raw[a..b][i - a + k] == raw[i + k]; }
  }

  lemma Ahead(raw: seq<Byte>, pos: nat, eol: nat, i: nat, j: nat, e: nat)
    requires pos <= i <= j <= e <= eol <= |raw| && (e < eol ==> raw[e] == SEMICOLON)
    requires (forall k | pos <= k < i :: Space(raw[k])) && (forall k | i <= k < j :: raw[k] != SEMICOLON)
             && (forall k | j <= k < e :: Space(raw[k]))
    ensures BeforeSemicolon(raw[pos..eol]) == raw[pos..e]
  {
    var line := raw[pos..eol];
    forall k | 0 <= k < e - pos ensures line[k] != SEMICOLON {
      var x := pos + k;
      assert line[k] == raw[x] && (x < i ==> Space(raw[x])) && (j <= x ==> Space(raw[x]));
    }
    BeforeIs(line, e - pos);
    assert line[..e - pos] == raw[pos..e];
  }

  lemma Stripped(b: seq<Byte>, i: nat, j: nat)
    requires i <= j <= |b| && (forall k | 0 <= k < i :: Space(b[k])) && (forall k | j <= k < |b| :: Space(b[k]))
    requires i < j ==> !Space(b[i]) && !Space(b[j - 1])
    ensures RStrip(LStrip(b)) == b[i..j]
  {
    hide Space, LStrip, RStrip;
    if i < j {
      LStripIs(b, i);
      RStripIs(b[i..], j - i);
      assert b[i..][..j - i] == b[i..j];
    } else {
      LStripIs(b, |b|);
      assert b[|b|..] == [];
      RStripIs([], 0);
    }
  }

  /** One line of the input: with no line end to come the decoder stops; a line that states
      nothing is skipped; one that states no number, or zero, is the end; and behind any other
      come as many bytes of data as it states, or what there is of them, and two bytes more. */
  lemma StepReads(raw: seq<Byte>, pos: nat, out: seq<Byte>, eol: nat, i: nat, j: nat)
    requires pos < |raw| && LineEnds(raw, pos, eol) && SizePart(raw, pos, eol, i, j)
    ensures var after, size := Step(raw, State(pos, out, false)), ParseSize(raw[i..j]);
            if i == j then after == State(eol + 2, out, false)
            else if size.None? || size.value == 0 then after == State(pos, out, true)
            else if size.value > 0 then
              var end := if eol + 2 + size.value <= |raw| then eol + 2 + size.value else |raw|;
              after == State(eol + 4 + size.value, out + raw[eol + 2..end], false)
            else after.pos == eol + 4 + size.value && !after.done
  {
    FindsLineEnd(raw, pos, eol);
    SizeLineIs(raw, pos, eol, i, j);
    hide Find, SizeLine, ParseSize, SizePart, LineEnds, Slice, Step;
    StepOn(raw, State(pos, out, false), eol);
    var size := ParseSize(raw[i..j]);
    if size.Some? && size.value > 0 { SliceForward(raw, eol + 2, size.value); }
  }

  lemma StepOn(raw: seq<Byte>, s: State, eol: nat)
    requires !s.done && 0 <= s.pos < |raw| && Find(raw, s.pos) == Some(eol)
    ensures var line := SizeLine(raw, s.pos, eol);
            var size := ParseSize(line);
            Step(raw, s) ==
            if line == [] then s.(pos := eol + 2)
            else if size.None? || size.value == 0 then s.(done := true)
            else State(eol + 4 + size.value, s.out + Slice(raw, eol + 2, eol + 2 + size.value), false)
  {
    hide Find, SizeLine, ParseSize, Slice;
  }

  lemma StepStops(raw: seq<Byte>, pos: nat, out: seq<Byte>)
    requires forall k | pos <= k < |raw| - 1 :: !(raw[k] == CR && raw[k + 1] == LF)
    ensures Step(raw, State(pos, out, false)) == State(pos, out, true)
  {
    if pos < |raw| { FindsNone(raw, pos); }
  }
}
