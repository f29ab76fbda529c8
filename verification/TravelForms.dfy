/** What the travel lines look like: which text is a record, whom it names, and how many. */
module TravelForms {
  import opened Wrappers
  import opened Ascii
  import opened TravelDemand

  predicate WordChar(c: char) { 'a' <= c <= 'z' || 'A' <= c <= 'Z' || '0' <= c <= '9' || c == '_' }

  /** The text, in any case, stands at i. */
  predicate Stands(s: string, i: nat, text: string) {
    i + |text| <= |s| && forall k | 0 <= k < |text| :: Alike(s[i + k], text[k])
  }

  /** A longest name of one or more word characters runs from i to j. */
  predicate NameRuns(s: string, i: nat, j: nat) {
    i < j <= |s| && (forall k | i <= k < j :: WordChar(s[k])) && (j < |s| ==> !WordChar(s[j]))
  }

  /** A longest number of one or more digits runs from i to j. */
  predicate NumberRuns(s: string, i: nat, j: nat) {
    i < j <= |s| && (forall k | i <= k < j :: '0' <= s[k] <= '9') && (j < |s| ==> !('0' <= s[j] <= '9'))
  }

  predicate LowerCase(text: string) { forall k | 0 <= k < |text| :: Lower(text[k]) == text[k] }

  lemma StandsIs(s: string, i: nat, text: string)
    requires LowerCase(text)
    ensures Stands(s, i, text) <==> MatchesAt(s, i, text)
  {
    if i + |text| <= |s| {
      forall k | 0 <= k < |text| ensures Alike(s[i + k], text[k]) <==> Lower(s[i + k]) == text[k] {
        AlikeIsLower(s[i + k], text[k]);
      }
    }
  }

  lemma HeadsAreLower()
    ensures LowerCase("travel queue for ") && LowerCase("travel request for ")
    ensures LowerCase("classicalinstancing group ") && LowerCase(" player(s) to ") && LowerCase("num")
    ensures |QUEUE_HEAD| == 17 && |REQUEST_HEAD| == 19 && |GROUP_HEAD| == 26 && |PLAYERS_TO| == 14
  {
    TailsAreLower();
  }

  lemma TailsAreLower()
    ensures LowerCase("classicalinstancing group ") && LowerCase(" player(s) to ") && LowerCase("num")
    ensures |GROUP_HEAD| == 26 && |PLAYERS_TO| == 14
  {
  }

  lemma {:induction false} WordEndIs(s: string, i: nat, j: nat)
    requires i <= |s|
    ensures NameRuns(s, i, j) <==> i < j && WordEnd(s, i) == j
    decreases |s| - i
  {
    if i < |s| && IsWord(s[i]) {
      WordEndIs(s, i + 1, j);
      if i + 1 == |s| || !IsWord(s[i + 1]) { assert WordEnd(s, i + 1) == i + 1; }
    }
  }

  lemma {:induction false} DigitsEndIs(s: string, i: nat, j: nat)
    requires i <= |s|
    ensures NumberRuns(s, i, j) <==> i < j && DigitsEnd(s, i) == j
    decreases |s| - i
  {
    if i < |s| && IsDigit(s[i]) {
      DigitsEndIs(s, i + 1, j);
      if i + 1 == |s| || !IsDigit(s[i + 1]) { assert DigitsEnd(s, i + 1) == i + 1; }
    }
  }

  // ----------------------------------------------------------------- numbers

  /** The number written in decimal. */
  function Decimal(n: nat): (s: string)
    ensures s != "" && forall k | 0 <= k < |s| :: IsDigit(s[k])
  {
    if n < 10 then ['0' + n as char] else Decimal(n / 10) + ['0' + (n % 10) as char]
  }

  /** Reading a number back gives the number. */
  lemma {:induction false} DecimalReads(n: nat)
    ensures Value(Decimal(n)) == n
  {
    var s := Decimal(n);
    if n < 10 {
      assert s[..0] == "" && Value(s) == n;
    } else {
      DecimalReads(n / 10);
      assert s[..|s| - 1] == Decimal(n / 10);
    }
  }

  // ----------------------------------------------------------------- requests

  /** A request names, behind its head, a number of players and, behind " player(s) to ", whom
      they travel to. */
  predicate Requests(seg: string, d: nat, w: nat) {
    && Stands(seg, 0, "travel request for ") && NumberRuns(seg, 19, d)
    && Stands(seg, d, " player(s) to ") && NameRuns(seg, d + 14, w)
  }

  lemma RequestIff(seg: string, d: nat, w: nat)
    ensures Requests(seg, d, w) ==> RequestRecord(seg) == Some(Record(seg[d + 14..w], Value(seg[19..d])))
    ensures RequestRecord(seg).Some? ==> exists d, w :: Requests(seg, d, w)
  {
    HeadsAreLower();
    hide MatchesAt, Stands, WordEnd, DigitsEnd, NumberRuns, NameRuns, LowerCase;
    StandsIs(seg, 0, "travel request for ");
    if Requests(seg, d, w) { RequestRead(seg, d, w); }
    if RequestRecord(seg).Some? {
      HeadFits(seg, "travel request for ");
      var e := DigitsEnd(seg, 19);
      var v := WordEndAt(seg, e);
      DigitsEndIs(seg, 19, e);
      StandsIs(seg, e, " player(s) to ");
      WordEndIs(seg, e + 14, v);
      assert Requests(seg, e, v);
    }
  }

  lemma HeadFits(s: string, text: string)
    requires MatchesAt(s, 0, text)
    ensures |text| <= |s|
  {
  }

  lemma WordEndAt(seg: string, e: nat) returns (v: nat)
    requires |REQUEST_HEAD| == 19 && |PLAYERS_TO| == 14
    requires |seg| >= 19 && e == DigitsEnd(seg, 19) && RequestRecord(seg).Some?
    ensures e > 19 && MatchesAt(seg, e, PLAYERS_TO) && e + 14 <= |seg| && v == WordEnd(seg, e + 14) && v > e + 14
  {
    v := WordEnd(seg, e + 14);
  }

  lemma RequestRead(seg: string, d: nat, w: nat)
    requires Requests(seg, d, w)
    ensures RequestRecord(seg) == Some(Record(seg[d + 14..w], Value(seg[19..d])))
  {
    HeadsAreLower();
    StandsIs(seg, 0, "travel request for ");
    StandsIs(seg, d, " player(s) to ");
    DigitsEndIs(seg, 19, d);
    WordEndIs(seg, d + 14, w);
    hide MatchesAt, Stands, WordEnd, DigitsEnd, LowerCase, Value;
    assert seg[|REQUEST_HEAD|..d] == seg[19..d];
  }

  // ------------------------------------------------------------------- queues

  /** A queue record names what stands behind its head, or behind "ClassicalInstancing group ". */
  predicate GroupRuns(seg: string, w: nat) {
    Stands(seg, 17, "classicalinstancing group ") && NameRuns(seg, 43, w)
  }

  lemma QueueReads(seg: string, w: nat)
    requires Stands(seg, 0, "travel queue for ")
    ensures GroupRuns(seg, w) ==> QueueName(seg) == Some(seg[43..w])
    ensures (forall v :: !GroupRuns(seg, v)) && NameRuns(seg, 17, w) ==> QueueName(seg) == Some(seg[17..w])
    ensures QueueName(seg).Some? ==> exists v :: GroupRuns(seg, v) || NameRuns(seg, 17, v)
  {
    HeadsAreLower();
    hide MatchesAt, Stands, WordEnd, LowerCase;
    StandsIs(seg, 0, "travel queue for ");
    StandsIs(seg, 17, "classicalinstancing group ");
    HeadFits(seg, "travel queue for ");
    WordEndIs(seg, 17, w);
    WordEndIs(seg, 17, WordEnd(seg, 17));
    if Stands(seg, 17, "classicalinstancing group ") {
      GroupFits(seg);
      WordEndIs(seg, 43, w);
      WordEndIs(seg, 43, WordEnd(seg, 43));
      assert GroupRuns(seg, WordEnd(seg, 43)) <==> WordEnd(seg, 43) > 43;
    }
    assert NameRuns(seg, 17, WordEnd(seg, 17)) <==> WordEnd(seg, 17) > 17;
  }

  lemma GroupFits(seg: string)
    requires Stands(seg, 17, "classicalinstancing group ")
    ensures 43 <= |seg|
  {
  }

  lemma QueueHeadNeeded(seg: string)
    ensures !Stands(seg, 0, "travel queue for ") ==> QueueName(seg).None?
  {
    HeadsAreLower();
    StandsIs(seg, 0, "travel queue for ");
  }

  /** "num", a colon or an equals sign, white space, and a number from j to k. */
  predicate CountAt(seg: string, i: nat, j: nat, k: nat) {
    && Stands(seg, i, "num") && i + 3 < |seg| && seg[i + 3] in [':', '=']
    && i + 4 <= j && NumberRuns(seg, j, k) && forall x | i + 4 <= x < j :: White(seg[x])
  }

  lemma CountIs(seg: string, i: nat, j: nat, k: nat)
    requires i < |seg|
    ensures CountAt(seg, i, j, k) <==>
            && MatchesAt(seg, i, "num") && i + 3 < |seg| && (seg[i + 3] == ':' || seg[i + 3] == '=')
            && SpaceEnd(seg, i + 4) == j < k && DigitsEnd(seg, j) == k
  {
    HeadsAreLower();
    StandsIs(seg, i, "num");
    hide LowerCase, Stands, MatchesAt, DigitsEnd;
    if i + 4 <= j <= |seg| {
      DigitsEndIs(seg, j, k);
      if CountAt(seg, i, j, k) { SpaceEndUnique(seg, i + 4, j); }
    }
  }

  /** The count of a queue record is the first one in it, and 0 without any. */
  lemma {:induction false} CountReads(seg: string, from: nat, i: nat, j: nat, k: nat)
    requires from <= |seg|
    ensures from <= i && CountAt(seg, i, j, k) && (forall x, y, z | from <= x < i :: !CountAt(seg, x, y, z)) ==>
              FindNum(seg, from) == Value(seg[j..k])
    ensures (forall x, y, z | from <= x :: !CountAt(seg, x, y, z)) ==> FindNum(seg, from) == 0
    decreases |seg| - from
  {
    hide MatchesAt, DigitsEnd, Value, CountAt;
    if from < |seg| {
      CountReads(seg, from + 1, i, j, k);
      CountIs(seg, from, j, k);
      if from + 4 <= |seg| {
        var a := SpaceEnd(seg, from + 4);
        CountIs(seg, from, a, DigitsEnd(seg, a));
      }
    } else {
      CountPast(seg, i, j, k);
    }
  }

  lemma CountPast(seg: string, i: nat, j: nat, k: nat)
    ensures i >= |seg| ==> !CountAt(seg, i, j, k)
  {
  }

  // -------------------------------------------------------------------- lines

  /** A record of either kind starts at i. */
  predicate RecordStarts(s: string, i: nat) { Stands(s, i, "travel queue for ") || Stands(s, i, "travel request for ") }

  lemma StartsIs(s: string, i: nat)
    ensures RecordStarts(s, i) <==> HeadLen(HEADS, s, i) > 0
  {
    HeadsAreLower();
    StandsIs(s, i, "travel queue for ");
    StandsIs(s, i, "travel request for ");
  }

  lemma {:induction false} NoStart(s: string, i: nat)
    requires i <= |s| && forall k | i <= k < |s| :: !RecordStarts(s, k)
    ensures NextStart(HEADS, s, i) == |s|
    decreases |s| - i
  {
    hide HeadLen, RecordStarts;
    if i < |s| {
      StartsIs(s, i);
      NoStart(s, i + 1);
    }
  }

  /** A line without a record is no demand. */
  lemma NoRecord(line: string)
    requires forall k | 0 <= k < |line| :: !RecordStarts(line, k)
    ensures ParseLine(line) == []
  {
    NoStart(line, 0);
  }

  /** A line that is one record is a request for the players it names; a queue of the count in
      it, or none; or nothing, when it names nobody. */
  lemma OneRecord(line: string)
    requires RecordStarts(line, 0) && forall k | 0 < k < |line| :: !RecordStarts(line, k)
    ensures ParseLine(line) ==
            if RequestRecord(line).Some? then [RequestRecord(line).value]
            else if QueueName(line).Some? then [Record(QueueName(line).value, FindNum(line, 0))]
            else []
  {
    hide RequestRecord, QueueName, FindNum, RecordStarts;
    StartsIs(line, 0);
    FirstLen(line);
    var past := HeadLen(HEADS, line, 0);
    NoStart(line, past);
    hide HeadLen;
    assert line[0..|line|] == line;
    assert SegmentsFrom(HEADS, line, 0) == [line] + SegmentsFrom(HEADS, line, |line|);
    assert [line] + [] == [line];
    assert ParseSegments([line]) == Parsed(line) + ParseSegments([line][1..]);
    assert Parsed(line) + [] == Parsed(line);
  }

  lemma FirstLen(line: string)
    requires HeadLen(HEADS, line, 0) > 0
    ensures 17 <= HeadLen(HEADS, line, 0) <= |line|
  {
    HeadsAreLower();
  }

  /** So a request for n players, written out, is a record of n whoever it names. */
  lemma RequestForm(head: string, n: nat, mid: string, name: string, rest: string)
    requires |head| == 19 && Stands(head, 0, "travel request for ") && |mid| == 14 && Stands(mid, 0, " player(s) to ")
    requires name != "" && (forall k | 0 <= k < |name| :: WordChar(name[k])) && (rest != "" ==> !WordChar(rest[0]))
    ensures RequestRecord(head + Decimal(n) + mid + name + rest) == Some(Record(name, n))
  {
    var num := Decimal(n);
    var seg := head + num + mid + name + rest;
    var d := 19 + |num|;
    var w := d + 14 + |name|;
    hide Decimal, WordChar, RequestRecord, Value, Alike;
    Within(head, "", head, num + mid + name + rest, seg, "travel request for ");
    Within(mid, head + num, mid, name + rest, seg, " player(s) to ");
    assert seg[19..d] == num && seg[d + 14..w] == name;
    assert forall k | 19 <= k < d :: seg[k] == num[k - 19];
    assert NumberRuns(seg, 19, d) by {
      assert seg[d] == mid[0] && Alike(mid[0 + 0], " player(s) to "[0]);
      SpaceNoDigit(mid[0]);
    }
    assert forall k | d + 14 <= k < w :: seg[k] == name[k - d - 14];
    assert w < |seg| ==> seg[w] == rest[0];
    RequestIff(seg, d, w);
    DecimalReads(n);
  }

  lemma SpaceNoDigit(c: char)
    requires Alike(c, ' ')
    ensures c == ' '
  {
  }

  /** A part stands in the whole where it was put. */
  lemma Within(part: string, a: string, b: string, c: string, whole: string, text: string)
    requires whole == a + b + c && part == b && |part| == |text| && Stands(part, 0, text)
    ensures Stands(whole, |a|, text)
  {
    forall k | 0 <= k < |text| ensures Alike(whole[|a| + k], text[k]) {
      assert whole[|a| + k] == part[0 + k];
      assert Alike(part[0 + k], text[k]);
    }
  }
}
