/** Travel demand read from director log lines (scripts/admin_autoscaler.py): the
    records of each line, and the peak count per name over a window of lines.
    Letters are compared in ASCII. */
module TravelDemand {
  import opened Arith
  import opened Wrappers
  import opened Ascii

  const QUEUE_HEAD := "travel queue for "
  const REQUEST_HEAD := "travel request for "
  const GROUP_HEAD := "classicalinstancing group "
  const PLAYERS_TO := " player(s) to "

  datatype Record = Record(name: string, num: nat)

  predicate IsWord(c: char) { IsDigit(c) || 'a' <= Lower(c) <= 'z' || c == '_' }

  /** The lower-case pattern stands at position i, whatever the case of the text. */
  predicate MatchesAt(s: string, i: nat, pattern: string) {
    i + |pattern| <= |s| && forall k | 0 <= k < |pattern| :: Lower(s[i + k]) == pattern[k]
  }

  function DigitsEnd(s: string, i: nat): (j: nat)
    requires i <= |s|
    ensures i <= j <= |s| && forall k | i <= k < j :: IsDigit(s[k])
    decreases |s| - i
  {
    if i < |s| && IsDigit(s[i]) then DigitsEnd(s, i + 1) else i
  }

  function WordEnd(s: string, i: nat): (j: nat)
    requires i <= |s|
    ensures i <= j <= |s|
    decreases |s| - i
  {
    if i < |s| && IsWord(s[i]) then WordEnd(s, i + 1) else i
  }

  function Value(digits: string): nat
    requires forall k | 0 <= k < |digits| :: IsDigit(digits[k])
  {
    if digits == "" then 0
    else
      assert IsDigit(digits[|digits| - 1]);
      10 * Value(digits[..|digits| - 1]) + (digits[|digits| - 1] - '0') as nat
  }

  // --------------------------------------------------------------- segments

  datatype Heads = Heads(queue: string, request: string)

  const HEADS := Heads(QUEUE_HEAD, REQUEST_HEAD)

  /** The length of the record header at i, 0 when none starts there. */
  function HeadLen(h: Heads, s: string, i: nat): nat {
    if MatchesAt(s, i, h.queue) then |h.queue| else if MatchesAt(s, i, h.request) then |h.request| else 0
  }

  /** The first record header at or after i, or the end of the line. */
  function NextStart(h: Heads, s: string, i: nat): (j: nat)
    requires i <= |s|
    ensures i <= j <= |s|
    decreases |s| - i
  {
    if i == |s| || HeadLen(h, s, i) > 0 then i else NextStart(h, s, i + 1)
  }

  function SegmentEnd(h: Heads, s: string, start: nat): (end: nat)
    requires start < |s|
    ensures start < end <= |s|
  {
    var past := start + Max(HeadLen(h, s, start), 1);
    NextStart(h, s, if past <= |s| then past else |s|)
  }

  /** Each record runs from its header to the next one. */
  function SegmentsFrom(h: Heads, s: string, start: nat): seq<string>
    requires start <= |s|
    decreases |s| - start
  {
    if start == |s| then []
    else
      var end := SegmentEnd(h, s, start);
      [s[start..end]] + SegmentsFrom(h, s, end)
  }

  function Segments(line: string): seq<string> { SegmentsFrom(HEADS, line, NextStart(HEADS, line, 0)) }

  // ---------------------------------------------------------------- records

  function RequestRecord(seg: string): Option<Record> {
    if !MatchesAt(seg, 0, REQUEST_HEAD) then None
    else
      var d := DigitsEnd(seg, |REQUEST_HEAD|);
      if d == |REQUEST_HEAD| || !MatchesAt(seg, d, PLAYERS_TO) then None
      else
        var n := d + |PLAYERS_TO|;
        var w := WordEnd(seg, n);
        if w == n then None else Some(Record(seg[n..w], Value(seg[|REQUEST_HEAD|..d])))
  }

  /** The map or group a queue record names. */
  function QueueName(seg: string): Option<string> {
    if !MatchesAt(seg, 0, QUEUE_HEAD) then None
    else
      var n := |QUEUE_HEAD|;
      var g := n + |GROUP_HEAD|;
      if MatchesAt(seg, n, GROUP_HEAD) && WordEnd(seg, g) > g then Some(seg[g..WordEnd(seg, g)])
      else if WordEnd(seg, n) > n then Some(seg[n..WordEnd(seg, n)])
      else None
  }

  /** The first "num: N" or "num=N" of the segment; a record without one is no demand. */
  function FindNum(seg: string, i: nat): nat
    requires i <= |seg|
    decreases |seg| - i
  {
    if i == |seg| then 0
    else if MatchesAt(seg, i, "num") && i + 3 < |seg| && (seg[i + 3] == ':' || seg[i + 3] == '=')
         && DigitsEnd(seg, SpaceEnd(seg, i + 4)) > SpaceEnd(seg, i + 4) then
      Value(seg[SpaceEnd(seg, i + 4)..DigitsEnd(seg, SpaceEnd(seg, i + 4))])
    else FindNum(seg, i + 1)
  }

  function ParseSegment(seg: string): Option<Record> {
    var request := RequestRecord(seg);
    if request.Some? then request
    else
      var name := QueueName(seg);
      if name.None? then None else Some(Record(name.value, FindNum(seg, 0)))
  }

  function Parsed(seg: string): seq<Record> {
    var r := ParseSegment(seg);
    if r.Some? then [r.value] else []
  }

  function ParseSegments(segs: seq<string>): seq<Record> {
    if segs == [] then [] else Parsed(segs[0]) + ParseSegments(segs[1..])
  }

  function ParseLine(line: string): seq<Record> { ParseSegments(Segments(line)) }

  function RecordsOf(lines: seq<string>): seq<Record> {
    if lines == [] then [] else ParseLine(lines[0]) + RecordsOf(lines[1..])
  }

  // ------------------------------------------------------------------ demand

  function Bump(out: map<string, nat>, r: Record): map<string, nat> {
    out[r.name := Max(if r.name in out then out[r.name] else 0, r.num)]
  }

  function BumpAll(out: map<string, nat>, rs: seq<Record>): map<string, nat>
    decreases rs
  {
    if rs == [] then out else BumpAll(Bump(out, rs[0]), rs[1..])
  }

  function Demand(lines: seq<string>): map<string, nat> { BumpAll(map[], RecordsOf(lines)) }

  method ParseTravelDemand(lines: seq<string>) returns (out: map<string, nat>)
    ensures out == Demand(lines)
  {
    hide ParseLine;
    out := map[];
    assert lines[0..] == lines;
    for i := 0 to |lines|
      invariant BumpAll(out, RecordsOf(lines[i..])) == Demand(lines)
    {
      var rs := ParseLine(lines[i]);
      ghost var later := RecordsOf(lines[i + 1..]);
      assert lines[i..][0] == lines[i] && lines[i..][1..] == lines[i + 1..];
      assert rs[0..] == rs;
      for j := 0 to |rs|
        invariant BumpAll(out, rs[j..] + later) == Demand(lines)
      {
        assert (rs[j..] + later)[1..] == rs[j + 1..] + later;
        out := Bump(out, rs[j]);
      }
      assert rs[|rs|..] + later == later;
    }
    assert lines[|lines|..] == [];
  }

  /** The peak count recorded under a name, None when the name never occurs. */
  function Peak(rs: seq<Record>, name: string): Option<nat> {
    if rs == [] then None
    else
      var before := Peak(rs[..|rs| - 1], name);
      var last := rs[|rs| - 1];
      if last.name != name then before
      else if before.Some? then Some(Max(before.value, last.num))
      else Some(last.num)
  }

  function Combine(a: Option<nat>, b: Option<nat>): Option<nat> {
    if a.None? then b else if b.None? then a else Some(Max(a.value, b.value))
  }

  function Looked(out: map<string, nat>, name: string): Option<nat> { if name in out then Some(out[name]) else None }

  lemma {:induction false} PeakConcat(a: seq<Record>, b: seq<Record>, name: string)
    ensures Peak(a + b, name) == Combine(Peak(a, name), Peak(b, name))
    decreases |b|
  {
    if b == [] {
      assert a + b == a;
    } else {
      assert (a + b)[..|a + b| - 1] == a + b[..|b| - 1];
      PeakConcat(a, b[..|b| - 1], name);
    }
  }

  lemma {:induction false} BumpAllIsPeak(out: map<string, nat>, rs: seq<Record>, name: string)
    ensures Looked(BumpAll(out, rs), name) == Combine(Looked(out, name), Peak(rs, name))
    decreases rs
  {
    if rs != [] {
      BumpAllIsPeak(Bump(out, rs[0]), rs[1..], name);
      PeakConcat([rs[0]], rs[1..], name);
      assert [rs[0]] + rs[1..] == rs;
      assert [rs[0]][..0] == [];
      assert Peak([rs[0]], name) == if rs[0].name == name then Some(rs[0].num) else None;
    }
  }

  /** The demand map holds exactly the names recorded, each with its peak, however often a record is repeated. */
  lemma DemandIsPeak(lines: seq<string>, name: string)
    ensures Looked(Demand(lines), name) == Peak(RecordsOf(lines), name)
  {
    BumpAllIsPeak(map[], RecordsOf(lines), name);
  }

  lemma {:induction false} PeakBounds(rs: seq<Record>, name: string)
    ensures forall r | r in rs && r.name == name :: Peak(rs, name).Some? && r.num <= Peak(rs, name).value
    ensures Peak(rs, name).Some? ==> Record(name, Peak(rs, name).value) in rs
    decreases |rs|
  {
    if rs != [] {
      var front, last := rs[..|rs| - 1], rs[|rs| - 1];
      PeakBounds(front, name);
      assert rs == front + [last];
      assert forall r :: r in rs <==> r in front || r == last;
    }
  }

  lemma {:induction false} RecordsConcat(a: seq<string>, b: seq<string>)
    ensures RecordsOf(a + b) == RecordsOf(a) + RecordsOf(b)
    decreases a
  {
    hide ParseLine;
    if a == [] {
      assert a + b == b;
    } else {
      assert (a + b)[1..] == a[1..] + b;
      RecordsConcat(a[1..], b);
    }
  }

  /** Reading a log in two batches and taking the larger count per name loses nothing. */
  lemma DemandConcat(a: seq<string>, b: seq<string>, name: string)
    ensures Looked(Demand(a + b), name) == Combine(Looked(Demand(a), name), Looked(Demand(b), name))
  {
    DemandIsPeak(a, name);
    DemandIsPeak(b, name);
    DemandIsPeak(a + b, name);
    RecordsConcat(a, b);
    PeakConcat(RecordsOf(a), RecordsOf(b), name);
  }

  // ------------------------------------------- records on one physical line

  /** The pattern begins with the two letters, which stand together nowhere else in it. */
  predicate StartsOnce(pattern: string, c: char, d: char) {
    && |pattern| >= 2 && pattern[0] == c && pattern[1] == d
    && forall p | 0 < p < |pattern| && pattern[p] == c :: p + 1 < |pattern| && pattern[p + 1] != d
  }

  predicate Distinct(h: Heads) {
    |h.queue| >= 2 && StartsOnce(h.queue, h.queue[0], h.queue[1]) && StartsOnce(h.request, h.queue[0], h.queue[1])
  }

  lemma HeadShifts(h: Heads, a: string, b: string, j: nat)
    ensures HeadLen(h, a + b, |a| + j) == HeadLen(h, b, j)
  {
    ShiftedMatch(a, b, j, h.queue);
    ShiftedMatch(a, b, j, h.request);
  }

  lemma ShiftedMatch(a: string, b: string, j: nat, pattern: string)
    ensures MatchesAt(a + b, |a| + j, pattern) == MatchesAt(b, j, pattern)
  {
    if MatchesAt(a + b, |a| + j, pattern) {
      forall k | 0 <= k < |pattern| ensures Lower(b[j + k]) == pattern[k] {
        assert Lower((a + b)[|a| + j + k]) == pattern[k];
      }
    }
    if MatchesAt(b, j, pattern) {
      forall k | 0 <= k < |pattern| ensures Lower((a + b)[|a| + j + k]) == pattern[k] {
        assert Lower(b[j + k]) == pattern[k];
      }
    }
  }

  /** A header never straddles the start of another record. */
  lemma HeadStaysInside(h: Heads, a: string, b: string, i: nat)
    requires Distinct(h) && i < |a| && HeadLen(h, b, 0) > 0
    ensures HeadLen(h, a + b, i) == HeadLen(h, a, i) && i + HeadLen(h, a, i) <= |a|
  {
    var c, d := h.queue[0], h.queue[1];
    assert |b| >= 2 && Lower(b[0]) == c && Lower(b[1]) == d by {
      var pattern := if MatchesAt(b, 0, h.queue) then h.queue else h.request;
      assert Lower(b[0 + 0]) == pattern[0] && Lower(b[0 + 1]) == pattern[1];
    }
    InsideMatch(a, b, i, h.queue, c, d);
    InsideMatch(a, b, i, h.request, c, d);
  }

  lemma NoOverhang(a: string, b: string, i: nat, pattern: string, c: char, d: char)
    requires i < |a| < i + |pattern| && |b| >= 2 && Lower(b[0]) == c && Lower(b[1]) == d && StartsOnce(pattern, c, d)
    ensures !MatchesAt(a + b, i, pattern)
  {
    var p := |a| - i;
    assert (a + b)[i + p] == b[0] && (a + b)[i + (p + 1)] == b[1];
    assert pattern[p] == c ==> p + 1 < |pattern| && pattern[p + 1] != d;
  }

  lemma InsideMatch(a: string, b: string, i: nat, pattern: string, c: char, d: char)
    requires i < |a| && |b| >= 2 && Lower(b[0]) == c && Lower(b[1]) == d && StartsOnce(pattern, c, d)
    ensures MatchesAt(a + b, i, pattern) == MatchesAt(a, i, pattern)
    ensures MatchesAt(a, i, pattern) ==> i + |pattern| <= |a|
  {
    if MatchesAt(a + b, i, pattern) {
      if |a| < i + |pattern| { NoOverhang(a, b, i, pattern, c, d); }
      forall k | 0 <= k < |pattern| ensures Lower(a[i + k]) == pattern[k] {
        assert Lower((a + b)[i + k]) == pattern[k];
      }
    }
    if MatchesAt(a, i, pattern) {
      forall k | 0 <= k < |pattern| ensures Lower((a + b)[i + k]) == pattern[k] {
        assert Lower(a[i + k]) == pattern[k];
      }
    }
  }

  lemma {:induction false} StartInside(h: Heads, a: string, b: string, i: nat)
    requires Distinct(h) && i <= |a| && HeadLen(h, b, 0) > 0
    ensures NextStart(h, a + b, i) == NextStart(h, a, i)
    decreases |a| - i
  {
    HeadShifts(h, a, b, 0);
    if i < |a| {
      HeadStaysInside(h, a, b, i);
      StartInside(h, a, b, i + 1);
    }
  }

  lemma {:induction false} StartShifts(h: Heads, a: string, b: string, j: nat)
    requires j <= |b|
    ensures NextStart(h, a + b, |a| + j) == |a| + NextStart(h, b, j)
    decreases |b| - j
  {
    HeadShifts(h, a, b, j);
    if j < |b| { StartShifts(h, a, b, j + 1); }
  }

  lemma EndShifts(h: Heads, a: string, b: string, j: nat)
    requires j < |b|
    ensures SegmentEnd(h, a + b, |a| + j) == |a| + SegmentEnd(h, b, j)
  {
    HeadShifts(h, a, b, j);
    var past := j + Max(HeadLen(h, b, j), 1);
    StartShifts(h, a, b, if past <= |b| then past else |b|);
  }

  lemma FirstSegment(h: Heads, s: string, start: nat)
    requires start < |s|
    ensures var end := SegmentEnd(h, s, start); SegmentsFrom(h, s, start) == [s[start..end]] + SegmentsFrom(h, s, end)
  {
    hide SegmentEnd;
  }

  lemma {:induction false} SegmentsShift(h: Heads, a: string, b: string, j: nat)
    requires j <= |b|
    ensures SegmentsFrom(h, a + b, |a| + j) == SegmentsFrom(h, b, j)
    decreases |b| - j
  {
    hide SegmentEnd;
    if j < |b| {
      EndShifts(h, a, b, j);
      var end := SegmentEnd(h, b, j);
      SegmentsShift(h, a, b, end);
      FirstSegment(h, a + b, |a| + j);
      FirstSegment(h, b, j);
      hide SegmentsFrom;
      assert (a + b)[|a| + j..|a| + end] == b[j..end];
    }
  }

  lemma EndInside(h: Heads, a: string, b: string, start: nat)
    requires Distinct(h) && start < |a| && HeadLen(h, b, 0) > 0 && HeadLen(h, a, start) > 0
    ensures SegmentEnd(h, a + b, start) == SegmentEnd(h, a, start)
    ensures SegmentEnd(h, a, start) < |a| ==> HeadLen(h, a, SegmentEnd(h, a, start)) > 0
  {
    HeadStaysInside(h, a, b, start);
    var past := start + HeadLen(h, a, start);
    StartInside(h, a, b, past);
    NextStartIsHead(h, a, past);
  }

  lemma {:induction false} SegmentsSplit(h: Heads, a: string, b: string, start: nat)
    requires Distinct(h) && start <= |a| && HeadLen(h, b, 0) > 0 && (start < |a| ==> HeadLen(h, a, start) > 0)
    ensures SegmentsFrom(h, a + b, start) == SegmentsFrom(h, a, start) + SegmentsFrom(h, b, 0)
    decreases |a| - start
  {
    hide SegmentEnd, HeadLen, Distinct;
    if start == |a| {
      SegmentsShift(h, a, b, 0);
      assert SegmentsFrom(h, a, start) == [];
    } else {
      EndInside(h, a, b, start);
      var end := SegmentEnd(h, a, start);
      SegmentsSplit(h, a, b, end);
      FirstSegment(h, a + b, start);
      FirstSegment(h, a, start);
      hide SegmentsFrom;
      assert (a + b)[start..end] == a[start..end];
      var rest := SegmentsFrom(h, b, 0);
      assert [a[start..end]] + SegmentsFrom(h, a, end) + rest == [a[start..end]] + (SegmentsFrom(h, a, end) + rest);
    }
  }

  lemma {:induction false} NextStartIsHead(h: Heads, s: string, i: nat)
    requires i <= |s|
    ensures NextStart(h, s, i) < |s| ==> HeadLen(h, s, NextStart(h, s, i)) > 0
    decreases |s| - i
  {
    if i < |s| && HeadLen(h, s, i) == 0 { NextStartIsHead(h, s, i + 1); }
  }

  lemma {:induction false} ParseSegmentsConcat(a: seq<string>, b: seq<string>)
    ensures ParseSegments(a + b) == ParseSegments(a) + ParseSegments(b)
    decreases a
  {
    hide Parsed;
    if a == [] {
      assert a + b == b;
    } else {
      assert (a + b)[0] == a[0] && (a + b)[1..] == a[1..] + b;
      ParseSegmentsConcat(a[1..], b);
      var x, y, z := Parsed(a[0]), ParseSegments(a[1..]), ParseSegments(b);
      assert x + (y + z) == x + y + z;
    }
  }

  lemma HeadsAreDistinct()
    ensures Distinct(HEADS)
  {
    OnceInQueue();
    OnceInRequest();
  }

  lemma OnceInQueue()
    ensures StartsOnce(QUEUE_HEAD, 't', 'r')
  {
  }

  lemma OnceInRequest()
    ensures StartsOnce(REQUEST_HEAD, 't', 'r')
  {
  }

  /** Records run together on one physical line are read as if each stood alone: no
      record borrows the count or the name of the next. */
  lemma RecordsStayApart(a: string, b: string)
    requires HeadLen(HEADS, b, 0) > 0
    ensures ParseLine(a + b) == ParseLine(a) + ParseLine(b)
  {
    HeadsAreDistinct();
    StartInside(HEADS, a, b, 0);
    NextStartIsHead(HEADS, a, 0);
    SegmentsSplit(HEADS, a, b, NextStart(HEADS, a, 0));
    ParseSegmentsConcat(Segments(a), Segments(b));
  }
}
