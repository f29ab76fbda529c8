/** The edge-triggered tailer of director.log that full ticks and wake passes
    share (scripts/admin_autoscaler.py). */
module LogTailer {
  import opened Wrappers
  import opened Lines
  import opened TravelDemand

  /** One past the last newline, 0 without one. */
  function LastLineEnd(s: string): (n: nat)
    ensures n <= |s| && (n > 0 ==> s[n - 1] == '\n') && (forall k | n <= k < |s| :: s[k] != '\n')
  {
    if s == "" then 0
    else if s[|s| - 1] == '\n' then |s|
    else LastLineEnd(s[..|s| - 1])
  }

  method FindLastLineEnd(data: string) returns (n: nat)
    ensures n == LastLineEnd(data)
  {
    n := |data|;
    assert data[..|data|] == data;
    while n > 0 && data[n - 1] != '\n'
      invariant 0 <= n <= |data|
      invariant LastLineEnd(data[..n]) == LastLineEnd(data)
    {
      assert data[..n][..n - 1] == data[..n - 1];
      n := n - 1;
    }
  }

  /** What the pass finds on disk: no file, one whose size is known but which cannot
      be opened, or its content. */
  datatype LogFile = Missing | Unreadable(size: nat) | Readable(text: string)

  /** The complete lines appended since the offset, and the offset to store. */
  function ReadNew(file: LogFile, offset: Option<nat>): (seq<string>, Option<nat>) {
    if file.Missing? then ([], offset)
    else
      var size := if file.Readable? then |file.text| else file.size;
      if offset.None? then ([], Some(size))
      else ReadFrom(file, if size < offset.value then 0 else offset.value)
  }

  function ReadFrom(file: LogFile, from: nat): (seq<string>, Option<nat>)
    requires file.Readable? ==> from <= |file.text|
  {
    if !file.Readable? then ([], Some(from))
    else
      var data := file.text[from..];
      var n := LastLineEnd(data);
      if n == 0 then ([], Some(from)) else (Split(data[..n]), Some(from + n))
  }

  /** The log as it grows, the stored offset, and the batches every pass was given. */
  datatype State = State(file: string, offset: Option<nat>, batches: seq<seq<string>>)
  datatype Access = Full | StatOnly | Nothing
  datatype Event = Append(text: string) | Pass(access: Access)

  function Seen(file: string, access: Access): LogFile {
    match access
    case Full => Readable(file)
    case StatOnly => Unreadable(|file|)
    case Nothing => Missing
  }

  function Step(s: State, e: Event): State {
    match e
    case Append(text) => s.(file := s.file + text)
    case Pass(access) =>
      var (lines, offset) := ReadNew(Seen(s.file, access), s.offset);
      s.(offset := offset, batches := s.batches + [lines])
  }

  function RunFrom(s: State, es: seq<Event>): State
    decreases es
  {
    if es == [] then s else RunFrom(Step(s, es[0]), es[1..])
  }

  class Tailer {
    var offset: Option<nat>

    constructor ()
      ensures offset == None
    {
      offset := None;
    }

    /** One pass: consume what is new, move the offset exactly once. */
    method ReadNewLines(file: LogFile) returns (lines: seq<string>)
      modifies this
      ensures (lines, offset) == ReadNew(file, old(offset))
    {
      hide Split, SplitKeep, ChompAll, LastLineEnd;
      if file.Missing? {
        return [];
      }
      var size := if file.Readable? then |file.text| else file.size;
      if offset.None? {
        offset := Some(size);
        return [];
      }
      if size < offset.value {
        offset := Some(0);
      }
      if file.Unreadable? {
        return [];
      }
      var from := offset.value;
      var data := file.text[from..];
      var n := FindLastLineEnd(data);
      if n == 0 {
        return [];
      }
      offset := Some(from + n);
      lines := Split(data[..n]);
    }
  }

  function Flatten(batches: seq<seq<string>>): seq<string> {
    if batches == [] then [] else Flatten(batches[..|batches| - 1]) + batches[|batches| - 1]
  }

  /** What has been handed out is exactly the text between the first offset and the
      stored one, which stops where a line ends. */
  predicate Exact(s: State, start: nat, from: nat) {
    && s.offset.Some? && start <= s.offset.value <= |s.file| && from <= |s.batches|
    && (s.file[start..s.offset.value] == "" || Ended(s.file[start..s.offset.value]))
    && Flatten(s.batches[from..]) == Split(s.file[start..s.offset.value])
  }

  lemma FlattenAppend(batches: seq<seq<string>>, from: nat, batch: seq<string>)
    requires from <= |batches|
    ensures Flatten((batches + [batch])[from..]) == Flatten(batches[from..]) + batch
  {
    assert (batches + [batch])[from..] == batches[from..] + [batch];
    assert (batches[from..] + [batch])[..|batches[from..]|] == batches[from..];
  }

  /** Reading on from where a line ends extends the lines already read. */
  lemma SplitExtends(text: string, start: nat, mid: nat, end: nat)
    requires start <= mid <= end <= |text|
    requires text[start..mid] == "" || Ended(text[start..mid])
    ensures Split(text[start..end]) == Split(text[start..mid]) + Split(text[mid..end])
  {
    hide SplitKeep, ChompAll, Ended;
    var done, added := text[start..mid], text[mid..end];
    SplitConcat(done, added);
    ChompConcat(SplitKeep(done), SplitKeep(added));
    assert text[start..end] == done + added;
  }

  /** With the offset inside the file, a pass hands out the complete lines from there on. */
  lemma PassReads(s: State, access: Access)
    requires s.offset.Some? && s.offset.value <= |s.file|
    ensures var n := if access.Full? then LastLineEnd(s.file[s.offset.value..]) else 0;
            Step(s, Pass(access)) == s.(
              offset := Some(s.offset.value + n),
              batches := s.batches + [Split(s.file[s.offset.value..s.offset.value + n])])
  {
    if access.Full? {
      var data := s.file[s.offset.value..];
      var n := LastLineEnd(data);
      assert data[..n] == s.file[s.offset.value..s.offset.value + n];
    }
  }

  lemma PassKeepsExact(s: State, access: Access, start: nat, from: nat)
    requires Exact(s, start, from)
    ensures Exact(Step(s, Pass(access)), start, from)
  {
    hide Step, Flatten, SplitKeep, ChompAll, LastLineEnd, Ended;
    var from0 := s.offset.value;
    var n := if access.Full? then LastLineEnd(s.file[from0..]) else 0;
    PassReads(s, access);
    FlattenAppend(s.batches, from, Split(s.file[from0..from0 + n]));
    SplitExtends(s.file, start, from0, from0 + n);
    StillEnded(s.file, start, from0, n);
  }

  lemma StillEnded(text: string, start: nat, from: nat, n: nat)
    requires start <= from <= from + n <= |text| && (text[start..from] == "" || Ended(text[start..from]))
    requires n > 0 ==> text[from..][n - 1] == '\n'
    ensures text[start..from + n] == "" || Ended(text[start..from + n])
  {
    var all := text[start..from + n];
    assert n > 0 ==> all[|all| - 1] == text[from..][n - 1];
  }

  lemma {:induction false} RunKeepsExact(s: State, es: seq<Event>, start: nat, from: nat)
    requires Exact(s, start, from)
    ensures Exact(RunFrom(s, es), start, from)
    decreases es
  {
    if es != [] {
      var next := Step(s, es[0]);
      if es[0].Pass? {
        PassKeepsExact(s, es[0].access, start, from);
      } else {
        assert next.file[start..next.offset.value] == s.file[start..s.offset.value];
      }
      RunKeepsExact(next, es[1..], start, from);
    }
  }

  /** For a log that only grows, from the first pass on: the batches of any
      interleaving of passes concatenate to exactly the lines from the first-run
      offset to the stored one, none lost and none repeated. */
  lemma BatchesAreExact(s: State, es: seq<Event>)
    requires s.offset.None?
    ensures var first := Step(s, Pass(Full));
            var last := RunFrom(first, es);
            && last.offset.Some? && |s.file| <= last.offset.value <= |last.file|
            && |first.batches| <= |last.batches|
            && Flatten(last.batches[|first.batches|..]) == Split(last.file[|s.file|..last.offset.value])
  {
    var first := Step(s, Pass(Full));
    assert first.batches[|first.batches|..] == [];
    assert s.file[|s.file|..|s.file|] == "";
    RunKeepsExact(first, es, |s.file|, |first.batches|);
  }

  /** Right after a readable pass nothing complete is left unread: the stored offset
      is past the last newline. */
  lemma PassLeavesNoLine(s: State, start: nat, from: nat)
    requires Exact(s, start, from)
    ensures var after := Step(s, Pass(Full));
            forall k | after.offset.value <= k < |after.file| :: after.file[k] != '\n'
  {
    PassReads(s, Full);
    var data := s.file[s.offset.value..];
    var after := Step(s, Pass(Full));
    forall k | after.offset.value <= k < |after.file| ensures after.file[k] != '\n' {
      assert after.file[k] == data[k - s.offset.value];
    }
  }

  // ----------------------------------------------------------------- rotation

  /** The first pass over a replaced log: what is read starts where the offset was, or at the
      beginning of a log shorter than that. */
  lemma ReplacedReads(s: State, text: string, access: Access)
    requires s.offset.Some? && access != Nothing
    ensures var from := if |text| < s.offset.value then 0 else s.offset.value;
            var n := if access.Full? then LastLineEnd(text[from..]) else 0;
            Step(s.(file := text), Pass(access)) ==
            State(text, Some(from + n), s.batches + [Split(text[from..from + n])])
  {
    hide Split, LastLineEnd;
    var from := if |text| < s.offset.value then 0 else s.offset.value;
    var data := text[from..];
    var n := if access.Full? then LastLineEnd(data) else 0;
    assert data[..n] == text[from..from + n];
    assert Split("") == [] by { NothingSplit(); }
  }

  lemma NothingSplit()
    ensures Split("") == []
  {
  }

  /** A log that was rotated away, and is noticed shorter than what was read of it, loses
      nothing: from the pass that notices it on, the batches of any interleaving concatenate
      to exactly the lines of the new log up to the stored offset. */
  lemma RotationLosesNothing(s: State, text: string, access: Access, es: seq<Event>)
    requires s.offset.Some? && |text| < s.offset.value && access != Nothing
    ensures var last := RunFrom(Step(s.(file := text), Pass(access)), es);
            && last.offset.Some? && last.offset.value <= |last.file| && |s.batches| <= |last.batches|
            && Flatten(last.batches[|s.batches|..]) == Split(last.file[..last.offset.value])
  {
    var n := if access.Full? then LastLineEnd(text) else 0;
    var first := Step(s.(file := text), Pass(access));
    assert text[0..] == text && text[0..n] == text[..n];
    ReplacedReads(s, text, access);
    hide Step, Split, LastLineEnd, RunFrom;
    FlattenAppend(s.batches, |s.batches|, Split(text[..n]));
    assert s.batches[|s.batches|..] == [] && [] + Split(text[..n]) == Split(text[..n]);
    assert text[..n] == "" || Ended(text[..n]);
    RunKeepsExact(first, es, 0, |s.batches|);
    var last := RunFrom(first, es);
    assert last.file[0..last.offset.value] == last.file[..last.offset.value];
  }

  lemma {:induction false} UnChomp(a: seq<string>, b: seq<string>)
    requires ChompAll(a) == ChompAll(b) && (forall l | l in a + b :: Ended(l))
    ensures a == b
    decreases a
  {
    if a != [] && b != [] {
      var x, y := a[0], b[0];
      assert x in a + b && y in a + b && (forall l | l in a[1..] + b[1..] :: l in a + b);
      assert ChompAll(a)[0] == Chomp(x) && ChompAll(b)[0] == Chomp(y);
      assert x == Chomp(x) + "\n" && y == Chomp(y) + "\n";
      assert ChompAll(a)[1..] == ChompAll(a[1..]) && ChompAll(b)[1..] == ChompAll(b[1..]);
      UnChomp(a[1..], b[1..]);
    }
  }

  lemma AllEnded(text: string)
    requires text == "" || Ended(text)
    ensures forall l | l in SplitKeep(text) :: Ended(l)
  {
    JoinSplit(text);
    if text != "" { JoinEnds(SplitKeep(text)); }
  }

  lemma LinesTellText(a: string, b: string)
    requires (a == "" || Ended(a)) && (b == "" || Ended(b))
    ensures Split(a) == Split(b) ==> a == b
  {
    AllEnded(a);
    AllEnded(b);
    JoinSplit(a);
    JoinSplit(b);
    if Split(a) == Split(b) { UnChomp(SplitKeep(a), SplitKeep(b)); }
  }

  /** The pass that finds a replaced log hands out all its complete lines exactly when the log
      is shorter than the stored offset, nothing had been read before, or it has none yet. A
      rotation that has grown back by then is not noticed. */
  lemma RotationSeenIff(s: State, text: string)
    requires s.offset.Some?
    ensures var after := Step(s.(file := text), Pass(Full));
            after.batches[|after.batches| - 1] == Split(text[..LastLineEnd(text)]) <==>
            |text| < s.offset.value || s.offset.value == 0 || '\n' !in text
  {
    hide Split, Step, LastLineEnd;
    ReplacedReads(s, text, Full);
    var from := if |text| < s.offset.value then 0 else s.offset.value;
    var n, all := LastLineEnd(text[from..]), LastLineEnd(text);
    assert all == 0 <==> '\n' !in text;
    if from == 0 {
      assert text[0..] == text && text[0..n] == text[..n];
    } else {
      var a, b := text[from..from + n], text[..all];
      LastIs(text, from);
      assert n > 0 ==> a[n - 1] == text[from..][n - 1];
      assert '\n' in text ==> |a| < |b|;
      LinesTellText(a, b);
    }
  }

  lemma LastIs(text: string, from: nat)
    requires from <= |text|
    ensures var all, n := LastLineEnd(text), LastLineEnd(text[from..]);
            all <= from + n && (n > 0 ==> all == from + n)
  {
    hide LastLineEnd;
    Unique(text, from, text[from..], LastLineEnd(text), LastLineEnd(text[from..]));
  }

  lemma Unique(text: string, from: nat, rest: string, all: nat, n: nat)
    requires from <= |text| && rest == text[from..] && all <= |text| && n <= |rest|
    requires (all > 0 ==> text[all - 1] == '\n') && (forall k | all <= k < |text| :: text[k] != '\n')
    requires (n > 0 ==> rest[n - 1] == '\n') && (forall k | n <= k < |rest| :: rest[k] != '\n')
    ensures all <= from + n && (n > 0 ==> all == from + n)
  {
    assert forall k | 0 <= k < |rest| :: rest[k] == text[from + k];
    assert forall k | from <= k < |text| :: text[k] == rest[k - from];
    if 0 < n { assert text[from + n - 1] == rest[n - 1]; }
  }

  /** The larger count per name over a list of batches. */
  function BatchPeak(batches: seq<seq<string>>, name: string): Option<nat> {
    if batches == [] then None
    else Combine(BatchPeak(batches[..|batches| - 1], name), Looked(Demand(batches[|batches| - 1]), name))
  }

  /** The demand seen batch by batch is the demand of the whole stretch of log. */
  lemma {:induction false} BatchesMissNoDemand(batches: seq<seq<string>>, name: string)
    ensures BatchPeak(batches, name) == Looked(Demand(Flatten(batches)), name)
    decreases |batches|
  {
    if batches == [] {
      DemandIsPeak([], name);
    } else {
      var before := batches[..|batches| - 1];
      BatchesMissNoDemand(before, name);
      DemandConcat(Flatten(before), batches[|batches| - 1], name);
    }
  }
}
