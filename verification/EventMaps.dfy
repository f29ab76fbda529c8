/** The insert-only patch that registers event maps in the text of the world template
    (scripts/patch_event_maps.py). */
module EventMaps {
  import opened Wrappers
  import opened Ascii
  import opened Lines

  datatype EventMap = EventMap(name: string, partitionId: string, source: string)

  datatype ShapeError = NoWorldPartitions | NotAListOfMaps | NoServerGroup | NoServerSet | NoItemStart | GroupFirst

  const MAP_ITEM := "- map: "

  // -------------------------------------------------------------------- lines

  /** The number of leading blanks. */
  function Indent(l: string): (n: nat)
    ensures n <= |l| && (forall k | 0 <= k < n :: l[k] == ' ') && (n < |l| ==> l[n] != ' ')
  {
    if l == "" || l[0] != ' ' then 0 else 1 + Indent(l[1..])
  }

  function Bare(l: string): string { l[SpaceEnd(l, 0)..] }

  predicate IsContent(l: string) { Strip(l) != "" && Strip(l)[0] != '#' }
  predicate IsHead(l: string) { Strip(l) == "worldPartitions:" }
  predicate IsGroup(l: string) { Strip(l) == "serverGroup:" }
  predicate IsMapOf(l: string, source: string) { Strip(l) == "map: " + source }
  predicate IsItem(l: string) { "- " <= Bare(l) }
  predicate IsMapItem(l: string) { MAP_ITEM <= Bare(l) }

  /** A line that ends the list whose items stand at the indent. */
  predicate EndsList(l: string, indent: nat) {
    IsContent(l) && (Indent(l) < indent || (Indent(l) == indent && !IsItem(l)))
  }

  // ------------------------------------------------------------- worldPartitions

  function FindHead(ls: seq<string>, i: nat): (p: nat)
    requires i <= |ls|
    ensures i <= p <= |ls| && (p < |ls| ==> IsHead(ls[p])) && (forall k | i <= k < p :: !IsHead(ls[k]))
    decreases |ls| - i
  {
    if i == |ls| || IsHead(ls[i]) then i else FindHead(ls, i + 1)
  }

  function FindContent(ls: seq<string>, i: nat): (p: nat)
    requires i <= |ls|
    ensures i <= p <= |ls| && (p < |ls| ==> IsContent(ls[p])) && (forall k | i <= k < p :: !IsContent(ls[k]))
    decreases |ls| - i
  {
    if i == |ls| || IsContent(ls[i]) then i else FindContent(ls, i + 1)
  }

  function ListEnd(ls: seq<string>, i: nat, indent: nat): (p: nat)
    requires i <= |ls|
    ensures i <= p <= |ls| && (p < |ls| ==> EndsList(ls[p], indent))
            && (forall k | i <= k < p :: !EndsList(ls[k], indent))
    decreases |ls| - i
  {
    if i == |ls| || EndsList(ls[i], indent) then i else ListEnd(ls, i + 1, indent)
  }

  /** The list: its first item, the line after its last, the indent of its items. */
  datatype Span = Span(first: nat, end: nat, indent: nat)

  function WorldPartitions(ls: seq<string>): (r: Result<Span, ShapeError>)
    ensures r.Success? ==> r.value.first < r.value.end <= |ls|
  {
    var head := FindHead(ls, 0);
    if head == |ls| then Failure(NoWorldPartitions)
    else
      var first := FindContent(ls, head + 1);
      if first == |ls| || !IsMapItem(ls[first]) then Failure(NotAListOfMaps)
      else
        var indent := Indent(ls[first]);
        Success(Span(first, ListEnd(ls, first + 1, indent), indent))
  }

  function Blanks(n: nat): (s: string)
    ensures |s| == n && forall k | 0 <= k < n :: s[k] == ' '
  {
    if n == 0 then "" else " " + Blanks(n - 1)
  }

  /** The names of the map items at exactly the list's indent. */
  function Listed(ls: seq<string>, indent: nat): set<string> {
    set l | l in ls && Blanks(indent) + MAP_ITEM <= l :: Strip(l[indent + |MAP_ITEM|..])
  }

  // ---------------------------------------------------------------- server sets

  function FindGroup(ls: seq<string>, i: nat): (p: nat)
    requires i <= |ls|
    ensures i <= p <= |ls| && (p < |ls| ==> IsGroup(ls[p])) && (forall k | i <= k < p :: !IsGroup(ls[k]))
    decreases |ls| - i
  {
    if i == |ls| || IsGroup(ls[i]) then i else FindGroup(ls, i + 1)
  }

  function FindMapLine(ls: seq<string>, i: nat, source: string): (p: nat)
    requires i <= |ls|
    ensures i <= p <= |ls| && (p < |ls| ==> IsMapOf(ls[p], source))
            && (forall k | i <= k < p :: !IsMapOf(ls[k], source))
    decreases |ls| - i
  {
    if i == |ls| || IsMapOf(ls[i], source) then i else FindMapLine(ls, i + 1, source)
  }

  /** Backwards to the item the map line belongs to, stopping at the group line. */
  function SetStart(ls: seq<string>, i: nat, group: nat, indent: int): (p: nat)
    requires group <= i < |ls|
    ensures group <= p <= i
    decreases i
  {
    if i == group || (Indent(ls[i]) == indent && IsItem(ls[i])) then i else SetStart(ls, i - 1, group, indent)
  }

  function SetEnd(ls: seq<string>, i: nat, indent: int): (p: nat)
    requires i <= |ls|
    ensures i <= p <= |ls|
    decreases |ls| - i
  {
    if i == |ls| || (IsContent(ls[i]) && Indent(ls[i]) <= indent) then i else SetEnd(ls, i + 1, indent)
  }

  datatype ServerSet = ServerSet(start: nat, end: nat, mapLine: nat)

  function SetOf(ls: seq<string>, source: string): (r: Result<ServerSet, ShapeError>)
    ensures r.Success? ==> r.value.start <= r.value.mapLine < r.value.end <= |ls|
    ensures r.Success? ==> FindGroup(ls, 0) < r.value.start && IsMapOf(ls[r.value.mapLine], source)
  {
    var group := FindGroup(ls, 0);
    if group == |ls| then Failure(NoServerGroup)
    else
      var mapLine := FindMapLine(ls, group + 1, source);
      if mapLine == |ls| then Failure(NoServerSet)
      else
        var indent := Indent(ls[mapLine]) - 2;
        var start := SetStart(ls, mapLine, group, indent);
        if start == group then Failure(NoItemStart)
        else Success(ServerSet(start, SetEnd(ls, mapLine + 1, indent), mapLine))
  }

  // ------------------------------------------------------------------ insertions

  function Field(indent: nat, text: string): string { Blanks(indent) + (text + "\n") }

  function PartitionBlock(indent: nat, m: EventMap): (b: seq<string>)
    ensures |b| == 9
  {
    var field, entry := indent + 2, indent + 4;
    [Field(indent, MAP_ITEM + m.name), Field(field, "partitions:"), Field(field, "- dimension: 0"),
     Field(entry, "disable: false"), Field(entry, "id: " + m.partitionId),
     Field(entry, "maxX: 1"), Field(entry, "maxY: 1"), Field(entry, "minX: 0"), Field(entry, "minY: 0")]
  }

  function PartitionLines(indent: nat, todo: seq<EventMap>): seq<string> {
    if todo == [] then [] else PartitionBlock(indent, todo[0]) + PartitionLines(indent, todo[1..])
  }

  /** The source's server set with its map line renamed. */
  function ClonedSet(ls: seq<string>, s: ServerSet, name: string): (b: seq<string>)
    requires s.start <= s.mapLine < s.end <= |ls|
    ensures |b| == s.end - s.start
  {
    ls[s.start..s.mapLine] + [ls[s.mapLine][..Indent(ls[s.mapLine])] + ("map: " + name + "\n")]
        + ls[s.mapLine + 1..s.end]
  }

  datatype Insertion = Insertion(at: nat, block: seq<string>)

  /** Every set to insert, or the first shape error; nothing has been changed yet. */
  function Insertions(ls: seq<string>, todo: seq<EventMap>): (r: Result<seq<Insertion>, ShapeError>)
    ensures r.Success? ==> |r.value| == |todo| && forall i | 0 <= i < |r.value| :: r.value[i].at <= |ls|
  {
    if todo == [] then Success([])
    else
      var s := SetOf(ls, todo[0].source);
      if s.Failure? then Failure(s.error)
      else
        var rest := Insertions(ls, todo[1..]);
        if rest.Failure? then rest
        else Success([Insertion(s.value.end, ClonedSet(ls, s.value, todo[0].name))] + rest.value)
  }

  /** sorted by position, last first; equal positions keep their order. */
  function Place(i: Insertion, sorted: seq<Insertion>): seq<Insertion> {
    if sorted == [] || i.at >= sorted[0].at then [i] + sorted else [sorted[0]] + Place(i, sorted[1..])
  }

  function Sorted(ins: seq<Insertion>): seq<Insertion> {
    if ins == [] then [] else Place(ins[0], Sorted(ins[1..]))
  }

  function Spliced(out: seq<string>, at: nat, block: seq<string>): seq<string>
    requires at <= |out|
  {
    out[..at] + block + out[at..]
  }

  predicate Within(ins: seq<Insertion>, n: nat) { forall i | 0 <= i < |ins| :: ins[i].at <= n }

  function SpliceAll(out: seq<string>, ins: seq<Insertion>): seq<string>
    requires Within(ins, |out|)
    decreases ins
  {
    if ins == [] then out else SpliceAll(Spliced(out, ins[0].at, ins[0].block), ins[1..])
  }

  lemma {:induction false} PlaceIn(i: Insertion, sorted: seq<Insertion>)
    ensures |Place(i, sorted)| == |sorted| + 1 && forall x :: x in Place(i, sorted) <==> x == i || x in sorted
    decreases sorted
  {
    if sorted != [] {
      assert forall x :: x in sorted <==> x == sorted[0] || x in sorted[1..];
      PlaceIn(i, sorted[1..]);
    }
  }

  lemma {:induction false} SortedIn(ins: seq<Insertion>)
    ensures |Sorted(ins)| == |ins| && forall x :: x in Sorted(ins) <==> x in ins
  {
    if ins != [] {
      assert forall x :: x in ins <==> x == ins[0] || x in ins[1..];
      SortedIn(ins[1..]);
      PlaceIn(ins[0], Sorted(ins[1..]));
    }
  }

  function Missing(maps: seq<EventMap>, listed: set<string>): seq<EventMap> {
    if maps == [] then []
    else (if maps[0].name in listed then [] else [maps[0]]) + Missing(maps[1..], listed)
  }

  predicate AllAt(ins: seq<Insertion>, end: nat) { forall i | 0 <= i < |ins| :: ins[i].at >= end }

  /** The patched lines and the maps added. */
  function PatchLines(ls: seq<string>, maps: seq<EventMap>): Result<(seq<string>, seq<EventMap>), ShapeError> {
    var span := WorldPartitions(ls);
    if span.Failure? then Failure(span.error)
    else
      var w := span.value;
      var todo := Missing(maps, Listed(ls[w.first..w.end], w.indent));
      if todo == [] then Success((ls, []))
      else
        var ins := Insertions(ls, todo);
        if ins.Failure? then Failure(ins.error)
        else if !AllAt(ins.value, w.end) then Failure(GroupFirst)
        else
          SortedIn(ins.value);
          SortedWithin(ins.value, |ls|);
          SpliceGrows(ls, Sorted(ins.value));
          Success((Spliced(SpliceAll(ls, Sorted(ins.value)), w.end, PartitionLines(w.indent, todo)), todo))
  }

  lemma SortedWithin(ins: seq<Insertion>, n: nat)
    requires Within(ins, n)
    ensures Within(Sorted(ins), n)
  {
    SortedIn(ins);
    forall i | 0 <= i < |Sorted(ins)| ensures Sorted(ins)[i].at <= n { assert Sorted(ins)[i] in ins; }
  }

  lemma {:induction false} SpliceGrows(out: seq<string>, ins: seq<Insertion>)
    requires Within(ins, |out|)
    ensures |SpliceAll(out, ins)| >= |out|
    decreases ins
  {
    if ins != [] { SpliceGrows(Spliced(out, ins[0].at, ins[0].block), ins[1..]); }
  }

  /** The patched text; the text itself when there is nothing to add. */
  function PatchTemplate(text: string, maps: seq<EventMap>): Result<(string, seq<EventMap>), ShapeError> {
    var r := PatchLines(Close(SplitKeep(text)), maps);
    if r.Failure? then Failure(r.error)
    else if r.value.1 == [] then Success((text, []))
    else Success((Join(r.value.0), r.value.1))
  }

  // -------------------------------------------------------------------- methods

  method FindSpan(ls: seq<string>) returns (r: Result<Span, ShapeError>)
    ensures r == WorldPartitions(ls)
  {
    hide IsContent, IsMapItem, IsHead, EndsList, Indent;
    var head := FindHead(ls, 0);
    if head == |ls| {
      return Failure(NoWorldPartitions);
    }
    var first := FindContent(ls, head + 1);
    if first == |ls| || !IsMapItem(ls[first]) {
      return Failure(NotAListOfMaps);
    }
    var indent := Indent(ls[first]);
    var end := |ls|;
    for i := first + 1 to |ls|
      invariant end == |ls| && ListEnd(ls, first + 1, indent) == ListEnd(ls, i, indent)
    {
      if EndsList(ls[i], indent) {
        end := i;
        break;
      }
    }
    return Success(Span(first, end, indent));
  }

  method FindSet(ls: seq<string>, source: string) returns (r: Result<ServerSet, ShapeError>)
    ensures r == SetOf(ls, source)
  {
    hide IsContent, IsItem, IsGroup, IsMapOf, Indent;
    var group := FindGroup(ls, 0);
    if group == |ls| {
      return Failure(NoServerGroup);
    }
    var mapLine := FindMapLine(ls, group + 1, source);
    if mapLine == |ls| {
      return Failure(NoServerSet);
    }
    var indent := Indent(ls[mapLine]) - 2;
    var start := mapLine;
    while start > group && !(Indent(ls[start]) == indent && IsItem(ls[start]))
      invariant group <= start <= mapLine
      invariant SetStart(ls, mapLine, group, indent) == SetStart(ls, start, group, indent)
    {
      start := start - 1;
    }
    if start == group {
      return Failure(NoItemStart);
    }
    var end := |ls|;
    for i := mapLine + 1 to |ls|
      invariant end == |ls| && SetEnd(ls, mapLine + 1, indent) == SetEnd(ls, i, indent)
    {
      if IsContent(ls[i]) && Indent(ls[i]) <= indent {
        end := i;
        break;
      }
    }
    return Success(ServerSet(start, end, mapLine));
  }

  method BuildInsertions(ls: seq<string>, todo: seq<EventMap>) returns (r: Result<seq<Insertion>, ShapeError>)
    ensures r == Insertions(ls, todo)
  {
    hide SetOf, ClonedSet;
    var ins: seq<Insertion> := [];
    for i := 0 to |todo|
      invariant var all, rest := Insertions(ls, todo), Insertions(ls, todo[i..]);
                if rest.Failure? then all == rest else all.Success? && all.value == ins + rest.value
    {
      assert todo[i..][0] == todo[i] && todo[i..][1..] == todo[i + 1..];
      var s := FindSet(ls, todo[i].source);
      if s.Failure? {
        return Failure(s.error);
      }
      ins := ins + [Insertion(s.value.end, ClonedSet(ls, s.value, todo[i].name))];
    }
    assert todo[|todo|..] == [] && ins + [] == ins;
    return Success(ins);
  }

  /** Every insertion is built from the original lines, then spliced in from the bottom up. */
  method Patch(text: string, maps: seq<EventMap>) returns (r: Result<(string, seq<EventMap>), ShapeError>)
    ensures r == PatchTemplate(text, maps)
  {
    hide WorldPartitions, Insertions, Listed, Sorted;
    var lines := Close(SplitKeep(text));
    var span := FindSpan(lines);
    if span.Failure? {
      return Failure(span.error);
    }
    var w := span.value;
    var todo := Missing(maps, Listed(lines[w.first..w.end], w.indent));
    if todo == [] {
      return Success((text, []));
    }
    var built := BuildInsertions(lines, todo);
    if built.Failure? {
      return Failure(built.error);
    }
    if !AllAt(built.value, w.end) {
      return Failure(GroupFirst);
    }
    var ins := Sorted(built.value);
    SortedWithin(built.value, |lines|);
    var out := lines;
    for i := 0 to |ins|
      invariant Within(ins[i..], |out|) && SpliceAll(out, ins[i..]) == SpliceAll(lines, ins)
    {
      assert ins[i..][0] == ins[i] && ins[i..][1..] == ins[i + 1..];
      out := Spliced(out, ins[i].at, ins[i].block);
    }
    assert ins[|ins|..] == [];
    SpliceGrows(lines, ins);
    out := Spliced(out, w.end, PartitionLines(w.indent, todo));
    return Success((Join(out), todo));
  }
}
