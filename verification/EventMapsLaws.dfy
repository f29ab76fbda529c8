/** What the event-map patch promises: it only inserts, lists exactly the missing maps,
    clones whole server sets, and finds nothing to do on its own output. */
module EventMapsLaws {
  import opened Wrappers
  import opened Ascii
  import opened Lines
  import opened EventMaps

  // -------------------------------------------------------------- insert-only

  /** The first lines, in order, among the others. */
  predicate Subsequence(a: seq<string>, b: seq<string>)
    decreases b
  {
    a == [] || (b != [] && ((a[0] == b[0] && Subsequence(a[1..], b[1..])) || Subsequence(a, b[1..])))
  }

  lemma {:induction false} SubsequenceRefl(a: seq<string>)
    ensures Subsequence(a, a)
  {
    if a != [] { SubsequenceRefl(a[1..]); }
  }

  lemma {:induction false} SubsequenceBehind(a: seq<string>, block: seq<string>, b: seq<string>)
    requires Subsequence(a, b)
    ensures Subsequence(a, block + b)
    decreases block
  {
    if block == [] {
      assert block + b == b;
    } else {
      assert (block + b)[1..] == block[1..] + b;
      SubsequenceBehind(a, block[1..], b);
    }
  }

  lemma {:induction false} SubsequenceSpliced(a: seq<string>, b: seq<string>, at: nat, block: seq<string>)
    requires Subsequence(a, b) && at <= |b|
    ensures Subsequence(a, Spliced(b, at, block))
    decreases at
  {
    if at == 0 {
      SubsequenceBehind(a, block, b);
      assert Spliced(b, 0, block) == block + b;
    } else if a != [] {
      var rest := b[1..];
      assert Spliced(b, at, block)[0] == b[0];
      assert Spliced(b, at, block)[1..] == Spliced(rest, at - 1, block);
      if a[0] == b[0] && Subsequence(a[1..], rest) {
        SubsequenceSpliced(a[1..], rest, at - 1, block);
      } else {
        SubsequenceSpliced(a, rest, at - 1, block);
      }
    }
  }

  lemma {:induction false} SubsequenceSpliceAll(a: seq<string>, b: seq<string>, ins: seq<Insertion>)
    requires Subsequence(a, b) && Within(ins, |b|)
    ensures Subsequence(a, SpliceAll(b, ins))
    decreases ins
  {
    if ins != [] {
      SubsequenceSpliced(a, b, ins[0].at, ins[0].block);
      SubsequenceSpliceAll(a, Spliced(b, ins[0].at, ins[0].block), ins[1..]);
    }
  }

  // ----------------------------------------------------------- lines stay lines

  predicate Whole(ls: seq<string>) { forall l | l in ls :: IsLine(l) && Ended(l) }

  /** A name without white space around it, as the table of event maps has them. */
  predicate ValidMap(m: EventMap) {
    m.name != "" && Strip(m.name) == m.name && '\n' !in m.name && '\n' !in m.partitionId
  }

  predicate ValidMaps(maps: seq<EventMap>) { forall m | m in maps :: ValidMap(m) }

  lemma ClosedIsWhole(text: string)
    ensures Whole(Close(SplitKeep(text)))
  {
    var ls := SplitKeep(text);
    var closed := Close(ls);
    forall i | 0 <= i < |closed| ensures IsLine(closed[i]) && Ended(closed[i]) {
      assert i < |ls| - 1 ==> IsLine(ls[i]) && Ended(ls[i]) && closed[i] == ls[i];
    }
  }

  lemma WholeIsSplit(ls: seq<string>)
    requires Whole(ls)
    ensures SplitKeep(Join(ls)) == ls && Close(ls) == ls
  {
    SplitJoin(ls);
  }

  lemma PlainLine(a: string)
    requires '\n' !in a
    ensures IsLine(a + "\n") && Ended(a + "\n")
  {
  }

  lemma NoNewlineIn(n: nat, a: string)
    requires '\n' !in a
    ensures '\n' !in Blanks(n) + a
  {
    forall k | 0 <= k < |Blanks(n) + a| ensures (Blanks(n) + a)[k] != '\n' {
      assert n <= k ==> (Blanks(n) + a)[k] == a[k - n];
    }
  }

  lemma FieldIsLine(n: nat, a: string)
    requires '\n' !in a
    ensures IsLine(Field(n, a)) && Ended(Field(n, a))
  {
    NoNewlineIn(n, a);
    PlainLine(Blanks(n) + a);
    assert Blanks(n) + (a + "\n") == Blanks(n) + a + "\n";
  }

  /** What a line of blanks and visible text is seen as. */
  lemma LineFacts(n: nat, a: string)
    requires a != "" && !IsSpace(a[0])
    ensures var l := Blanks(n) + a; Indent(l) == n && Bare(l) == a && Strip(l) == RTrim(a)
  {
    var l := Blanks(n) + a;
    assert l[n] == a[0] && forall k | 0 <= k < n :: l[k] == ' ';
    IndentUnique(l, n);
    SpaceEndUnique(l, 0, n);
    assert l[n..] == a;
  }

  lemma IndentUnique(l: string, n: nat)
    requires n < |l| && (forall k | 0 <= k < n :: l[k] == ' ') && l[n] != ' '
    ensures Indent(l) == n
  {
  }

  /** The partition lines are whole, end no list at their indent, and name the map. */
  lemma BlockFacts(indent: nat, m: EventMap)
    requires ValidMap(m)
    ensures var b := PartitionBlock(indent, m);
            Whole(b) && (forall l | l in b :: !EndsList(l, indent)) && Listed(b, indent) == {m.name}
  {
    hide EndsList, Listed, IsLine, Ended, Names, Field, Strip;
    var b := PartitionBlock(indent, m);
    assert '\n' !in "id: " + m.partitionId;
    FirstFacts(indent, m);
    FieldFacts(indent, 2, "partitions:");
    FieldFacts(indent, 2, "- dimension: 0");
    FieldFacts(indent, 4, "disable: false");
    FieldFacts(indent, 4, "id: " + m.partitionId);
    FieldFacts(indent, 4, "maxX: 1");
    FieldFacts(indent, 4, "maxY: 1");
    FieldFacts(indent, 4, "minX: 0");
    FieldFacts(indent, 4, "minY: 0");
    ListedOf(b, indent, m.name);
  }

  predicate Names(l: string, indent: nat) { Blanks(indent) + MAP_ITEM <= l }

  predicate NamesMap(l: string, indent: nat, name: string) {
    Names(l, indent) && Strip(l[indent + |MAP_ITEM|..]) == name
  }

  lemma ListedOf(b: seq<string>, indent: nat, name: string)
    requires b != [] && NamesMap(b[0], indent, name)
    requires forall i | 0 < i < |b| :: !Names(b[i], indent)
    ensures Listed(b, indent) == {name}
  {
    assert b[0] in b;
    forall x | x in Listed(b, indent) ensures x == name {
      var l :| l in b && Blanks(indent) + MAP_ITEM <= l && Strip(l[indent + |MAP_ITEM|..]) == x;
      var i :| 0 <= i < |b| && b[i] == l;
      assert Names(b[i], indent);
    }
  }

  lemma FirstFacts(indent: nat, m: EventMap)
    requires ValidMap(m)
    ensures var l := Field(indent, MAP_ITEM + m.name);
            IsLine(l) && Ended(l) && !EndsList(l, indent) && NamesMap(l, indent, m.name)
  {
    hide Strip, Indent, IsLine, Ended, Bare, Names;
    var a := MAP_ITEM + m.name;
    NoNewlineItem(m.name);
    FieldIsLine(indent, a);
    LineFacts(indent, a + "\n");
    assert "- " <= a + "\n";
    StripEnd(m.name, "\n");
    NameBehind(indent, m.name);
  }

  lemma NoNewlineItem(name: string)
    requires '\n' !in name
    ensures '\n' !in MAP_ITEM + name && !IsSpace((MAP_ITEM + name + "\n")[0])
  {
  }

  lemma NameBehind(indent: nat, name: string)
    ensures var l := Field(indent, MAP_ITEM + name);
            Names(l, indent) && l[indent + |MAP_ITEM|..] == name + "\n"
  {
    var l := Field(indent, MAP_ITEM + name);
    assert l == (Blanks(indent) + MAP_ITEM) + (name + "\n");
  }

  lemma FieldFacts(indent: nat, more: nat, a: string)
    requires more > 0 && a != "" && !IsSpace(a[0]) && '\n' !in a
    ensures var l := Field(indent + more, a); IsLine(l) && Ended(l) && !EndsList(l, indent) && !Names(l, indent)
  {
    var l := Field(indent + more, a);
    FieldIsLine(indent + more, a);
    LineFacts(indent + more, a + "\n");
    assert l[indent] == ' ' && (Blanks(indent) + MAP_ITEM)[indent] == '-';
  }

  lemma {:induction false} PartitionFacts(indent: nat, todo: seq<EventMap>)
    requires ValidMaps(todo)
    ensures var ps := PartitionLines(indent, todo);
            && Whole(ps) && (forall l | l in ps :: !EndsList(l, indent))
            && Listed(ps, indent) == set m | m in todo :: m.name
    decreases todo
  {
    hide EndsList, IsLine, Ended, PartitionBlock, ValidMap, Listed;
    if todo == [] {
      ListedNothing(indent);
    } else {
      var b, rest := PartitionBlock(indent, todo[0]), PartitionLines(indent, todo[1..]);
      assert forall m | m in todo[1..] :: m in todo;
      BlockFacts(indent, todo[0]);
      PartitionFacts(indent, todo[1..]);
      ListedConcat(b, rest, indent);
      assert forall m :: m in todo <==> m == todo[0] || m in todo[1..];
    }
  }

  lemma ListedNothing(indent: nat)
    ensures Listed([], indent) == {}
  {
  }

  lemma ListedConcat(a: seq<string>, b: seq<string>, indent: nat)
    ensures Listed(a + b, indent) == Listed(a, indent) + Listed(b, indent)
  {
    assert forall l :: l in a + b <==> l in a || l in b;
  }

  lemma RenamedLine(l: string, name: string)
    requires name != "" && Strip(name) == name && '\n' !in name
    ensures var r := l[..Indent(l)] + ("map: " + name + "\n");
            IsMapOf(r, name) && Indent(r) == Indent(l) && IsLine(r) && Ended(r)
  {
    hide IsLine, Ended, Strip, Indent, Bare;
    var a, n := "map: " + name, Indent(l);
    assert '\n' !in a;
    BlanksOf(l);
    FieldIsLine(n, a);
    LineFacts(n, a + "\n");
    MapText(name);
  }

  lemma BlanksOf(l: string)
    ensures l[..Indent(l)] == Blanks(Indent(l))
  {
  }

  /** A cloned set keeps every line of its source but the map line, which keeps its indent. */
  lemma CloneRenamesOneLine(ls: seq<string>, s: ServerSet, name: string, k: nat)
    requires s.start <= s.mapLine < s.end <= |ls| && k < s.end - s.start
    requires name != "" && Strip(name) == name && '\n' !in name
    ensures var l := ClonedSet(ls, s, name)[k];
            if s.start + k == s.mapLine then IsMapOf(l, name) && Indent(l) == Indent(ls[s.mapLine]) && IsLine(l)
                && Ended(l)
            else l == ls[s.start + k]
  {
    hide IsLine, Ended, Strip, Indent, IsMapOf;
    RenamedLine(ls[s.mapLine], name);
    var pre, line := ls[s.start..s.mapLine], ls[s.mapLine][..Indent(ls[s.mapLine])] + ("map: " + name + "\n");
    ThreeAt(pre, line, ls[s.mapLine + 1..s.end], k);
  }

  lemma ThreeAt(a: seq<string>, l: string, b: seq<string>, k: nat)
    requires k < |a| + 1 + |b|
    ensures (a + [l] + b)[k] == if k < |a| then a[k] else if k == |a| then l else b[k - |a| - 1]
  {
  }

  lemma CloneIsWhole(ls: seq<string>, s: ServerSet, name: string)
    requires s.start <= s.mapLine < s.end <= |ls|
    requires Whole(ls) && name != "" && Strip(name) == name && '\n' !in name
    ensures Whole(ClonedSet(ls, s, name))
  {
    hide IsLine, Ended, Strip, Indent, IsMapOf, ClonedSet;
    var b := ClonedSet(ls, s, name);
    forall k | 0 <= k < |b| ensures IsLine(b[k]) && Ended(b[k]) {
      CloneRenamesOneLine(ls, s, name, k);
      assert ls[s.start + k] in ls;
    }
  }

  lemma MapText(name: string)
    requires name != "" && Strip(name) == name
    ensures RTrim("map: " + name + "\n") == "map: " + name
  {
    var a := "map: " + name;
    assert !IsSpace(name[|name| - 1]) by {
      var i := SpaceEnd(name, 0);
      assert |RTrim(name[i..])| == |name|;
      assert RTrim(name[i..]) == name;
    }
    RTrimUnique(a + "\n", |a|);
    assert (a + "\n")[..|a|] == a;
  }

  // ------------------------------------------------------------- the insertions

  lemma {:induction false} InsertionsAre(ls: seq<string>, todo: seq<EventMap>)
    requires Insertions(ls, todo).Success?
    ensures var ins := Insertions(ls, todo).value;
            forall i | 0 <= i < |todo| :: SetOf(ls, todo[i].source).Success?
              && ins[i] == Insertion(SetOf(ls, todo[i].source).value.end,
                                     ClonedSet(ls, SetOf(ls, todo[i].source).value, todo[i].name))
    decreases todo
  {
    hide SetOf, ClonedSet;
    if todo != [] { InsertionsAre(ls, todo[1..]); }
  }

  predicate WholeBlocks(ins: seq<Insertion>) { forall x | x in ins :: Whole(x.block) }

  lemma InsertionsWhole(ls: seq<string>, todo: seq<EventMap>)
    requires Insertions(ls, todo).Success? && Whole(ls) && ValidMaps(todo)
    ensures WholeBlocks(Sorted(Insertions(ls, todo).value))
  {
    hide SetOf, ClonedSet, Whole, Strip;
    var ins := Insertions(ls, todo).value;
    InsertionsAre(ls, todo);
    SortedIn(ins);
    forall i | 0 <= i < |ins| ensures Whole(ins[i].block) {
      assert todo[i] in todo;
      CloneIsWhole(ls, SetOf(ls, todo[i].source).value, todo[i].name);
    }
  }

  lemma {:induction false} SpliceWhole(out: seq<string>, ins: seq<Insertion>)
    requires Within(ins, |out|) && Whole(out) && WholeBlocks(ins)
    ensures Whole(SpliceAll(out, ins))
    decreases ins
  {
    hide IsLine, Ended;
    if ins != [] {
      assert ins[0] in ins;
      var next := Spliced(out, ins[0].at, ins[0].block);
      assert forall l | l in next :: l in out || l in ins[0].block;
      SpliceWhole(next, ins[1..]);
    }
  }

  /** Nothing before the first place of insertion moves. */
  lemma {:induction false} SplicePrefix(out: seq<string>, ins: seq<Insertion>, end: nat)
    requires Within(ins, |out|) && AllAt(ins, end) && end <= |out|
    ensures |SpliceAll(out, ins)| >= end && SpliceAll(out, ins)[..end] == out[..end]
    decreases ins
  {
    if ins != [] {
      var next := Spliced(out, ins[0].at, ins[0].block);
      assert next[..end] == out[..end];
      SplicePrefix(next, ins[1..], end);
    }
  }

  lemma SortedAt(ins: seq<Insertion>, end: nat)
    requires AllAt(ins, end)
    ensures AllAt(Sorted(ins), end)
  {
    SortedIn(ins);
    forall i | 0 <= i < |Sorted(ins)| ensures Sorted(ins)[i].at >= end { assert Sorted(ins)[i] in ins; }
  }

  // ------------------------------------------------------------ the patched list

  /** The list in the patched lines: the same head, first item and indent, and an end
      past the new items. */
  lemma ListAfter(ls: seq<string>, out: seq<string>, parts: seq<string>, rest: seq<string>)
    requires WorldPartitions(ls).Success?
    requires var w := WorldPartitions(ls).value;
             out == ls[..w.end] + parts + rest && forall l | l in parts :: !EndsList(l, w.indent)
    ensures WorldPartitions(out).Success?
    ensures var w, v := WorldPartitions(ls).value, WorldPartitions(out).value;
            v.first == w.first && v.indent == w.indent && v.end >= w.end + |parts|
  {
    hide IsHead, IsContent, IsMapItem, EndsList, Indent;
    var w := WorldPartitions(ls).value;
    assert forall k | 0 <= k < w.end :: out[k] == ls[k];
    var e := ListEnd(out, w.first + 1, w.indent);
    forall k | w.end <= k < w.end + |parts| ensures !EndsList(out[k], w.indent) {
      assert out[k] == parts[k - w.end];
    }
  }

  lemma {:induction false} MissingIs(maps: seq<EventMap>, listed: set<string>)
    ensures forall m :: m in Missing(maps, listed) <==> m in maps && m.name !in listed
    decreases maps
  {
    if maps != [] {
      MissingIs(maps[1..], listed);
      assert forall m :: m in maps <==> m == maps[0] || m in maps[1..];
    }
  }

  /** How a patch that adds something changes the lines. */
  lemma PatchShape(ls: seq<string>, maps: seq<EventMap>)
    requires Whole(ls) && ValidMaps(maps)
    requires PatchLines(ls, maps).Success? && PatchLines(ls, maps).value.1 != []
    ensures WorldPartitions(ls).Success?
    ensures var w, out, todo := WorldPartitions(ls).value, PatchLines(ls, maps).value.0, PatchLines(ls, maps).value.1;
            && Insertions(ls, todo).Success? && AllAt(Insertions(ls, todo).value, w.end)
            && todo == Missing(maps, Listed(ls[w.first..w.end], w.indent)) && ValidMaps(todo)
            && Within(Sorted(Insertions(ls, todo).value), |ls|)
            && var spliced := SpliceAll(ls, Sorted(Insertions(ls, todo).value));
               && |spliced| >= w.end && out == ls[..w.end] + PartitionLines(w.indent, todo) + spliced[w.end..]
               && Whole(out)
  {
    hide WorldPartitions, Insertions, Listed, Sorted, ValidMap, IsLine, Ended;
    var w, todo := WorldPartitions(ls).value, PatchLines(ls, maps).value.1;
    var ins := Insertions(ls, todo).value;
    MissingIs(maps, Listed(ls[w.first..w.end], w.indent));
    SortedWithin(ins, |ls|);
    SortedAt(ins, w.end);
    SplicePrefix(ls, Sorted(ins), w.end);
    InsertionsWhole(ls, todo);
    SpliceWhole(ls, Sorted(ins));
    PartitionFacts(w.indent, todo);
  }

  /** The original lines, the last one ended, are all there in order; a text to which
      nothing is added is returned as it is. */
  lemma InsertOnly(text: string, maps: seq<EventMap>)
    requires ValidMaps(maps) && PatchTemplate(text, maps).Success?
    ensures var (patched, added) := PatchTemplate(text, maps).value;
            if added == [] then patched == text else Subsequence(Close(SplitKeep(text)), SplitKeep(patched))
  {
    var ls := Close(SplitKeep(text));
    ClosedIsWhole(text);
    hide PatchLines, Close, SplitKeep, Whole, WorldPartitions, Insertions, Sorted, ValidMaps;
    if PatchTemplate(text, maps).value.1 != [] {
      PatchShape(ls, maps);
      var w, todo := WorldPartitions(ls).value, PatchLines(ls, maps).value.1;
      var ins := Sorted(Insertions(ls, todo).value);
      var spliced := SpliceAll(ls, ins);
      SubsequenceRefl(ls);
      SubsequenceSpliceAll(ls, ls, ins);
      SubsequenceSpliced(ls, spliced, w.end, PartitionLines(w.indent, todo));
      SortedAt(Insertions(ls, todo).value, w.end);
      SplicePrefix(ls, ins, w.end);
      WholeIsSplit(PatchLines(ls, maps).value.0);
    }
  }

  lemma {:induction false} NothingMissing(maps: seq<EventMap>, listed: set<string>)
    requires forall m | m in maps :: m.name in listed
    ensures Missing(maps, listed) == []
    decreases maps
  {
    if maps != [] {
      assert maps[0] in maps && forall m | m in maps[1..] :: m in maps;
      NothingMissing(maps[1..], listed);
    }
  }

  /** Patching the patched text finds nothing to add and changes nothing. */
  lemma Idempotent(text: string, maps: seq<EventMap>)
    requires ValidMaps(maps) && PatchTemplate(text, maps).Success?
    ensures var patched := PatchTemplate(text, maps).value.0;
            PatchTemplate(patched, maps) == Success((patched, []))
  {
    var ls := Close(SplitKeep(text));
    ClosedIsWhole(text);
    hide PatchLines, Close, SplitKeep, Whole, WorldPartitions, Insertions, Sorted, ValidMaps;
    if PatchTemplate(text, maps).value.1 != [] {
      PatchShape(ls, maps);
      var w, out, todo := WorldPartitions(ls).value, PatchLines(ls, maps).value.0, PatchLines(ls, maps).value.1;
      WholeIsSplit(out);
      NothingLeft(ls, maps, out, SpliceAll(ls, Sorted(Insertions(ls, todo).value))[w.end..]);
    }
  }

  lemma NothingLeft(ls: seq<string>, maps: seq<EventMap>, out: seq<string>, rest: seq<string>)
    requires WorldPartitions(ls).Success? && ValidMaps(maps)
    requires var w := WorldPartitions(ls).value; var todo := Missing(maps, Listed(ls[w.first..w.end], w.indent));
             out == ls[..w.end] + PartitionLines(w.indent, todo) + rest
    ensures PatchLines(out, maps) == Success((out, []))
  {
    hide WorldPartitions, EndsList, Listed, ValidMap, Whole, Insertions, Sorted, IsLine;
    var w := WorldPartitions(ls).value;
    var listed := Listed(ls[w.first..w.end], w.indent);
    var todo := Missing(maps, listed);
    MissingIs(maps, listed);
    var parts := PartitionLines(w.indent, todo);
    PartitionFacts(w.indent, todo);
    ListAfter(ls, out, parts, rest);
    var v := WorldPartitions(out).value;
    var past := w.end + |parts|;
    assert out[v.first..v.end] == ls[w.first..w.end] + parts + out[past..v.end];
    ListedConcat(ls[w.first..w.end] + parts, out[past..v.end], w.indent);
    ListedConcat(ls[w.first..w.end], parts, w.indent);
    NothingMissing(maps, Listed(out[v.first..v.end], w.indent));
  }

  // ------------------------------------------------------- exactly the missing maps

  predicate Descending(ins: seq<Insertion>) {
    |ins| < 2 || (ins[0].at >= ins[1].at && Descending(ins[1..]))
  }

  lemma {:induction false} PlaceDescends(i: Insertion, sorted: seq<Insertion>)
    requires Descending(sorted)
    ensures Descending(Place(i, sorted))
    decreases sorted
  {
    if sorted == [] {
    } else if i.at >= sorted[0].at {
      assert ([i] + sorted)[1..] == sorted;
    } else {
      var rest := Place(i, sorted[1..]);
      PlaceDescends(i, sorted[1..]);
      assert ([sorted[0]] + rest)[1..] == rest;
    }
  }

  lemma {:induction false} SortedDescends(ins: seq<Insertion>)
    ensures Descending(Sorted(ins))
  {
    if ins != [] {
      SortedDescends(ins[1..]);
      PlaceDescends(ins[0], Sorted(ins[1..]));
    }
  }

  predicate AllEqual(ins: seq<Insertion>, end: nat) { forall i | 0 <= i < |ins| :: ins[i].at == end }

  lemma {:induction false} FirstIsMost(ins: seq<Insertion>, end: nat)
    requires Descending(ins) && AllAt(ins, end) && ins != [] && ins[0].at == end
    ensures AllEqual(ins, end)
    decreases ins
  {
    if |ins| > 1 {
      assert forall i | 0 <= i < |ins[1..]| :: ins[1..][i] == ins[i + 1];
      FirstIsMost(ins[1..], end);
      assert forall i | 1 <= i < |ins| :: ins[i] == ins[1..][i - 1];
    }
  }

  /** The blocks inserted at one place, as they land: a later one goes in before an earlier. */
  function Landing(ins: seq<Insertion>, end: nat): seq<string> {
    if ins == [] then [] else Landing(ins[1..], end) + if ins[0].at == end then ins[0].block else []
  }

  lemma {:induction false} PlaceLands(i: Insertion, sorted: seq<Insertion>, end: nat)
    ensures Landing(Place(i, sorted), end) == Landing(sorted, end) + if i.at == end then i.block else []
    decreases sorted
  {
    if sorted == [] || i.at >= sorted[0].at {
      assert ([i] + sorted)[1..] == sorted;
    } else {
      var rest := Place(i, sorted[1..]);
      PlaceLands(i, sorted[1..], end);
      assert ([sorted[0]] + rest)[1..] == rest;
    }
  }

  /** Sorting by position keeps the order in which equal positions land. */
  lemma {:induction false} SortedLands(ins: seq<Insertion>, end: nat)
    ensures Landing(Sorted(ins), end) == Landing(ins, end)
  {
    if ins != [] {
      SortedLands(ins[1..], end);
      PlaceLands(ins[0], Sorted(ins[1..]), end);
    }
  }

  lemma {:induction false} SpliceEqual(pre: seq<string>, mid: seq<string>, tail: seq<string>, ins: seq<Insertion>)
    requires AllEqual(ins, |pre|)
    ensures Within(ins, |pre + mid + tail|)
    ensures SpliceAll(pre + mid + tail, ins) == pre + (Landing(ins, |pre|) + mid) + tail
    decreases ins
  {
    if ins == [] {
      assert [] + mid == mid;
    } else {
      var out, block := pre + mid + tail, ins[0].block;
      assert out[..|pre|] == pre && out[|pre|..] == mid + tail;
      assert Spliced(out, ins[0].at, block) == pre + (block + mid) + tail;
      SpliceEqual(pre, block + mid, tail, ins[1..]);
      assert Landing(ins, |pre|) + mid == Landing(ins[1..], |pre|) + (block + mid);
    }
  }

  /** What stands between the old end of the list and the line that ended it. */
  lemma {:induction false} SpliceShape(out: seq<string>, ins: seq<Insertion>, end: nat) returns (tail: seq<string>)
    requires Within(ins, |out|) && AllAt(ins, end) && Descending(ins) && end <= |out|
    ensures SpliceAll(out, ins) == out[..end] + Landing(ins, end) + tail
    ensures if end == |out| then tail == [] else tail != [] && tail[0] == out[end]
    decreases ins
  {
    if ins == [] {
      tail := out[end..];
      assert out == out[..end] + [] + out[end..];
    } else if ins[0].at == end {
      FirstIsMost(ins, end);
      tail := out[end..];
      assert out == out[..end] + [] + tail;
      SpliceEqual(out[..end], [], tail, ins);
      assert Landing(ins, end) + [] == Landing(ins, end);
    } else {
      var next := Spliced(out, ins[0].at, ins[0].block);
      assert next[..end] == out[..end] && next[end] == out[end];
      assert forall i | 0 <= i < |ins[1..]| :: ins[1..][i] == ins[i + 1];
      tail := SpliceShape(next, ins[1..], end);
      assert Landing(ins, end) == Landing(ins[1..], end) + [];
    }
  }

  /** A line of a cloned set that names a map is a line of the source. */
  lemma CloneNamesOld(ls: seq<string>, s: ServerSet, name: string, l: string, indent: nat)
    requires s.start <= s.mapLine < s.end <= |ls| && l in ClonedSet(ls, s, name) && Names(l, indent)
    requires name != "" && Strip(name) == name && '\n' !in name
    ensures l in ls[s.start..s.end]
  {
    hide Names, Strip, IsMapOf, IsLine, Ended, Indent, ClonedSet;
    var b := ClonedSet(ls, s, name);
    var k :| 0 <= k < |b| && b[k] == l;
    CloneRenamesOneLine(ls, s, name, k);
    if s.start + k == s.mapLine {
      MapLineNamesNothing(l, name, indent);
    } else {
      assert ls[s.start..s.end][k] == l;
    }
  }

  /** Each set that lands at the end of the list starts inside it. */
  predicate SetsStartInside(ls: seq<string>, todo: seq<EventMap>, w: Span) {
    forall m | m in todo :: SetOf(ls, m.source).Success? && SetOf(ls, m.source).value.end == w.end ==>
      SetOf(ls, m.source).value.start >= w.first
  }

  lemma {:induction false} LandingFrom(ins: seq<Insertion>, end: nat, l: string) returns (i: nat)
    requires l in Landing(ins, end)
    ensures i < |ins| && ins[i].at == end && l in ins[i].block
    decreases ins
  {
    if l in Landing(ins[1..], end) {
      i := LandingFrom(ins[1..], end, l);
      i := i + 1;
    } else {
      i := 0;
    }
  }

  /** The new items are then followed by nothing but copies of lines the list already had. */
  lemma NothingElseListed(ls: seq<string>, w: Span, todo: seq<EventMap>)
    requires w.first <= w.end <= |ls| && SetsStartInside(ls, todo, w)
    requires ValidMaps(todo) && Insertions(ls, todo).Success?
    ensures Listed(Landing(Insertions(ls, todo).value, w.end), w.indent) <= Listed(ls[w.first..w.end], w.indent)
  {
    hide Names, WorldPartitions, Insertions, ClonedSet, Strip, SetOf, Listed;
    var ins := Insertions(ls, todo).value;
    var b := Landing(ins, w.end);
    InsertionsAre(ls, todo);
    forall l | l in b && Names(l, w.indent) ensures l in ls[w.first..w.end] {
      var i := LandingFrom(ins, w.end, l);
      var s := SetOf(ls, todo[i].source).value;
      assert todo[i] in todo;
      CloneNamesOld(ls, s, todo[i].name, l, w.indent);
      Sublist(ls, s.start, w.first, w.end, l);
    }
    NamedAreListed(b, ls[w.first..w.end], w.indent);
  }

  lemma Sublist(ls: seq<string>, a: nat, b: nat, c: nat, l: string)
    requires b <= a <= c <= |ls| && l in ls[a..c]
    ensures l in ls[b..c]
  {
    var k :| 0 <= k < c - a && ls[a..c][k] == l;
    assert ls[b..c][a - b + k] == l;
  }

  lemma NamedAreListed(b: seq<string>, ls: seq<string>, indent: nat)
    requires forall l | l in b && Names(l, indent) :: l in ls
    ensures Listed(b, indent) <= Listed(ls, indent)
  {
  }

  lemma GroupBehindFirst(ls: seq<string>)
    requires WorldPartitions(ls).Success? && FindHead(ls, 0) < FindGroup(ls, 0)
    ensures WorldPartitions(ls).value.first <= FindGroup(ls, 0)
  {
    hide Strip;
    var group := FindGroup(ls, 0);
    if group < |ls| { assert IsContent(ls[group]); }
  }

  lemma MapLineNamesNothing(l: string, name: string, indent: nat)
    requires IsMapOf(l, name)
    ensures !Names(l, indent)
  {
    var i := SpaceEnd(l, 0);
    var t := Strip(l);
    assert t[0] == 'm' && t == l[i..][..|t|];
    assert l[i] == 'm';
    NamesFirst(l, indent);
  }

  lemma NamesFirst(l: string, indent: nat)
    ensures Names(l, indent) ==> SpaceEnd(l, 0) == indent < |l| && l[indent] == '-'
  {
    if Names(l, indent) {
      var p := Blanks(indent) + MAP_ITEM;
      assert p[indent] == '-' && forall k | 0 <= k <= indent :: l[k] == p[k];
      SpaceEndUnique(l, 0, indent);
    }
  }

  /** The lines that land at the end of the list, up to the first that ends it. */
  function Trailing(ls: seq<string>, todo: seq<EventMap>, w: Span): seq<string>
    requires Insertions(ls, todo).Success?
  {
    var b := Landing(Insertions(ls, todo).value, w.end);
    b[..ListEnd(b, 0, w.indent)]
  }

  /** The patched list names what it named before, the maps that were missing, and whatever
      the copied lines behind it name before one of them ends the list. */
  lemma PatchedListReads(ls: seq<string>, maps: seq<EventMap>)
    requires Whole(ls) && ValidMaps(maps)
    requires PatchLines(ls, maps).Success? && PatchLines(ls, maps).value.1 != []
    ensures WorldPartitions(ls).Success? && WorldPartitions(PatchLines(ls, maps).value.0).Success?
    ensures var (out, added) := PatchLines(ls, maps).value;
            var w, v := WorldPartitions(ls).value, WorldPartitions(out).value;
            && Insertions(ls, added).Success?
            && Listed(out[v.first..v.end], v.indent) ==
               Listed(ls[w.first..w.end], w.indent) + (set m | m in added :: m.name)
                   + Listed(Trailing(ls, added, w), w.indent)
            && forall m :: m in added <==> m in maps && m.name !in Listed(ls[w.first..w.end], w.indent)
  {
    hide PatchLines, Insertions, Sorted, Listed, EndsList, WorldPartitions, PartitionLines, ValidMaps, Whole, Trailing;
    PatchShape(ls, maps);
    var (out, todo) := PatchLines(ls, maps).value;
    var w := WorldPartitions(ls).value;
    MissingIs(maps, Listed(ls[w.first..w.end], w.indent));
    PartitionFacts(w.indent, todo);
    SplicedReads(ls, out, w, todo);
  }

  /** It names exactly those, and nothing else, exactly when the copied lines name nothing
      new before one of them ends the list. */
  lemma ListsExactlyTheMissingIff(ls: seq<string>, maps: seq<EventMap>)
    requires Whole(ls) && ValidMaps(maps)
    requires PatchLines(ls, maps).Success? && PatchLines(ls, maps).value.1 != []
    ensures WorldPartitions(ls).Success? && WorldPartitions(PatchLines(ls, maps).value.0).Success?
    ensures var (out, added) := PatchLines(ls, maps).value;
            var w, v := WorldPartitions(ls).value, WorldPartitions(out).value;
            var wanted := Listed(ls[w.first..w.end], w.indent) + set m | m in added :: m.name;
            && Insertions(ls, added).Success?
            && (Listed(out[v.first..v.end], v.indent) == wanted <==> Listed(Trailing(ls, added, w), w.indent) <= wanted)
  {
    hide PatchLines, Insertions, Listed, WorldPartitions, ValidMaps, Whole, Trailing;
    PatchedListReads(ls, maps);
  }

  /** So it does when each set that lands there starts inside the list: with the server
      group below the head of the list, always. */
  lemma ListsExactlyTheMissing(ls: seq<string>, maps: seq<EventMap>)
    requires Whole(ls) && ValidMaps(maps)
    requires PatchLines(ls, maps).Success? && PatchLines(ls, maps).value.1 != []
    requires WorldPartitions(ls).Success?
    requires FindHead(ls, 0) < FindGroup(ls, 0) || SetsStartInside(ls, PatchLines(ls, maps).value.1,
                                                                   WorldPartitions(ls).value)
    ensures WorldPartitions(PatchLines(ls, maps).value.0).Success?
    ensures var (out, added) := PatchLines(ls, maps).value;
            var w, v := WorldPartitions(ls).value, WorldPartitions(out).value;
            Listed(out[v.first..v.end], v.indent) == Listed(ls[w.first..w.end], w.indent) + set m | m in added :: m.name
  {
    hide PatchLines, Insertions, Listed, WorldPartitions, ValidMap, Whole, Trailing, SetOf, FindHead, FindGroup,
        SetsStartInside;
    PatchedListReads(ls, maps);
    var added := PatchLines(ls, maps).value.1;
    var w := WorldPartitions(ls).value;
    assert forall m | m in added :: m in maps;
    if FindHead(ls, 0) < FindGroup(ls, 0) { GroupBelowStartsInside(ls, added); }
    NothingElseListed(ls, w, added);
    TrailingIsLanding(ls, added, w);
  }

  lemma TrailingIsLanding(ls: seq<string>, todo: seq<EventMap>, w: Span)
    requires Insertions(ls, todo).Success?
    ensures Listed(Trailing(ls, todo, w), w.indent) <= Listed(Landing(Insertions(ls, todo).value, w.end), w.indent)
  {
    hide Insertions, Listed, EndsList;
    var b := Landing(Insertions(ls, todo).value, w.end);
    var n := ListEnd(b, 0, w.indent);
    assert b == b[..n] + b[n..];
    ListedConcat(b[..n], b[n..], w.indent);
  }

  lemma GroupBelowStartsInside(ls: seq<string>, todo: seq<EventMap>)
    requires WorldPartitions(ls).Success? && FindHead(ls, 0) < FindGroup(ls, 0)
    ensures SetsStartInside(ls, todo, WorldPartitions(ls).value)
  {
    hide SetOf, WorldPartitions, FindHead, FindGroup;
    GroupBehindFirst(ls);
  }

  lemma SplicedReads(ls: seq<string>, out: seq<string>, w: Span, todo: seq<EventMap>)
    requires WorldPartitions(ls) == Success(w) && w.end <= |ls|
    requires ValidMaps(todo) && Insertions(ls, todo).Success? && AllAt(Insertions(ls, todo).value, w.end)
    requires Within(Sorted(Insertions(ls, todo).value), |ls|)
    requires var spliced := SpliceAll(ls, Sorted(Insertions(ls, todo).value));
             |spliced| >= w.end && out == ls[..w.end] + PartitionLines(w.indent, todo) + spliced[w.end..]
    ensures WorldPartitions(out).Success?
    ensures var v := WorldPartitions(out).value;
            Listed(out[v.first..v.end], v.indent) ==
            Listed(ls[w.first..w.end], w.indent) + Listed(PartitionLines(w.indent, todo), w.indent)
            + Listed(Trailing(ls, todo, w), w.indent)
  {
    hide Insertions, Sorted, Listed, EndsList, WorldPartitions, PartitionLines, ValidMaps, Whole;
    var ins := Insertions(ls, todo).value;
    SortedDescends(ins);
    SortedAt(ins, w.end);
    SortedLands(ins, w.end);
    var tail := SpliceShape(ls, Sorted(ins), w.end);
    var b := Landing(ins, w.end);
    PartitionFacts(w.indent, todo);
    assert SpliceAll(ls, Sorted(ins))[w.end..] == b + tail;
    ListReads(ls, out, PartitionLines(w.indent, todo), b, tail, w);
  }

  /** The list as it reads after the patch. */
  lemma ListReads(ls: seq<string>, out: seq<string>, parts: seq<string>, b: seq<string>, tail: seq<string>, w: Span)
    requires WorldPartitions(ls) == Success(w)
    requires out == ls[..w.end] + parts + (b + tail) && (forall l | l in parts :: !EndsList(l, w.indent))
    requires if w.end == |ls| then tail == [] else tail != [] && tail[0] == ls[w.end]
    ensures WorldPartitions(out).Success?
    ensures var v := WorldPartitions(out).value;
            Listed(out[v.first..v.end], v.indent) ==
            Listed(ls[w.first..w.end], w.indent) + Listed(parts, w.indent)
                + Listed(b[..ListEnd(b, 0, w.indent)], w.indent)
  {
    hide EndsList, Listed, WorldPartitions;
    ListEndsThere(ls, out, parts, b, tail, w);
    var v := WorldPartitions(out).value;
    var pre, n := ls[..w.end][w.first..], ListEnd(b, 0, w.indent);
    assert out[v.first..v.end] == pre + parts + b[..n];
    ListedConcat(pre + parts, b[..n], w.indent);
    ListedConcat(pre, parts, w.indent);
    assert pre == ls[w.first..w.end];
  }

  /** The first copied line that ends the list ends it; if none does, the line that ended
      it ends it still. */
  lemma ListEndsThere(ls: seq<string>, out: seq<string>, parts: seq<string>, b: seq<string>, tail: seq<string>, w: Span)
    requires WorldPartitions(ls) == Success(w)
    requires out == ls[..w.end] + parts + (b + tail) && (forall l | l in parts :: !EndsList(l, w.indent))
    requires if w.end == |ls| then tail == [] else tail != [] && tail[0] == ls[w.end]
    ensures WorldPartitions(out).Success?
    ensures var v := WorldPartitions(out).value;
            v.first == w.first && v.indent == w.indent && v.end == w.end + |parts| + ListEnd(b, 0, w.indent)
  {
    hide EndsList, IsHead, IsContent, IsMapItem, Indent;
    ListAfter(ls, out, parts, b + tail);
    var v := WorldPartitions(out).value;
    var past, n := w.end + |parts|, ListEnd(b, 0, w.indent);
    forall k | past <= k < past + n ensures !EndsList(out[k], w.indent) { assert out[k] == b[k - past]; }
    if n < |b| {
      assert out[past + n] == b[n];
    } else if tail != [] {
      assert out[past + n] == tail[0] && EndsList(out[past + n], w.indent);
    }
  }

  // ------------------------------------------------------------------- the clones

  predicate StandsAt(out: seq<string>, p: nat, block: seq<string>) {
    p + |block| <= |out| && out[p..p + |block|] == block
  }

  ghost predicate Holds(out: seq<string>, from: nat, block: seq<string>) {
    exists p: nat :: from <= p && StandsAt(out, p, block)
  }

  lemma HoldsSpliced(out: seq<string>, from: nat, block: seq<string>, at: nat, other: seq<string>)
    requires Holds(out, from, block) && at <= from && at <= |out|
    ensures Holds(Spliced(out, at, other), at, block)
  {
    var p: nat :| from <= p && StandsAt(out, p, block);
    assert StandsAt(Spliced(out, at, other), p + |other|, block);
  }

  lemma {:induction false} HoldsAll(out: seq<string>, ins: seq<Insertion>, from: nat, block: seq<string>, end: nat)
    requires Within(ins, |out|) && Descending(ins) && AllAt(ins, end) && end <= from
    requires Holds(out, from, block) && (ins != [] ==> ins[0].at <= from)
    ensures Holds(SpliceAll(out, ins), end, block)
    decreases ins
  {
    if ins != [] {
      HoldsSpliced(out, from, block, ins[0].at, ins[0].block);
      var next := Spliced(out, ins[0].at, ins[0].block);
      assert forall i | 0 <= i < |ins[1..]| :: ins[1..][i] == ins[i + 1];
      HoldsAll(next, ins[1..], ins[0].at, block, end);
    } else {
      var p: nat :| from <= p && StandsAt(out, p, block);
      assert end <= p;
    }
  }

  lemma {:induction false} EachHeld(out: seq<string>, ins: seq<Insertion>, x: Insertion, end: nat)
    requires Within(ins, |out|) && Descending(ins) && AllAt(ins, end) && x in ins
    ensures Holds(SpliceAll(out, ins), end, x.block)
    decreases ins
  {
    var next := Spliced(out, ins[0].at, ins[0].block);
    assert forall i | 0 <= i < |ins[1..]| :: ins[1..][i] == ins[i + 1];
    if ins[0] == x {
      assert StandsAt(next, ins[0].at, x.block);
      HoldsAll(next, ins[1..], ins[0].at, x.block, end);
    } else {
      EachHeld(next, ins[1..], x, end);
    }
  }

  /** Every added map's server set stands in one piece behind the list, however many are added. */
  lemma ClonesStandWhole(ls: seq<string>, maps: seq<EventMap>, m: EventMap)
    requires Whole(ls) && ValidMaps(maps)
    requires PatchLines(ls, maps).Success? && m in PatchLines(ls, maps).value.1
    ensures WorldPartitions(ls).Success? && SetOf(ls, m.source).Success?
    ensures var (out, todo) := PatchLines(ls, maps).value;
            Holds(out, WorldPartitions(ls).value.end, ClonedSet(ls, SetOf(ls, m.source).value, m.name))
  {
    hide PatchLines, WorldPartitions, Insertions, SetOf, ClonedSet, Sorted, IsLine, Ended;
    PatchShape(ls, maps);
    var (out, todo) := PatchLines(ls, maps).value;
    var w, ins := WorldPartitions(ls).value, Insertions(ls, todo).value;
    InsertionsAre(ls, todo);
    var i :| 0 <= i < |todo| && todo[i] == m;
    SortedIn(ins);
    assert ins[i] in ins;
    SortedAt(ins, w.end);
    SortedDescends(ins);
    EachHeld(ls, Sorted(ins), ins[i], w.end);
    SplicePrefix(ls, Sorted(ins), w.end);
    var spliced := SpliceAll(ls, Sorted(ins));
    HoldsSpliced(spliced, w.end, ins[i].block, w.end, PartitionLines(w.indent, todo));
    assert Spliced(spliced, w.end, PartitionLines(w.indent, todo)) == out;
  }

  // --------------------------------------- a server group above the list of maps

  /** What a field is seen as. */
  lemma FieldSeen(n: nat, a: string)
    requires a != "" && !IsSpace(a[0]) && !IsSpace(a[|a| - 1])
    ensures var l := Field(n, a); Indent(l) == n && Bare(l) == a + "\n" && Strip(l) == a
  {
    LineFacts(n, a + "\n");
    RTrimUnique(a + "\n", |a|);
    assert (a + "\n")[..|a|] == a;
  }

  /** A template whose server group stands above the list, with a list inside its set. */
  function Inverted(): (ls: seq<string>)
    ensures |ls| == 6
  {
    [Field(0, "serverGroup:"), Field(4, "- a"), Field(0, "- map: Q"),
     Field(0, "worldPartitions:"), Field(0, "- map: A"), Field(6, "map: S")]
  }

  const EVENT := EventMap("E", "90", "S")

  lemma InvertedLines()
    ensures var ls := Inverted();
            && Strip(ls[0]) == "serverGroup:" && Strip(ls[1]) == "- a" && Strip(ls[2]) == "- map: Q"
            && Strip(ls[3]) == "worldPartitions:" && Strip(ls[4]) == "- map: A" && Strip(ls[5]) == "map: S"
            && Indent(ls[0]) == 0 && Indent(ls[1]) == 4 && Indent(ls[2]) == 0 && Indent(ls[3]) == 0
            && Indent(ls[4]) == 0 && Indent(ls[5]) == 6
            && Bare(ls[1]) == "- a\n" && Bare(ls[2]) == "- map: Q\n" && Bare(ls[4]) == "- map: A\n"
  {
    hide Strip, Indent, Bare, Field;
    FieldSeen(0, "serverGroup:");
    FieldSeen(4, "- a");
    FieldSeen(0, "- map: Q");
    FieldSeen(0, "worldPartitions:");
    FieldSeen(0, "- map: A");
    FieldSeen(6, "map: S");
    assert "- a" + "\n" == "- a\n" && "- map: Q" + "\n" == "- map: Q\n" && "- map: A" + "\n" == "- map: A\n";
  }

  lemma InvertedSpan()
    ensures WorldPartitions(Inverted()) == Success(Span(4, 6, 0))
    ensures FindGroup(Inverted(), 0) == 0 && FindHead(Inverted(), 0) == 3
  {
    InvertedLines();
    hide Strip, Indent, Bare, Inverted;
    var ls := Inverted();
    assert IsHead(ls[3]) && !IsHead(ls[0]) && !IsHead(ls[1]) && !IsHead(ls[2]);
    assert IsGroup(ls[0]);
    assert IsContent(ls[4]) && IsMapItem(ls[4]) && !EndsList(ls[5], 0);
  }

  lemma InvertedSet()
    ensures SetOf(Inverted(), "S") == Success(ServerSet(1, 6, 5))
  {
    InvertedSpan();
    InvertedLines();
    hide Strip, Indent, Bare, Inverted, WorldPartitions, FindHead;
    var ls := Inverted();
    assert "map: " + "S" == "map: S";
    assert IsMapOf(ls[5], "S") && !IsMapOf(ls[1], "S") && !IsMapOf(ls[2], "S") && !IsMapOf(ls[3], "S")
      && !IsMapOf(ls[4], "S");
    assert IsItem(ls[1]);
    assert SetStart(ls, 3, 0, 4) == 1;
    assert SetStart(ls, 5, 0, 4) == 1;
  }

  lemma StripPlain(a: string)
    requires a != "" && !IsSpace(a[0]) && !IsSpace(a[|a| - 1])
    ensures Strip(a) == a
  {
    assert a[0..] == a;
    RTrimUnique(a, |a|);
    assert a[..|a|] == a;
  }

  lemma PlainMap(m: EventMap)
    requires |m.name| == 1 && !IsSpace(m.name[0]) && '\n' !in m.partitionId
    ensures ValidMap(m)
  {
    StripPlain(m.name);
  }

  lemma ItemNames(name: string)
    requires |name| == 1 && !IsSpace(name[0])
    ensures NamesMap(Field(0, MAP_ITEM + name), 0, name)
  {
    var m := EventMap(name, "", "");
    PlainMap(m);
    hide ValidMap, NamesMap, Field;
    FirstFacts(0, m);
  }

  lemma InvertedListed()
    ensures Listed(Inverted()[4..6], 0) == {"A"} && "Q" in Listed([Inverted()[1], Inverted()[2]], 0)
  {
    ItemNames("A");
    ItemNames("Q");
    assert MAP_ITEM + "A" == "- map: A" && MAP_ITEM + "Q" == "- map: Q";
    hide NamesMap, Field, Strip;
    var ls := Inverted();
    LastNamesNothing();
    hide Inverted;
    assert ls[4..6] == [ls[4], ls[5]];
    ListedOf([ls[4], ls[5]], 0, "A");
    NamedIn([ls[1], ls[2]], ls[2], 0, "Q");
  }

  lemma LastNamesNothing()
    ensures !Names(Inverted()[5], 0)
  {
    InvertedLines();
    hide Names, Strip, Inverted;
    assert "map: " + "S" == "map: S";
    MapLineNamesNothing(Inverted()[5], "S", 0);
  }

  lemma NamedIn(b: seq<string>, l: string, indent: nat, name: string)
    requires l in b && NamesMap(l, indent, name)
    ensures name in Listed(b, indent)
  {
  }

  /** The check that the sets lie behind the list lets this template through, and the
      copied set then lists a map that neither the list nor the patch had. */
  lemma GroupAboveListsMore()
    ensures PatchLines(Inverted(), [EVENT]).Success?
    ensures var (out, added) := PatchLines(Inverted(), [EVENT]).value;
            && added == [EVENT] && Listed(Inverted()[4..6], 0) == {"A"} && WorldPartitions(out).Success?
            && var v := WorldPartitions(out).value; "Q" in Listed(out[v.first..v.end], v.indent)
  {
    hide WorldPartitions, Listed, PatchLines, Inverted, ClonedSet, PartitionLines, EndsList, ValidMap, Whole;
    InvertedSpan();
    InvertedListed();
    InvertedPatch();
    InvertedEnds();
    PartitionFacts(0, [EVENT]);
    var ls, parts := Inverted(), PartitionLines(0, [EVENT]);
    var clone, copied := ClonedSet(ls, ServerSet(1, 6, 5), "E"), [ls[1], ls[2]];
    var out := PatchLines(ls, [EVENT]).value.0;
    assert out == ls + parts + (copied + clone[2..]);
    CopiesAreRead(ls, out, parts, copied, clone[2..]);
  }

  lemma CopiesAreRead(ls: seq<string>, out: seq<string>, parts: seq<string>, copied: seq<string>, rest: seq<string>)
    requires WorldPartitions(ls).Success? && WorldPartitions(ls).value.end == |ls|
             && out == ls + parts + (copied + rest)
    requires var w := WorldPartitions(ls).value; forall l | l in parts + copied :: !EndsList(l, w.indent)
    ensures WorldPartitions(out).Success?
    ensures var v := WorldPartitions(out).value;
            v.indent == WorldPartitions(ls).value.indent
                && Listed(copied, v.indent) <= Listed(out[v.first..v.end], v.indent)
  {
    hide WorldPartitions, Listed, EndsList;
    assert ls[..|ls|] == ls;
    assert out == ls[..|ls|] + (parts + copied) + rest;
    ListAfter(ls, out, parts + copied, rest);
    var v := WorldPartitions(out).value;
    MiddleListed(ls + parts, copied, rest, v.first, v.end, v.indent);
    assert out == ls + parts + copied + rest;
  }

  lemma MiddleListed(pre: seq<string>, mid: seq<string>, post: seq<string>, first: nat, end: nat, indent: nat)
    requires first <= |pre| && |pre| + |mid| <= end <= |pre + mid + post|
    ensures Listed(mid, indent) <= Listed((pre + mid + post)[first..end], indent)
  {
    hide Listed;
    var rest := post[..end - |pre| - |mid|];
    assert (pre + mid + post)[first..end] == pre[first..] + mid + rest;
    ListedConcat(pre[first..] + mid, rest, indent);
    ListedConcat(pre[first..], mid, indent);
  }

  lemma InvertedEnds()
    ensures forall l | l in [Inverted()[1], Inverted()[2]] :: !EndsList(l, 0)
    ensures ClonedSet(Inverted(), ServerSet(1, 6, 5), "E")[..2] == [Inverted()[1], Inverted()[2]]
    ensures ValidMaps([EVENT])
  {
    hide EndsList, Inverted, ValidMap;
    InvertedGoOn();
    PlainMap(EVENT);
    FirstCopies(Inverted());
  }

  lemma InvertedGoOn()
    ensures !EndsList(Inverted()[1], 0) && !EndsList(Inverted()[2], 0)
  {
    hide Strip, Indent, Bare, Inverted, IsContent;
    InvertedLines();
    assert "- " <= "- map: Q\n";
  }

  lemma FirstCopies(ls: seq<string>)
    requires |ls| == 6
    ensures ClonedSet(ls, ServerSet(1, 6, 5), "E")[..2] == [ls[1], ls[2]]
  {
    hide Indent;
    assert ls[1..5][..2] == [ls[1], ls[2]];
  }

  lemma InvertedPatch()
    ensures PatchLines(Inverted(), [EVENT]) ==
            Success((Inverted() + PartitionLines(0, [EVENT]) + ClonedSet(Inverted(), ServerSet(1, 6, 5), "E"), [EVENT]))
  {
    InvertedSpan();
    InvertedSet();
    InvertedListed();
    hide WorldPartitions, Listed, Inverted, ClonedSet, PartitionLines, SetOf;
    var ls := Inverted();
    var clone := ClonedSet(ls, ServerSet(1, 6, 5), "E");
    var ins := [Insertion(6, clone)];
    assert [EVENT][1..] == [];
    assert Missing([EVENT], {"A"}) == [EVENT];
    assert EVENT.source == "S" && EVENT.name == "E";
    assert Insertions(ls, []) == Success([]);
    assert Insertions(ls, [EVENT]).value == ins;
    assert ins[1..] == [];
    assert Sorted(ins) == ins;
    SpliceOnce(ls, ins);
    assert Spliced(ls, 6, clone) == ls + clone;
  }

  lemma SpliceOnce(ls: seq<string>, ins: seq<Insertion>)
    requires |ins| == 1 && Within(ins, |ls|)
    ensures SpliceAll(ls, ins) == Spliced(ls, ins[0].at, ins[0].block)
  {
    assert ins[1..] == [];
  }
}
