/** The patched template written out line by line: where the list and the server sets are
    found, what is added, and between which lines; and when the patch is refused. */
module EventMapsWoven {
  import opened Wrappers
  import opened Ascii
  import opened Lines
  import opened EventMaps
  import opened EventMapsLaws

  // ------------------------------------------------------------- reading a line

  /** The first character of the line that is no white space. */
  predicate Visible(l: string, k: nat) { k < |l| && !IsSpace(l[k]) && forall j | 0 <= j < k :: IsSpace(l[j]) }

  /** What a line is to the patch, told from its first visible character. */
  lemma LineReads(l: string, k: nat)
    requires Visible(l, k)
    ensures IsContent(l) <==> l[k] != '#'
    ensures IsItem(l) <==> k + 2 <= |l| && l[k] == '-' && l[k + 1] == ' '
    ensures IsMapItem(l) <==> k + 7 <= |l| && l[k..k + 7] == "- map: "
  {
    SpaceEndUnique(l, 0, k);
    var b := l[k..];
    var t := RTrim(b);
    assert b[0] == l[k] && b[|t|..] != b;
    assert t[0] == b[0] == l[k];
    if IsMapItem(l) { assert l[k..k + 7] == b[..7] == "- map: "; }
    if k + 7 <= |l| && l[k..k + 7] == "- map: " { assert b[..7] == "- map: "; }
    if k + 2 <= |l| && l[k] == '-' && l[k + 1] == ' ' { assert b[..2] == "- "; }
    if IsItem(l) { assert b[..2] == "- " && b[0] == l[k] && b[1] == l[k + 1]; }
  }

  /** A blank line is nothing to it. */
  lemma BlankReads(l: string)
    requires Blank(l)
    ensures !IsContent(l) && !IsItem(l) && !IsMapItem(l)
  {
    SpaceEndUnique(l, 0, |l|);
  }

  // ------------------------------------------------------------ where things stand

  /** The list stands from its first item up to the line that ends it: content that is
      indented less than the items are, or as much without being one. */
  predicate ListAt(ls: seq<string>, head: nat, first: nat, end: nat) {
    && head < first < end <= |ls|
    && Strip(ls[head]) == "worldPartitions:" && (forall k | 0 <= k < head :: Strip(ls[k]) != "worldPartitions:")
    && IsMapItem(ls[first]) && (forall k | head < k < first :: !IsContent(ls[k])) && IsContent(ls[first])
    && (forall k | first < k < end && IsContent(ls[k]) ::
          Indent(ls[k]) > Indent(ls[first]) || (Indent(ls[k]) == Indent(ls[first]) && IsItem(ls[k])))
    && (end < |ls| ==> IsContent(ls[end]) && Indent(ls[end]) <= Indent(ls[first])
                       && (Indent(ls[end]) == Indent(ls[first]) ==> !IsItem(ls[end])))
  }

  lemma {:induction false} HeadIs(ls: seq<string>, i: nat, head: nat)
    requires i <= head <= |ls| && (forall k | i <= k < head :: Strip(ls[k]) != "worldPartitions:")
    requires head < |ls| ==> Strip(ls[head]) == "worldPartitions:"
    ensures FindHead(ls, i) == head
  {
  }

  /** The list is found exactly where it stands. */
  lemma SpanIff(ls: seq<string>, first: nat, end: nat, indent: nat)
    ensures WorldPartitions(ls) == Success(Span(first, end, indent)) <==>
            exists head: nat :: ListAt(ls, head, first, end) && indent == Indent(ls[first])
  {
    hide Strip, IsContent, IsMapItem, IsItem, Indent;
    if WorldPartitions(ls) == Success(Span(first, end, indent)) {
      assert ListAt(ls, FindHead(ls, 0), first, end);
    }
    if head: nat :| ListAt(ls, head, first, end) && indent == Indent(ls[first]) {
      HeadIs(ls, 0, head);
      assert FindContent(ls, head + 1) == first;
      assert ListEnd(ls, first + 1, indent) == end;
    }
  }

  /** There is no list without its head line, and one whose first content is no map item is
      refused. */
  lemma SpanFails(ls: seq<string>)
    ensures WorldPartitions(ls) == Failure(NoWorldPartitions) <==>
            forall k | 0 <= k < |ls| :: Strip(ls[k]) != "worldPartitions:"
    ensures WorldPartitions(ls).Failure? ==> WorldPartitions(ls).error in {NoWorldPartitions, NotAListOfMaps}
  {
    hide Strip;
    HeadIs(ls, 0, FindHead(ls, 0));
  }

  /** The set of a map stands around the first line below the head of the server group that
      names the map: from the nearest item above it that is indented two less, up to content
      indented no more than that item. */
  predicate SetAt(ls: seq<string>, source: string, group: nat, start: nat, mapLine: nat, end: nat) {
    && group < start <= mapLine < end <= |ls|
    && Strip(ls[group]) == "serverGroup:" && (forall k | 0 <= k < group :: Strip(ls[k]) != "serverGroup:")
    && Strip(ls[mapLine]) == "map: " + source && (forall k | group < k < mapLine :: Strip(ls[k]) != "map: " + source)
    && Indent(ls[start]) == Indent(ls[mapLine]) - 2 && IsItem(ls[start])
    && (forall k | start < k <= mapLine :: !(Indent(ls[k]) == Indent(ls[mapLine]) - 2 && IsItem(ls[k])))
    && (forall k | mapLine < k < end :: IsContent(ls[k]) ==> Indent(ls[k]) > Indent(ls[mapLine]) - 2)
    && (end < |ls| ==> IsContent(ls[end]) && Indent(ls[end]) <= Indent(ls[mapLine]) - 2)
  }

  lemma {:induction false} StartIs(ls: seq<string>, i: nat, group: nat, indent: int, start: nat)
    requires group <= start <= i < |ls|
    requires forall k | start < k <= i :: !(Indent(ls[k]) == indent && IsItem(ls[k]))
    requires start == group || (Indent(ls[start]) == indent && IsItem(ls[start]))
    ensures SetStart(ls, i, group, indent) == start
    decreases i
  {
    hide Indent, IsItem;
    if i > start { StartIs(ls, i - 1, group, indent, start); }
  }

  lemma {:induction false} StartMeans(ls: seq<string>, i: nat, group: nat, indent: int)
    requires group <= i < |ls|
    ensures var start := SetStart(ls, i, group, indent);
            && (forall k | start < k <= i :: !(Indent(ls[k]) == indent && IsItem(ls[k])))
            && (start > group ==> Indent(ls[start]) == indent && IsItem(ls[start]))
    decreases i
  {
    hide Indent, IsItem;
    if i > group && !(Indent(ls[i]) == indent && IsItem(ls[i])) { StartMeans(ls, i - 1, group, indent); }
  }

  lemma {:induction false} EndMeans(ls: seq<string>, i: nat, indent: int)
    requires i <= |ls|
    ensures var end := SetEnd(ls, i, indent);
            && (forall k | i <= k < end :: IsContent(ls[k]) ==> Indent(ls[k]) > indent)
            && (end < |ls| ==> IsContent(ls[end]) && Indent(ls[end]) <= indent)
    decreases |ls| - i
  {
    hide Indent, IsContent;
    if i < |ls| { EndMeans(ls, i + 1, indent); }
  }

  lemma {:induction false} EndIs(ls: seq<string>, i: nat, indent: int, end: nat)
    requires i <= end <= |ls| && forall k | i <= k < end :: IsContent(ls[k]) ==> Indent(ls[k]) > indent
    requires end < |ls| ==> IsContent(ls[end]) && Indent(ls[end]) <= indent
    ensures SetEnd(ls, i, indent) == end
    decreases end - i
  {
    hide Indent, IsContent;
    if i < end { EndIs(ls, i + 1, indent, end); }
  }

  /** The server set of a map is found exactly where it stands. */
  lemma SetIff(ls: seq<string>, source: string, start: nat, mapLine: nat, end: nat)
    ensures SetOf(ls, source) == Success(ServerSet(start, end, mapLine)) <==>
            exists group: nat :: SetAt(ls, source, group, start, mapLine, end)
  {
    hide SetOf, SetAt;
    if SetOf(ls, source) == Success(ServerSet(start, end, mapLine)) { FoundSetStands(ls, source, start, mapLine, end); }
    if group: nat :| SetAt(ls, source, group, start, mapLine, end) {
      StandingSetIsFound(ls, source, group, start, mapLine, end);
    }
  }

  lemma FoundSetStands(ls: seq<string>, source: string, start: nat, mapLine: nat, end: nat)
    requires SetOf(ls, source) == Success(ServerSet(start, end, mapLine))
    ensures SetAt(ls, source, FindGroup(ls, 0), start, mapLine, end)
  {
    hide Strip, IsContent, IsItem, Indent;
    var group := FindGroup(ls, 0);
    StartMeans(ls, mapLine, group, Indent(ls[mapLine]) - 2);
    EndMeans(ls, mapLine + 1, Indent(ls[mapLine]) - 2);
  }

  lemma StandingSetIsFound(ls: seq<string>, source: string, group: nat, start: nat, mapLine: nat, end: nat)
    requires SetAt(ls, source, group, start, mapLine, end)
    ensures SetOf(ls, source) == Success(ServerSet(start, end, mapLine))
  {
    hide Strip, IsContent, IsItem, Indent;
    assert FindGroup(ls, 0) == group;
    assert FindMapLine(ls, group + 1, source) == mapLine;
    StartIs(ls, mapLine, group, Indent(ls[mapLine]) - 2, start);
    EndIs(ls, mapLine + 1, Indent(ls[mapLine]) - 2, end);
  }

  /** A set is refused without a server group, without a line below it that names the map, and
      without an item that line belongs to. */
  lemma SetFails(ls: seq<string>, source: string)
    ensures SetOf(ls, source) == Failure(NoServerGroup) <==>
            forall k | 0 <= k < |ls| :: Strip(ls[k]) != "serverGroup:"
    ensures SetOf(ls, source) == Failure(NoServerSet) <==>
            exists group | 0 <= group < |ls| ::
              && Strip(ls[group]) == "serverGroup:" && (forall k | 0 <= k < group :: Strip(ls[k]) != "serverGroup:")
              && forall k | group < k < |ls| :: Strip(ls[k]) != "map: " + source
    ensures SetOf(ls, source).Failure? ==> SetOf(ls, source).error in {NoServerGroup, NoServerSet, NoItemStart}
  {
    hide Strip, IsContent, IsItem, Indent;
    var group := FindGroup(ls, 0);
    if group < |ls| {
      var m := FindMapLine(ls, group + 1, source);
      assert m < |ls| ==> Strip(ls[m]) == "map: " + source;
    }
  }

  // ----------------------------------------------------------- what is added

  /** The text of a new item: the map, its one partition under the reserved id, and the unit
      square. */
  lemma ItemReads(indent: nat, m: EventMap)
    ensures var pad := Blanks(indent);
            Join(PartitionBlock(indent, m)) ==
            (pad + "- map: " + m.name + "\n")
            + (pad + "  partitions:\n")
            + (pad + "  - dimension: 0\n")
            + (pad + "    disable: false\n")
            + (pad + "    id: " + m.partitionId + "\n")
            + (pad + "    maxX: 1\n")
            + (pad + "    maxY: 1\n")
            + (pad + "    minX: 0\n")
            + (pad + "    minY: 0\n")
  {
    var pad := Blanks(indent);
    assert MAP_ITEM + m.name + "\n" == "- map: " + m.name + "\n";
    assert pad + (MAP_ITEM + m.name + "\n") == pad + "- map: " + m.name + "\n";
    hide PartitionBlock, Blanks, Field;
    Plain(indent, MAP_ITEM + m.name, pad + "- map: " + m.name + "\n");
    PlainFields(indent);
    SquareFields(indent);
    IdField(indent, m);
    BlockOf(indent, m);
    JoinNine(PartitionBlock(indent, m));
  }

  lemma BlockOf(indent: nat, m: EventMap)
    ensures PartitionBlock(indent, m) ==
            [Field(indent, MAP_ITEM + m.name), Field(indent + 2, "partitions:"), Field(indent + 2, "- dimension: 0"),
             Field(indent + 4, "disable: false"), Field(indent + 4, "id: " + m.partitionId),
             Field(indent + 4, "maxX: 1"), Field(indent + 4, "maxY: 1"), Field(indent + 4, "minX: 0"),
             Field(indent + 4, "minY: 0")]
  {
  }

  lemma Plain(indent: nat, a: string, l: string)
    requires l == Blanks(indent) + (a + "\n")
    ensures Field(indent, a) == l
  {
  }

  lemma DeepField(indent: nat, more: nat, a: string, l: string)
    requires l == Blanks(more) + a + "\n"
    ensures Field(indent + more, a) == Blanks(indent) + l
  {
    hide Blanks;
    Deeper(indent, more);
    Nested(Blanks(indent), Blanks(more), a, "\n");
  }

  lemma Nested(a: string, b: string, c: string, d: string)
    ensures a + b + (c + d) == a + (b + c + d)
  {
  }

  lemma PlainFields(indent: nat)
    ensures var pad := Blanks(indent);
            && Field(indent + 2, "partitions:") == pad + "  partitions:\n"
            && Field(indent + 2, "- dimension: 0") == pad + "  - dimension: 0\n"
            && Field(indent + 4, "disable: false") == pad + "    disable: false\n"
  {
    TwoAndFour();
    hide Blanks, Field;
    DeepField(indent, 2, "partitions:", "  partitions:\n");
    DeepField(indent, 2, "- dimension: 0", "  - dimension: 0\n");
    DeepField(indent, 4, "disable: false", "    disable: false\n");
  }

  lemma SquareFields(indent: nat)
    ensures var pad := Blanks(indent);
            && Field(indent + 4, "maxX: 1") == pad + "    maxX: 1\n"
            && Field(indent + 4, "maxY: 1") == pad + "    maxY: 1\n"
            && Field(indent + 4, "minX: 0") == pad + "    minX: 0\n"
            && Field(indent + 4, "minY: 0") == pad + "    minY: 0\n"
  {
    TwoAndFour();
    hide Blanks, Field;
    DeepField(indent, 4, "maxX: 1", "    maxX: 1\n");
    DeepField(indent, 4, "maxY: 1", "    maxY: 1\n");
    DeepField(indent, 4, "minX: 0", "    minX: 0\n");
    DeepField(indent, 4, "minY: 0", "    minY: 0\n");
  }

  lemma TwoAndFour()
    ensures Blanks(2) == "  " && Blanks(4) == "    "
  {
  }

  lemma IdField(indent: nat, m: EventMap)
    ensures Field(indent + 4, "id: " + m.partitionId) == Blanks(indent) + "    id: " + m.partitionId + "\n"
  {
    TwoAndFour();
    hide Blanks, Field;
    var l := "    id: " + m.partitionId + "\n";
    assert "    " + ("id: " + m.partitionId) + "\n" == l;
    DeepField(indent, 4, "id: " + m.partitionId, l);
    assert Blanks(indent) + l == Blanks(indent) + "    id: " + m.partitionId + "\n";
  }

  lemma {:induction false} Deeper(n: nat, more: nat)
    ensures Blanks(n + more) == Blanks(n) + Blanks(more)
  {
    var a, b := Blanks(n + more), Blanks(n) + Blanks(more);
    assert forall k | 0 <= k < |a| :: a[k] == b[k];
  }

  lemma JoinNine(b: seq<string>)
    requires |b| == 9
    ensures Join(b) == b[0] + b[1] + b[2] + b[3] + b[4] + b[5] + b[6] + b[7] + b[8]
  {
    JoinTail(b, 9);
    assert Front(b, 1) == b[0] && Front(b, 2) == Front(b, 1) + b[1] && Front(b, 3) == Front(b, 2) + b[2];
    assert Front(b, 4) == Front(b, 3) + b[3] && Front(b, 5) == Front(b, 4) + b[4] && Front(b, 6) == Front(b, 5) + b[5];
    assert Front(b, 7) == Front(b, 6) + b[6] && Front(b, 8) == Front(b, 7) + b[7] && Front(b, 9) == Front(b, 8) + b[8];
  }

  function Front(b: seq<string>, n: nat): string
    requires n <= |b|
  {
    if n == 0 then "" else Front(b, n - 1) + b[n - 1]
  }

  lemma {:induction false} JoinTail(b: seq<string>, n: nat)
    requires n <= |b|
    ensures Front(b, n) + Join(b[n..]) == Join(b)
    ensures n == |b| ==> Front(b, n) == Join(b)
  {
    if n == 0 {
      assert b[0..] == b;
      assert "" + Join(b) == Join(b);
    } else {
      JoinTail(b, n - 1);
      assert b[n - 1..][1..] == b[n..];
      assert Front(b, n - 1) + (b[n - 1] + Join(b[n..])) == Front(b, n) + Join(b[n..]);
    }
    if n == |b| {
      assert b[n..] == [] && Front(b, n) + "" == Front(b, n);
    }
  }

  /** The items of the added maps, in the order in which the maps come. */
  function Items(indent: nat, todo: seq<EventMap>): seq<string> {
    if todo == [] then [] else Items(indent, todo[..|todo| - 1]) + PartitionBlock(indent, todo[|todo| - 1])
  }

  lemma {:induction false} ItemsAre(indent: nat, todo: seq<EventMap>)
    ensures PartitionLines(indent, todo) == Items(indent, todo)
    decreases todo
  {
    hide PartitionBlock;
    if |todo| == 1 {
      assert todo[1..] == [] && todo[..0] == [];
      var b := PartitionBlock(indent, todo[0]);
      assert b + [] == [] + b;
    } else if |todo| > 1 {
      var first, last, mid := todo[0], todo[|todo| - 1], todo[1..|todo| - 1];
      assert todo[1..][..|todo[1..]| - 1] == mid && todo[..|todo| - 1][1..] == mid;
      ItemsAre(indent, todo[1..]);
      ItemsAre(indent, todo[..|todo| - 1]);
      ItemsAre(indent, mid);
      var a, b := PartitionBlock(indent, first), PartitionBlock(indent, last);
      assert PartitionLines(indent, todo[..|todo| - 1]) == a + PartitionLines(indent, mid);
      assert a + (Items(indent, mid) + b) == (a + Items(indent, mid)) + b;
    }
  }

  // --------------------------------------------------------- the patched lines

  /** The first n of the lines, the items put in before line `end`, and before every line the
      sets that end there: the set of a later map above that of an earlier one. */
  function Woven(ls: seq<string>, end: nat, items: seq<string>, sets: seq<Insertion>, n: nat): seq<string>
    requires n <= |ls|
  {
    (if n == 0 then [] else Woven(ls, end, items, sets, n - 1) + [ls[n - 1]])
    + (if n == end then items else []) + Landing(sets, n)
  }

  /** The sets spliced in from the bottom up are the sets woven in. */
  lemma {:induction false} SplicedIsWoven(ls: seq<string>, n: nat, tail: seq<string>, ins: seq<Insertion>)
    requires n <= |ls| && Within(ins, n) && Descending(ins)
    ensures Within(ins, |ls[..n] + tail|)
    ensures SpliceAll(ls[..n] + tail, ins) == Woven(ls, |ls| + 1, [], ins, n) + tail
    decreases ins
  {
    if ins == [] {
      NothingWoven(ls, n);
    } else {
      hide Woven, Landing;
      var a, block, rest := ins[0].at, ins[0].block, ins[1..];
      FirstIsLast(ins);
      assert ins[0].at <= n;
      SpliceOne(ls[..n], tail, a, block);
      assert ls[..n][..a] == ls[..a] && ls[..n][a..] == ls[a..n];
      SplicedIsWoven(ls, a, block + ls[a..n] + tail, rest);
      HeadWoven(ls, ins, a);
      RestWoven(ls, ins, a, n);
      Reassociate(Woven(ls, |ls| + 1, [], rest, a), block, ls[a..n], tail);
    }
  }

  lemma SpliceOne(pre: seq<string>, tail: seq<string>, a: nat, block: seq<string>)
    requires a <= |pre|
    ensures Spliced(pre + tail, a, block) == pre[..a] + (block + pre[a..] + tail)
  {
    assert (pre + tail)[..a] == pre[..a] && (pre + tail)[a..] == pre[a..] + tail;
  }

  lemma Reassociate(a: seq<string>, b: seq<string>, c: seq<string>, d: seq<string>)
    ensures a + (b + c + d) == a + b + c + d
  {
  }

  lemma {:induction false} FirstIsLast(ins: seq<Insertion>)
    requires Descending(ins) && ins != []
    ensures Descending(ins[1..]) && Within(ins[1..], ins[0].at) && Within(ins, ins[0].at)
    decreases ins
  {
    if |ins| > 1 {
      FirstIsLast(ins[1..]);
      assert forall i | 1 <= i < |ins| :: ins[i] == ins[1..][i - 1];
    }
  }

  lemma {:induction false} NothingLands(ins: seq<Insertion>, n: nat)
    requires forall i | 0 <= i < |ins| :: ins[i].at != n
    ensures Landing(ins, n) == []
  {
    if ins != [] { NothingLands(ins[1..], n); }
  }

  lemma {:induction false} NothingWoven(ls: seq<string>, n: nat)
    requires n <= |ls|
    ensures Woven(ls, |ls| + 1, [], [], n) == ls[..n]
  {
    if n > 0 {
      NothingWoven(ls, n - 1);
      assert ls[..n] == ls[..n - 1] + [ls[n - 1]] + [] + [];
    }
  }

  /** Up to its own place an insertion does not show, and there it comes last. */
  lemma {:induction false} HeadWoven(ls: seq<string>, ins: seq<Insertion>, n: nat)
    requires n <= |ls| && ins != [] && n <= ins[0].at
    ensures Woven(ls, |ls| + 1, [], ins, n) ==
            Woven(ls, |ls| + 1, [], ins[1..], n) + if n == ins[0].at then ins[0].block else []
  {
    var rest, own := ins[1..], if n == ins[0].at then ins[0].block else [];
    assert Landing(ins, n) == Landing(rest, n) + own;
    hide Landing;
    var before := if n == 0 then [] else Woven(ls, |ls| + 1, [], rest, n - 1) + [ls[n - 1]];
    if n > 0 {
      HeadWoven(ls, ins, n - 1);
      assert Woven(ls, |ls| + 1, [], rest, n - 1) + [] == Woven(ls, |ls| + 1, [], rest, n - 1);
    }
    Regrouped(before, Landing(rest, n), own);
  }

  lemma Regrouped(a: seq<string>, b: seq<string>, c: seq<string>)
    ensures a + [] + (b + c) == a + [] + b + c
  {
  }

  /** Behind the last insertion nothing is put in. */
  lemma {:induction false} RestWoven(ls: seq<string>, ins: seq<Insertion>, a: nat, n: nat)
    requires a <= n <= |ls| && Within(ins, a)
    ensures Woven(ls, |ls| + 1, [], ins, n) == Woven(ls, |ls| + 1, [], ins, a) + ls[a..n]
    decreases n
  {
    var at := Woven(ls, |ls| + 1, [], ins, a);
    if n == a {
      assert at + ls[a..n] == at;
    } else {
      RestWoven(ls, ins, a, n - 1);
      NothingLands(ins, n);
      assert at + ls[a..n - 1] + [ls[n - 1]] + [] + [] == at + ls[a..n];
    }
  }

  lemma {:induction false} SortedWoven(ls: seq<string>, end: nat, items: seq<string>, ins: seq<Insertion>, n: nat)
    requires n <= |ls|
    ensures Woven(ls, end, items, Sorted(ins), n) == Woven(ls, end, items, ins, n)
  {
    hide Sorted, Landing;
    SortedLands(ins, n);
    if n > 0 { SortedWoven(ls, end, items, ins, n - 1); }
  }

  lemma {:induction false} LinesWoven(ls: seq<string>, end: nat, items: seq<string>, ins: seq<Insertion>, n: nat,
                                      from: nat)
    requires n < end && n < from && n <= |ls| && AllAt(ins, from)
    ensures Woven(ls, end, items, ins, n) == ls[..n]
  {
    hide Landing;
    NothingLands(ins, n);
    if n > 0 {
      LinesWoven(ls, end, items, ins, n - 1, from);
      assert ls[..n] == ls[..n - 1] + [ls[n - 1]] + [] + [];
    }
  }

  /** The items go between the lines before `end` and whatever lands there. */
  lemma {:induction false} ItemsWoven(ls: seq<string>, end: nat, items: seq<string>, ins: seq<Insertion>, n: nat)
      returns (rest: seq<string>)
    requires end <= n <= |ls| && AllAt(ins, end)
    ensures Woven(ls, |ls| + 1, [], ins, n) == ls[..end] + rest
    ensures Woven(ls, end, items, ins, n) == ls[..end] + items + rest
    decreases n
  {
    hide Landing;
    if n == end {
      rest := Landing(ins, n);
      if n > 0 {
        LinesWoven(ls, end, items, ins, n - 1, end);
        LinesWoven(ls, |ls| + 1, [], ins, n - 1, end);
        assert ls[..n] == ls[..n - 1] + [ls[n - 1]];
      }
    } else {
      var before := ItemsWoven(ls, end, items, ins, n - 1);
      rest := before + [ls[n - 1]] + Landing(ins, n);
      Tail(ls[..end], before, ls[n - 1], Landing(ins, n));
      Tail(ls[..end] + items, before, ls[n - 1], Landing(ins, n));
    }
  }

  lemma Tail(a: seq<string>, b: seq<string>, l: string, c: seq<string>)
    ensures a + b + [l] + [] + c == a + (b + [l] + c)
  {
  }

  /** A patch that adds something is the original lines in order with, at the end of the list,
      the items of the missing maps, and, behind the set each of them copies, that set with
      its map line renamed. */
  lemma PatchIs(ls: seq<string>, maps: seq<EventMap>)
    requires PatchLines(ls, maps).Success? && PatchLines(ls, maps).value.1 != []
    ensures WorldPartitions(ls).Success?
    ensures var w, out, todo := WorldPartitions(ls).value, PatchLines(ls, maps).value.0, PatchLines(ls, maps).value.1;
            && Insertions(ls, todo).Success? && |Insertions(ls, todo).value| == |todo|
            && out == Woven(ls, w.end, Items(w.indent, todo), Insertions(ls, todo).value, |ls|)
            && (forall i | 0 <= i < |todo| ::
                  && SetOf(ls, todo[i].source).Success?
                  && var s := SetOf(ls, todo[i].source).value;
                     s.end >= w.end && Insertions(ls, todo).value[i] ==
                         Insertion(s.end, ClonedSet(ls, s, todo[i].name)))
  {
    hide WorldPartitions, SetOf, ClonedSet, Listed, Sorted, PartitionLines, Missing, Woven, SpliceAll, Landing, Items;
    var w, out, todo := WorldPartitions(ls).value, PatchLines(ls, maps).value.0, PatchLines(ls, maps).value.1;
    var ins := Insertions(ls, todo).value;
    InsertionsAre(ls, todo);
    hide Insertions;
    assert AllAt(ins, w.end);
    forall i | 0 <= i < |todo| ensures SetOf(ls, todo[i].source).value.end >= w.end { assert ins[i].at >= w.end; }
    ItemsAre(w.indent, todo);
    SpliceGrows(ls, SortedHere(ins, |ls|));
    assert out == Spliced(SpliceAll(ls, Sorted(ins)), w.end, PartitionLines(w.indent, todo));
    AllWoven(ls, w.end, PartitionLines(w.indent, todo), ins);
  }

  function SortedHere(ins: seq<Insertion>, n: nat): (r: seq<Insertion>)
    requires Within(ins, n)
    ensures r == Sorted(ins) && Within(r, n)
  {
    SortedWithin(ins, n);
    Sorted(ins)
  }

  lemma AllWoven(ls: seq<string>, end: nat, items: seq<string>, ins: seq<Insertion>)
    requires Within(ins, |ls|) && AllAt(ins, end) && end <= |ls|
    ensures Within(Sorted(ins), |ls|) && end <= |SpliceAll(ls, Sorted(ins))|
    ensures Spliced(SpliceAll(ls, Sorted(ins)), end, items) == Woven(ls, end, items, ins, |ls|)
  {
    hide Sorted, Woven, SpliceAll, Landing;
    SortedDescends(ins);
    SortedWithin(ins, |ls|);
    assert ls[..|ls|] + [] == ls;
    SplicedIsWoven(ls, |ls|, [], Sorted(ins));
    SortedWoven(ls, |ls| + 1, [], ins, |ls|);
    var rest := ItemsWoven(ls, end, items, ins, |ls|);
    var woven := ls[..end] + rest;
    assert woven + [] == woven && woven[..end] == ls[..end] && woven[end..] == rest;
  }

  /** What is added: the maps the list does not name, in their order, each as often as asked. */
  lemma AddedAre(ls: seq<string>, maps: seq<EventMap>)
    requires PatchLines(ls, maps).Success?
    ensures WorldPartitions(ls).Success?
    ensures var w, todo := WorldPartitions(ls).value, PatchLines(ls, maps).value.1;
            && multiset(todo) <= multiset(maps)
            && forall m | m in maps ::
                 multiset(todo)[m] == if exists k | w.first <= k < w.end :: Lists(ls[k], w.indent, m.name) then 0
                                      else multiset(maps)[m]
  {
    hide WorldPartitions, Insertions, Sorted, Strip, Missing;
    var w := WorldPartitions(ls).value;
    var listed := Listed(ls[w.first..w.end], w.indent);
    MissingCounts(maps, listed);
    forall name: string ensures name in listed <==> exists k | w.first <= k < w.end :: Lists(ls[k], w.indent, name) {
      ListedIs(ls, w.first, w.end, w.indent, name);
    }
  }

  /** A line of the list names a map: at the indent of the items, "- map: " and the name. */
  predicate Lists(l: string, indent: nat, name: string) {
    && indent + 7 <= |l| && (forall k | 0 <= k < indent :: l[k] == ' ') && l[indent..indent + 7] == "- map: "
    && Strip(l[indent + 7..]) == name
  }

  lemma ListedIs(ls: seq<string>, first: nat, end: nat, indent: nat, name: string)
    requires first <= end <= |ls|
    ensures name in Listed(ls[first..end], indent) <==> exists k | first <= k < end :: Lists(ls[k], indent, name)
  {
    hide Strip;
    var part := ls[first..end];
    forall l: string ensures Blanks(indent) + MAP_ITEM <= l && Strip(l[indent + 7..]) == name <==>
      Lists(l, indent, name) {
      PrefixIs(l, indent);
    }
    if name in Listed(part, indent) {
      var l :| l in part && Lists(l, indent, name);
      var k :| 0 <= k < |part| && part[k] == l;
      assert Lists(ls[first + k], indent, name);
    }
    if k :| first <= k < end && Lists(ls[k], indent, name) { assert part[k - first] in part; }
  }

  lemma PrefixIs(l: string, indent: nat)
    ensures Blanks(indent) + MAP_ITEM <= l <==>
            && indent + 7 <= |l| && (forall k | 0 <= k < indent :: l[k] == ' ') && l[indent..indent + 7] == "- map: "
  {
    var p := Blanks(indent) + MAP_ITEM;
    if p <= l {
      assert forall k | 0 <= k < |p| :: l[k] == p[k];
      assert l[indent..indent + 7] == p[indent..] == MAP_ITEM;
    }
    if indent + 7 <= |l| && (forall k | 0 <= k < indent :: l[k] == ' ') && l[indent..indent + 7] == "- map: " {
      assert l[..indent] == Blanks(indent);
      assert l[..indent + 7] == l[..indent] + l[indent..indent + 7];
    }
  }

  lemma {:induction false} MissingCounts(maps: seq<EventMap>, listed: set<string>)
    ensures multiset(Missing(maps, listed)) <= multiset(maps)
    ensures forall m :: multiset(Missing(maps, listed))[m] == if m.name in listed then 0 else multiset(maps)[m]
  {
    if maps != [] {
      MissingCounts(maps[1..], listed);
      assert maps == [maps[0]] + maps[1..];
    }
  }

  // -------------------------------------------------------------- the refusals

  lemma {:induction false} InsertionsFail(ls: seq<string>, todo: seq<EventMap>, e: ShapeError)
    ensures Insertions(ls, todo) == Failure(e) <==>
            exists i | 0 <= i < |todo| :: FirstRefused(ls, todo, i, e)
    decreases todo
  {
    hide SetOf, ClonedSet;
    if todo != [] {
      var rest := todo[1..];
      InsertionsFail(ls, rest, e);
      if SetOf(ls, todo[0].source).Failure? {
        assert FirstRefused(ls, todo, 0, SetOf(ls, todo[0].source).error);
      } else {
        if i :| 0 <= i < |rest| && FirstRefused(ls, rest, i, e) { assert FirstRefused(ls, todo, i + 1, e); }
        if i :| 0 <= i < |todo| && FirstRefused(ls, todo, i, e) {
          assert i > 0;
          forall j | 0 <= j < i - 1 ensures SetOf(ls, rest[j].source).Success? { assert rest[j] == todo[j + 1]; }
          assert FirstRefused(ls, rest, i - 1, e);
        }
      }
    }
  }

  predicate FirstRefused(ls: seq<string>, todo: seq<EventMap>, i: nat, e: ShapeError) {
    i < |todo| && SetOf(ls, todo[i].source) == Failure(e) && forall j | 0 <= j < i :: SetOf(ls, todo[j].source).Success?
  }

  /** The patch is refused without a list, for the first missing map whose set is not found,
      and when one of the sets ends above the end of the list; and in no other case. */
  lemma PatchFailsIff(ls: seq<string>, maps: seq<EventMap>, e: ShapeError)
    ensures PatchLines(ls, maps) == Failure(e) <==>
            var span := WorldPartitions(ls);
            if span.Failure? then e == span.error
            else
              var w := span.value;
              var todo := Missing(maps, Listed(ls[w.first..w.end], w.indent));
              || (exists i | 0 <= i < |todo| :: FirstRefused(ls, todo, i, e))
              || (e == GroupFirst && (forall m | m in todo :: SetOf(ls, m.source).Success?)
                  && exists m :: m in todo && SetOf(ls, m.source).Success? && SetOf(ls, m.source).value.end < w.end)
  {
    RefusedBy(ls, maps, e);
    hide PatchLines, SetOf, ClonedSet, Listed, Insertions, WorldPartitions, Missing;
    var span := WorldPartitions(ls);
    if span.Success? {
      var w := span.value;
      RefusedIff(ls, w.end, Missing(maps, Listed(ls[w.first..w.end], w.indent)), e);
    }
  }

  lemma RefusedBy(ls: seq<string>, maps: seq<EventMap>, e: ShapeError)
    ensures var span := WorldPartitions(ls);
            PatchLines(ls, maps) == Failure(e) <==>
            if span.Failure? then e == span.error
            else
              var w := span.value;
              var built := Insertions(ls, Missing(maps, Listed(ls[w.first..w.end], w.indent)));
              if built.Failure? then e == built.error else e == GroupFirst && !AllAt(built.value, w.end)
  {
    hide SetOf, ClonedSet, Listed, Sorted, Insertions, WorldPartitions, Missing, SpliceAll;
    NothingRefused(ls);
  }

  lemma NothingRefused(ls: seq<string>)
    ensures Insertions(ls, []) == Success([])
  {
  }

  lemma RefusedIff(ls: seq<string>, end: nat, todo: seq<EventMap>, e: ShapeError)
    ensures var built := Insertions(ls, todo);
            (if built.Failure? then e == built.error else e == GroupFirst && !AllAt(built.value, end)) <==>
            || (exists i | 0 <= i < |todo| :: FirstRefused(ls, todo, i, e))
            || (e == GroupFirst && (forall m | m in todo :: SetOf(ls, m.source).Success?)
                && exists m :: m in todo && SetOf(ls, m.source).Success? && SetOf(ls, m.source).value.end < end)
  {
    hide SetOf, ClonedSet, Insertions;
    var built := Insertions(ls, todo);
    InsertionsFail(ls, todo, e);
    if built.Failure? {
      InsertionsFail(ls, todo, built.error);
      var i :| 0 <= i < |todo| && FirstRefused(ls, todo, i, built.error);
      assert todo[i] in todo && SetOf(ls, todo[i].source).Failure?;
    } else {
      InsertionsAre(ls, todo);
      if i :| 0 <= i < |todo| && built.value[i].at < end { assert todo[i] in todo; }
      if m :| m in todo && SetOf(ls, m.source).Success? && SetOf(ls, m.source).value.end < end {
        var i :| 0 <= i < |todo| && todo[i] == m;
        assert built.value[i].at < end;
      }
    }
  }
}
