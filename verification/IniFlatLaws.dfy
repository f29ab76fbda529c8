/** What the sectionless writer promises: read back, frame and idempotence. */
module IniFlatLaws {
  import opened Wrappers
  import opened Lines
  import opened Ascii
  import opened IniSyntax
  import opened IniMerge
  import opened IniScan
  import opened IniLaws

  lemma {:induction false} FlatConcat(a: seq<string>, b: seq<string>, key: string)
    ensures FlatValues(a + b, key) == FlatValues(a, key) + FlatValues(b, key)
    decreases a
  {
    hide ValueOf;
    if a == [] {
      assert a + b == b;
    } else {
      assert (a + b)[1..] == a[1..] + b;
      FlatConcat(a[1..], b, key);
    }
  }

  lemma {:induction false} FlatChomp(ls: seq<string>, key: string)
    requires ValidKey(key)
    ensures FlatValues(ChompAll(ls), key) == FlatValues(ls, key)
    decreases ls
  {
    hide Hits, ValueOf, Strip, Target, Header;
    if ls != [] {
      var c := Chomp(ls[0]);
      assert c == ls[0] || ls[0] == c + "\n";
      LineEndInert(c, "", Key(key), "");
      FlatChomp(ls[1..], key);
      assert ChompAll(ls)[1..] == ChompAll(ls[1..]);
    }
  }

  predicate NoHits(ls: seq<string>, key: string) { forall l | l in ls :: !Hits(Key(key), l) }

  lemma {:induction false} NoHitsNoValues(ls: seq<string>, key: string)
    requires ValidKey(key) && NoHits(ls, key)
    ensures FlatValues(ls, key) == []
    decreases ls
  {
    if ls != [] {
      ReadIsHit(ls[0], key);
      hide Hits, ValueOf;
      assert forall l | l in ls[1..] :: l in ls;
      NoHitsNoValues(ls[1..], key);
    }
  }

  lemma {:induction false} FoundFlat(ls: seq<string>, key: string, i: nat)
    requires i <= |ls| && NoHits(ls[..i], key)
    ensures var p := FindFlat(ls, key, i); NoHits(ls[..p], key) && (p < |ls| ==> Hits(Key(key), ls[p]))
    decreases |ls| - i
  {
    hide Hits;
    if i < |ls| && !Hits(Key(key), ls[i]) {
      assert ls[..i + 1] == ls[..i] + [ls[i]];
      FoundFlat(ls, key, i + 1);
    }
  }

  lemma {:induction false} FoundFirst(ls: seq<string>, key: string, i: nat, p: nat)
    requires i <= p < |ls| && (forall j | i <= j < p :: !Hits(Key(key), ls[j])) && Hits(Key(key), ls[p])
    ensures FindFlat(ls, key, i) == p
    decreases p - i
  {
    hide Hits;
    if i < p { FoundFirst(ls, key, i + 1, p); }
  }

  lemma CloseHits(ls: seq<string>, key: string)
    requires ValidKey(key) && NoHits(ls, key)
    ensures NoHits(Close(ls), key)
  {
    if ls != [] {
      HitsEnd(Key(key), ls[|ls| - 1]);
      hide Hits;
      forall l | l in Close(ls) ensures !Hits(Key(key), l) {
        assert l in ls || l == ls[|ls| - 1] + "\n";
      }
    }
  }

  /** The written lines: nothing of the key before the entry, and what was behind it. */
  lemma FlatShape(ls: seq<string>, key: string, entry: seq<string>)
      returns (pre: seq<string>, post: seq<string>, p: nat)
    requires ValidKey(key) && AreLines(ls)
    ensures FlatLines(ls, key, entry) == pre + entry + post
    ensures NoHits(pre, key) && AreLines(pre) && AreLines(post) && (pre != [] ==> Ended(pre[|pre| - 1]))
    ensures if p >= |ls| then post == [] && ChompAll(pre) == ChompAll(ls)
            else ls == pre + [ls[p]] + post && Hits(Key(key), ls[p])
  {
    hide Hits, Close, AreLines, Ended, ValidKey, NoHits, FindFlat;
    CloseIsLines(ls);
    p := FindFlat(ls, key, 0);
    assert ls[..0] == [] && NoHits(ls[..0], key) by { NoHitsInNothing(key); }
    FoundFlat(ls, key, 0);
    SubLines(ls, p);
    if p == |ls| {
      pre, post := Close(ls), [];
      assert ls[..p] == ls && ls[p..] == [];
      CloseHits(ls, key);
      ChompClose(ls);
    } else {
      SubLines(ls, p + 1);
      pre, post := ls[..p], ls[p + 1..];
      assert ls == pre + [ls[p]] + post;
    }
  }

  lemma NoHitsInNothing(key: string)
    ensures NoHits([], key)
  {
  }

  lemma FlatLinesOf(text: string, key: string, value: string) returns (pre: seq<string>, post: seq<string>, p: nat)
    requires ValidKey(key)
    ensures var ls, entry := SplitKeep(text), SplitKeep(Entry(key, value));
            && SplitKeep(UpsertFlat(text, key, value)) == pre + entry + post
            && NoHits(pre, key)
            && if p >= |ls| then post == [] && ChompAll(pre) == ChompAll(ls)
               else ls == pre + [ls[p]] + post && Hits(Key(key), ls[p])
  {
    var entry := SplitKeep(Entry(key, value));
    EntryLines(key, value);
    hide Hits, FlatLines, SplitKeep, IsLine, Ended, NoHits;
    pre, post, p := FlatShape(SplitKeep(text), key, entry);
    ShapeIsLines(pre, entry, post);
    SplitJoin(pre + entry + post);
  }

  /** Whatever the text, the key reads back as the stripped first line of what was written. */
  lemma FlatReadBack(text: string, key: string, value: string)
    requires ValidKey(key)
    ensures ReadFlat(UpsertFlat(text, key, value), key) == Some(Strip(FirstLine(value)))
  {
    hide ValueOf, Strip, SplitKeep, Hits, FirstLine, Entry, NoHits, ValidKey, Header, Target, IsLine, Ended, UpsertFlat;
    var entry := SplitKeep(Entry(key, value));
    var pre, post, p := FlatLinesOf(text, key, value);
    EntryLines(key, value);
    var rest := FirstLine(value) + "\n";
    BareEntry(key, rest, "");
    StripEnd(FirstLine(value), "\n");
    NoHitsNoValues(pre, key);
    FlatChomp(pre + entry + post, key);
    FirstFlat(pre, entry, post, key);
  }

  lemma FirstFlat(pre: seq<string>, entry: seq<string>, post: seq<string>, key: string)
    requires FlatValues(pre, key) == [] && entry != [] && ValueOf(entry[0], "", key).Some?
    ensures First(FlatValues(pre + entry + post, key)) == ValueOf(entry[0], "", key)
  {
    hide ValueOf;
    assert pre + entry + post == pre + (entry + post);
    FlatConcat(pre, entry + post, key);
    assert (entry + post)[0] == entry[0];
  }

  lemma FlatOne(l: string, key: string)
    requires ValueOf(l, "", key) == None
    ensures FlatValues([l], key) == []
  {
    hide ValueOf;
    assert [l][1..] == [];
  }

  /** The lines of a value past its first hold no value of the other key. */
  predicate FlatInert(key: string, value: string, key2: string) {
    FlatValues(SplitKeep(Entry(key, value))[1..], key2) == []
  }

  lemma OneLineIsFlatInert(key: string, value: string, key2: string)
    requires ValidKey(key) && '\n' !in value
    ensures FlatInert(key, value, key2)
  {
    EntryLines(key, value);
    hide SplitKeep;
    assert SplitKeep(Entry(key, value))[1..] == [];
  }

  lemma FlatEntryReads(key: string, value: string, key2: string)
    requires ValidKey(key) && ValidKey(key2) && !SameText(key, key2)
    ensures var entry := SplitKeep(Entry(key, value)); FlatValues(entry, key2) == FlatValues(entry[1..], key2)
  {
    var entry := SplitKeep(Entry(key, value));
    EntryLines(key, value);
    BareEntry(key, FirstLine(value) + "\n", "");
    HitIsSilent(Key(key), entry[0], "", key2);
    hide ValueOf, SplitKeep, Hits, Entry, ValidKey;
    assert entry == [entry[0]] + entry[1..];
    FlatOne(entry[0], key2);
    FlatConcat([entry[0]], entry[1..], key2);
  }

  /** After a value is set whose further lines hold nothing of it, another key reads as before. */
  lemma FlatFrame(text: string, key: string, value: string, key2: string)
    requires ValidKey(key) && ValidKey(key2) && !SameText(key, key2) && FlatInert(key, value, key2)
    ensures ReadFlat(UpsertFlat(text, key, value), key2) == ReadFlat(text, key2)
  {
    var pre, post, p := FlatLinesOf(text, key, value);
    var ls, entry := SplitKeep(text), SplitKeep(Entry(key, value));
    FlatEntryReads(key, value, key2);
    hide ValueOf, SplitKeep, Hits, Entry, NoHits, ValidKey, FlatValues, SameText;
    FlatThree(pre, entry, post, key2);
    FlatChomp(pre + entry + post, key2);
    FlatChomp(ls, key2);
    if p >= |ls| {
      FlatChomp(pre, key2);
      FlatNothing(key2);
    } else {
      HitIsSilent(Key(key), ls[p], "", key2);
      FlatOne(ls[p], key2);
      FlatThree(pre, [ls[p]], post, key2);
    }
  }

  /** So a one-line value never touches another key. */
  lemma OneLineFlatFrame(text: string, key: string, value: string, key2: string)
    requires ValidKey(key) && ValidKey(key2) && !SameText(key, key2) && '\n' !in value
    ensures ReadFlat(UpsertFlat(text, key, value), key2) == ReadFlat(text, key2)
  {
    hide FlatInert, ReadFlat, UpsertFlat, ValidKey, SameText;
    OneLineIsFlatInert(key, value, key2);
    FlatFrame(text, key, value, key2);
  }

  /** Whatever the text, another key reads as before exactly when the lines of the value
      past its first hold no value of it. */
  lemma FlatFrameIff(key: string, value: string, key2: string)
    requires ValidKey(key) && ValidKey(key2) && !SameText(key, key2)
    ensures (forall text :: ReadFlat(UpsertFlat(text, key, value), key2) == ReadFlat(text, key2))
            <==> FlatInert(key, value, key2)
  {
    if FlatInert(key, value, key2) {
      forall text ensures ReadFlat(UpsertFlat(text, key, value), key2) == ReadFlat(text, key2) {
        FlatFrame(text, key, value, key2);
      }
    } else {
      FlatAlone(key, value, key2);
      assert ReadFlat(UpsertFlat("", key, value), key2) != ReadFlat("", key2);
    }
  }

  lemma FlatAlone(key: string, value: string, key2: string)
    requires ValidKey(key) && ValidKey(key2) && !SameText(key, key2)
    ensures FlatValues(Split(UpsertFlat("", key, value)), key2) == FlatValues(SplitKeep(Entry(key, value))[1..], key2)
    ensures ReadFlat("", key2) == None
  {
    var entry := SplitKeep(Entry(key, value));
    var pre, post, p := FlatLinesOf("", key, value);
    FlatEntryReads(key, value, key2);
    SplitNothing();
    hide ValueOf, SplitKeep, Hits, Entry, NoHits, ValidKey, SameText;
    assert pre == [] && pre + entry + post == entry;
    FlatChomp(entry, key2);
  }

  lemma FlatNothing(key: string)
    ensures FlatValues([], key) == []
  {
  }

  lemma FlatThree(a: seq<string>, b: seq<string>, c: seq<string>, key: string)
    ensures FlatValues(a + b + c, key) == FlatValues(a, key) + FlatValues(b, key) + FlatValues(c, key)
  {
    hide FlatValues;
    FlatConcat(a + b, c, key);
    FlatConcat(a, b, key);
  }

  /** Setting the same value twice is setting it once, exactly when the value is one line. */
  lemma FlatIdempotentIff(text: string, key: string, value: string)
    requires ValidKey(key)
    ensures var once := UpsertFlat(text, key, value);
            UpsertFlat(once, key, value) == once <==> '\n' !in value
  {
    var entry := SplitKeep(Entry(key, value));
    var pre, post, p := FlatLinesOf(text, key, value);
    EntryLines(key, value);
    BareEntry(key, FirstLine(value) + "\n", "");
    hide Hits, Header, Target, SplitKeep, FirstLine, ValueOf, Strip, Entry, ValidKey, FlatLines, NoHits, Join, IsLine,
        Ended;
    FlatAgain(pre, entry, post, key);
    var once := UpsertFlat(text, key, value);
    JoinSplit(once);
    assert once == Join(pre + entry + post);
    assert forall l | l in entry :: l != "" by { NotEmpty(entry); }
    WrittenLonger(pre, entry, post);
  }

  lemma NotEmpty(ls: seq<string>)
    requires forall l | l in ls :: IsLine(l)
    ensures forall l | l in ls :: l != ""
  {
  }

  lemma FlatAgain(pre: seq<string>, entry: seq<string>, post: seq<string>, key: string)
    requires NoHits(pre, key) && entry != [] && Hits(Key(key), entry[0])
    ensures FlatLines(pre + entry + post, key, entry) == pre + entry + (entry[1..] + post)
  {
    hide Hits;
    var ls, p := pre + entry + post, |pre|;
    assert ls[..p] == pre && ls[p] == entry[0] && ls[p + 1..] == entry[1..] + post;
    forall j | 0 <= j < p ensures !Hits(Key(key), ls[j]) { assert ls[j] == pre[j] && pre[j] in pre; }
    FoundFirst(ls, key, 0, p);
  }
}
