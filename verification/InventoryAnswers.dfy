/** Which refusal a request to give items gets, and how a planned one is laid out: the order
    of the top-ups, and what each new stack holds. */
module InventoryAnswers {
  import opened Arith
  import opened Ascii
  import opened InventoryPlan

  // -------------------------------------------------------------------- refusals

  /** The most items the free volume holds. */
  predicate MostThatFit(f: Facts, room: int) {
    && room >= 0 && f.usedVolume + (room + 1) as real * f.itemVolume > f.maxVolume
    && (room == 0 || f.usedVolume + room as real * f.itemVolume <= f.maxVolume)
  }

  predicate TooMuch(qty: int, f: Facts) {
    f.maxVolume > 0.0 && f.itemVolume > 0.0 && f.usedVolume + qty as real * f.itemVolume > f.maxVolume
  }

  /** The checks come in this order: a template, a quantity, the volume, the slots; and the
      first that fails is the answer, with the numbers it names. */
  lemma RefusedIff(qty: int, template: string, f: Facts)
    ensures var r := Planned(qty, template, f);
            && (r == Refused(TemplateRequired) <==> Strip(template) == "")
            && (r == Refused(QuantityRequired) <==> Strip(template) != "" && qty <= 0)
            && (r.Refused? && r.error.OverWeight? <==> Strip(template) != "" && qty > 0 && TooMuch(qty, f))
            && (r.Refused? && r.error.OverWeight? ==> MostThatFit(f, r.error.room))
            && (r.Refused? && r.error.InventoryFull? ==>
                  && Strip(template) != "" && qty > 0 && !TooMuch(qty, f) && f.maxSlots > 0
                  && r.error.need == RequiredStackCount(Leftover(qty, f), f.stackMax)
                  && r.error.have == f.maxSlots - f.usedSlots && r.error.need > r.error.have)
  {
    hide Fresh, Updates, Strip, Positioned, RequiredStackCount, Leftover;
    if qty > 0 {
      VolumeIff(f, qty);
      FreshCount(qty, f);
      hide FitsVolume;
      if f.itemVolume > 0.0 && TooMuch(qty, f) { RoomIs(f); }
    }
  }

  lemma RoomIs(f: Facts)
    requires f.itemVolume > 0.0
    ensures MostThatFit(f, MaxItemsByVolume(f.maxVolume, f.usedVolume, f.itemVolume))
  {
    var available := f.maxVolume - f.usedVolume;
    var free := if available < 0.0 then 0.0 else available;
    var room := (free / f.itemVolume).Floor;
    FloorHolds(free, f.itemVolume, room);
    FloorHolds(free, f.itemVolume, room + 1);
    FloorHolds(free, f.itemVolume, 0);
    if available < 0.0 && room > 0 { PositiveProduct(room as real, f.itemVolume); }
    if available < 0.0 { PositiveProduct((room + 1) as real, f.itemVolume); }
  }

  // ------------------------------------------------------------------ new stacks

  /** Every new stack but the last is as full as a stack gets. */
  lemma {:induction false} FullButLast(remaining: nat, stackMax: int, i: nat)
    requires stackMax >= 1 && i + 1 < |NewSizes(remaining, stackMax)|
    ensures NewSizes(remaining, stackMax)[i] == stackMax
    decreases remaining
  {
    var rest := NewSizes(remaining - Min(stackMax, remaining), stackMax);
    assert NewSizes(remaining, stackMax) == [Min(stackMax, remaining)] + rest;
    if i == 0 {
      assert rest != [];
    } else {
      FullButLast(remaining - Min(stackMax, remaining), stackMax, i - 1);
    }
  }

  /** New stacks are opened only for what no existing one has room for, and full but for the
      last one. */
  lemma NewStacksAreFull(qty: int, template: string, f: Facts, i: nat)
    requires Planned(qty, template, f).Plan? && i < |Planned(qty, template, f).newStacks|
    ensures var stacks := Planned(qty, template, f).newStacks;
            && |stacks| == RequiredStackCount(Leftover(qty, f), f.stackMax)
            && (i + 1 < |stacks| ==> stacks[i].size == if f.stackMax < 1 then 1 else f.stackMax)
  {
    hide RequiredStackCount, Leftover, Updates, Positioned, FitsVolume, Fresh;
    var sizes := Fresh(qty, f.stackMax, f.stacks);
    FreshCount(qty, f);
    PositionedSizes(sizes, f.maxPos + 1);
    if i + 1 < |sizes| { FreshIsFull(qty, f, i); }
  }

  lemma FreshIsFull(qty: nat, f: Facts, i: nat)
    requires i + 1 < |Fresh(qty, f.stackMax, f.stacks)|
    ensures Fresh(qty, f.stackMax, f.stacks)[i] == Clamped(f.stackMax)
  {
    hide NewSizes, TopUps, Ordered;
    AddedIsRoom(Ordered(f.stacks), qty, Clamped(f.stackMax));
    FullButLast(qty - Added(Updates(qty, f.stackMax, f.stacks)), Clamped(f.stackMax), i);
  }

  // -------------------------------------------------------------------- top-ups

  predicate OncePerStack(us: seq<Update>) { forall i, j | 0 <= i < j < |us| :: us[i].id != us[j].id }

  /** No top-up is empty, and no stack gets two. */
  lemma {:induction false} TopUpsAreDistinct(ordered: seq<Stack>, remaining: nat, stackMax: int)
    requires UniqueIds(ordered)
    ensures var us := TopUps(ordered, remaining, stackMax);
            && (forall u | u in us :: u.add > 0)
            && OncePerStack(us)
    decreases ordered
  {
    if ordered != [] && remaining != 0 {
      var add := Min(Space(ordered[0], stackMax), remaining);
      var rest := TopUps(ordered[1..], remaining - add, stackMax);
      TopUpsAreDistinct(ordered[1..], remaining - add, stackMax);
      TopUpIds(ordered[1..], remaining - add, stackMax);
      forall i | 0 <= i < |rest| ensures rest[i].id != ordered[0].id {
        assert rest[i] in rest && rest[i].id in Ids(ordered[1..]);
      }
      DistinctTail(Update(ordered[0].id, add), rest);
    }
  }

  lemma DistinctTail(u: Update, rest: seq<Update>)
    requires forall i | 0 <= i < |rest| :: rest[i].id != u.id
    requires OncePerStack(rest)
    ensures OncePerStack([u] + rest)
    ensures [] + rest == rest
  {
    var us := [u] + rest;
    assert forall i | 1 <= i < |us| :: us[i] == rest[i - 1];
  }

  /** A stack gains nothing while one ahead of it still has room. */
  lemma {:induction false} FilledInOrder(ordered: seq<Stack>, remaining: nat, stackMax: int, p: nat, q: nat)
    requires UniqueIds(ordered) && p < q < |ordered|
    ensures AddFor(TopUps(ordered, remaining, stackMax), ordered[q].id) > 0 ==>
            AddFor(TopUps(ordered, remaining, stackMax), ordered[p].id) == Space(ordered[p], stackMax)
    decreases ordered
  {
    if remaining != 0 {
      var first, s, t := ordered[0], ordered[p], ordered[q];
      var add := Min(Space(first, stackMax), remaining);
      var rest := TopUps(ordered[1..], remaining - add, stackMax);
      assert t in ordered[1..] by { assert ordered[1..][q - 1] == t; }
      AddForConcat(if add == 0 then [] else [Update(first.id, add)], rest, s.id);
      AddForConcat(if add == 0 then [] else [Update(first.id, add)], rest, t.id);
      AddForBounds(ordered[1..], remaining - add, stackMax, s);
      AddForBounds(ordered[1..], remaining - add, stackMax, t);
      if p > 0 {
        assert s in ordered[1..] by { assert ordered[1..][p - 1] == s; }
        FilledInOrder(ordered[1..], remaining - add, stackMax, p - 1, q - 1);
      }
    }
  }

  /** One stack comes ahead of another. */
  ghost predicate Ahead(ordered: seq<Stack>, s: Stack, t: Stack) {
    exists p, q | 0 <= p < q < |ordered| :: ordered[p] == s && ordered[q] == t
  }

  lemma AheadBehind(x: Stack, rest: seq<Stack>, s: Stack, t: Stack)
    requires Ahead(rest, s, t) || (s == x && t in rest)
    ensures Ahead([x] + rest, s, t)
  {
    var all := [x] + rest;
    if Ahead(rest, s, t) {
      var p, q :| 0 <= p < q < |rest| && rest[p] == s && rest[q] == t;
      assert all[p + 1] == s && all[q + 1] == t;
    } else {
      var q :| 0 <= q < |rest| && rest[q] == t;
      assert all[0] == s && all[q + 1] == t;
    }
  }

  lemma {:induction false} PutInHolds(x: Stack, ordered: seq<Stack>)
    ensures forall y :: y in Insert(x, ordered) <==> y == x || y in ordered
    decreases ordered
  {
    if ordered != [] {
      PutInHolds(x, ordered[1..]);
      assert forall y :: y in ordered <==> y == ordered[0] || y in ordered[1..];
    }
  }

  /** What is put in goes ahead of everything no larger, and moves nothing else. */
  lemma {:induction false} PutIn(x: Stack, ordered: seq<Stack>, s: Stack, t: Stack)
    requires Descends(ordered)
    requires Ahead(ordered, s, t) || (s == x && t in ordered && x.size >= t.size)
    ensures Ahead(Insert(x, ordered), s, t)
    decreases ordered
  {
    if ordered == [] || x.size >= ordered[0].size {
      AheadBehind(x, ordered, s, t);
    } else {
      var head, rest := ordered[0], ordered[1..];
      assert ordered == [head] + rest;
      PutInHolds(x, rest);
      if Ahead(ordered, s, t) {
        var p, q :| 0 <= p < q < |ordered| && ordered[p] == s && ordered[q] == t;
        assert rest[q - 1] == t;
        if p == 0 {
          AheadBehind(head, Insert(x, rest), s, t);
        } else {
          assert rest[p - 1] == s && Ahead(rest, s, t);
          PutIn(x, rest, s, t);
          AheadBehind(head, Insert(x, rest), s, t);
        }
      } else {
        PutIn(x, rest, s, t);
        AheadBehind(head, Insert(x, rest), s, t);
      }
    }
  }

  /** Sorting puts larger stacks ahead, and leaves equal ones in the order they came. */
  lemma {:induction false} OrderedAhead(stacks: seq<Stack>, i: nat, j: nat)
    requires i < |stacks| && j < |stacks|
    requires stacks[i].size > stacks[j].size || (i < j && stacks[i].size == stacks[j].size)
    ensures Ahead(Ordered(stacks), stacks[i], stacks[j])
    decreases stacks
  {
    var x, rest := stacks[0], stacks[1..];
    OrderedDescends(rest);
    OrderedSame(rest, 0);
    var s, t := stacks[i], stacks[j];
    if i > 0 && j > 0 {
      OrderedAhead(rest, i - 1, j - 1);
      PutIn(x, Ordered(rest), s, t);
    } else if i == 0 {
      assert rest[j - 1] == t;
      assert t in multiset(rest) && t in multiset(Ordered(rest));
      PutIn(x, Ordered(rest), s, t);
    } else {
      assert rest[i - 1] == s;
      assert s in multiset(rest) && s in multiset(Ordered(rest));
      Overtakes(x, Ordered(rest), s);
    }
  }

  lemma {:induction false} Overtakes(x: Stack, ordered: seq<Stack>, s: Stack)
    requires Descends(ordered) && s in ordered && s.size > x.size
    ensures Ahead(Insert(x, ordered), s, x)
    decreases ordered
  {
    FirstIsLargest(ordered, s);
    var head, rest := ordered[0], ordered[1..];
    assert ordered == [head] + rest;
    PutInHolds(x, rest);
    if s != head { Overtakes(x, rest, s); }
    AheadBehind(head, Insert(x, rest), s, x);
  }

  /** Of two stacks the larger, and of two alike the one listed first, is filled before the
      other gains anything; every top-up adds something, and no stack gets two. */
  lemma FirstServed(qty: nat, stackMax: int, stacks: seq<Stack>, i: nat, j: nat)
    requires UniqueIds(stacks) && i < |stacks| && j < |stacks|
    requires stacks[i].size > stacks[j].size || (i < j && stacks[i].size == stacks[j].size)
    ensures AddFor(Updates(qty, stackMax, stacks), stacks[j].id) > 0 ==>
            AddFor(Updates(qty, stackMax, stacks), stacks[i].id) == Space(stacks[i], Clamped(stackMax))
    ensures var us := Updates(qty, stackMax, stacks);
            && (forall u | u in us :: u.add > 0)
            && OncePerStack(us)
  {
    hide TopUps, Ordered, AddFor, Space;
    var limit, ordered := Clamped(stackMax), Ordered(stacks);
    OrderedSame(stacks, limit);
    OrderedAhead(stacks, i, j);
    var p, q :| 0 <= p < q < |ordered| && ordered[p] == stacks[i] && ordered[q] == stacks[j];
    FilledInOrder(ordered, qty, limit, p, q);
    TopUpsAreDistinct(ordered, qty, limit);
    assert Updates(qty, stackMax, stacks) == if limit > 1 then TopUps(ordered, qty, limit) else [];
    NothingFor(stacks[j].id);
  }

  lemma NothingFor(id: int)
    ensures AddFor([], id) == 0
  {
  }
}
