/** The give-item planner (scripts/admin_inventory_plan.py): how a quantity is split into
    top-ups of existing stacks and new stacks. Volumes are reals. */
module InventoryPlan {
  import opened Arith
  import opened Ascii

  datatype Stack = Stack(id: int, size: int)
  datatype Update = Update(id: int, add: int)
  datatype NewStack = NewStack(size: int, position: int)
  datatype Error = TemplateRequired | QuantityRequired | InventoryFull(need: nat, have: int)
      | OverWeight(room: int)
  datatype Plan = Plan(updates: seq<Update>, newStacks: seq<NewStack>) | Refused(error: Error)

  /** The facts read from the database about the inventory and the item. */
  datatype Facts = Facts(stackMax: int, stacks: seq<Stack>, maxPos: int,
                         maxSlots: int, usedSlots: int, maxVolume: real, usedVolume: real, itemVolume: real)

  // ---------------------------------------------------------------- stack split

  function Clamped(stackMax: int): int { if stackMax < 1 then 1 else stackMax }

  /** sorted(..., reverse=True): largest first, equal sizes in their old order. */
  function Insert(s: Stack, ordered: seq<Stack>): seq<Stack> {
    if ordered == [] || s.size >= ordered[0].size then [s] + ordered
    else [ordered[0]] + Insert(s, ordered[1..])
  }

  function Ordered(stacks: seq<Stack>): seq<Stack> {
    if stacks == [] then [] else Insert(stacks[0], Ordered(stacks[1..]))
  }

  /** Room left in a stack; none in one that is full or over-full. */
  function Space(s: Stack, stackMax: int): nat { if s.size < stackMax then stackMax - s.size else 0 }

  function TopUps(ordered: seq<Stack>, remaining: nat, stackMax: int): seq<Update>
    decreases ordered
  {
    if ordered == [] || remaining == 0 then []
    else
      var add := Min(Space(ordered[0], stackMax), remaining);
      (if add == 0 then [] else [Update(ordered[0].id, add)]) + TopUps(ordered[1..], remaining - add, stackMax)
  }

  function Added(us: seq<Update>): int { if us == [] then 0 else us[0].add + Added(us[1..]) }

  function NewSizes(remaining: nat, stackMax: int): seq<int>
    requires stackMax >= 1
    decreases remaining
  {
    if remaining == 0 then []
    else var size := Min(stackMax, remaining); [size] + NewSizes(remaining - size, stackMax)
  }

  function Sum(s: seq<int>): int { if s == [] then 0 else s[0] + Sum(s[1..]) }

  /** The top-ups take all there is room for, and no more than there is to give. */
  lemma {:induction false} AddedIsRoom(ordered: seq<Stack>, remaining: nat, stackMax: int)
    ensures Added(TopUps(ordered, remaining, stackMax)) == Min(remaining, Room(ordered, stackMax))
    decreases ordered
  {
    if ordered != [] && remaining != 0 {
      var add := Min(Space(ordered[0], stackMax), remaining);
      var rest := TopUps(ordered[1..], remaining - add, stackMax);
      AddedIsRoom(ordered[1..], remaining - add, stackMax);
      assert [Update(ordered[0].id, add)] + rest == [Update(ordered[0].id, add)] + rest[..];
      AddedConcat([Update(ordered[0].id, add)], rest);
      AddedConcat([], rest);
    }
  }

  function Room(stacks: seq<Stack>, stackMax: int): nat {
    if stacks == [] then 0 else Space(stacks[0], stackMax) + Room(stacks[1..], stackMax)
  }

  lemma {:induction false} AddedConcat(a: seq<Update>, b: seq<Update>)
    ensures Added(a + b) == Added(a) + Added(b)
  {
    if a == [] {
      assert a + b == b;
    } else {
      assert (a + b)[1..] == a[1..] + b;
      AddedConcat(a[1..], b);
    }
  }

  /** The stacks are topped up only when an item stacks at all. */
  function Updates(qty: nat, stackMax: int, stacks: seq<Stack>): seq<Update> {
    if Clamped(stackMax) > 1 then TopUps(Ordered(stacks), qty, Clamped(stackMax)) else []
  }

  function Fresh(qty: nat, stackMax: int, stacks: seq<Stack>): seq<int> {
    AddedIsRoom(Ordered(stacks), qty, Clamped(stackMax));
    NewSizes(qty - Added(Updates(qty, stackMax, stacks)), Clamped(stackMax))
  }

  method PlanGiveItemStacks(qty: nat, stackMax: int, stacks: seq<Stack>) returns (updates: seq<Update>, sizes: seq<int>)
    ensures updates == Updates(qty, stackMax, stacks)
    ensures sizes == Fresh(qty, stackMax, stacks)
  {
    var limit := Clamped(stackMax);
    var remaining: nat := qty;
    updates := [];
    if limit > 1 {
      updates, remaining := FillExisting(Ordered(stacks), qty, limit);
    }
    sizes := [];
    while remaining > 0
      invariant sizes + NewSizes(remaining, limit) == NewSizes(qty - Added(updates), limit)
    {
      var size := if limit < remaining then limit else remaining;
      sizes := sizes + [size];
      remaining := remaining - size;
    }
  }

  lemma FillOne(ordered: seq<Stack>, i: nat, remaining: nat, limit: int)
    requires i < |ordered| && remaining != 0
    ensures var add := Min(Space(ordered[i], limit), remaining);
            TopUps(ordered[i..], remaining, limit) ==
            (if add == 0 then [] else [Update(ordered[i].id, add)]) + TopUps(ordered[i + 1..], remaining - add, limit)
  {
    hide Space;
    assert ordered[i..][0] == ordered[i] && ordered[i..][1..] == ordered[i + 1..];
  }

  lemma FillNothing(ordered: seq<Stack>, remaining: nat, limit: int)
    requires ordered == [] || remaining == 0
    ensures TopUps(ordered, remaining, limit) == []
  {
  }

  method FillExisting(ordered: seq<Stack>, qty: nat, limit: int) returns (updates: seq<Update>, remaining: nat)
    ensures updates == TopUps(ordered, qty, limit) && remaining == qty - Added(updates)
  {
    hide TopUps, Added;
    updates, remaining := [], qty;
    assert Added([]) == 0 by { AddedNothing(); }
    assert ordered[0..] == ordered;
    for i := 0 to |ordered|
      invariant remaining == qty - Added(updates)
      invariant updates + TopUps(ordered[i..], remaining, limit) == TopUps(ordered, qty, limit)
    {
      if remaining == 0 {
        FillNothing(ordered[i..], 0, limit);
        break;
      }
      FillOne(ordered, i, remaining, limit);
      var space := limit - ordered[i].size;
      if space <= 0 {
        continue;
      }
      var add := if space < remaining then space else remaining;
      AddedConcat(updates, [Update(ordered[i].id, add)]);
      AddedOne(Update(ordered[i].id, add));
      updates := updates + [Update(ordered[i].id, add)];
      remaining := remaining - add;
    }
    FillNothing([], remaining, limit);
    assert ordered[|ordered|..] == [];
  }

  lemma AddedOne(u: Update)
    ensures Added([u]) == u.add
  {
    assert [u][1..] == [];
  }

  lemma AddedNothing()
    ensures Added([]) == 0
  {
  }

  // ----------------------------------------------------------------- capacity

  /** Floor division of the free volume, none when the inventory is over-full. */
  function MaxItemsByVolume(maxVolume: real, usedVolume: real, itemVolume: real): int
    requires itemVolume > 0.0
  {
    var available := maxVolume - usedVolume;
    ((if available < 0.0 then 0.0 else available) / itemVolume).Floor
  }

  predicate FitsVolume(f: Facts, qty: int) {
    f.maxVolume > 0.0 && f.itemVolume > 0.0 ==> qty <= MaxItemsByVolume(f.maxVolume, f.usedVolume, f.itemVolume)
  }

  predicate FitsSlots(f: Facts, count: nat) { f.maxSlots > 0 ==> count <= f.maxSlots - f.usedSlots }

  function Positioned(sizes: seq<int>, position: int): seq<NewStack> {
    if sizes == [] then [] else [NewStack(sizes[0], position)] + Positioned(sizes[1..], position + 1)
  }

  /** The whole plan, or the first check that fails: template, quantity, volume, slots. */
  function Planned(qty: int, template: string, f: Facts): Plan {
    if Strip(template) == "" then Refused(TemplateRequired)
    else if qty <= 0 then Refused(QuantityRequired)
    else if !FitsVolume(f, qty) then Refused(OverWeight(MaxItemsByVolume(f.maxVolume, f.usedVolume, f.itemVolume)))
    else
      var sizes := Fresh(qty, f.stackMax, f.stacks);
      if !FitsSlots(f, |sizes|) then Refused(InventoryFull(|sizes|, f.maxSlots - f.usedSlots))
      else Plan(Updates(qty, f.stackMax, f.stacks), Positioned(sizes, f.maxPos + 1))
  }

  method BuildGiveItemPlan(qty: int, template: string, f: Facts) returns (plan: Plan)
    ensures plan == Planned(qty, template, f)
  {
    if Strip(template) == "" {
      return Refused(TemplateRequired);
    }
    if qty <= 0 {
      return Refused(QuantityRequired);
    }
    if !FitsVolume(f, qty) {
      return Refused(OverWeight(MaxItemsByVolume(f.maxVolume, f.usedVolume, f.itemVolume)));
    }
    var updates, sizes := PlanGiveItemStacks(qty, f.stackMax, f.stacks);
    if !FitsSlots(f, |sizes|) {
      return Refused(InventoryFull(|sizes|, f.maxSlots - f.usedSlots));
    }
    var position := f.maxPos + 1;
    var newStacks: seq<NewStack> := [];
    for i := 0 to |sizes|
      invariant position == f.maxPos + 1 + i
      invariant newStacks + Positioned(sizes[i..], position) == Positioned(sizes, f.maxPos + 1)
    {
      assert sizes[i..][1..] == sizes[i + 1..];
      newStacks := newStacks + [NewStack(sizes[i], position)];
      position := position + 1;
    }
    assert sizes[|sizes|..] == [];
    return Plan(updates, newStacks);
  }

  // ------------------------------------------------------------------ laws

  /** The stacks once the top-ups are applied. */
  function AddFor(us: seq<Update>, id: int): int {
    if us == [] then 0 else (if us[0].id == id then us[0].add else 0) + AddFor(us[1..], id)
  }

  function Applied(stacks: seq<Stack>, us: seq<Update>): (r: seq<Stack>)
    ensures |r| == |stacks|
  {
    if stacks == [] then []
    else [Stack(stacks[0].id, stacks[0].size + AddFor(us, stacks[0].id))] + Applied(stacks[1..], us)
  }

  function Total(stacks: seq<Stack>): int { if stacks == [] then 0 else stacks[0].size + Total(stacks[1..]) }

  function Sizes(ns: seq<NewStack>): int { if ns == [] then 0 else ns[0].size + Sizes(ns[1..]) }

  function Ids(stacks: seq<Stack>): set<int> { set s | s in stacks :: s.id }

  /** Stack ids are primary keys. */
  predicate UniqueIds(stacks: seq<Stack>) {
    stacks == [] || (stacks[0].id !in Ids(stacks[1..]) && UniqueIds(stacks[1..]))
  }

  lemma IdsHead(s: Stack, rest: seq<Stack>)
    ensures Ids([s] + rest) == {s.id} + Ids(rest)
  {
    assert forall x | x in [s] + rest :: x == s || x in rest;
    assert s in [s] + rest && forall x | x in rest :: x in [s] + rest;
  }

  lemma {:induction false} Inserted(s: Stack, ordered: seq<Stack>, stackMax: int)
    ensures var r := Insert(s, ordered);
            && Ids(r) == {s.id} + Ids(ordered) && Room(r, stackMax) == Space(s, stackMax) + Room(ordered, stackMax)
            && (s.id !in Ids(ordered) && UniqueIds(ordered) ==> UniqueIds(r))
            && multiset(r) == multiset{s} + multiset(ordered)
    decreases ordered
  {
    IdsHead(s, ordered);
    if ordered != [] && s.size < ordered[0].size {
      Inserted(s, ordered[1..], stackMax);
      var rest := Insert(s, ordered[1..]);
      assert ordered == [ordered[0]] + ordered[1..];
      IdsHead(ordered[0], ordered[1..]);
      IdsHead(ordered[0], rest);
    }
  }

  /** Sorting loses no stack and changes no room. */
  lemma {:induction false} OrderedSame(stacks: seq<Stack>, stackMax: int)
    ensures var r := Ordered(stacks);
            && Ids(r) == Ids(stacks) && Room(r, stackMax) == Room(stacks, stackMax)
            && (UniqueIds(stacks) ==> UniqueIds(r)) && multiset(r) == multiset(stacks)
    decreases stacks
  {
    if stacks != [] {
      OrderedSame(stacks[1..], stackMax);
      Inserted(stacks[0], Ordered(stacks[1..]), stackMax);
      IdsHead(stacks[0], stacks[1..]);
      assert stacks == [stacks[0]] + stacks[1..];
    }
  }

  predicate Descends(stacks: seq<Stack>) {
    |stacks| < 2 || (stacks[0].size >= stacks[1].size && Descends(stacks[1..]))
  }

  lemma {:induction false} FirstIsLargest(stacks: seq<Stack>, s: Stack)
    requires Descends(stacks) && s in stacks
    ensures s.size <= stacks[0].size
    decreases stacks
  {
    if s != stacks[0] {
      assert stacks == [stacks[0]] + stacks[1..];
      FirstIsLargest(stacks[1..], s);
    }
  }

  lemma {:induction false} InsertDescends(s: Stack, ordered: seq<Stack>)
    requires Descends(ordered)
    ensures Descends(Insert(s, ordered))
    decreases ordered
  {
    if ordered == [] {
    } else if s.size >= ordered[0].size {
      assert ([s] + ordered)[1..] == ordered;
    } else {
      var rest := Insert(s, ordered[1..]);
      InsertDescends(s, ordered[1..]);
      assert ([ordered[0]] + rest)[1..] == rest;
    }
  }

  lemma {:induction false} OrderedDescends(stacks: seq<Stack>)
    ensures Descends(Ordered(stacks))
  {
    if stacks != [] {
      OrderedDescends(stacks[1..]);
      InsertDescends(stacks[0], Ordered(stacks[1..]));
    }
  }

  // ------------------------------------------------------ conservation, no overfill

  lemma {:induction false} AddForConcat(a: seq<Update>, b: seq<Update>, id: int)
    ensures AddFor(a + b, id) == AddFor(a, id) + AddFor(b, id)
  {
    if a == [] {
      assert a + b == b;
    } else {
      assert (a + b)[1..] == a[1..] + b;
      AddForConcat(a[1..], b, id);
    }
  }

  /** What the top-ups add to one stack: nothing to a stranger, at most its room to a member. */
  lemma {:induction false} AddForBounds(ordered: seq<Stack>, remaining: nat, stackMax: int, s: Stack)
    requires UniqueIds(ordered)
    ensures var add := AddFor(TopUps(ordered, remaining, stackMax), s.id);
            && (s.id !in Ids(ordered) ==> add == 0)
            && (s in ordered ==> 0 <= add <= Space(s, stackMax))
    decreases ordered
  {
    if ordered != [] && remaining != 0 {
      var first := ordered[0];
      var add := Min(Space(first, stackMax), remaining);
      AddForBounds(ordered[1..], remaining - add, stackMax, s);
      AddForConcat(if add == 0 then [] else [Update(first.id, add)], TopUps(ordered[1..], remaining - add, stackMax),
                   s.id);
      assert ordered == [first] + ordered[1..];
      IdsHead(first, ordered[1..]);
    }
  }

  lemma {:induction false} TotalApplied(stacks: seq<Stack>, us: seq<Update>)
    requires UniqueIds(stacks) && (forall u | u in us :: u.id in Ids(stacks))
    ensures Total(Applied(stacks, us)) == Total(stacks) + Added(us)
    decreases us
  {
    if us == [] {
      NothingApplied(stacks);
    } else {
      TotalApplied(stacks, us[1..]);
      OneMore(stacks, us);
    }
  }

  lemma {:induction false} NothingApplied(stacks: seq<Stack>)
    ensures Total(Applied(stacks, [])) == Total(stacks)
  {
    if stacks != [] { NothingApplied(stacks[1..]); }
  }

  lemma {:induction false} OneMore(stacks: seq<Stack>, us: seq<Update>)
    requires us != [] && UniqueIds(stacks)
    ensures Total(Applied(stacks, us)) ==
            Total(Applied(stacks, us[1..])) + if us[0].id in Ids(stacks) then us[0].add else 0
    decreases stacks
  {
    if stacks != [] {
      OneMore(stacks[1..], us);
      assert stacks == [stacks[0]] + stacks[1..];
      IdsHead(stacks[0], stacks[1..]);
    }
  }

  lemma {:induction false} TopUpIds(ordered: seq<Stack>, remaining: nat, stackMax: int)
    ensures forall u | u in TopUps(ordered, remaining, stackMax) :: u.id in Ids(ordered)
    decreases ordered
  {
    if ordered != [] && remaining != 0 {
      TopUpIds(ordered[1..], remaining - Min(Space(ordered[0], stackMax), remaining), stackMax);
      assert ordered == [ordered[0]] + ordered[1..];
      IdsHead(ordered[0], ordered[1..]);
    }
  }

  lemma {:induction false} SumNew(remaining: nat, stackMax: int)
    requires stackMax >= 1
    ensures var sizes := NewSizes(remaining, stackMax);
            && Sum(sizes) == remaining && (forall n | n in sizes :: 1 <= n <= stackMax)
            && remaining <= |sizes| * stackMax && (remaining > 0 ==> (|sizes| - 1) * stackMax < remaining)
    decreases remaining
  {
    if remaining != 0 {
      var size := Min(stackMax, remaining);
      SumNew(remaining - size, stackMax);
      var rest := NewSizes(remaining - size, stackMax);
      assert ([size] + rest)[1..] == rest;
      assert (|rest| + 1) * stackMax == |rest| * stackMax + stackMax;
      assert (|rest| - 1) * stackMax == |rest| * stackMax - stackMax;
      if remaining <= stackMax { assert rest == []; }
    }
  }

  lemma {:induction false} PositionedSizes(sizes: seq<int>, position: int)
    ensures var ns := Positioned(sizes, position);
            && |ns| == |sizes| && Sizes(ns) == Sum(sizes)
            && (forall i | 0 <= i < |ns| :: ns[i] == NewStack(sizes[i], position + i))
    decreases sizes
  {
    if sizes != [] { PositionedSizes(sizes[1..], position + 1); }
  }

  /** A plan conserves the quantity: what the stacks gain and the new stacks hold is
      exactly what was asked for. */
  lemma PlanConserves(qty: int, template: string, f: Facts)
    requires UniqueIds(f.stacks) && Planned(qty, template, f).Plan?
    ensures var plan := Planned(qty, template, f);
            Total(Applied(f.stacks, plan.updates)) + Sizes(plan.newStacks) == Total(f.stacks) + qty
  {
    hide Ordered, Applied, Total, Sizes, TopUps, UniqueIds;
    var limit := Clamped(f.stackMax);
    var us := Updates(qty, f.stackMax, f.stacks);
    OrderedSame(f.stacks, limit);
    TopUpIds(Ordered(f.stacks), qty, limit);
    TotalApplied(f.stacks, us);
    AddedIsRoom(Ordered(f.stacks), qty, limit);
    SumNew(qty - Added(us), limit);
    PositionedSizes(Fresh(qty, f.stackMax, f.stacks), f.maxPos + 1);
  }

  /** No stack is overfilled: one with room stays within the limit, a full or over-full
      one is left as it is, and a new stack holds between one and the limit. */
  lemma PlanNeverOverfills(qty: int, template: string, f: Facts, s: Stack)
    requires UniqueIds(f.stacks) && Planned(qty, template, f).Plan? && s in f.stacks
    ensures var plan, limit := Planned(qty, template, f), Clamped(f.stackMax);
            && 0 <= AddFor(plan.updates, s.id) <= Space(s, limit)
            && (forall n | n in plan.newStacks :: 1 <= n.size <= limit)
  {
    UpdatesFit(qty, f.stackMax, f.stacks, s);
    FreshFit(qty, f.stackMax, f.stacks);
    hide Updates, Fresh, Space;
    var sizes := Fresh(qty, f.stackMax, f.stacks);
    PositionedSizes(sizes, f.maxPos + 1);
    forall n | n in Planned(qty, template, f).newStacks ensures 1 <= n.size <= Clamped(f.stackMax) {
      assert n.size in sizes;
    }
  }

  lemma UpdatesFit(qty: nat, stackMax: int, stacks: seq<Stack>, s: Stack)
    requires UniqueIds(stacks) && s in stacks
    ensures 0 <= AddFor(Updates(qty, stackMax, stacks), s.id) <= Space(s, Clamped(stackMax))
  {
    OrderedSame(stacks, Clamped(stackMax));
    assert s in multiset(stacks) && s in multiset(Ordered(stacks));
    AddForBounds(Ordered(stacks), qty, Clamped(stackMax), s);
  }

  lemma FreshFit(qty: nat, stackMax: int, stacks: seq<Stack>)
    ensures forall n | n in Fresh(qty, stackMax, stacks) :: 1 <= n <= Clamped(stackMax)
  {
    AddedIsRoom(Ordered(stacks), qty, Clamped(stackMax));
    SumNew(qty - Added(Updates(qty, stackMax, stacks)), Clamped(stackMax));
  }

  /** New stacks take consecutive positions above every position in use. */
  lemma PositionsAreNew(qty: int, template: string, f: Facts, i: nat)
    requires Planned(qty, template, f).Plan? && i < |Planned(qty, template, f).newStacks|
    ensures Planned(qty, template, f).newStacks[i].position == f.maxPos + 1 + i
  {
    PositionedSizes(Fresh(qty, f.stackMax, f.stacks), f.maxPos + 1);
  }

  // ------------------------------------------------------------------ minimality

  /** Any way to place the quantity: top-ups within each stack's room, new stacks within the limit. */
  predicate ValidSplit(qty: int, stackMax: int, stacks: seq<Stack>, adds: seq<nat>, sizes: seq<int>) {
    && |adds| == |stacks| && (forall i | 0 <= i < |adds| :: adds[i] <= Space(stacks[i], stackMax))
    && (forall n | n in sizes :: 1 <= n <= stackMax) && Sum(adds) + Sum(sizes) == qty
  }

  lemma {:induction false} AddsWithinRoom(stacks: seq<Stack>, adds: seq<nat>, stackMax: int)
    requires |adds| == |stacks| && (forall i | 0 <= i < |adds| :: adds[i] <= Space(stacks[i], stackMax))
    ensures Sum(adds) <= Room(stacks, stackMax)
    decreases stacks
  {
    if stacks != [] { AddsWithinRoom(stacks[1..], adds[1..], stackMax); }
  }

  lemma {:induction false} SumWithin(sizes: seq<int>, stackMax: int)
    requires forall n | n in sizes :: n <= stackMax
    ensures Sum(sizes) <= |sizes| * stackMax
  {
    if sizes != [] {
      assert forall n | n in sizes[1..] :: n in sizes;
      SumWithin(sizes[1..], stackMax);
      assert sizes[0] in sizes && |sizes[1..]| == |sizes| - 1;
      assert |sizes| * stackMax == (|sizes| - 1) * stackMax + stackMax;
    }
  }

  /** For an item that stacks, no valid way to place the quantity opens fewer stacks. */
  lemma FewestNewStacks(qty: nat, stackMax: int, stacks: seq<Stack>, adds: seq<nat>, sizes: seq<int>)
    requires stackMax > 1 && ValidSplit(qty, stackMax, stacks, adds, sizes)
    ensures |Fresh(qty, stackMax, stacks)| <= |sizes|
  {
    AddsWithinRoom(stacks, adds, stackMax);
    SumWithin(sizes, stackMax);
    LeftOver(qty, stackMax, stacks);
    hide Fresh, ValidSplit, Room;
    FewerHoldLess(|sizes|, |Fresh(qty, stackMax, stacks)|, stackMax);
  }

  /** The new stacks are as few as hold what the existing ones have no room for. */
  lemma LeftOver(qty: nat, stackMax: int, stacks: seq<Stack>)
    requires stackMax > 1
    ensures var left, count := qty - Min(qty, Room(stacks, stackMax)), |Fresh(qty, stackMax, stacks)|;
            left <= count * stackMax && (left > 0 ==> (count - 1) * stackMax < left) && (left == 0 ==> count == 0)
  {
    OrderedSame(stacks, stackMax);
    AddedIsRoom(Ordered(stacks), qty, stackMax);
    SumNew(qty - Min(qty, Room(stacks, stackMax)), stackMax);
  }

  lemma FewerHoldLess(a: nat, b: nat, stackMax: int)
    requires stackMax >= 1
    ensures a < b ==> a * stackMax <= (b - 1) * stackMax
  {
    if a < b { MoreHoldMore(a, b - 1, stackMax); }
  }

  lemma {:induction false} MoreHoldMore(a: nat, b: nat, stackMax: nat)
    requires a <= b
    ensures a * stackMax <= b * stackMax
    decreases b
  {
    if a < b {
      MoreHoldMore(a, b - 1, stackMax);
      assert b * stackMax == (b - 1) * stackMax + stackMax;
    }
  }

  /** A stack gains nothing while a larger one still has room. */
  lemma LargestFirst(qty: nat, stackMax: int, stacks: seq<Stack>, s: Stack, t: Stack)
    requires UniqueIds(stacks) && s in stacks && t in stacks && s.size > t.size
    ensures AddFor(Updates(qty, stackMax, stacks), t.id) > 0 ==>
            AddFor(Updates(qty, stackMax, stacks), s.id) == Space(s, Clamped(stackMax))
  {
    var limit := Clamped(stackMax);
    OrderedSame(stacks, limit);
    OrderedDescends(stacks);
    assert s in multiset(stacks) && s in multiset(Ordered(stacks)) && t in multiset(stacks)
      && t in multiset(Ordered(stacks));
    LargerFilled(Ordered(stacks), qty, limit, s, t);
  }

  lemma {:induction false} LargerFilled(ordered: seq<Stack>, remaining: nat, stackMax: int, s: Stack, t: Stack)
    requires UniqueIds(ordered) && Descends(ordered) && s in ordered && t in ordered && s.size > t.size
    ensures AddFor(TopUps(ordered, remaining, stackMax), t.id) > 0 ==>
            AddFor(TopUps(ordered, remaining, stackMax), s.id) == Space(s, stackMax)
    decreases ordered
  {
    if remaining != 0 {
      var first := ordered[0];
      var add := Min(Space(first, stackMax), remaining);
      var rest := TopUps(ordered[1..], remaining - add, stackMax);
      var head := if add == 0 then [] else [Update(first.id, add)];
      assert ordered == [first] + ordered[1..];
      IdsHead(first, ordered[1..]);
      AddForConcat(head, rest, s.id);
      AddForConcat(head, rest, t.id);
      AddForBounds(ordered[1..], remaining - add, stackMax, s);
      AddForBounds(ordered[1..], remaining - add, stackMax, t);
      FirstIsLargest(ordered, s);
      if s != first {
        LargerFilled(ordered[1..], remaining - add, stackMax, s, t);
      }
    }
  }

  // ------------------------------------------------------------------- capacity

  lemma FloorHolds(a: real, b: real, n: int)
    requires b > 0.0
    ensures n <= (a / b).Floor <==> n as real * b <= a
  {
    var q := a / b;
    assert q * b == a;
    if n as real <= q { assert (q - n as real) * b >= 0.0; } else { assert (n as real - q) * b > 0.0; }
  }

  /** ceil(qty / stackMax) */
  function RequiredStackCount(qty: nat, stackMax: int): nat {
    (qty + Clamped(stackMax) - 1) / Clamped(stackMax)
  }

  /** What the existing stacks have no room for; an item that does not stack finds none. */
  function Leftover(qty: nat, f: Facts): nat {
    var limit := Clamped(f.stackMax);
    if limit > 1 then qty - Min(qty, Room(f.stacks, limit)) else qty
  }

  lemma CeilIs(left: nat, count: nat, limit: int)
    requires limit >= 1 && left <= count * limit && (left > 0 ==> (count - 1) * limit < left)
             && (left == 0 ==> count == 0)
    ensures (left + limit - 1) / limit == count
  {
    if left > 0 {
      var rest := left - 1 - (count - 1) * limit;
      assert left + limit - 1 == count * limit + rest && 0 <= rest < limit by {
        assert count * limit == (count - 1) * limit + limit;
      }
      QuotientIs(count, limit, rest);
    } else {
      QuotientIs(0, limit, limit - 1);
    }
  }

  lemma QuotientIs(q: nat, d: int, r: nat)
    requires r < d
    ensures (q * d + r) / d == q
  {
    var p: nat := Quotient(q * d + r, d);
    if p < q { MoreHoldMore(p + 1, q, d); } else if q < p { MoreHoldMore(q + 1, p, d); }
  }

  lemma Quotient(n: nat, d: int) returns (p: nat)
    requires d >= 1
    ensures p == n / d && p * d <= n < (p + 1) * d
  {
    p := n / d;
    assert n == p * d + n % d;
  }

  /** The planner opens one stack for each full or begun limit of what is left over. */
  lemma FreshCount(qty: nat, f: Facts)
    ensures |Fresh(qty, f.stackMax, f.stacks)| == RequiredStackCount(Leftover(qty, f), f.stackMax)
  {
    hide Ordered, TopUps, NewSizes, Room;
    var limit := Clamped(f.stackMax);
    OrderedSame(f.stacks, limit);
    AddedIsRoom(Ordered(f.stacks), qty, limit);
    SumNew(Leftover(qty, f), limit);
    NothingNew(limit);
    CeilIs(Leftover(qty, f), |Fresh(qty, f.stackMax, f.stacks)|, limit);
  }

  lemma NothingNew(limit: int)
    requires limit >= 1
    ensures NewSizes(0, limit) == []
  {
  }

  /** A request is planned exactly when it names a template and a positive quantity, the
      volume holds all of it, and the slots hold a stack for each full or begun limit of
      what the existing stacks have no room for. */
  lemma PlannedIff(qty: int, template: string, f: Facts)
    ensures Planned(qty, template, f).Plan? <==>
            && Strip(template) != "" && qty > 0
            && (f.maxVolume > 0.0 && f.itemVolume > 0.0 ==> f.usedVolume + qty as real * f.itemVolume <= f.maxVolume)
            && (f.maxSlots > 0 ==> f.usedSlots + RequiredStackCount(Leftover(qty, f), f.stackMax) <= f.maxSlots)
  {
    hide Fresh, Updates, Strip, Positioned, FitsVolume, RequiredStackCount, Leftover;
    if qty > 0 {
      VolumeIff(f, qty);
      FreshCount(qty, f);
    }
  }

  lemma VolumeIff(f: Facts, qty: int)
    requires qty > 0
    ensures FitsVolume(f, qty) <==>
            (f.maxVolume > 0.0 && f.itemVolume > 0.0 ==> f.usedVolume + qty as real * f.itemVolume <= f.maxVolume)
  {
    if f.maxVolume > 0.0 && f.itemVolume > 0.0 {
      var available := f.maxVolume - f.usedVolume;
      var wanted := qty as real * f.itemVolume;
      assert wanted > 0.0 by { PositiveProduct(qty as real, f.itemVolume); }
      FloorHolds(if available < 0.0 then 0.0 else available, f.itemVolume, qty);
    }
  }

  lemma PositiveProduct(a: real, b: real)
    requires a > 0.0 && b > 0.0
    ensures a * b > 0.0
  {
  }
}
