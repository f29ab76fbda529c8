/** The shared reward plan and its resume cursor (scripts/admin_rewards.py).

    A spec is taken after parsing. Its md5 is modelled by the spec itself, that is
    as an injective hash. */
module Rewards {
  import opened Wrappers

  datatype RewardItem = RewardItem(template: string, qty: int, quality: int)
  datatype XpAward = XpAward(track: string, amount: int)
  datatype Spec = Spec(currency: nat, items: seq<RewardItem>, xp: seq<XpAward>)

  datatype Stage = Currency | Items | Xp
  datatype Payload = Amount(n: nat) | Goods(item: RewardItem) | Award(xp: XpAward)
  datatype RewardStep = RewardStep(stage: Stage, index: nat, payload: Payload)

  /** The stored cursor text: blank, not a JSON object, or an object whose stage
      may be unknown, whose index may be negative and whose hash may be missing. */
  datatype Cursor = Blank | Junk | Json(stage: Option<Stage>, index: int, hash: Option<Spec>)

  predicate IsEmpty(spec: Spec) { spec.currency == 0 && spec.items == [] && spec.xp == [] }

  function Steps(spec: Spec): seq<RewardStep> {
    (if spec.currency != 0 then [RewardStep(Currency, 0, Amount(spec.currency))] else [])
    + seq(|spec.items|, i requires 0 <= i < |spec.items| => RewardStep(Items, i, Goods(spec.items[i])))
    + seq(|spec.xp|, i requires 0 <= i < |spec.xp| => RewardStep(Xp, i, Award(spec.xp[i])))
  }

  /** The plan, built by appending stage by stage. */
  method BuildSteps(spec: Spec) returns (out: seq<RewardStep>)
    ensures out == Steps(spec)
  {
    out := [];
    if spec.currency != 0 {
      out := out + [RewardStep(Currency, 0, Amount(spec.currency))];
    }
    ghost var head := out;
    for i := 0 to |spec.items|
      invariant out == head + seq(i, k requires 0 <= k < i => RewardStep(Items, k, Goods(spec.items[k])))
    {
      out := out + [RewardStep(Items, i, Goods(spec.items[i]))];
    }
    head := out;
    for i := 0 to |spec.xp|
      invariant out == head + seq(i, k requires 0 <= k < i => RewardStep(Xp, k, Award(spec.xp[k])))
    {
      out := out + [RewardStep(Xp, i, Award(spec.xp[i]))];
    }
  }

  function CursorOf(step: RewardStep, spec: Spec): Cursor { Json(Some(step.stage), step.index, Some(spec)) }

  function ParseCursor(c: Cursor): Option<(Stage, nat)> {
    if c.Json? && c.stage.Some? && c.index >= 0 then Some((c.stage.value, c.index)) else None
  }

  /** False only when a usable cursor carries the hash of another spec. */
  predicate CursorMatchesSpec(c: Cursor, spec: Spec) {
    ParseCursor(c).None? || c.hash.None? || c.hash.value == spec
  }

  function Rank(s: Stage): nat {
    match s case Currency => 0 case Items => 1 case Xp => 2
  }

  predicate AtOrAfter(step: RewardStep, stage: Stage, index: nat) {
    Rank(step.stage) > Rank(stage) || (Rank(step.stage) == Rank(stage) && step.index >= index)
  }

  function From(plan: seq<RewardStep>, stage: Stage, index: nat): seq<RewardStep> {
    if plan == [] then []
    else (if AtOrAfter(plan[0], stage, index) then [plan[0]] else []) + From(plan[1..], stage, index)
  }

  /** The steps still owed: from the failed step on, or all of them without a usable cursor. */
  function Remaining(spec: Spec, c: Cursor): seq<RewardStep> {
    match ParseCursor(c)
    case None => Steps(spec)
    case Some(at) => From(Steps(spec), at.0, at.1)
  }

  // ---------------------------------------------------- the cursor is a cut

  /** What the plan holds: the currency when there is any, every item and every award, each
      once and with its own payload, and nothing else. */
  lemma StepsAre(spec: Spec)
    ensures |Steps(spec)| == (if spec.currency != 0 then 1 else 0) + |spec.items| + |spec.xp|
    ensures spec.currency != 0 ==> Steps(spec)[0] == RewardStep(Currency, 0, Amount(spec.currency))
    ensures forall i | 0 <= i < |spec.items| ::
              Steps(spec)[|Steps(spec)| - |spec.xp| - |spec.items| + i] == RewardStep(Items, i, Goods(spec.items[i]))
    ensures forall i | 0 <= i < |spec.xp| ::
              Steps(spec)[|Steps(spec)| - |spec.xp| + i] == RewardStep(Xp, i, Award(spec.xp[i]))
  {
  }

  /** The plan is strictly increasing in (stage, index). */
  lemma StepsIncrease(spec: Spec, i: nat, j: nat)
    requires i < |Steps(spec)| && j < |Steps(spec)|
    ensures AtOrAfter(Steps(spec)[j], Steps(spec)[i].stage, Steps(spec)[i].index) <==> i <= j
  {}

  lemma {:induction false} FromIsSuffix(plan: seq<RewardStep>, stage: Stage, index: nat, i: nat)
    requires i <= |plan|
    requires forall j | 0 <= j < |plan| :: AtOrAfter(plan[j], stage, index) <==> i <= j
    ensures From(plan, stage, index) == plan[i..]
    decreases plan
  {
    if plan != [] {
      if i == 0 {
        FromIsSuffix(plan[1..], stage, index, 0);
      } else {
        FromIsSuffix(plan[1..], stage, index, i - 1);
        assert plan[1..][i - 1..] == plan[i..];
      }
    }
  }

  /** Resuming at the cursor of a failed step owes exactly that step and the ones
      after it: nothing before it is paid again and nothing after it is skipped. */
  lemma RemainingAtFailure(spec: Spec, i: nat)
    requires i < |Steps(spec)|
    ensures Remaining(spec, CursorOf(Steps(spec)[i], spec)) == Steps(spec)[i..]
  {
    var step := Steps(spec)[i];
    forall j | 0 <= j < |Steps(spec)| ensures AtOrAfter(Steps(spec)[j], step.stage, step.index) <==> i <= j {
      StepsIncrease(spec, i, j);
    }
    FromIsSuffix(Steps(spec), step.stage, step.index, i);
  }

  /** Two positions of a plan never share a cursor. */
  lemma CursorPinsStep(spec: Spec, i: nat, j: nat)
    requires i < |Steps(spec)| && j < |Steps(spec)|
    requires CursorOf(Steps(spec)[i], spec) == CursorOf(Steps(spec)[j], spec)
    ensures i == j
  {
    StepsIncrease(spec, i, j);
    StepsIncrease(spec, j, i);
  }

  /** Any other usable cursor still resumes at a suffix of the plan. */
  lemma {:induction false} FromDropsPrefix(plan: seq<RewardStep>, stage: Stage, index: nat)
    requires forall i, j | 0 <= i <= j < |plan| :: AtOrAfter(plan[j], plan[i].stage, plan[i].index)
    ensures exists i: nat | i <= |plan| :: From(plan, stage, index) == plan[i..]
    decreases plan
  {
    if plan == [] {
      assert From(plan, stage, index) == plan[0..];
    } else if AtOrAfter(plan[0], stage, index) {
      FromIsSuffix(plan, stage, index, 0);
    } else {
      FromDropsPrefix(plan[1..], stage, index);
      var i: nat :| i <= |plan[1..]| && From(plan[1..], stage, index) == plan[1..][i..];
      assert plan[1..][i..] == plan[i + 1..];
    }
  }

  lemma RemainingIsSuffix(spec: Spec, c: Cursor)
    ensures exists i: nat | i <= |Steps(spec)| :: Remaining(spec, c) == Steps(spec)[i..]
  {
    if ParseCursor(c).None? {
      assert Remaining(spec, c) == Steps(spec)[0..];
    } else {
      forall i, j | 0 <= i <= j < |Steps(spec)| ensures AtOrAfter(Steps(spec)[j], Steps(spec)[i].stage,
                                                                  Steps(spec)[i].index) {
        StepsIncrease(spec, i, j);
      }
      FromDropsPrefix(Steps(spec), ParseCursor(c).value.0, ParseCursor(c).value.1);
    }
  }
}
