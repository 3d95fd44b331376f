/** One slot card of the tier-indexed view (src/components/ArmorPieceCard.jsx):
    the requirements of the current tier, whether the piece can be upgraded,
    a capped weighted percentage, and the upgrade paths leaving the current
    tier. The current tier comes from `getCurrentTier`, which is not part of
    this model, so it is a parameter. */
module ArmorPieceCard {
  import opened JsValues
  import opened ArmorContext

  /** `{ item, quantity }` */
  datatype CardRequirement = CardRequirement(item: string, quantity: int)

  /** One entry of `data.UpgradePath`. */
  datatype CardStep = CardStep(name: string, fromTier: Option<int>, toTier: Option<int>,
                               requirements: Option<seq<CardRequirement>>, completed: bool)

  /** The card's `data`: the base name and the upgrade-path array. */
  datatype CardData = CardData(base: Option<string>, upgradePath: Option<seq<CardStep>>)

  /** `data?.UpgradePath?.[currentTier]` */
  function CurrentUpgrade(data: Option<CardData>, tier: int): (step: Option<CardStep>)
    ensures step.Some? <==> data.Some? && data.value.upgradePath.Some? && 0 <= tier < |data.value.upgradePath.value|
    ensures step.Some? ==> step.value == data.value.upgradePath.value[tier]
  {
    if data.Some? && data.value.upgradePath.Some? && 0 <= tier < |data.value.upgradePath.value|
    then Some(data.value.upgradePath.value[tier])
    else None
  }

  /** `currentUpgrade?.requirements ?? []` */
  function CurrentRequirements(data: Option<CardData>, tier: int): (reqs: seq<CardRequirement>)
    ensures CurrentUpgrade(data, tier).None? ==> reqs == []
    ensures CurrentUpgrade(data, tier).Some? && CurrentUpgrade(data, tier).value.requirements.Some?
            ==> reqs == CurrentUpgrade(data, tier).value.requirements.value
    ensures CurrentUpgrade(data, tier).Some? && CurrentUpgrade(data, tier).value.requirements.None?
            ==> reqs == []
  {
    match CurrentUpgrade(data, tier)
    case None => []
    case Some(step) =>
      match step.requirements
      case None => []
      case Some(rs) => rs
  }

  /** The step the card reads: `getStepProgress(jobId, armorType, slot,
      currentTier)`, the tier number becoming its decimal property key. */
  function CardProgress(p: ProgressionTree, jobId: string, armorType: string, slot: string, tier: int)
    : StepProgress
  {
    StepOf(p, (jobId, armorType, slot, IntToDecimal(tier)))
  }

  /** `stepProgress[req.item] || 0` */
  function StoredCount(sp: StepProgress, req: CardRequirement): int
  {
    CountOf(Lookup(sp, req.item))
  }

  /** `requirements.every(req => (stepProgress[req.item] || 0) >= req.quantity)` */
  predicate AllMet(sp: StepProgress, reqs: seq<CardRequirement>)
  {
    forall i :: 0 <= i < |reqs| ==> StoredCount(sp, reqs[i]) >= reqs[i].quantity
  }

  /** `canUpgrade` (lines 22-23): at least one requirement, each met; that
      is, the capped completed total reaches the required total. */
  predicate CanUpgrade(sp: StepProgress, reqs: seq<CardRequirement>)
    ensures CanUpgrade(sp, reqs) <==> reqs != [] && TotalCompleted(sp, reqs) == TotalRequired(reqs)
  {
    CompletedEqualsRequiredIff(sp, reqs);
    |reqs| > 0 && AllMet(sp, reqs)
  }

  /** Every requirement asks for a positive quantity. */
  ghost predicate PositiveQuantities(reqs: seq<CardRequirement>)
  {
    reqs == [] || (reqs[0].quantity > 0 && PositiveQuantities(reqs[1..]))
  }

  /** `requirements.reduce((sum, req) => sum + req.quantity, 0)` */
  function TotalRequired(reqs: seq<CardRequirement>): (total: int)
    ensures PositiveQuantities(reqs) ==> (total > 0 <==> reqs != [])
  {
    if reqs == [] then 0 else reqs[0].quantity + TotalRequired(reqs[1..])
  }

  function Min(a: int, b: int): int
  {
    if a <= b then a else b
  }

  /** `requirements.reduce((sum, req) => sum + Math.min(stepProgress[req.item] || 0, req.quantity), 0)` */
  function TotalCompleted(sp: StepProgress, reqs: seq<CardRequirement>): (total: int)
    ensures total <= TotalRequired(reqs)
  {
    if reqs == [] then 0 else Min(StoredCount(sp, reqs[0]), reqs[0].quantity) + TotalCompleted(sp, reqs[1..])
  }

  /** `progressPercentage` (line 28), computed exactly. */
  function ProgressPercentage(sp: StepProgress, reqs: seq<CardRequirement>): (pct: real)
    ensures TotalRequired(reqs) <= 0 ==> pct == 0.0
    ensures TotalRequired(reqs) > 0 ==> pct * (TotalRequired(reqs) as real) == (TotalCompleted(sp, reqs) as real) * 100.0
  {
    ScaledRatioOf(TotalCompleted(sp, reqs), TotalRequired(reqs))
  }

  ghost predicate NonNegative(sp: StepProgress, reqs: seq<CardRequirement>)
  {
    forall i :: 0 <= i < |reqs| ==> StoredCount(sp, reqs[i]) >= 0 && reqs[i].quantity >= 0
  }

  lemma {:induction false} CompletedNonNegative(sp: StepProgress, reqs: seq<CardRequirement>)
    requires NonNegative(sp, reqs)
    ensures TotalCompleted(sp, reqs) >= 0
  {
    if reqs != [] {
      assert NonNegative(sp, reqs[1..]) by {
        forall i | 0 <= i < |reqs| - 1
          ensures StoredCount(sp, reqs[1..][i]) >= 0 && reqs[1..][i].quantity >= 0
        {
          assert reqs[1..][i] == reqs[i + 1];
        }
      }
      CompletedNonNegative(sp, reqs[1..]);
    }
  }

  /** With non-negative counts and quantities the percentage lies in
      [0, 100]. */
  lemma PercentageInRange(sp: StepProgress, reqs: seq<CardRequirement>)
    requires NonNegative(sp, reqs)
    ensures 0.0 <= ProgressPercentage(sp, reqs) <= 100.0
  {
    CompletedNonNegative(sp, reqs);
    var required := TotalRequired(reqs);
    if required > 0 {
      var c, t := TotalCompleted(sp, reqs) as real, required as real;
      ScaledRatioMonotone(0.0, c, t);
      ScaledRatioMonotone(c, t, t);
      ScaledRatio(t, t);
      ScaledRatio(0.0, t);
      assert (c / t) * 100.0 == ProgressPercentage(sp, reqs);
    }
  }

  /** The completed total reaches the required total exactly when every
      requirement is met. */
  lemma {:induction false} CompletedEqualsRequiredIff(sp: StepProgress, reqs: seq<CardRequirement>)
    ensures TotalCompleted(sp, reqs) == TotalRequired(reqs) <==> AllMet(sp, reqs)
  {
    if reqs != [] {
      var rest := reqs[1..];
      CompletedEqualsRequiredIff(sp, rest);
      assert forall i :: 0 <= i < |rest| ==> rest[i] == reqs[i + 1];
      if AllMet(sp, reqs) {
        assert AllMet(sp, rest) by {
          forall i | 0 <= i < |rest| ensures StoredCount(sp, rest[i]) >= rest[i].quantity {
            assert rest[i] == reqs[i + 1];
          }
        }
      }
      if TotalCompleted(sp, reqs) == TotalRequired(reqs) {
        forall i | 0 <= i < |reqs| ensures StoredCount(sp, reqs[i]) >= reqs[i].quantity {
          if i > 0 { assert reqs[i] == rest[i - 1]; }
        }
      }
    }
  }

  /** With positive quantities and at least one requirement, the bar is full
      exactly when the piece can be upgraded. */
  lemma FullIffCanUpgrade(sp: StepProgress, reqs: seq<CardRequirement>)
    requires |reqs| > 0
    requires PositiveQuantities(reqs)
    ensures ProgressPercentage(sp, reqs) == 100.0 <==> CanUpgrade(sp, reqs)
  {
    CompletedEqualsRequiredIff(sp, reqs);
    var c, t := TotalCompleted(sp, reqs) as real, TotalRequired(reqs) as real;
    ScaledRatio(c, t);
    assert ProgressPercentage(sp, reqs) == (c / t) * 100.0;
  }

  /** `data?.UpgradePath?.filter(up => up.fromTier === currentTier) || []` */
  function PathsFrom(data: Option<CardData>, tier: int): (paths: seq<CardStep>)
    ensures data.None? || data.value.upgradePath.None? ==> paths == []
    ensures data.Some? && data.value.upgradePath.Some? ==>
      forall s :: s in paths <==> s in data.value.upgradePath.value && s.fromTier == Some(tier)
    ensures data.Some? && data.value.upgradePath.Some? ==> paths == StepsFrom(data.value.upgradePath.value, tier)
  {
    if data.Some? && data.value.upgradePath.Some? then
      StepsFromMembers(data.value.upgradePath.value, tier);
      StepsFrom(data.value.upgradePath.value, tier)
    else []
  }

  function StepsFrom(steps: seq<CardStep>, tier: int): (paths: seq<CardStep>)
    ensures |paths| <= |steps|
    ensures steps == [] ==> paths == []
    ensures |steps| == 1 ==> paths == if steps[0].fromTier == Some(tier) then steps else []
  {
    if steps == [] then []
    else (if steps[0].fromTier == Some(tier) then [steps[0]] else []) + StepsFrom(steps[1..], tier)
  }

  /** The filter keeps exactly the steps leaving the tier. */
  lemma {:induction false} StepsFromMembers(steps: seq<CardStep>, tier: int)
    ensures forall s :: s in StepsFrom(steps, tier) <==> s in steps && s.fromTier == Some(tier)
  {
    if steps != [] {
      StepsFromMembers(steps[1..], tier);
      assert steps == [steps[0]] + steps[1..];
    }
  }

  /** The filter keeps the order and repetitions of the upgrade steps. */
  lemma {:induction false} StepsFromConcat(a: seq<CardStep>, b: seq<CardStep>, tier: int)
    ensures StepsFrom(a + b, tier) == StepsFrom(a, tier) + StepsFrom(b, tier)
    decreases |a|
  {
    if a != [] {
      var head := if a[0].fromTier == Some(tier) then [a[0]] else [];
      assert (a + b)[0] == a[0] && (a + b)[1..] == a[1..] + b;
      assert StepsFrom(a + b, tier) == head + StepsFrom(a[1..] + b, tier);
      StepsFromConcat(a[1..], b, tier);
    } else {
      assert a + b == b;
    }
  }

  /** One path's panel: `canUpgrade` over that path's own requirements (no
      non-empty test here) and the upgrade button it gates. */
  datatype PathView = PathView(path: CardStep, canUpgrade: bool, upgradeTo: Option<Option<int>>)

  function PathViewFor(sp: StepProgress, path: CardStep): (view: PathView)
    ensures view.upgradeTo.Some? <==> view.canUpgrade
    ensures view.upgradeTo.Some? ==> view.upgradeTo.value == path.toTier
    ensures view.canUpgrade <==> AllMet(sp, RequirementsOf(path))
  {
    var met := AllMet(sp, RequirementsOf(path));
    PathView(path, met, if met then Some(path.toTier) else None)
  }

  function RequirementsOf(path: CardStep): seq<CardRequirement>
  {
    match path.requirements
    case None => []
    case Some(rs) => rs
  }

  /** The panels of the paths not flagged `completed`, in order. */
  function PathViews(sp: StepProgress, paths: seq<CardStep>): (views: seq<PathView>)
    ensures |views| <= |paths|
    ensures paths == [] ==> views == []
    ensures |paths| == 1 ==> views == if paths[0].completed then [] else [PathViewFor(sp, paths[0])]
  {
    if paths == [] then []
    else (if paths[0].completed then [] else [PathViewFor(sp, paths[0])]) + PathViews(sp, paths[1..])
  }

  /** Exactly the paths not flagged completed get a panel. */
  lemma {:induction false} PathViewsMembers(sp: StepProgress, paths: seq<CardStep>)
    ensures forall v :: v in PathViews(sp, paths) ==> v.path in paths && !v.path.completed
    ensures forall s :: s in paths && !s.completed ==> PathViewFor(sp, s) in PathViews(sp, paths)
  {
    if paths != [] {
      PathViewsMembers(sp, paths[1..]);
      assert paths == [paths[0]] + paths[1..];
    }
  }

  /** The panels appear in the order of the paths, one per path shown. */
  lemma {:induction false} PathViewsConcat(sp: StepProgress, a: seq<CardStep>, b: seq<CardStep>)
    ensures PathViews(sp, a + b) == PathViews(sp, a) + PathViews(sp, b)
    decreases |a|
  {
    if a != [] {
      var head := if a[0].completed then [] else [PathViewFor(sp, a[0])];
      assert (a + b)[0] == a[0] && (a + b)[1..] == a[1..] + b;
      assert PathViews(sp, a + b) == head + PathViews(sp, a[1..] + b);
      PathViewsConcat(sp, a[1..], b);
    } else {
      assert a + b == b;
    }
  }

  datatype CardView = CardView(title: string, tier: int, shownName: Option<string>, showBar: bool,
                               progress: real, canUpgrade: bool, views: seq<PathView>, maxTierReached: bool)

  /** The whole card: nothing without data; otherwise the name of the
      current tier (the base at tier 0), the bar and path panels when paths
      leave the current tier, and "Max tier reached" when none does. */
  function Render(p: ProgressionTree, data: Option<CardData>, jobId: string, armorType: string,
                  slot: string, tier: int): (view: Option<CardView>)
    ensures view.None? <==> data.None?
    ensures view.Some? ==> view.value.maxTierReached <==> PathsFrom(data, tier) == []
    ensures view.Some? ==> view.value.showBar == !view.value.maxTierReached
    ensures view.Some? && tier == 0 ==> view.value.shownName == data.value.base
    ensures view.Some? && tier != 0 && CurrentUpgrade(data, tier).Some? ==>
              view.value.shownName == Some(CurrentUpgrade(data, tier).value.name)
    ensures view.Some? ==>
      view.value.canUpgrade == CanUpgrade(CardProgress(p, jobId, armorType, slot, tier), CurrentRequirements(data, tier))
    ensures view.Some? ==>
      view.value.views == PathViews(CardProgress(p, jobId, armorType, slot, tier), PathsFrom(data, tier))
    ensures view.Some? ==>
      view.value.progress == ProgressPercentage(CardProgress(p, jobId, armorType, slot, tier), CurrentRequirements(data, tier))
  {
    match data
    case None => None
    case Some(d) =>
      var sp := CardProgress(p, jobId, armorType, slot, tier);
      var reqs := CurrentRequirements(data, tier);
      var paths := PathsFrom(data, tier);
      var shownName := if tier == 0 then d.base
                       else match CurrentUpgrade(data, tier)
                         case Some(step) => Some(step.name)
                         case None => None;
      Some(CardView(slot, tier, shownName, |paths| > 0, ProgressPercentage(sp, reqs), CanUpgrade(sp, reqs),
                    PathViews(sp, paths), |paths| == 0))
  }
}
