/** The progression engine that `ArmorProvider` exposes through its
    context: three persisted trees and the operations that read and replace
    them.

    - progression:       job -> armor type -> item -> step -> requirement -> value
    - completedUpgrades: job -> armor type -> item -> step -> bool
    - currentTiers:      job -> armor type -> base item -> current tier name

    The first two are flattened to one key per step, which is exact because
    every read goes through optional chaining and an absent level reads as
    `{}` or `false`. The tier objects keep their key order (TierMap), since
    the reverse base-name lookup takes the first matching key. */
module ArmorContext {
  import opened JsValues
  import opened TierMap
  import opened Catalog

  /** (job, armor type, item name, step name) */
  type StepKey = (string, string, string, string)
  /** A step's progress object: requirement key -> stored value. */
  type StepProgress = map<string, Cell>
  type ProgressionTree = map<StepKey, StepProgress>
  type CompletionTree = map<StepKey, bool>
  /** (job, armor type) -> the tier pointers of that armor set. */
  type TierTree = map<(string, string), Entries>

  /** `getStepProgress`: the stored progress object, or `{}` when any level
      of the path is absent. */
  function StepOf(p: ProgressionTree, k: StepKey): StepProgress
  {
    if k in p then p[k] else map[]
  }

  /** `stepProgress[req]`. */
  function Lookup(sp: StepProgress, req: string): Option<Cell>
  {
    if req in sp then Some(sp[req]) else None
  }

  /** `!!stepProgress[req]` */
  predicate IsSet(sp: StepProgress, req: string)
  {
    Truthy(Lookup(sp, req))
  }

  /** `isUpgradeComplete`: the stored flag, `false` when any level is absent. */
  predicate IsCompleteIn(c: CompletionTree, k: StepKey)
  {
    k in c && c[k]
  }

  /** `currentTiers[job]?.[armorType] || {}` */
  function TiersOf(t: TierTree, job: string, armorType: string): Entries
  {
    if (job, armorType) in t then t[(job, armorType)] else []
  }

  /** Every tier object has distinct keys, as every JavaScript object does. */
  ghost predicate TiersWellFormed(t: TierTree)
  {
    forall jt :: jt in t ==> UniqueKeys(t[jt])
  }

  predicate SameItem(k: StepKey, job: string, armorType: string, itemName: string)
  {
    k.0 == job && k.1 == armorType && k.2 == itemName
  }

  // ---------------------------------------------------------------------
  // The new trees each operation builds
  // ---------------------------------------------------------------------

  /** `toggleRequirement`'s new progression: the requirement becomes the
      negation of its current truthiness (absent counts as false); every
      other requirement of the step, and every other step, is unchanged. */
  function WithToggled(p: ProgressionTree, k: StepKey, req: string): (r: ProgressionTree)
    ensures Lookup(StepOf(r, k), req) == Some(Flag(!IsSet(StepOf(p, k), req)))
    ensures forall q :: q != req ==> Lookup(StepOf(r, k), q) == Lookup(StepOf(p, k), q)
    ensures forall k' :: k' != k ==> StepOf(r, k') == StepOf(p, k')
  {
    var sp := StepOf(p, k);
    p[k := sp[req := Flag(!IsSet(sp, req))]]
  }

  /** `completeUpgrade`'s new completion tree: the step is complete, every
      other flag is as it was. */
  function WithCompleted(c: CompletionTree, k: StepKey): (r: CompletionTree)
    ensures IsCompleteIn(r, k)
    ensures forall k' :: k' != k ==> (k' in r <==> k' in c) && (k' in c ==> r[k'] == c[k'])
  {
    c[k := true]
  }

  /** `completeUpgrade`'s new tier tree. With a (truthy) next tier name the
      pointer of the resolved base item is set to it and no other pointer
      changes; without one the tree is unchanged. */
  function WithAdvancedTier(t: TierTree, job: string, armorType: string, itemName: string,
                            nextTierName: string): (r: TierTree)
    ensures nextTierName == "" ==> r == t
    ensures nextTierName != "" ==>
      Get(TiersOf(r, job, armorType), ResolveBase(TiersOf(t, job, armorType), itemName)) == Some(nextTierName)
    ensures forall b :: b != ResolveBase(TiersOf(t, job, armorType), itemName) ==>
      Get(TiersOf(r, job, armorType), b) == Get(TiersOf(t, job, armorType), b)
    ensures forall j, a :: (j, a) != (job, armorType) ==> TiersOf(r, j, a) == TiersOf(t, j, a)
    ensures TiersWellFormed(t) ==> TiersWellFormed(r)
  {
    if nextTierName == "" then t
    else
      var armorTiers := TiersOf(t, job, armorType);
      var baseItemName := ResolveBase(armorTiers, itemName);
      var r := t[(job, armorType) := Set(armorTiers, baseItemName, nextTierName)];
      assert TiersWellFormed(t) ==> TiersWellFormed(r) by {
        if TiersWellFormed(t) {
          SetUnique(armorTiers, baseItemName, nextTierName);
        }
      }
      r
  }

  /** `completeUpgrade`'s new progression: the step's progress object is
      deleted, every other step keeps its progress. */
  function WithoutStep(p: ProgressionTree, k: StepKey): (r: ProgressionTree)
    ensures StepOf(r, k) == map[]
    ensures forall k' :: k' != k ==> StepOf(r, k') == StepOf(p, k')
  {
    p - {k}
  }

  /** `resetProgress`'s deletion of an item's whole subtree, used on both the
      progression and the completion tree. */
  function WithoutItem<V>(m: map<StepKey, V>, job: string, armorType: string, itemName: string)
    : (r: map<StepKey, V>)
    ensures forall k :: k in r <==> k in m && !SameItem(k, job, armorType, itemName)
    ensures forall k :: k in r ==> r[k] == m[k]
  {
    map k | k in m && !SameItem(k, job, armorType, itemName) :: m[k]
  }

  /** `resetProgress`'s new tier tree: the pointer keyed by the item name is
      deleted when it is truthy; every other pointer is unchanged. */
  function WithoutTier(t: TierTree, job: string, armorType: string, itemName: string): (r: TierTree)
    ensures var after := Get(TiersOf(r, job, armorType), itemName);
            after == None || after == Some("")
    ensures Get(TiersOf(t, job, armorType), itemName) == Some("") ==> r == t
    ensures forall b :: b != itemName ==>
      Get(TiersOf(r, job, armorType), b) == Get(TiersOf(t, job, armorType), b)
    ensures forall j, a :: (j, a) != (job, armorType) ==> TiersOf(r, j, a) == TiersOf(t, j, a)
    ensures TiersWellFormed(t) ==> TiersWellFormed(r)
  {
    var armorTiers := TiersOf(t, job, armorType);
    var current := Get(armorTiers, itemName);
    if current.Some? && current.value != "" then
      t[(job, armorType) := Remove(armorTiers, itemName)]
    else
      t
  }

  // ---------------------------------------------------------------------
  // calculateProgress
  // ---------------------------------------------------------------------

  /** The key `calculateProgress` reads a requirement under: a string is its
      own key, an object is keyed `${item}_${quantity}`. */
  function EngineKey(req: Requirement): (key: string)
    ensures req.Named? ==> key == req.text
    ensures req.Quantified? ==> |key| > |req.item| + 1 && key[..|req.item|] == req.item
                                && key[|req.item|] == '_'
    ensures req.Quantified? ==> ReadsAs(key[|req.item| + 1..], req.quantity)
                                && Canonical(key[|req.item| + 1..])
  {
    match req
    case Named(s) => s
    case Quantified(item, q) =>
      var key := item + "_" + IntToDecimal(q);
      assert key[|item| + 1..] == IntToDecimal(q);
      key
  }

  /** How many of the requirements are truthy in the step's progress. */
  function CompletedCount(sp: StepProgress, reqs: seq<Requirement>): (n: nat)
    ensures n <= |reqs|
  {
    if reqs == [] then 0
    else CompletedCount(sp, reqs[..|reqs| - 1])
         + (if IsSet(sp, EngineKey(reqs[|reqs| - 1])) then 1 else 0)
  }

  /** Counting one more requirement adds one exactly when its key is set. */
  lemma CompletedCountStep(sp: StepProgress, reqs: seq<Requirement>, i: nat)
    requires i < |reqs|
    ensures CompletedCount(sp, reqs[..i + 1])
            == CompletedCount(sp, reqs[..i]) + (if IsSet(sp, EngineKey(reqs[i])) then 1 else 0)
  {
    assert reqs[..i + 1][..i] == reqs[..i];
  }

  /** The percentage `calculateProgress` returns, computed exactly. */
  function Percent(sp: StepProgress, reqs: seq<Requirement>): (pct: real)
    ensures 0.0 <= pct <= 100.0
    ensures reqs == [] ==> pct == 0.0
  {
    if |reqs| > 0 then
      var c, t := CompletedCount(sp, reqs) as real, |reqs| as real;
      assert c / t <= 1.0;
      (c / t) * 100.0
    else 0.0
  }

  /** Percent from an already computed count. */
  lemma PercentOfCount(sp: StepProgress, reqs: seq<Requirement>, c: nat)
    requires c == CompletedCount(sp, reqs)
    ensures Percent(sp, reqs) == if |reqs| > 0 then (c as real / |reqs| as real) * 100.0 else 0.0
  {
  }

  ghost predicate AllSet(sp: StepProgress, reqs: seq<Requirement>)
  {
    forall i :: 0 <= i < |reqs| ==> IsSet(sp, EngineKey(reqs[i]))
  }

  ghost predicate NoneSet(sp: StepProgress, reqs: seq<Requirement>)
  {
    forall i :: 0 <= i < |reqs| ==> !IsSet(sp, EngineKey(reqs[i]))
  }

  /** Splitting off the last requirement: every one is set. */
  lemma AllSetSnoc(sp: StepProgress, reqs: seq<Requirement>)
    requires reqs != []
    ensures AllSet(sp, reqs) <==> AllSet(sp, reqs[..|reqs| - 1]) && IsSet(sp, EngineKey(reqs[|reqs| - 1]))
  {
    var init := reqs[..|reqs| - 1];
    if AllSet(sp, init) && IsSet(sp, EngineKey(reqs[|reqs| - 1])) {
      forall i | 0 <= i < |reqs| ensures IsSet(sp, EngineKey(reqs[i])) {
        if i < |init| { assert reqs[i] == init[i]; }
      }
    }
    if AllSet(sp, reqs) {
      forall i | 0 <= i < |init| ensures IsSet(sp, EngineKey(init[i])) {
        assert init[i] == reqs[i];
      }
    }
  }

  /** Splitting off the last requirement: none is set. */
  lemma NoneSetSnoc(sp: StepProgress, reqs: seq<Requirement>)
    requires reqs != []
    ensures NoneSet(sp, reqs) <==> NoneSet(sp, reqs[..|reqs| - 1]) && !IsSet(sp, EngineKey(reqs[|reqs| - 1]))
  {
    var init := reqs[..|reqs| - 1];
    if NoneSet(sp, init) && !IsSet(sp, EngineKey(reqs[|reqs| - 1])) {
      forall i | 0 <= i < |reqs| ensures !IsSet(sp, EngineKey(reqs[i])) {
        if i < |init| { assert reqs[i] == init[i]; }
      }
    }
    if NoneSet(sp, reqs) {
      forall i | 0 <= i < |init| ensures !IsSet(sp, EngineKey(init[i])) {
        assert init[i] == reqs[i];
      }
    }
  }

  lemma {:induction false} CompletedCountFull(sp: StepProgress, reqs: seq<Requirement>)
    ensures CompletedCount(sp, reqs) == |reqs| <==> AllSet(sp, reqs)
  {
    if reqs != [] {
      var init := reqs[..|reqs| - 1];
      CompletedCountFull(sp, init);
      AllSetSnoc(sp, reqs);
    }
  }

  lemma {:induction false} CompletedCountZero(sp: StepProgress, reqs: seq<Requirement>)
    ensures CompletedCount(sp, reqs) == 0 <==> NoneSet(sp, reqs)
  {
    if reqs != [] {
      var init := reqs[..|reqs| - 1];
      CompletedCountZero(sp, init);
      NoneSetSnoc(sp, reqs);
    }
  }

  /** c/t scaled to 100 is 100 exactly at c == t and 0 exactly at c == 0. */
  lemma ScaledRatio(c: real, t: real)
    requires t > 0.0
    ensures (c / t) * 100.0 == 100.0 <==> c == t
    ensures (c / t) * 100.0 == 0.0 <==> c == 0.0
  {
    var q := c / t;
    assert q * t == c;
  }

  /** `c / t * 100` for a positive total, the value that, times the
      total, gives the count times 100; 0 when the total is not positive. */
  function ScaledRatioOf(c: int, t: int): (r: real)
    ensures t > 0 ==> r * (t as real) == (c as real) * 100.0
    ensures t <= 0 ==> r == 0.0
  {
    if t <= 0 then 0.0
    else
      var q := (c as real) / (t as real);
      assert q * (t as real) == c as real;
      q * 100.0
  }

  lemma ScaledRatioMonotone(c1: real, c2: real, t: real)
    requires t > 0.0 && c1 <= c2
    ensures (c1 / t) * 100.0 <= (c2 / t) * 100.0
  {
    var q1, q2 := c1 / t, c2 / t;
    assert q1 * t == c1 && q2 * t == c2;
    assert (q2 - q1) * t == c2 - c1;
  }

  /** For a non-empty list, the percentage is exactly 100 iff every
      requirement key is truthy in the step's progress. */
  lemma PercentFullIff(sp: StepProgress, reqs: seq<Requirement>)
    requires |reqs| > 0
    ensures Percent(sp, reqs) == 100.0 <==> AllSet(sp, reqs)
  {
    CompletedCountFull(sp, reqs);
    ScaledRatio(CompletedCount(sp, reqs) as real, |reqs| as real);
  }

  /** For a non-empty list, the percentage is 0 iff no requirement key is
      truthy in the step's progress. */
  lemma PercentZeroIff(sp: StepProgress, reqs: seq<Requirement>)
    requires |reqs| > 0
    ensures Percent(sp, reqs) == 0.0 <==> NoneSet(sp, reqs)
  {
    CompletedCountZero(sp, reqs);
    ScaledRatio(CompletedCount(sp, reqs) as real, |reqs| as real);
  }

  lemma {:induction false} CompletedCountMonotone(sp1: StepProgress, sp2: StepProgress,
                                                 reqs: seq<Requirement>)
    requires forall key :: IsSet(sp1, key) ==> IsSet(sp2, key)
    ensures CompletedCount(sp1, reqs) <= CompletedCount(sp2, reqs)
  {
    if reqs != [] {
      CompletedCountMonotone(sp1, sp2, reqs[..|reqs| - 1]);
    }
  }

  /** Setting more requirement keys never lowers the percentage. */
  lemma PercentMonotone(sp1: StepProgress, sp2: StepProgress, reqs: seq<Requirement>)
    requires forall key :: IsSet(sp1, key) ==> IsSet(sp2, key)
    ensures Percent(sp1, reqs) <= Percent(sp2, reqs)
  {
    if |reqs| > 0 {
      CompletedCountMonotone(sp1, sp2, reqs);
      ScaledRatioMonotone(CompletedCount(sp1, reqs) as real, CompletedCount(sp2, reqs) as real,
                          |reqs| as real);
    }
  }

  // ---------------------------------------------------------------------
  // Consequences of the operations, one call at a time
  // ---------------------------------------------------------------------

  /** Two toggles restore the requirement's truthiness and change nothing
      else. */
  lemma ToggleTwiceRestoresTruthiness(p: ProgressionTree, k: StepKey, req: string)
    ensures var twice := WithToggled(WithToggled(p, k, req), k, req);
            && IsSet(StepOf(twice, k), req) == IsSet(StepOf(p, k), req)
            && (forall q :: q != req ==> Lookup(StepOf(twice, k), q) == Lookup(StepOf(p, k), q))
            && (forall k' :: k' != k ==> StepOf(twice, k') == StepOf(p, k'))
  {
  }

  /** After a reset, every step of the item reads the defaults. */
  lemma ResetClearsItem(p: ProgressionTree, c: CompletionTree, job: string, armorType: string,
                        itemName: string, step: string)
    ensures StepOf(WithoutItem(p, job, armorType, itemName), (job, armorType, itemName, step)) == map[]
    ensures !IsCompleteIn(WithoutItem(c, job, armorType, itemName), (job, armorType, itemName, step))
  {
  }

  /** A reset leaves the steps of every other item as they were. */
  lemma ResetKeepsOtherItems(p: ProgressionTree, c: CompletionTree, job: string, armorType: string,
                             itemName: string, k: StepKey)
    requires !SameItem(k, job, armorType, itemName)
    ensures StepOf(WithoutItem(p, job, armorType, itemName), k) == StepOf(p, k)
    ensures IsCompleteIn(WithoutItem(c, job, armorType, itemName), k) == IsCompleteIn(c, k)
  {
  }

  /** The reverse-lookup example: with `Item A` pointing at `Item B`,
      completing `Item B` towards `Item C` moves `Item A`'s pointer. */
  lemma AdvanceResolvesBase()
    ensures var t := map[("Warrior", "Artifact") := [("Item A", "Item B")]];
            var r := WithAdvancedTier(t, "Warrior", "Artifact", "Item B", "Item C");
            TiersOf(r, "Warrior", "Artifact") == [("Item A", "Item C")]
  {
  }

  /** When two bases point at the same name, the first one in insertion
      order is advanced. */
  lemma AdvanceTakesFirstKey(t: TierTree, job: string, armorType: string, a: string, b: string,
                             itemName: string, next: string)
    requires a != "" && a != b && next != ""
    requires TiersOf(t, job, armorType) == [(a, itemName), (b, itemName)]
    ensures TiersOf(WithAdvancedTier(t, job, armorType, itemName, next), job, armorType)
            == [(a, next), (b, itemName)]
  {
    assert FirstWithValue(TiersOf(t, job, armorType), 0, itemName);
  }

  // ---------------------------------------------------------------------
  // The provider: three state cells replaced through their setters
  // ---------------------------------------------------------------------

  class ArmorProvider {
    var progression: ProgressionTree
    var completedUpgrades: CompletionTree
    var currentTiers: TierTree

    ghost predicate Valid()
      reads this
    {
      TiersWellFormed(currentTiers)
    }

    /** The three cells start from what the persistent store holds (`{}` on
        first use). */
    constructor (progression0: ProgressionTree, completed0: CompletionTree, tiers0: TierTree)
      requires TiersWellFormed(tiers0)
      ensures Valid()
      ensures progression == progression0 && completedUpgrades == completed0 && currentTiers == tiers0
    {
      progression := progression0;
      completedUpgrades := completed0;
      currentTiers := tiers0;
    }

    function GetStepProgress(job: string, armorType: string, itemName: string, step: string): (sp: StepProgress)
      reads this
      ensures (job, armorType, itemName, step) in progression ==> sp == progression[(job, armorType, itemName, step)]
      ensures (job, armorType, itemName, step) !in progression ==> sp == map[]
    {
      StepOf(progression, (job, armorType, itemName, step))
    }

    predicate IsUpgradeComplete(job: string, armorType: string, itemName: string, step: string)
      reads this
      ensures IsUpgradeComplete(job, armorType, itemName, step)
              <==> (job, armorType, itemName, step) in completedUpgrades && completedUpgrades[(job, armorType, itemName, step)]
    {
      IsCompleteIn(completedUpgrades, (job, armorType, itemName, step))
    }

    method ToggleRequirement(job: string, armorType: string, itemName: string, step: string,
                             requirement: string)
      requires Valid()
      modifies this
      ensures Valid()
      ensures progression == WithToggled(old(progression), (job, armorType, itemName, step), requirement)
      ensures completedUpgrades == old(completedUpgrades) && currentTiers == old(currentTiers)
      ensures IsSet(GetStepProgress(job, armorType, itemName, step), requirement)
              == !old(IsSet(GetStepProgress(job, armorType, itemName, step), requirement))
    {
      var stepProgress := GetStepProgress(job, armorType, itemName, step);
      var flipped := !IsSet(stepProgress, requirement);
      progression := progression[(job, armorType, itemName, step) := stepProgress[requirement := Flag(flipped)]];
    }

    /** `calculateProgress`: counts the truthy requirement keys in one pass. */
    method CalculateProgress(job: string, armorType: string, itemName: string, step: string,
                             requirements: seq<Requirement>) returns (pct: real)
      ensures pct == Percent(GetStepProgress(job, armorType, itemName, step), requirements)
    {
      var stepProgress := GetStepProgress(job, armorType, itemName, step);
      var completedCount := 0;
      var totalRequirements := 0;
      for i := 0 to |requirements|
        invariant completedCount == CompletedCount(stepProgress, requirements[..i])
        invariant totalRequirements == i
      {
        var reqKey := EngineKey(requirements[i]);
        CompletedCountStep(stepProgress, requirements, i);
        if IsSet(stepProgress, reqKey) {
          completedCount := completedCount + 1;
        }
        totalRequirements := totalRequirements + 1;
      }
      assert requirements[..|requirements|] == requirements;
      pct := if totalRequirements > 0 then (completedCount as real / totalRequirements as real) * 100.0
             else 0.0;
      PercentOfCount(stepProgress, requirements, completedCount);
    }

    /** `completeUpgrade`: marks the step complete, advances the resolved
        base item's tier pointer when a next tier is named, and deletes the
        step's progress, as one transition. */
    method CompleteUpgrade(job: string, armorType: string, itemName: string, step: string,
                           nextTierName: string)
      requires Valid()
      modifies this
      ensures Valid()
      ensures completedUpgrades == WithCompleted(old(completedUpgrades), (job, armorType, itemName, step))
      ensures currentTiers == WithAdvancedTier(old(currentTiers), job, armorType, itemName, nextTierName)
      ensures progression == WithoutStep(old(progression), (job, armorType, itemName, step))
      ensures IsUpgradeComplete(job, armorType, itemName, step)
      ensures GetStepProgress(job, armorType, itemName, step) == map[]
    {
      completedUpgrades := completedUpgrades[(job, armorType, itemName, step) := true];
      if nextTierName != "" {
        var armorTiers := TiersOf(currentTiers, job, armorType);
        var baseItemName := ResolveBase(armorTiers, itemName);
        SetUnique(armorTiers, baseItemName, nextTierName);
        currentTiers := currentTiers[(job, armorType) := Set(armorTiers, baseItemName, nextTierName)];
      }
      if (job, armorType, itemName, step) in progression {
        progression := progression - {(job, armorType, itemName, step)};
      }
    }

    /** `resetProgress`: deletes the item's progress and completion subtrees
        and its truthy tier pointer, as one transition. */
    method ResetProgress(job: string, armorType: string, itemName: string)
      requires Valid()
      modifies this
      ensures Valid()
      ensures progression == WithoutItem(old(progression), job, armorType, itemName)
      ensures completedUpgrades == WithoutItem(old(completedUpgrades), job, armorType, itemName)
      ensures currentTiers == WithoutTier(old(currentTiers), job, armorType, itemName)
      ensures forall step :: GetStepProgress(job, armorType, itemName, step) == map[]
                             && !IsUpgradeComplete(job, armorType, itemName, step)
    {
      progression := WithoutItem(progression, job, armorType, itemName);
      completedUpgrades := WithoutItem(completedUpgrades, job, armorType, itemName);
      var armorTiers := TiersOf(currentTiers, job, armorType);
      var current := Get(armorTiers, itemName);
      if current.Some? && current.value != "" {
        currentTiers := currentTiers[(job, armorType) := Remove(armorTiers, itemName)];
      }
    }
  }
}
