/** One armor card (src/components/ArmorItem.jsx): how it reads each
    requirement of an upgrade path, which engine operation each control
    calls, which paths it shows, and which item name it resolves for the
    "Complete Upgrade" and "Reset" buttons. The engine operations appear
    as values of `EngineCall`; their effect is the matching transition of
    ArmorContext where the engine defines one. */
module ArmorItem {
  import opened JsValues
  import opened TierMap
  import opened Catalog
  import opened ArmorContext

  /** The engine operations the card calls, with their arguments. */
  datatype EngineCall =
    | ToggleRequirement(key: StepKey, requirement: string)
    | SetRequirementCount(key: StepKey, requirement: string, count: int)
    | IncrementRequirementCount(key: StepKey, requirement: string)
    | DecrementRequirementCount(key: StepKey, requirement: string)
    | CompleteUpgrade(job: string, armorType: string, itemName: string, step: string, nextTierName: string)
    | ResetProgress(job: string, armorType: string, itemName: string)

  /** Every read and write for one upgrade path uses the path's name as both
      the item and the step (lines 186-189, 199-203). */
  function PathStep(item: ArmorRecord, armorType: string, path: UpgradePathRecord): StepKey
  {
    (PropertyKey(item.job), armorType, path.name, path.name)
  }

  // ---------------------------------------------------------------------
  // Requirements (lines 191-197)
  // ---------------------------------------------------------------------

  /** `typeof req === 'string' ? req : req.item` */
  function RequirementKey(req: Requirement): (key: string)
    ensures req.Named? ==> key == req.text && key == EngineKey(req)
    ensures req.Quantified? ==> key == req.item && EngineKey(req)[..|key|] == key && key != EngineKey(req)
  {
    match req
    case Named(s) => s
    case Quantified(item, _) => item
  }

  /** `typeof req === 'string' ? 1 : req.quantity` */
  function RequiredQuantity(req: Requirement): (q: int)
    ensures req.Named? ==> q == 1
    ensures req.Quantified? ==> q == req.quantity
  {
    match req
    case Named(_) => 1
    case Quantified(_, q) => q
  }

  predicate IsSingle(req: Requirement)
  {
    RequiredQuantity(req) == 1
  }

  /** `stepProgress[reqKey] || 0`, the count a multi-quantity requirement
      shows. */
  function CurrentQty(sp: StepProgress, req: Requirement): int
  {
    CountOf(Lookup(sp, RequirementKey(req)))
  }

  /** A single requirement is complete when its stored value is truthy, a
      multi-quantity one when its count reaches the quantity. */
  predicate IsRequirementComplete(sp: StepProgress, req: Requirement)
    ensures IsSingle(req) ==> (IsRequirementComplete(sp, req) <==> CurrentQty(sp, req) != 0)
    ensures !IsSingle(req) ==> (IsRequirementComplete(sp, req) <==> CurrentQty(sp, req) >= RequiredQuantity(req))
  {
    if IsSingle(req) then IsSet(sp, RequirementKey(req))
    else CurrentQty(sp, req) >= RequiredQuantity(req)
  }

  /** A string requirement is read under the same key by the card and by
      the engine's percentage. */
  lemma NamedRequirementAgrees(sp: StepProgress, req: Requirement)
    requires req.Named?
    ensures RequirementKey(req) == EngineKey(req)
    ensures IsRequirementComplete(sp, req) <==> IsSet(sp, EngineKey(req))
  {
  }

  /** An object requirement is read by the card under `item` and by the
      engine under `item_quantity`: the two keys always differ. */
  lemma ObjectRequirementKeysDiffer(req: Requirement)
    requires req.Quantified?
    ensures RequirementKey(req) != EngineKey(req)
  {
    assert |EngineKey(req)| > |RequirementKey(req)|;
  }

  // ---------------------------------------------------------------------
  // Controls (lines 198-245)
  // ---------------------------------------------------------------------

  /** `handleCheckboxChange`: a single requirement is toggled; a
      multi-quantity one is set to its quantity when checked and to 0 when
      unchecked. */
  function OnCheckboxChange(item: ArmorRecord, armorType: string, path: UpgradePathRecord,
                            req: Requirement, checked: bool): (call: EngineCall)
    ensures call.ToggleRequirement? || call.SetRequirementCount?
    ensures call.key == PathStep(item, armorType, path) && call.requirement == RequirementKey(req)
    ensures call.ToggleRequirement? <==> IsSingle(req)
    ensures call.SetRequirementCount? ==> call.count == if checked then RequiredQuantity(req) else 0
    ensures call.SetRequirementCount? && RequiredQuantity(req) > 0 ==>
              0 <= call.count && (call.count >= RequiredQuantity(req) <==> checked)
  {
    var key := PathStep(item, armorType, path);
    if IsSingle(req) then ToggleRequirement(key, RequirementKey(req))
    else SetRequirementCount(key, RequirementKey(req), if checked then RequiredQuantity(req) else 0)
  }

  /** The engine's toggle, applied to the call a single requirement's
      checkbox makes, flips that requirement's completeness on the card and
      touches no other step. */
  lemma SingleCheckboxFlips(p: ProgressionTree, item: ArmorRecord, armorType: string,
                            path: UpgradePathRecord, req: Requirement, checked: bool)
    requires IsSingle(req)
    ensures var call := OnCheckboxChange(item, armorType, path, req, checked);
            var after := WithToggled(p, call.key, call.requirement);
            && IsRequirementComplete(StepOf(after, call.key), req) == !IsRequirementComplete(StepOf(p, call.key), req)
            && (forall k :: k != call.key ==> StepOf(after, k) == StepOf(p, k))
  {
  }

  /** The − button is disabled at a count of 0 or less. */
  predicate DecrementDisabled(sp: StepProgress, req: Requirement)
  {
    CurrentQty(sp, req) <= 0
  }

  /** The + button is disabled once the count reaches the quantity. */
  predicate IncrementDisabled(sp: StepProgress, req: Requirement)
  {
    CurrentQty(sp, req) >= RequiredQuantity(req)
  }

  /** The call a press of + (`plus`) or − makes, or none while that button
      is disabled; a single requirement has no such buttons. */
  function OnButtonPress(sp: StepProgress, item: ArmorRecord, armorType: string, path: UpgradePathRecord,
                         req: Requirement, plus: bool): (call: Option<EngineCall>)
    ensures call.None? <==> IsSingle(req) || if plus then IncrementDisabled(sp, req) else DecrementDisabled(sp, req)
    ensures call.Some? ==> (call.value.IncrementRequirementCount? <==> plus)
                           && (call.value.IncrementRequirementCount? || call.value.DecrementRequirementCount?)
    ensures call.Some? ==> call.value.key == PathStep(item, armorType, path)
                           && call.value.requirement == RequirementKey(req)
  {
    var key := PathStep(item, armorType, path);
    if IsSingle(req) then None
    else if plus then
      if IncrementDisabled(sp, req) then None else Some(IncrementRequirementCount(key, RequirementKey(req)))
    else
      if DecrementDisabled(sp, req) then None else Some(DecrementRequirementCount(key, RequirementKey(req)))
  }

  /** The step's progress after the engine carries out a button's call.
      The engine does not define the two count operations; they are taken
      to move the stored count of the requirement by exactly one. */
  function AfterCall(sp: StepProgress, call: Option<EngineCall>): StepProgress
  {
    match call
    case Some(IncrementRequirementCount(_, r)) => sp[r := Count(CountOf(Lookup(sp, r)) + 1)]
    case Some(DecrementRequirementCount(_, r)) => sp[r := Count(CountOf(Lookup(sp, r)) - 1)]
    case _ => sp
  }

  /** One press of + or − on the card: an enabled button moves the count by
      one, a disabled or absent one leaves the step as it was, and no other
      requirement changes. */
  function Press(sp: StepProgress, item: ArmorRecord, armorType: string, path: UpgradePathRecord,
                 req: Requirement, plus: bool): (after: StepProgress)
    ensures OnButtonPress(sp, item, armorType, path, req, plus).None? ==> after == sp
    ensures !IsSingle(req) && plus && !IncrementDisabled(sp, req) ==> CurrentQty(after, req) == CurrentQty(sp, req) + 1
    ensures !IsSingle(req) && !plus && !DecrementDisabled(sp, req) ==> CurrentQty(after, req) == CurrentQty(sp, req) - 1
    ensures forall k :: k != RequirementKey(req) ==> Lookup(after, k) == Lookup(sp, k)
  {
    AfterCall(sp, OnButtonPress(sp, item, armorType, path, req, plus))
  }

  /** The step after a sequence of presses (true for +, false for −). */
  function AfterPresses(sp: StepProgress, item: ArmorRecord, armorType: string, path: UpgradePathRecord,
                        req: Requirement, presses: seq<bool>): StepProgress
    decreases |presses|
  {
    if presses == [] then sp
    else AfterPresses(Press(sp, item, armorType, path, req, presses[0]), item, armorType, path, req, presses[1..])
  }

  /** Driven only by its buttons, a count that starts in [0, quantity] stays
      there. */
  lemma {:induction false} PressesStayInRange(sp: StepProgress, item: ArmorRecord, armorType: string,
                                              path: UpgradePathRecord, req: Requirement, presses: seq<bool>)
    requires 0 <= CurrentQty(sp, req) <= RequiredQuantity(req)
    ensures 0 <= CurrentQty(AfterPresses(sp, item, armorType, path, req, presses), req) <= RequiredQuantity(req)
    decreases |presses|
  {
    if presses != [] {
      PressesStayInRange(Press(sp, item, armorType, path, req, presses[0]), item, armorType, path, req, presses[1..]);
    }
  }

  // ---------------------------------------------------------------------
  // Base-name resolution (lines 183-185, 299-301)
  // ---------------------------------------------------------------------

  /** `Object.entries(currentTiers[item.Job]?.[armorType] || {})
      .find(([, value]) => value === item.Name)?.[0] || item.Name`: the
      first base whose pointer names this item, else the item's own name;
      `undefined` when the item has no name. */
  function BaseItemName(tiers: TierTree, item: ArmorRecord, armorType: string): (base: Option<string>)
    ensures base.None? <==> item.name.None?
    ensures base.Some? && base.value != item.name.value ==>
      base.value != "" && exists i :: FirstWithValue(TiersOf(tiers, PropertyKey(item.job), armorType), i, item.name.value)
                                      && TiersOf(tiers, PropertyKey(item.job), armorType)[i].0 == base.value
    ensures base.Some? && (forall e :: e in TiersOf(tiers, PropertyKey(item.job), armorType) ==> e.1 != item.name.value)
            ==> base == item.name
    ensures base.Some? ==>
      forall i :: FirstWithValue(TiersOf(tiers, PropertyKey(item.job), armorType), i, item.name.value)
                  && TiersOf(tiers, PropertyKey(item.job), armorType)[i].0 != ""
                  ==> base.value == TiersOf(tiers, PropertyKey(item.job), armorType)[i].0
  {
    match item.name
    case None => None
    case Some(name) =>
      var e := TiersOf(tiers, PropertyKey(item.job), armorType);
      assert (forall x :: x in e ==> x.1 != name) ==> forall i :: 0 <= i < |e| ==> e[i].1 != name by {
        if forall x :: x in e ==> x.1 != name {
          forall i | 0 <= i < |e| ensures e[i].1 != name {
            assert e[i] in e;
          }
        }
      }
      Some(ResolveBase(e, name))
  }

  lemma TiersOfUnique(t: TierTree, job: string, armorType: string)
    requires TiersWellFormed(t)
    ensures UniqueKeys(TiersOf(t, job, armorType))
  {
  }

  /** With well-formed tiers, the resolved base is the item itself or a base
      whose current pointer is the item's name. */
  lemma BaseNamePointsToItem(tiers: TierTree, item: ArmorRecord, armorType: string)
    requires TiersWellFormed(tiers)
    requires item.name.Some?
    ensures var base := BaseItemName(tiers, item, armorType).value;
            base == item.name.value
            || Get(TiersOf(tiers, PropertyKey(item.job), armorType), base) == item.name
  {
    TiersOfUnique(tiers, PropertyKey(item.job), armorType);
    ResolvedBasePointsToName(TiersOf(tiers, PropertyKey(item.job), armorType), item.name.value);
  }

  // ---------------------------------------------------------------------
  // Which paths are shown (lines 175-187)
  // ---------------------------------------------------------------------

  predicate PathCompleted(c: CompletionTree, item: ArmorRecord, armorType: string, path: UpgradePathRecord)
  {
    IsCompleteIn(c, PathStep(item, armorType, path))
  }

  /** The paths that still render a panel, in their order. */
  function IncompletePaths(c: CompletionTree, item: ArmorRecord, armorType: string,
                           ps: seq<UpgradePathRecord>): (shown: seq<UpgradePathRecord>)
    ensures |shown| <= |ps|
    ensures ps == [] ==> shown == []
    ensures |ps| == 1 ==> shown == if PathCompleted(c, item, armorType, ps[0]) then [] else ps
  {
    if ps == [] then []
    else (if PathCompleted(c, item, armorType, ps[0]) then [] else [ps[0]])
         + IncompletePaths(c, item, armorType, ps[1..])
  }

  /** `renderAllUpgradePaths`: nothing when the item has no paths or every
      path is complete; otherwise one panel per incomplete path. */
  function RenderAllUpgradePaths(c: CompletionTree, item: ArmorRecord, armorType: string)
    : (shown: Option<seq<UpgradePathRecord>>)
    ensures shown.None? <==>
      item.upgradePaths.None? || item.upgradePaths.value == []
      || forall p :: p in item.upgradePaths.value ==> PathCompleted(c, item, armorType, p)
    ensures shown.Some? ==> shown.value != []
    ensures shown.Some? ==> forall p :: p in shown.value <==>
      p in item.upgradePaths.value && !PathCompleted(c, item, armorType, p)
    ensures shown.Some? ==> shown.value == IncompletePaths(c, item, armorType, item.upgradePaths.value)
  {
    match item.upgradePaths
    case None => None
    case Some(ps) =>
      if |ps| == 0 then None
      else if forall p :: p in ps ==> PathCompleted(c, item, armorType, p) then None
      else
        var shown := IncompletePaths(c, item, armorType, ps);
        IncompletePathsMembers(c, item, armorType, ps);
        assert shown != [] by {
          var p :| p in ps && !PathCompleted(c, item, armorType, p);
          assert p in shown;
        }
        Some(shown)
  }

  /** Exactly the incomplete paths render a panel. */
  lemma {:induction false} IncompletePathsMembers(c: CompletionTree, item: ArmorRecord, armorType: string,
                                                  ps: seq<UpgradePathRecord>)
    ensures forall p :: p in IncompletePaths(c, item, armorType, ps) <==>
      p in ps && !PathCompleted(c, item, armorType, p)
  {
    if ps != [] {
      IncompletePathsMembers(c, item, armorType, ps[1..]);
      assert ps == [ps[0]] + ps[1..];
    }
  }

  /** The filter keeps the catalog's order and its repetitions: filtering a
      concatenation filters each part in turn. */
  lemma {:induction false} IncompletePathsConcat(c: CompletionTree, item: ArmorRecord, armorType: string,
                                                 a: seq<UpgradePathRecord>, b: seq<UpgradePathRecord>)
    ensures IncompletePaths(c, item, armorType, a + b)
            == IncompletePaths(c, item, armorType, a) + IncompletePaths(c, item, armorType, b)
    decreases |a|
  {
    if a != [] {
      var head := if PathCompleted(c, item, armorType, a[0]) then [] else [a[0]];
      assert (a + b)[0] == a[0] && (a + b)[1..] == a[1..] + b;
      assert IncompletePaths(c, item, armorType, a + b) == head + IncompletePaths(c, item, armorType, a[1..] + b);
      IncompletePathsConcat(c, item, armorType, a[1..], b);
    } else {
      assert a + b == b;
    }
  }

  // ---------------------------------------------------------------------
  // One path's panel (lines 188-189, 252-270)
  // ---------------------------------------------------------------------

  datatype PathPanel = PathPanel(path: UpgradePathRecord, progress: real, completeCall: Option<EngineCall>)

  /** A path's panel: the engine's percentage for the path's step, and the
      "Complete Upgrade" call, offered only at exactly 100, which completes
      the step under the resolved base name and names the path as the next
      tier. */
  function PanelFor(p: ProgressionTree, tiers: TierTree, item: ArmorRecord, armorType: string,
                    path: UpgradePathRecord): (panel: PathPanel)
    ensures panel.path == path
    ensures panel.progress == Percent(StepOf(p, PathStep(item, armorType, path)), path.requirements)
    ensures 0.0 <= panel.progress <= 100.0
    ensures panel.completeCall.Some? <==> panel.progress == 100.0
    ensures panel.completeCall.Some? ==>
      panel.completeCall.value == CompleteUpgrade(PropertyKey(item.job), armorType,
                                                  PropertyKey(BaseItemName(tiers, item, armorType)),
                                                  path.name, path.name)
  {
    var progress := Percent(StepOf(p, PathStep(item, armorType, path)), path.requirements);
    var call := CompleteUpgrade(PropertyKey(item.job), armorType,
                                PropertyKey(BaseItemName(tiers, item, armorType)), path.name, path.name);
    PathPanel(path, progress, if progress == 100.0 then Some(call) else None)
  }

  /** The button is offered exactly when the path has requirements and the
      engine finds every one of their keys set. */
  lemma CompleteButtonIffAllSet(p: ProgressionTree, tiers: TierTree, item: ArmorRecord, armorType: string,
                                path: UpgradePathRecord)
    ensures PanelFor(p, tiers, item, armorType, path).completeCall.Some?
            <==> |path.requirements| > 0 && AllSet(StepOf(p, PathStep(item, armorType, path)), path.requirements)
  {
    if |path.requirements| > 0 {
      PercentFullIff(StepOf(p, PathStep(item, armorType, path)), path.requirements);
    }
  }

  /** Applied by the engine, the button's call moves the base item's pointer
      to the path, provided no pointer names the base itself. */
  lemma CompleteClickAdvancesBase(p: ProgressionTree, tiers: TierTree, item: ArmorRecord, armorType: string,
                                  path: UpgradePathRecord)
    requires item.name.Some? && path.name != ""
    requires var base := BaseItemName(tiers, item, armorType).value;
             forall e :: e in TiersOf(tiers, PropertyKey(item.job), armorType) ==> e.1 != base
    requires PanelFor(p, tiers, item, armorType, path).completeCall.Some?
    ensures var call := PanelFor(p, tiers, item, armorType, path).completeCall.value;
            var after := WithAdvancedTier(tiers, call.job, call.armorType, call.itemName, call.nextTierName);
            Get(TiersOf(after, PropertyKey(item.job), armorType), BaseItemName(tiers, item, armorType).value)
            == Some(path.name)
  {
    var base := BaseItemName(tiers, item, armorType).value;
    var e := TiersOf(tiers, PropertyKey(item.job), armorType);
    forall i | 0 <= i < |e| ensures e[i].1 != base {
      assert e[i] in e;
    }
  }

  /** The button completes the step (base, path) while the card reads
      (path, path): unless the two names coincide, the click leaves the
      card's own completion flag and progress for the path as they were. */
  lemma CompleteClickUnseenByCard(p: ProgressionTree, c: CompletionTree, tiers: TierTree, item: ArmorRecord,
                                  armorType: string, path: UpgradePathRecord)
    requires PanelFor(p, tiers, item, armorType, path).completeCall.Some?
    requires PropertyKey(BaseItemName(tiers, item, armorType)) != path.name
    ensures var call := PanelFor(p, tiers, item, armorType, path).completeCall.value;
            var k := (call.job, call.armorType, call.itemName, call.step);
            && PathCompleted(WithCompleted(c, k), item, armorType, path) == PathCompleted(c, item, armorType, path)
            && StepOf(WithoutStep(p, k), PathStep(item, armorType, path)) == StepOf(p, PathStep(item, armorType, path))
  {
  }

  // ---------------------------------------------------------------------
  // Requirement key mismatch, seen through the percentage
  // ---------------------------------------------------------------------

  /** Writing a key that no requirement's engine key equals leaves the
      count of set requirements unchanged. */
  lemma {:induction false} CompletedCountIgnoresOtherKeys(sp: StepProgress, key: string, v: Cell,
                                                          reqs: seq<Requirement>)
    requires forall i :: 0 <= i < |reqs| ==> EngineKey(reqs[i]) != key
    ensures CompletedCount(sp[key := v], reqs) == CompletedCount(sp, reqs)
  {
    if reqs != [] {
      var init := reqs[..|reqs| - 1];
      assert forall i :: 0 <= i < |init| ==> init[i] == reqs[i];
      CompletedCountIgnoresOtherKeys(sp, key, v, init);
      assert IsSet(sp[key := v], EngineKey(reqs[|reqs| - 1])) == IsSet(sp, EngineKey(reqs[|reqs| - 1]));
    }
  }

  /** Ticking an object requirement of quantity 1 marks it complete on the
      card, yet the engine's percentage does not move, because the engine
      reads it under `item_1`. */
  lemma SingleObjectTickNotCounted(p: ProgressionTree, item: ArmorRecord, armorType: string,
                                   path: UpgradePathRecord, req: Requirement, checked: bool)
    requires req.Quantified? && req.quantity == 1
    requires forall i :: 0 <= i < |path.requirements| ==> EngineKey(path.requirements[i]) != req.item
    ensures var call := OnCheckboxChange(item, armorType, path, req, checked);
            var after := WithToggled(p, call.key, call.requirement);
            && IsRequirementComplete(StepOf(after, call.key), req) == !IsRequirementComplete(StepOf(p, call.key), req)
            && Percent(StepOf(after, call.key), path.requirements) == Percent(StepOf(p, call.key), path.requirements)
  {
    var call := OnCheckboxChange(item, armorType, path, req, checked);
    var sp := StepOf(p, call.key);
    var after := WithToggled(p, call.key, call.requirement);
    assert StepOf(after, call.key) == sp[req.item := Flag(!IsSet(sp, req.item))];
    CompletedCountIgnoresOtherKeys(sp, req.item, Flag(!IsSet(sp, req.item)), path.requirements);
  }

  /** A concrete case: a path whose one requirement is
      `{ item: "Beastman Seal", quantity: 1 }` stays at 0% after its box is
      ticked on a fresh step. */
  lemma TickedSealStaysAtZero(item: ArmorRecord, armorType: string, path: UpgradePathRecord)
    requires path.requirements == [Quantified("Beastman Seal", 1)]
    ensures var req := path.requirements[0];
            var call := OnCheckboxChange(item, armorType, path, req, true);
            var after := WithToggled(map[], call.key, call.requirement);
            && IsRequirementComplete(StepOf(after, call.key), req)
            && Percent(StepOf(after, call.key), path.requirements) == 0.0
  {
    var req := path.requirements[0];
    assert EngineKey(req) == "Beastman Seal" + "_" + IntToDecimal(1);
    ObjectRequirementKeysDiffer(req);
    SingleObjectTickNotCounted(map[], item, armorType, path, req, true);
  }

  // ---------------------------------------------------------------------
  // Reset (lines 297-303) and the current path (lines 276-284)
  // ---------------------------------------------------------------------

  /** The Reset button resets the resolved base item, not the displayed
      name. */
  function ResetCall(tiers: TierTree, item: ArmorRecord, armorType: string): (call: EngineCall)
    ensures call.ResetProgress? && call.job == PropertyKey(item.job) && call.armorType == armorType
    ensures item.name.Some? ==> call.itemName == BaseItemName(tiers, item, armorType).value
    ensures item.name.None? ==> call.itemName == "undefined"
  {
    ResetProgress(PropertyKey(item.job), armorType, PropertyKey(BaseItemName(tiers, item, armorType)))
  }

  /** On an upgraded item, Reset removes the pointer of the base that names
      it. */
  lemma ResetRemovesBasePointer(tiers: TierTree, item: ArmorRecord, armorType: string, i: int)
    requires TiersWellFormed(tiers)
    requires item.name.Some? && item.name.value != ""
    requires var e := TiersOf(tiers, PropertyKey(item.job), armorType);
             FirstWithValue(e, i, item.name.value) && e[i].0 != ""
    ensures var call := ResetCall(tiers, item, armorType);
            && call.itemName == TiersOf(tiers, PropertyKey(item.job), armorType)[i].0
            && Get(TiersOf(WithoutTier(tiers, call.job, call.armorType, call.itemName), call.job, call.armorType),
                   call.itemName) == None
  {
    var e := TiersOf(tiers, PropertyKey(item.job), armorType);
    TiersOfUnique(tiers, PropertyKey(item.job), armorType);
    GetUnique(e, i);
  }

  /** Resetting by the displayed name of an upgraded item would leave every
      pointer in place, since that name is no base's key. */
  lemma ResetByDisplayedNameKeepsTiers(tiers: TierTree, job: string, armorType: string, name: string)
    requires name !in Keys(TiersOf(tiers, job, armorType))
    ensures WithoutTier(tiers, job, armorType, name) == tiers
  {
  }

  /** Lines 276-284: the first path named like the item, else the first
      path; nothing when the item has no paths. */
  function CurrentUpgradePath(item: ArmorRecord): (path: Option<UpgradePathRecord>)
    ensures path.None? <==> item.upgradePaths.None? || item.upgradePaths.value == []
    ensures path.Some? ==> path.value in item.upgradePaths.value
    ensures path.Some? && (exists q :: q in item.upgradePaths.value && Some(q.name) == item.name)
            ==> Some(path.value.name) == item.name
    ensures path.Some? && (exists q :: q in item.upgradePaths.value && Some(q.name) == item.name)
            ==> exists i :: 0 <= i < |item.upgradePaths.value| && item.upgradePaths.value[i] == path.value
                            && forall j :: 0 <= j < i ==> Some(item.upgradePaths.value[j].name) != item.name
    ensures path.Some? && (forall q :: q in item.upgradePaths.value ==> Some(q.name) != item.name)
            ==> path.value == item.upgradePaths.value[0]
  {
    match item.upgradePaths
    case None => None
    case Some(ps) =>
      if |ps| == 0 then None
      else match (if item.name.Some? then FirstPathNamed(ps, item.name.value) else None)
        case Some(q) => Some(q)
        case None => Some(ps[0])
  }
}
