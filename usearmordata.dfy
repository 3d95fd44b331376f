/** Catalog loading (src/hooks/useArmorData.js): the per-record pass that
    `loadArmorData` runs over one armor type's already-parsed array,
    validating each record and building `loadedData[job][type][slot]` for
    the base (tier 0) records. */
module UseArmorData {
  import opened JsValues
  import opened Catalog
  import ArmorData

  /** `armorSlots` */
  const ArmorSlots: seq<string> := ["Head", "Body", "Hands", "Legs", "Feet"]

  datatype JobEntry = JobEntry(id: string, name: string)

  /** `jobList` */
  const JobList: seq<JobEntry> := [
    JobEntry("Warrior", "Warrior"), JobEntry("Monk", "Monk"),
    JobEntry("White Mage", "White Mage"), JobEntry("Black Mage", "Black Mage"),
    JobEntry("Red Mage", "Red Mage"), JobEntry("Thief", "Thief"),
    JobEntry("Paladin", "Paladin"), JobEntry("Dark Knight", "Dark Knight"),
    JobEntry("Beastmaster", "Beastmaster"), JobEntry("Bard", "Bard"),
    JobEntry("Ranger", "Ranger"), JobEntry("Samurai", "Samurai"),
    JobEntry("Ninja", "Ninja"), JobEntry("Dragoon", "Dragoon"),
    JobEntry("Summoner", "Summoner"), JobEntry("Blue Mage", "Blue Mage"),
    JobEntry("Corsair", "Corsair"), JobEntry("Puppetmaster", "Puppetmaster"),
    JobEntry("Dancer", "Dancer"), JobEntry("Scholar", "Scholar"),
    JobEntry("Geomancer", "Geomancer"), JobEntry("Rune Fencer", "Rune Fencer")
  ]

  /** `jobList.some(j => j.id === job)` */
  predicate IsKnownJob(job: string)
  {
    exists i :: 0 <= i < |JobList| && JobList[i].id == job
  }

  /** One element of an entry's `UpgradePath`. */
  datatype UpgradeStep = UpgradeStep(name: string, requirements: string, url: string, iconUrl: string)

  /** The value stored at `loadedData[job][type][slot]`: `Base`, `URL`,
      `IconURL`, `Tier` and `UpgradePath`. */
  datatype PieceEntry = PieceEntry(base: string, url: string, iconUrl: string, tier: int,
                                   upgradePath: seq<UpgradeStep>)

  type LoadedData = map<string, map<string, map<string, PieceEntry>>>

  /** `${req.quantity}x ${req.item}`; a bare-string requirement has neither
      property, so both read `undefined`. */
  function RequirementText(req: Requirement): string
  {
    match req
    case Named(_) => "undefinedx undefined"
    case Quantified(item, q) => IntToDecimal(q) + "x " + item
  }

  /** `parts.join(sep)` */
  function Join(parts: seq<string>, sep: string): string
  {
    if parts == [] then ""
    else if |parts| == 1 then parts[0]
    else parts[0] + sep + Join(parts[1..], sep)
  }

  /** Joining one more part appends the separator and the part. */
  lemma {:induction false} JoinAppend(parts: seq<string>, sep: string, last: string)
    requires parts != []
    ensures Join(parts + [last], sep) == Join(parts, sep) + sep + last
  {
    if |parts| == 1 {
      assert (parts + [last])[1..] == [last];
    } else {
      assert (parts + [last])[1..] == parts[1..] + [last];
      JoinAppend(parts[1..], sep, last);
    }
  }

  function RequirementTexts(reqs: seq<Requirement>): (texts: seq<string>)
    ensures |texts| == |reqs|
    ensures forall i :: 0 <= i < |reqs| ==> texts[i] == RequirementText(reqs[i])
  {
    seq(|reqs|, i requires 0 <= i < |reqs| => RequirementText(reqs[i]))
  }

  /** A step's `requirements` text: each requirement's text, in order,
      joined with ", ". */
  function RequirementsText(reqs: seq<Requirement>): (text: string)
    ensures reqs == [] ==> text == ""
    ensures |reqs| == 1 ==> text == RequirementText(reqs[0])
  {
    Join(RequirementTexts(reqs), ", ")
  }

  /** The requirements text grows by ", " and the new requirement's text
      when a requirement is added at the end. */
  lemma RequirementsTextAppend(reqs: seq<Requirement>, req: Requirement)
    requires reqs != []
    ensures RequirementsText(reqs + [req]) == RequirementsText(reqs) + ", " + RequirementText(req)
  {
    assert RequirementTexts(reqs + [req]) == RequirementTexts(reqs) + [RequirementText(req)];
    JoinAppend(RequirementTexts(reqs), ", ", RequirementText(req));
  }

  /** One `upgradeStep` object. */
  function StepFrom(upgrade: UpgradePathRecord): (step: UpgradeStep)
    ensures step.name == upgrade.name
    ensures step.requirements == RequirementsText(upgrade.requirements)
    ensures Present(upgrade.url) ==> step.url == upgrade.url.value
    ensures !Present(upgrade.url) ==> step.url == ""
    ensures Present(upgrade.linkUrl) ==> step.iconUrl == upgrade.linkUrl.value
    ensures !Present(upgrade.linkUrl) ==> step.iconUrl == ""
  {
    UpgradeStep(upgrade.name, RequirementsText(upgrade.requirements), OrEmpty(upgrade.url), OrEmpty(upgrade.linkUrl))
  }

  /** The `UpgradePath` a base record gets: one step per element of
      `upgradePaths`, in order, or none when the field is missing. */
  function UpgradePathOf(paths: Option<seq<UpgradePathRecord>>): (steps: seq<UpgradeStep>)
    ensures paths.None? ==> steps == []
    ensures paths.Some? ==> |steps| == |paths.value|
    ensures paths.Some? ==> forall i :: 0 <= i < |steps| ==> steps[i] == StepFrom(paths.value[i])
  {
    match paths
    case None => []
    case Some(ps) => seq(|ps|, i requires 0 <= i < |ps| => StepFrom(ps[i]))
  }

  /** Lines 127-145: the upgrade path is built with `push`, one step per
      element of `upgradePaths`. */
  method BuildUpgradePath(paths: Option<seq<UpgradePathRecord>>) returns (upgradePath: seq<UpgradeStep>)
    ensures upgradePath == UpgradePathOf(paths)
  {
    upgradePath := [];
    if paths.Some? {
      var ps := paths.value;
      for i := 0 to |ps|
        invariant |upgradePath| == i
        invariant forall j :: 0 <= j < i ==> upgradePath[j] == StepFrom(ps[j])
      {
        upgradePath := upgradePath + [StepFrom(ps[i])];
      }
    }
  }

  /** The outcome of the three validation checks, in the order they run. */
  datatype Verdict = MissingField | UnknownJob | UnknownSlot | Accepted(job: string, slot: string, name: string)

  function Validate(r: ArmorRecord): (v: Verdict)
    ensures v == MissingField <==> !(Present(r.job) && Present(r.slot) && Present(r.name))
    ensures v.Accepted? <==> Present(r.job) && Present(r.slot) && Present(r.name)
                             && IsKnownJob(r.job.value) && r.slot.value in ArmorSlots
    ensures v.Accepted? ==> v.job == r.job.value && v.slot == r.slot.value && v.name == r.name.value
  {
    if !Present(r.job) || !Present(r.slot) || !Present(r.name) then MissingField
    else if !IsKnownJob(r.job.value) then UnknownJob
    else if r.slot.value !in ArmorSlots then UnknownSlot
    else Accepted(r.job.value, r.slot.value, r.name.value)
  }

  /** The entry stored for an accepted base record. */
  function EntryFor(r: ArmorRecord, name: string): (e: PieceEntry)
    ensures e.base == name && e.tier == 0
    ensures e.upgradePath == UpgradePathOf(r.upgradePaths)
    ensures Present(r.url) ==> e.url == r.url.value
    ensures !Present(r.url) ==> e.url == ""
    ensures Present(r.linkUrl) ==> e.iconUrl == r.linkUrl.value
    ensures !Present(r.linkUrl) ==> e.iconUrl == ""
  {
    PieceEntry(name, OrEmpty(r.url), OrEmpty(r.linkUrl), 0, UpgradePathOf(r.upgradePaths))
  }

  function SlotsOf(loaded: LoadedData, job: string, armorType: string): map<string, PieceEntry>
  {
    if job in loaded && armorType in loaded[job] then loaded[job][armorType] else map[]
  }

  /** What one record does to `loadedData`. */
  function ProcessRecord(loaded: LoadedData, armorType: string, r: ArmorRecord): (out: LoadedData)
    ensures !Validate(r).Accepted? ==> out == loaded
    ensures Validate(r).Accepted? ==>
      var v := Validate(r);
      && v.job in out && armorType in out[v.job]
      && (r.tier == Some(0) ==> SlotsOf(out, v.job, armorType) == SlotsOf(loaded, v.job, armorType)[v.slot := EntryFor(r, v.name)])
      && (r.tier != Some(0) ==> SlotsOf(out, v.job, armorType) == SlotsOf(loaded, v.job, armorType))
      && (forall j, a :: (j, a) != (v.job, armorType) ==> SlotsOf(out, j, a) == SlotsOf(loaded, j, a))
      && (forall j :: j in out <==> j in loaded || j == v.job)
      && (forall a :: a in out[v.job] <==> a == armorType || (v.job in loaded && a in loaded[v.job]))
  {
    match Validate(r)
    case Accepted(job, slot, name) =>
      var jobData := if job in loaded then loaded[job] else map[];
      var typeData := if armorType in jobData then jobData[armorType] else map[];
      var typeData' := if r.tier == Some(0) then typeData[slot := EntryFor(r, name)] else typeData;
      loaded[job := jobData[armorType := typeData']]
    case _ => loaded
  }

  /** The `forEach` over one armor type's records. */
  function ProcessRecords(loaded: LoadedData, armorType: string, data: seq<ArmorRecord>): LoadedData
    decreases |data|
  {
    if data == [] then loaded else ProcessRecords(ProcessRecord(loaded, armorType, data[0]), armorType, data[1..])
  }

  /** What every stored entry satisfies: a known job, a valid slot, tier 0
      and a non-empty base name. */
  ghost predicate WellFormed(loaded: LoadedData)
  {
    forall job :: job in loaded ==>
      && IsKnownJob(job)
      && forall armorType :: armorType in loaded[job] ==>
           forall slot :: slot in loaded[job][armorType] ==>
             && slot in ArmorSlots
             && loaded[job][armorType][slot].tier == 0
             && loaded[job][armorType][slot].base != ""
  }

  lemma ProcessRecordWellFormed(loaded: LoadedData, armorType: string, r: ArmorRecord)
    requires WellFormed(loaded)
    ensures WellFormed(ProcessRecord(loaded, armorType, r))
  {
    var out: LoadedData := ProcessRecord(loaded, armorType, r);
    if Validate(r).Accepted? {
      var v := Validate(r);
      forall job: string | job in out
        ensures IsKnownJob(job)
        ensures forall a: string :: a in out[job] ==> forall s: string :: s in out[job][a] ==>
                  s in ArmorSlots && out[job][a][s].tier == 0 && out[job][a][s].base != ""
      {
        forall a: string, s: string | a in out[job] && s in out[job][a]
          ensures s in ArmorSlots && out[job][a][s].tier == 0 && out[job][a][s].base != ""
        {
          assert SlotsOf(out, job, a)[s] == out[job][a][s];
          if (job, a) != (v.job, armorType) {
            assert s in SlotsOf(loaded, job, a);
          }
        }
      }
    }
  }

  /** Whatever the records, the pass keeps every stored entry well formed. */
  lemma {:induction false} ProcessRecordsWellFormed(loaded: LoadedData, armorType: string,
                                                   data: seq<ArmorRecord>)
    requires WellFormed(loaded)
    ensures WellFormed(ProcessRecords(loaded, armorType, data))
    decreases |data|
  {
    if data != [] {
      ProcessRecordWellFormed(loaded, armorType, data[0]);
      ProcessRecordsWellFormed(ProcessRecord(loaded, armorType, data[0]), armorType, data[1..]);
    }
  }

  /** A later accepted base record for the same job, type and slot replaces
      the earlier one. */
  lemma LaterBaseRecordWins(loaded: LoadedData, armorType: string, r1: ArmorRecord, r2: ArmorRecord)
    requires Validate(r1).Accepted? && Validate(r2).Accepted?
    requires r1.job == r2.job && r1.slot == r2.slot && r1.tier == Some(0) && r2.tier == Some(0)
    ensures var out := ProcessRecord(ProcessRecord(loaded, armorType, r1), armorType, r2);
            out[r2.job.value][armorType][r2.slot.value] == EntryFor(r2, r2.name.value)
  {
  }

  /** The `forEach` callback for one record (lines 87-163): the nested
      maps are created on demand and a base record's entry is stored. */
  method StoreRecord(loaded0: LoadedData, armorType: string, item: ArmorRecord) returns (loaded: LoadedData)
    ensures loaded == ProcessRecord(loaded0, armorType, item)
  {
    loaded := loaded0;
    var job, slot, name := item.job, item.slot, item.name;
    if Present(job) && Present(slot) && Present(name)
       && IsKnownJob(job.value) && slot.value in ArmorSlots {
      ghost var jobData := if job.value in loaded0 then loaded0[job.value] else map[];
      ghost var typeData := if armorType in jobData then jobData[armorType] else map[];
      if job.value !in loaded {
        loaded := loaded[job.value := map[]];
      }
      if armorType !in loaded[job.value] {
        loaded := loaded[job.value := loaded[job.value][armorType := map[]]];
      }
      if job.value in loaded0 && armorType in loaded0[job.value] {
        assert jobData[armorType := typeData] == jobData;
        assert loaded0[job.value := jobData] == loaded0;
      }
      assert loaded == loaded0[job.value := jobData[armorType := typeData]];
      assert Validate(item) == Accepted(job.value, slot.value, name.value);
      if item.tier == Some(0) {
        var upgradePath := BuildUpgradePath(item.upgradePaths);
        var entry := PieceEntry(name.value, OrEmpty(item.url), OrEmpty(item.linkUrl), item.tier.value, upgradePath);
        assert entry == EntryFor(item, name.value);
        assert loaded[job.value][armorType] == typeData;
        assert jobData[armorType := typeData][armorType := typeData[slot.value := entry]]
               == jobData[armorType := typeData[slot.value := entry]];
        loaded := loaded[job.value := loaded[job.value][armorType := loaded[job.value][armorType][slot.value := entry]]];
        assert loaded == loaded0[job.value := jobData[armorType := typeData[slot.value := entry]]];
      }
    }
  }

  /** `loadArmorData`'s loop over one armor type's records (lines 86-164). */
  method LoadArmorType(loaded0: LoadedData, armorType: string, data: seq<ArmorRecord>)
    returns (loaded: LoadedData)
    ensures loaded == ProcessRecords(loaded0, armorType, data)
  {
    loaded := loaded0;
    for i := 0 to |data|
      invariant ProcessRecords(loaded, armorType, data[i..]) == ProcessRecords(loaded0, armorType, data)
    {
      assert data[i..][0] == data[i] && data[i..][1..] == data[i + 1..];
      loaded := StoreRecord(loaded, armorType, data[i]);
    }
    assert data[|data|..] == [];
  }

  /** The hook's slot list and the data module's are the same list. */
  lemma SlotListsAgree()
    ensures ArmorSlots == ArmorData.ArmorSlotList
  {
  }
}
