/** The armor list (src/components/ArmorList.jsx): the selected job's
    records ordered by slot, and for each slot the record to display,
    found by following the tier pointer of the slot's base record. */
module ArmorList {
  import opened JsValues
  import opened Catalog
  import opened TierMap
  import opened ArmorContext

  /** The slots in display order (line 72). */
  const Slots: seq<string> := ["Head", "Body", "Hands", "Legs", "Feet"]

  /** `slotOrder[slot]` (lines 32-38); a slot it lacks reads `undefined`. */
  function SlotOrder(slot: Option<string>): (rank: Option<int>)
    ensures rank.Some? ==> 1 <= rank.value <= 5
    ensures rank.Some? <==> slot.Some? && slot.value in Slots
  {
    match slot
    case Some("Head") => Some(1)
    case Some("Body") => Some(2)
    case Some("Hands") => Some(3)
    case Some("Legs") => Some(4)
    case Some("Feet") => Some(5)
    case _ => None
  }

  /** The comparator gives NaN for a record whose slot is not one of the
      five; the model places such records after the five slots. */
  function Rank(r: ArmorRecord): int
  {
    match SlotOrder(r.slot)
    case Some(n) => n
    case None => 6
  }

  /** `data.filter(item => item.Job === job)` */
  function OfJob(data: seq<ArmorRecord>, job: string): seq<ArmorRecord>
  {
    if data == [] then []
    else (if data[0].job == Some(job) then [data[0]] else []) + OfJob(data[1..], job)
  }

  /** The job filter keeps exactly the records of that job. */
  lemma {:induction false} OfJobMembers(data: seq<ArmorRecord>, job: string)
    ensures forall r :: r in OfJob(data, job) <==> r in data && r.job == Some(job)
  {
    if data != [] {
      OfJobMembers(data[1..], job);
      assert data == [data[0]] + data[1..];
    }
  }

  /** The records of rank k, in their order. */
  function Block(data: seq<ArmorRecord>, k: int): seq<ArmorRecord>
  {
    if data == [] then []
    else (if Rank(data[0]) == k then [data[0]] else []) + Block(data[1..], k)
  }

  /** The blocks of rank k to 6, in rank order. */
  function SortFrom(data: seq<ArmorRecord>, k: int): seq<ArmorRecord>
    decreases 7 - k
  {
    if k > 6 then [] else Block(data, k) + SortFrom(data, k + 1)
  }

  /** `sort((a, b) => slotOrder[a.Slot] - slotOrder[b.Slot])`, a stable sort:
      Head, Body, Hands, Legs, Feet, each in the records' own order. */
  function SortBySlot(data: seq<ArmorRecord>): seq<ArmorRecord>
  {
    SortFrom(data, 1)
  }

  /** The list the component keeps (lines 29-40). */
  function ListedRecords(data: seq<ArmorRecord>, job: string): seq<ArmorRecord>
  {
    SortBySlot(OfJob(data, job))
  }

  /** Lines 42-44: an empty list sets the "No ... armor found" error. */
  function ListError(listed: seq<ArmorRecord>, armorType: string, job: string): (err: Option<string>)
    ensures err.Some? <==> listed == []
  {
    if |listed| == 0 then Some("No " + armorType + " armor found for " + job) else None
  }

  lemma {:induction false} BlockMembers(data: seq<ArmorRecord>, k: int)
    ensures forall r :: r in Block(data, k) <==> r in data && Rank(r) == k
  {
    if data != [] {
      BlockMembers(data[1..], k);
      assert data == [data[0]] + data[1..];
    }
  }

  ghost predicate SortedBySlot(rs: seq<ArmorRecord>)
  {
    forall i, j :: 0 <= i < j < |rs| ==> Rank(rs[i]) <= Rank(rs[j])
  }

  lemma ConcatSorted(a: seq<ArmorRecord>, b: seq<ArmorRecord>, k: int)
    requires SortedBySlot(a) && SortedBySlot(b)
    requires forall r :: r in a ==> Rank(r) <= k
    requires forall r :: r in b ==> Rank(r) >= k
    ensures SortedBySlot(a + b)
  {
    var ab := a + b;
    forall i, j | 0 <= i < j < |ab| ensures Rank(ab[i]) <= Rank(ab[j]) {
      if i < |a| && j >= |a| {
        assert ab[i] in a && ab[j] == b[j - |a|] && ab[j] in b;
      } else if i >= |a| {
        assert ab[i] == b[i - |a|] && ab[j] == b[j - |a|];
      }
    }
  }

  lemma {:induction false} SortFromSorted(data: seq<ArmorRecord>, k: int)
    ensures SortedBySlot(SortFrom(data, k))
    ensures forall r :: r in SortFrom(data, k) ==> Rank(r) >= k
    decreases 7 - k
  {
    if k <= 6 {
      var blk := Block(data, k);
      BlockMembers(data, k);
      assert SortedBySlot(blk) by {
        forall i, j | 0 <= i < j < |blk| ensures Rank(blk[i]) <= Rank(blk[j]) {
          assert blk[i] in blk && blk[j] in blk;
        }
      }
      SortFromSorted(data, k + 1);
      ConcatSorted(blk, SortFrom(data, k + 1), k);
    }
  }

  /** The listed order is Head < Body < Hands < Legs < Feet. */
  lemma SortBySlotSorted(data: seq<ArmorRecord>)
    ensures SortedBySlot(SortBySlot(data))
  {
    SortFromSorted(data, 1);
  }

  lemma {:induction false} SortFromCons(x: ArmorRecord, t: seq<ArmorRecord>, k: int)
    ensures multiset(SortFrom([x] + t, k))
            == (if k <= Rank(x) then multiset{x} else multiset{}) + multiset(SortFrom(t, k))
    decreases 7 - k
  {
    if k <= 6 {
      var d := [x] + t;
      assert d[0] == x && d[1..] == t;
      SortFromCons(x, t, k + 1);
    }
  }

  /** Sorting only reorders: the listed records are a permutation of the
      input. */
  lemma {:induction false} SortBySlotPermutes(data: seq<ArmorRecord>)
    ensures multiset(SortBySlot(data)) == multiset(data)
  {
    if data != [] {
      SortBySlotPermutes(data[1..]);
      assert data == [data[0]] + data[1..];
      SortFromCons(data[0], data[1..], 1);
    }
  }

  /** The listed records are exactly the selected job's records, each as
      often as in the catalog, in slot order. */
  lemma ListedRecordsSpec(data: seq<ArmorRecord>, job: string)
    ensures multiset(ListedRecords(data, job)) == multiset(OfJob(data, job))
    ensures forall r :: r in ListedRecords(data, job) <==> r in data && r.job == Some(job)
    ensures SortedBySlot(ListedRecords(data, job))
  {
    SortBySlotPermutes(OfJob(data, job));
    SortBySlotSorted(OfJob(data, job));
    OfJobMembers(data, job);
    forall r ensures r in ListedRecords(data, job) <==> r in OfJob(data, job) {
      assert r in ListedRecords(data, job) <==> r in multiset(ListedRecords(data, job));
    }
  }

  lemma {:induction false} BlockConcat(a: seq<ArmorRecord>, b: seq<ArmorRecord>, k: int)
    ensures Block(a + b, k) == Block(a, k) + Block(b, k)
  {
    if a != [] {
      assert (a + b)[1..] == a[1..] + b;
      BlockConcat(a[1..], b, k);
    } else {
      assert a + b == b;
    }
  }

  lemma {:induction false} BlockOfBlock(data: seq<ArmorRecord>, j: int, k: int)
    ensures Block(Block(data, k), j) == if j == k then Block(data, j) else []
  {
    if data != [] {
      var head := if Rank(data[0]) == k then [data[0]] else [];
      BlockOfBlock(data[1..], j, k);
      BlockConcat(head, Block(data[1..], k), j);
    }
  }

  lemma {:induction false} SortFromStable(data: seq<ArmorRecord>, k: int, j: int)
    ensures Block(SortFrom(data, k), j) == if k <= j <= 6 then Block(data, j) else []
    decreases 7 - k
  {
    if k <= 6 {
      BlockConcat(Block(data, k), SortFrom(data, k + 1), j);
      BlockOfBlock(data, j, k);
      SortFromStable(data, k + 1, j);
    }
  }

  /** The sort is stable: the records of one rank keep their relative
      order. */
  lemma SortBySlotStable(data: seq<ArmorRecord>, k: int)
    requires 1 <= k <= 6
    ensures Block(SortBySlot(data), k) == Block(data, k)
  {
    SortFromStable(data, 1, k);
  }

  /** `data.find(armor => armor.Slot === slot)` */
  function FindSlot(data: seq<ArmorRecord>, slot: string): (r: Option<ArmorRecord>)
    ensures r.None? <==> forall x :: x in data ==> x.slot != Some(slot)
    ensures r.Some? ==> r.value in data && r.value.slot == Some(slot)
    ensures r.Some? ==> exists i :: 0 <= i < |data| && data[i] == r.value
                                   && forall j :: 0 <= j < i ==> data[j].slot != Some(slot)
  {
    if data == [] then None
    else if data[0].slot == Some(slot) then Some(data[0])
    else
      var r := FindSlot(data[1..], slot);
      assert r.Some? ==> exists i :: 0 <= i < |data| && data[i] == r.value
                                     && forall j :: 0 <= j < i ==> data[j].slot != Some(slot) by {
        if r.Some? {
          var i :| 0 <= i < |data| - 1 && data[1..][i] == r.value
                   && forall j :: 0 <= j < i ==> data[1..][j].slot != Some(slot);
          assert data[i + 1] == r.value;
          forall j | 0 <= j < i + 1 ensures data[j].slot != Some(slot) {
            if j > 0 { assert data[j] == data[1..][j - 1]; }
          }
        }
      }
      r
  }

  /** For one of the five slots, the first record of that slot is the head
      of its rank's block. */
  lemma {:induction false} FindSlotIsFirstOfBlock(data: seq<ArmorRecord>, slot: string)
    requires slot in Slots
    ensures var k := SlotOrder(Some(slot)).value;
            FindSlot(data, slot) == if Block(data, k) == [] then None else Some(Block(data, k)[0])
  {
    if data != [] {
      FindSlotIsFirstOfBlock(data[1..], slot);
    }
  }

  /** Each slot starts from the same base record whether the list is sorted
      or not: the first record of that slot in the job's catalog order. */
  lemma SlotBaseIsFirstInCatalog(data: seq<ArmorRecord>, job: string, slot: string)
    requires slot in Slots
    ensures FindSlot(ListedRecords(data, job), slot) == FindSlot(OfJob(data, job), slot)
  {
    SortBySlotStable(OfJob(data, job), SlotOrder(Some(slot)).value);
    FindSlotIsFirstOfBlock(ListedRecords(data, job), slot);
    FindSlotIsFirstOfBlock(OfJob(data, job), slot);
  }

  /** `currentTiers[job]?.[armorType]?.[item.Name]` */
  function TierPointer(tiers: TierTree, job: string, armorType: string, name: Option<string>): Option<string>
  {
    Get(TiersOf(tiers, job, armorType), PropertyKey(name))
  }

  predicate SameSlotAndJob(r: ArmorRecord, slot: string, job: string)
  {
    r.slot == Some(slot) && r.job == Some(job)
  }

  /** The condition of lines 86-90: same slot, same job, named after the
      pointer. */
  predicate IsExact(x: ArmorRecord, slot: string, job: string, tier: string)
  {
    SameSlotAndJob(x, slot, job) && x.name == Some(tier)
  }

  /** Lines 86-90: the first record of the same slot and job named after
      the pointer. */
  function ExactMatch(data: seq<ArmorRecord>, slot: string, job: string, tier: string): (r: Option<ArmorRecord>)
    ensures r.Some? ==> r.value in data && IsExact(r.value, slot, job, tier)
    ensures r.Some? ==> exists i :: 0 <= i < |data| && data[i] == r.value
                                   && forall j :: 0 <= j < i ==> !IsExact(data[j], slot, job, tier)
    ensures r.None? <==> forall i :: 0 <= i < |data| ==> !IsExact(data[i], slot, job, tier)
  {
    if data == [] then None
    else if IsExact(data[0], slot, job, tier) then Some(data[0])
    else
      var r := ExactMatch(data[1..], slot, job, tier);
      assert r.Some? ==> exists i :: 0 <= i < |data| && data[i] == r.value
                                     && forall j :: 0 <= j < i ==> !IsExact(data[j], slot, job, tier) by {
        if r.Some? {
          var i :| 0 <= i < |data| - 1 && data[1..][i] == r.value
                   && forall j :: 0 <= j < i ==> !IsExact(data[1..][j], slot, job, tier);
          assert data[i + 1] == r.value;
          forall j | 0 <= j < i + 1 ensures !IsExact(data[j], slot, job, tier) {
            if j > 0 { assert data[j] == data[1..][j - 1]; }
          }
        }
      }
      assert r.None? ==> forall i :: 0 <= i < |data| ==> !IsExact(data[i], slot, job, tier) by {
        if r.None? {
          forall i | 0 <= i < |data| ensures !IsExact(data[i], slot, job, tier) {
            if i > 0 { assert data[i] == data[1..][i - 1]; }
          }
        }
      }
      r
  }

  /** `armor.upgradePaths?.find(path => path.name === tier)` */
  function PathNamed(paths: Option<seq<UpgradePathRecord>>, tier: string): Option<UpgradePathRecord>
  {
    match paths
    case None => None
    case Some(ps) => FirstPathNamed(ps, tier)
  }

  /** The paths not complete under (job, armorType, armor's name, path name). */
  function PendingPaths(ps: seq<UpgradePathRecord>, completed: CompletionTree, job: string,
                        armorType: string, armorName: string): (rs: seq<UpgradePathRecord>)
    ensures |rs| <= |ps|
    ensures ps == [] ==> rs == []
    ensures |ps| == 1 ==> rs == if IsCompleteIn(completed, (job, armorType, armorName, ps[0].name)) then [] else ps
  {
    if ps == [] then []
    else (if IsCompleteIn(completed, (job, armorType, armorName, ps[0].name)) then [] else [ps[0]])
         + PendingPaths(ps[1..], completed, job, armorType, armorName)
  }

  /** Exactly the paths not complete under the carrier's name remain. */
  lemma {:induction false} PendingPathsMembers(ps: seq<UpgradePathRecord>, completed: CompletionTree, job: string,
                                               armorType: string, armorName: string)
    ensures forall p :: p in PendingPaths(ps, completed, job, armorType, armorName) <==>
      p in ps && !IsCompleteIn(completed, (job, armorType, armorName, p.name))
  {
    if ps != [] {
      PendingPathsMembers(ps[1..], completed, job, armorType, armorName);
      assert ps == [ps[0]] + ps[1..];
    }
  }

  /** The filter keeps the order and repetitions of the carrier's paths. */
  lemma {:induction false} PendingPathsConcat(a: seq<UpgradePathRecord>, b: seq<UpgradePathRecord>,
                                              completed: CompletionTree, job: string,
                                              armorType: string, armorName: string)
    ensures PendingPaths(a + b, completed, job, armorType, armorName)
            == PendingPaths(a, completed, job, armorType, armorName)
               + PendingPaths(b, completed, job, armorType, armorName)
    decreases |a|
  {
    if a != [] {
      var head := if IsCompleteIn(completed, (job, armorType, armorName, a[0].name)) then [] else [a[0]];
      assert (a + b)[0] == a[0] && (a + b)[1..] == a[1..] + b;
      assert PendingPaths(a + b, completed, job, armorType, armorName)
             == head + PendingPaths(a[1..] + b, completed, job, armorType, armorName);
      PendingPathsConcat(a[1..], b, completed, job, armorType, armorName);
    } else {
      assert a + b == b;
    }
  }

  /** Lines 100-107: the carrier record renamed to the upgrade path, with
      the path's images and only the upgrade paths not yet complete under
      the carrier's own name; every other field is the carrier's. */
  function Renamed(armor: ArmorRecord, path: UpgradePathRecord, completed: CompletionTree,
                   job: string, armorType: string): (r: ArmorRecord)
    ensures r.name == Some(path.name) && r.url == path.url && r.linkUrl == path.linkUrl
    ensures r.job == armor.job && r.slot == armor.slot && r.tier == armor.tier
            && r.description == armor.description
    ensures r.upgradePaths.Some?
    ensures armor.upgradePaths.None? ==> r.upgradePaths.value == []
    ensures armor.upgradePaths.Some? ==>
      forall p :: p in r.upgradePaths.value <==>
        p in armor.upgradePaths.value && !IsCompleteIn(completed, (job, armorType, PropertyKey(armor.name), p.name))
    ensures armor.upgradePaths.Some? ==>
      r.upgradePaths.value == PendingPaths(armor.upgradePaths.value, completed, job, armorType, PropertyKey(armor.name))
  {
    var pending := match armor.upgradePaths
                   case None => []
                   case Some(ps) =>
                     (PendingPathsMembers(ps, completed, job, armorType, PropertyKey(armor.name));
                      PendingPaths(ps, completed, job, armorType, PropertyKey(armor.name)));
    armor.(name := Some(path.name), url := path.url, linkUrl := path.linkUrl, upgradePaths := Some(pending))
  }

  /** The condition of lines 97-99: same slot, same job, with an upgrade
      path named after the pointer. */
  predicate Carries(x: ArmorRecord, slot: string, job: string, tier: string)
  {
    SameSlotAndJob(x, slot, job) && PathNamed(x.upgradePaths, tier).Some?
  }

  /** The renamed copy of a record that carries the pointer's path. */
  function Carried(x: ArmorRecord, slot: string, job: string, armorType: string,
                   tier: string, completed: CompletionTree): ArmorRecord
    requires Carries(x, slot, job, tier)
  {
    Renamed(x, PathNamed(x.upgradePaths, tier).value, completed, job, armorType)
  }

  /** r is the renamed copy of the first carrier in data, or nothing when
      no record of data carries the pointer's path. */
  ghost predicate FirstCarrier(data: seq<ArmorRecord>, slot: string, job: string, armorType: string,
                               tier: string, completed: CompletionTree, r: Option<ArmorRecord>)
  {
    (r.Some? ==>
      exists i :: 0 <= i < |data| && Carries(data[i], slot, job, tier)
                  && r.value == Carried(data[i], slot, job, armorType, tier, completed)
                  && forall j :: 0 <= j < i ==> !Carries(data[j], slot, job, tier))
    && (r.None? <==> forall i :: 0 <= i < |data| ==> !Carries(data[i], slot, job, tier))
  }

  /** A first carrier of the tail is the first carrier of a list whose head
      does not carry. */
  lemma FirstCarrierLifts(data: seq<ArmorRecord>, slot: string, job: string, armorType: string,
                          tier: string, completed: CompletionTree, r: Option<ArmorRecord>)
    requires data != [] && !Carries(data[0], slot, job, tier)
    requires FirstCarrier(data[1..], slot, job, armorType, tier, completed, r)
    ensures FirstCarrier(data, slot, job, armorType, tier, completed, r)
  {
    if r.Some? {
      var i :| 0 <= i < |data| - 1 && Carries(data[1..][i], slot, job, tier)
               && r.value == Carried(data[1..][i], slot, job, armorType, tier, completed)
               && forall j :: 0 <= j < i ==> !Carries(data[1..][j], slot, job, tier);
      assert data[i + 1] == data[1..][i];
      forall j | 0 <= j < i + 1 ensures !Carries(data[j], slot, job, tier) {
        if j > 0 { assert data[j] == data[1..][j - 1]; }
      }
    } else {
      forall i | 0 <= i < |data| ensures !Carries(data[i], slot, job, tier) {
        if i > 0 { assert data[i] == data[1..][i - 1]; }
      }
    }
  }

  /** Lines 96-111: the renamed copy of the first record that carries an
      upgrade path named after the pointer, built from that path. */
  function UpgradeCarrier(data: seq<ArmorRecord>, slot: string, job: string, armorType: string,
                          tier: string, completed: CompletionTree): (r: Option<ArmorRecord>)
    ensures r.Some? ==> r.value.name == Some(tier) && SameSlotAndJob(r.value, slot, job)
    ensures r.Some? ==>
      exists i :: 0 <= i < |data| && Carries(data[i], slot, job, tier)
                  && r.value == Carried(data[i], slot, job, armorType, tier, completed)
                  && forall j :: 0 <= j < i ==> !Carries(data[j], slot, job, tier)
    ensures r.None? <==> forall i :: 0 <= i < |data| ==> !Carries(data[i], slot, job, tier)
  {
    if data == [] then None
    else if Carries(data[0], slot, job, tier) then
      Some(Carried(data[0], slot, job, armorType, tier, completed))
    else
      var r := UpgradeCarrier(data[1..], slot, job, armorType, tier, completed);
      assert FirstCarrier(data[1..], slot, job, armorType, tier, completed, r);
      FirstCarrierLifts(data, slot, job, armorType, tier, completed, r);
      r
  }

  /** The record displayed for a slot (lines 78-113), or nothing when the
      list has no record of that slot. */
  function SlotItem(data: seq<ArmorRecord>, slot: string, job: string, armorType: string,
                    tiers: TierTree, completed: CompletionTree): (r: Option<ArmorRecord>)
    ensures r.None? <==> FindSlot(data, slot).None?
    ensures r.Some? ==> r.value.slot == Some(slot)
    ensures FindSlot(data, slot).Some? && !Present(TierPointer(tiers, job, armorType, FindSlot(data, slot).value.name))
            ==> r == FindSlot(data, slot)
    ensures FindSlot(data, slot).Some? ==>
      var pointer := TierPointer(tiers, job, armorType, FindSlot(data, slot).value.name);
      Present(pointer) && (ExactMatch(data, slot, job, pointer.value).Some?
                           || UpgradeCarrier(data, slot, job, armorType, pointer.value, completed).Some?)
      ==> r.value.name == pointer
    ensures FindSlot(data, slot).Some? ==>
      var pointer := TierPointer(tiers, job, armorType, FindSlot(data, slot).value.name);
      Present(pointer) ==>
        && (ExactMatch(data, slot, job, pointer.value).Some? ==> r == ExactMatch(data, slot, job, pointer.value))
        && (ExactMatch(data, slot, job, pointer.value).None?
            && UpgradeCarrier(data, slot, job, armorType, pointer.value, completed).Some?
            ==> r == UpgradeCarrier(data, slot, job, armorType, pointer.value, completed))
        && (ExactMatch(data, slot, job, pointer.value).None?
            && UpgradeCarrier(data, slot, job, armorType, pointer.value, completed).None?
            ==> r == FindSlot(data, slot))
  {
    match FindSlot(data, slot)
    case None => None
    case Some(base) =>
      var pointer := TierPointer(tiers, job, armorType, base.name);
      if !Present(pointer) then Some(base)
      else match ExactMatch(data, slot, job, pointer.value)
        case Some(exact) => Some(exact)
        case None =>
          match UpgradeCarrier(data, slot, job, armorType, pointer.value, completed)
          case Some(renamed) => Some(renamed)
          case None => Some(base)
  }

  /** Lines 96-111: the loop over the catalog that stops at the first
      same-slot, same-job record with an upgrade path named after the
      pointer. */
  method FindUpgradeCarrier(data: seq<ArmorRecord>, slot: string, job: string, armorType: string,
                            tier: string, completed: CompletionTree) returns (item: Option<ArmorRecord>)
    ensures item == UpgradeCarrier(data, slot, job, armorType, tier, completed)
  {
    item := None;
    var i := 0;
    while i < |data|
      invariant 0 <= i <= |data|
      invariant UpgradeCarrier(data[i..], slot, job, armorType, tier, completed)
                == UpgradeCarrier(data, slot, job, armorType, tier, completed)
    {
      var armor := data[i];
      assert data[i..][0] == armor && data[i..][1..] == data[i + 1..];
      if armor.slot == Some(slot) && armor.job == Some(job) {
        var upgradePath := PathNamed(armor.upgradePaths, tier);
        if upgradePath.Some? {
          return Some(Renamed(armor, upgradePath.value, completed, job, armorType));
        }
      }
      i := i + 1;
    }
    assert data[i..] == [];
  }

  /** Lines 76-113 for one slot: the base record is replaced by the exact
      match, or else by the renamed carrier when there is one. */
  method ResolveSlotItem(data: seq<ArmorRecord>, slot: string, job: string, armorType: string,
                         tiers: TierTree, completed: CompletionTree) returns (item: Option<ArmorRecord>)
    ensures item == SlotItem(data, slot, job, armorType, tiers, completed)
  {
    item := FindSlot(data, slot);
    if item.None? {
      return;
    }
    var currentTier := TierPointer(tiers, job, armorType, item.value.name);
    if Present(currentTier) {
      var exactMatch := ExactMatch(data, slot, job, currentTier.value);
      if exactMatch.Some? {
        item := exactMatch;
      } else {
        var carrier := FindUpgradeCarrier(data, slot, job, armorType, currentTier.value, completed);
        if carrier.Some? {
          item := carrier;
        }
      }
    }
  }

  /** Completing a base item's upgrade to a tier that the catalog knows
      makes that tier the slot's displayed item. */
  lemma CompletedTierIsDisplayed(data: seq<ArmorRecord>, slot: string, job: string, armorType: string,
                                 tiers: TierTree, completed: CompletionTree, next: string)
    requires FindSlot(data, slot).Some?
    requires var base := FindSlot(data, slot).value;
             && base.name.Some? && base.name.value != "" && next != ""
             && base.job == Some(job)
             && (forall e :: e in TiersOf(tiers, job, armorType) ==> e.1 != base.name.value)
             && PathNamed(base.upgradePaths, next).Some?
    ensures var base := FindSlot(data, slot).value;
            var after := WithAdvancedTier(tiers, job, armorType, base.name.value, next);
            SlotItem(data, slot, job, armorType, after, completed).value.name == Some(next)
  {
    var base := FindSlot(data, slot).value;
    var e := TiersOf(tiers, job, armorType);
    assert forall i :: 0 <= i < |e| ==> e[i].1 != base.name.value by {
      forall i | 0 <= i < |e| ensures e[i].1 != base.name.value {
        assert e[i] in e;
      }
    }
    assert ResolveBase(e, base.name.value) == base.name.value;
    var after := WithAdvancedTier(tiers, job, armorType, base.name.value, next);
    assert TierPointer(after, job, armorType, base.name) == Some(next);
    assert SameSlotAndJob(base, slot, job);
  }
}
