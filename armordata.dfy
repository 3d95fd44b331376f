/** The constant slot and armor-type tables (src/data/armorData.js) and
    the three helpers over them. */
module ArmorData {
  import opened JsValues

  /** `ARMOR_SLOTS` */
  const ArmorSlotList: seq<string> := ["Head", "Body", "Hands", "Legs", "Feet"]

  datatype ArmorTypeEntry = ArmorTypeEntry(id: string, name: string)

  /** `ARMOR_TYPES` */
  const ArmorTypes: seq<ArmorTypeEntry> := [
    ArmorTypeEntry("Artifact", "Artifact"),
    ArmorTypeEntry("Relic", "Relic"),
    ArmorTypeEntry("Empyrean", "Empyrean")
  ]

  /** `types.find(t => t.id === id)` */
  function FindType(types: seq<ArmorTypeEntry>, id: string): (r: Option<ArmorTypeEntry>)
    ensures r.Some? ==> r.value in types && r.value.id == id
    ensures r.None? ==> forall i :: 0 <= i < |types| ==> types[i].id != id
  {
    if types == [] then None
    else if types[0].id == id then Some(types[0])
    else FindType(types[1..], id)
  }

  /** `getArmorTypeLabel`: the matching entry's name for a known id, the
      input itself otherwise. */
  function GetArmorTypeLabel(armorType: string): (shown: string)
    ensures IsValidArmorType(armorType) ==>
      exists i :: 0 <= i < |ArmorTypes| && ArmorTypes[i].id == armorType && shown == ArmorTypes[i].name
    ensures !IsValidArmorType(armorType) ==> shown == armorType
  {
    match FindType(ArmorTypes, armorType)
    case Some(entry) => entry.name
    case None => armorType
  }

  /** `isValidSlot` */
  predicate IsValidSlot(slot: string)
    ensures IsValidSlot(slot) <==> slot in {"Head", "Body", "Hands", "Legs", "Feet"}
  {
    slot in ArmorSlotList
  }

  /** `isValidArmorType` */
  predicate IsValidArmorType(armorType: string)
    ensures IsValidArmorType(armorType) <==> armorType in {"Artifact", "Relic", "Empyrean"}
  {
    assert armorType in {"Artifact", "Relic", "Empyrean"} ==>
             exists i :: 0 <= i < |ArmorTypes| && ArmorTypes[i].id == armorType by {
      if armorType in {"Artifact", "Relic", "Empyrean"} {
        var i := if armorType == "Artifact" then 0 else if armorType == "Relic" then 1 else 2;
        assert ArmorTypes[i].id == armorType;
      }
    }
    exists i :: 0 <= i < |ArmorTypes| && ArmorTypes[i].id == armorType
  }

  /** Every id equals its name, so the label of any input is the input. */
  lemma LabelIsIdentity(armorType: string)
    ensures GetArmorTypeLabel(armorType) == armorType
  {
    assert forall i :: 0 <= i < |ArmorTypes| ==> ArmorTypes[i].id == ArmorTypes[i].name;
  }
}
