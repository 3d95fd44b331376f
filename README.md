# FFXI armor-upgrade tracker — a verified Dafny model of its core

The tracker records a player's progress upgrading armor sets through
their tiers. The sets are Artifact, Relic and Empyrean, and each has five
slots per job.

This project models the parts of the tracker that decide what the player
sees and what a click changes:

- **Progression engine** (`ArmorProvider`, module `ArmorContext`). It holds three persisted trees:
  - requirement progress per step;
  - completed steps;
  - the current-tier pointer of each base item.

  Its operations toggle a requirement, compute a step's percentage, complete an upgrade (advancing the base item's pointer, found by reverse lookup) and reset an item. The class fields are the three trees. Each method is proved equal to a pure transition function on them, and the lemmas are stated about those functions.
- **Item card** (module `ArmorItem`). It covers:
  - how a requirement is keyed and judged complete;
  - which engine call each checkbox and button makes;
  - which paths are shown;
  - which base name the "Complete Upgrade" and "Reset" buttons pass.
- **Armor list** (module `ArmorList`):
  - the job filter and the stable slot-order sort;
  - the per-slot resolution of the displayed item through the tier pointer, including the loop that stops at the first record carrying the pointed-to path.
- **Slot card** of the tier-indexed view (module `ArmorPieceCard`): `canUpgrade`, the capped weighted percentage, and the paths leaving the current tier.
- **Catalog loader** (module `UseArmorData`): per-record validation, and the `loadedData[job][type][slot]` index built from tier-0 records.
- **Constant tables and validators** (module `ArmorData`).

Supporting modules:

- `JsValues`: JavaScript truthiness, `|| 0`, property keys and integer-to-decimal text.
- `TierMap`: insertion-ordered objects.
- `Catalog`: catalog records, and the first-match search over a record's upgrade paths.

Four behaviours of the code are proved as they are, rather than smoothed over:

- **Requirement keys.** For object requirements the engine's percentage reads `item_quantity`, but the item card writes and reads `item`. So ticking an object requirement of quantity 1 marks it complete on the card and leaves the percentage where it was (`ArmorItem.SingleObjectTickNotCounted`, `ArmorItem.TickedSealStaysAtZero`).
- **Completion keys.** "Complete Upgrade" records completion under (base item, path). The card reads completion and progress under (path, path). Unless the two names coincide, the click changes neither of the card's reads (`ArmorItem.CompleteClickUnseenByCard`). It does advance the tier pointer (`ArmorItem.CompleteClickAdvancesBase`), and the list then displays the new tier (`ArmorList.CompletedTierIsDisplayed`).
- **Progress, reset and display, as the code does them.**
  - `calculateProgress` counts the requirement keys that are truthy; it does not average `min(count/target, 1)` over the requirements.
  - `resetProgress` removes only the pointer keyed by the name it is given, and only when that pointer is truthy.
  - The armor list follows a tier pointer by one hop (an exact record, else a record carrying a path of that name), not along a chain.
- **Undefined operations.** Count operations (`setRequirementCount`, increment, decrement) and `getCurrentTier` / `upgradeToNextTier` are called but never defined in this code. The card functions return the call they make as an `EngineCall` value, and the slot card takes the current tier as a parameter.

## Model

| member | source | states |
|---|---|---|
| JsValues.CountOf | src/components/ArmorItem.jsx:196 | `value \|\| 0` is non-zero exactly when the stored value is truthy (`true` counts as 1) |
| JsValues.OrEmpty | src/hooks/useArmorData.js:139-140 | `field \|\| ''` is the field when it is a non-empty string, `''` otherwise |
| JsValues.NatToDecimal | src/contexts/ArmorContext.jsx:48 | the decimal text of a natural number is non-empty, all digits, and has no leading zero (only 0 itself starts with `0`) |
| JsValues.IntToDecimal | src/contexts/ArmorContext.jsx:48 | the text of an integer is digits after an optional `-`, parsing it gives the integer back, it starts with a digit exactly when the integer is non-negative, and it is the shortest such text: no leading zero, no `-0` |
| JsValues.LeadingDigitPositive | src/contexts/ArmorContext.jsx:48 | digits that start with a non-zero digit have a positive value |
| JsValues.NatToDecimalUnique | src/contexts/ArmorContext.jsx:48 | the only digit text without a leading zero that reads as n is the one written for n |
| JsValues.CanonicalUnique | src/contexts/ArmorContext.jsx:48 | `${n}` is the one shortest text that reads as n, so the contract fixes the text exactly |
| JsValues.NatToDecimalRoundTrip | src/contexts/ArmorContext.jsx:48 | reading the digits back gives the number |
| JsValues.IntToDecimalInjective | src/contexts/ArmorContext.jsx:48 | different quantities give different `${quantity}` texts |
| TierMap.Keys | src/contexts/ArmorContext.jsx:88 | `Object.keys` lists one key per entry, in insertion order |
| TierMap.Get | src/contexts/ArmorContext.jsx:136 | a lookup finds a value exactly when the key is present, and the value is stored under that key |
| TierMap.FindKeyWithValue | src/contexts/ArmorContext.jsx:88 | the found key is the first in insertion order whose value matches; none is found only when no value matches |
| TierMap.Set | src/contexts/ArmorContext.jsx:94-97 | after `{...obj, [k]: v}` the key reads v and every other key reads as before |
| TierMap.SetKeys | src/contexts/ArmorContext.jsx:94-97 | after `{...obj, [k]: v}` an existing key keeps its position and a new key goes last |
| TierMap.SetUnique | src/contexts/ArmorContext.jsx:94-97 | assigning a key keeps the keys distinct |
| TierMap.SetKeepsOrder | src/contexts/ArmorContext.jsx:94-97 | no existing key moves |
| TierMap.Remove | src/contexts/ArmorContext.jsx:137-138 | after `delete` the key is absent, every other key reads as before, uniqueness is kept |
| TierMap.ResolveBase | src/contexts/ArmorContext.jsx:88 | the base is the first key whose value is the item name, unless that key is `''`; with no such key it is the name itself |
| TierMap.ResolvedBasePointsToName | src/contexts/ArmorContext.jsx:88 | with distinct keys the resolved base is the name itself or a key whose pointer is the name |
| TierMap.GetUnique | src/contexts/ArmorContext.jsx:88 | with distinct keys, looking up an entry's key finds that entry's value |
| ArmorContext.WithToggled | src/contexts/ArmorContext.jsx:12-36 | the requirement becomes the negation of its truthiness, absent counting as false; every other requirement and step is unchanged |
| ArmorContext.WithCompleted | src/contexts/ArmorContext.jsx:63-81 | the step becomes complete; every other flag is unchanged |
| ArmorContext.WithAdvancedTier | src/contexts/ArmorContext.jsx:84-101 | with a truthy next tier, the pointer of the reverse-resolved base becomes it and no other pointer changes; otherwise nothing changes; well-formed tiers stay well-formed |
| ArmorContext.WithoutStep | src/contexts/ArmorContext.jsx:104-110 | the step's progress reads empty afterwards; every other step keeps its progress |
| ArmorContext.WithoutItem | src/contexts/ArmorContext.jsx:115-130 | exactly the item's steps are deleted and every other entry keeps its value |
| ArmorContext.WithoutTier | src/contexts/ArmorContext.jsx:133-148 | a truthy pointer under the name is deleted, a falsy one left; every other pointer is unchanged |
| ArmorContext.EngineKey | src/contexts/ArmorContext.jsx:48 | a string requirement is its own key; an object requirement's key is its item, then `_`, then the shortest decimal text that parses back to its quantity (by CanonicalUnique, exactly `${quantity}`) |
| ArmorContext.CompletedCount | src/contexts/ArmorContext.jsx:44-53 | at most one count per requirement |
| ArmorContext.Percent | src/contexts/ArmorContext.jsx:55 | the percentage lies in [0, 100] and is 0 for an empty list |
| ArmorContext.CompletedCountFull | src/contexts/ArmorContext.jsx:47-53 | the count equals the list length exactly when every key is truthy |
| ArmorContext.CompletedCountZero | src/contexts/ArmorContext.jsx:47-53 | the count is 0 exactly when no key is truthy |
| ArmorContext.ScaledRatio | src/contexts/ArmorContext.jsx:55 | c/t·100 is 100 exactly at c = t and 0 exactly at c = 0 |
| ArmorContext.ScaledRatioMonotone | src/contexts/ArmorContext.jsx:55 | the scaled ratio grows with c |
| ArmorContext.PercentFullIff | src/contexts/ArmorContext.jsx:42-56 | for a non-empty list the percentage is 100 exactly when every requirement key is truthy |
| ArmorContext.PercentZeroIff | src/contexts/ArmorContext.jsx:42-56 | for a non-empty list the percentage is 0 exactly when no requirement key is truthy |
| ArmorContext.CompletedCountMonotone | src/contexts/ArmorContext.jsx:47-53 | more truthy keys never lower the count |
| ArmorContext.PercentMonotone | src/contexts/ArmorContext.jsx:42-56 | more truthy keys never lower the percentage |
| ArmorContext.ToggleTwiceRestoresTruthiness | src/contexts/ArmorContext.jsx:12-36 | two toggles restore the requirement's truthiness and change nothing else |
| ArmorContext.ResetClearsItem | src/contexts/ArmorContext.jsx:113-130 | after a reset every step of the item reads empty progress and not complete |
| ArmorContext.ResetKeepsOtherItems | src/contexts/ArmorContext.jsx:113-130 | a reset leaves every other item's steps as they were |
| ArmorContext.AdvanceResolvesBase | src/contexts/ArmorContext.jsx:84-101 | with `Item A` pointing at `Item B`, completing `Item B` towards `Item C` moves `Item A`'s pointer |
| ArmorContext.AdvanceTakesFirstKey | src/contexts/ArmorContext.jsx:88 | when two bases point at the same name, the first in insertion order is advanced |
| ArmorContext.ArmorProvider.constructor | src/contexts/ArmorContext.jsx:8-10 | the three trees start from the stored values |
| ArmorContext.ArmorProvider.GetStepProgress | src/contexts/ArmorContext.jsx:38-40 | the stored progress object of the step, or `{}` when the step is absent |
| ArmorContext.ArmorProvider.IsUpgradeComplete | src/contexts/ArmorContext.jsx:58-60 | true exactly when the step's completion flag is stored and true |
| ArmorContext.ArmorProvider.ToggleRequirement | src/contexts/ArmorContext.jsx:12-36 | the progression becomes WithToggled of the old one; the other trees are untouched; the requirement's truthiness flips |
| ArmorContext.ArmorProvider.CalculateProgress | src/contexts/ArmorContext.jsx:42-56 | the loop's result is Percent of the step's progress |
| ArmorContext.ArmorProvider.CompleteUpgrade | src/contexts/ArmorContext.jsx:62-111 | the three trees become WithCompleted, WithAdvancedTier and WithoutStep of the old ones; the step then reads complete with empty progress |
| ArmorContext.ArmorProvider.ResetProgress | src/contexts/ArmorContext.jsx:113-149 | the three trees become WithoutItem, WithoutItem and WithoutTier of the old ones; every step of the item reads the defaults |
| ArmorData.FindType | src/data/armorData.js:11 | the found entry has the id; none is found only when no entry has it |
| ArmorData.GetArmorTypeLabel | src/data/armorData.js:10-13 | a known id gives its entry's name, any other input is returned as it is |
| ArmorData.IsValidSlot | src/data/armorData.js:15 | the valid slots are exactly Head, Body, Hands, Legs, Feet |
| ArmorData.IsValidArmorType | src/data/armorData.js:17 | the valid types are exactly Artifact, Relic, Empyrean |
| ArmorData.LabelIsIdentity | src/data/armorData.js:4-13 | every label equals its id, so the label of any input is the input |
| UseArmorData.JoinAppend | src/hooks/useArmorData.js:134 | joining one more part appends the separator and the part |
| UseArmorData.RequirementTexts | src/hooks/useArmorData.js:132-133 | one `${quantity}x ${item}` text per requirement, in order |
| UseArmorData.RequirementsText | src/hooks/useArmorData.js:132-134 | no requirement gives `''`, one gives its own text |
| UseArmorData.RequirementsTextAppend | src/hooks/useArmorData.js:132-134 | one more requirement appends `, ` and its text |
| UseArmorData.StepFrom | src/hooks/useArmorData.js:132-141 | a step keeps the path's name, carries the joined requirement texts, and keeps a present URL and icon URL, `''` otherwise |
| UseArmorData.UpgradePathOf | src/hooks/useArmorData.js:127-145 | one step per upgrade path, in order, none when the record has no paths |
| UseArmorData.BuildUpgradePath | src/hooks/useArmorData.js:127-145 | the push loop builds exactly UpgradePathOf |
| UseArmorData.Validate | src/hooks/useArmorData.js:93-113 | a record is accepted exactly when job, slot and name are truthy, the job is listed and the slot is one of the five |
| UseArmorData.EntryFor | src/hooks/useArmorData.js:148-154 | the stored entry has the record's name as base, tier 0, its upgrade path, and the record's URL and icon URL when present, `''` otherwise |
| UseArmorData.ProcessRecord | src/hooks/useArmorData.js:86-164 | a rejected record changes nothing; an accepted one creates its job level and exactly its own type level under it (no other job or type appears), only a tier-0 record stores its slot entry, and every other (job, type) keeps its slots |
| UseArmorData.ProcessRecordWellFormed | src/hooks/useArmorData.js:93-154 | the index holds only listed jobs and the five slots, with tier-0 entries that have a non-empty base |
| UseArmorData.ProcessRecordsWellFormed | src/hooks/useArmorData.js:86-175 | well-formedness holds after any sequence of records |
| UseArmorData.LaterBaseRecordWins | src/hooks/useArmorData.js:148-154 | of two tier-0 records for one slot, the later one is stored |
| UseArmorData.LoadArmorType | src/hooks/useArmorData.js:86-175 | the in-place `forEach` builds exactly the fold ProcessRecords |
| UseArmorData.SlotListsAgree | src/hooks/useArmorData.js:5 | the loader's slot list equals the data module's |
| ArmorList.SlotOrder | src/components/ArmorList.jsx:32-38 | a slot has a rank in 1..5 exactly when it is one of the five slots |
| ArmorList.OfJobMembers | src/components/ArmorList.jsx:30 | the job filter keeps exactly the records of that job |
| ArmorList.ListError | src/components/ArmorList.jsx:42-44 | an error message is set exactly when the list is empty |
| ArmorList.BlockMembers | src/components/ArmorList.jsx:31-40 | a rank block holds exactly the records of that rank |
| ArmorList.ConcatSorted | src/components/ArmorList.jsx:31-40 | joining two sorted runs whose ranks meet at a boundary gives a sorted list |
| ArmorList.SortFromSorted | src/components/ArmorList.jsx:31-40 | the blocks from rank k on are sorted and hold only ranks of at least k |
| ArmorList.SortBySlotSorted | src/components/ArmorList.jsx:31-40 | the sorted list runs Head < Body < Hands < Legs < Feet |
| ArmorList.SortFromCons | src/components/ArmorList.jsx:31-40 | one more record adds it to exactly one block |
| ArmorList.SortBySlotPermutes | src/components/ArmorList.jsx:31-40 | sorting only reorders: same multiset of records |
| ArmorList.ListedRecordsSpec | src/components/ArmorList.jsx:29-40 | the list is a permutation of the job's records, holds exactly the records of that job, and is in slot order |
| ArmorList.BlockConcat | src/components/ArmorList.jsx:31-40 | filtering a concatenation filters each part |
| ArmorList.BlockOfBlock | src/components/ArmorList.jsx:31-40 | filtering a block by its own rank keeps it; by another rank empties it |
| ArmorList.SortFromStable | src/components/ArmorList.jsx:31-40 | each rank's records keep their order through the blocks from rank k on |
| ArmorList.SortBySlotStable | src/components/ArmorList.jsx:31-40 | the sort is stable: each slot's records keep their relative order |
| ArmorList.FindSlot | src/components/ArmorList.jsx:78-79 | the found record is the first with the slot; none is found only when no record has it |
| ArmorList.FindSlotIsFirstOfBlock | src/components/ArmorList.jsx:78 | the first record of a slot is the head of that slot's block |
| ArmorList.SlotBaseIsFirstInCatalog | src/components/ArmorList.jsx:29-79 | each slot's base record is its first record in the job's catalog order, sorted or not |
| ArmorList.ExactMatch | src/components/ArmorList.jsx:86-90 | the match is the first record with the slot, the job and the pointed-to name; none exists only when no record has all three |
| Catalog.FirstPathNamed | src/components/ArmorList.jsx:98 | the found path is the first with the name; none is found only when no path has it |
| ArmorList.PendingPaths | src/components/ArmorList.jsx:106 | no paths give none; one path is kept exactly when it is not complete under the carrier's own name; never more paths than given |
| ArmorList.PendingPathsMembers | src/components/ArmorList.jsx:106 | exactly the paths not complete under the carrier's own name remain |
| ArmorList.PendingPathsConcat | src/components/ArmorList.jsx:106 | filtering a concatenation filters each part, so the paths keep their order and repetitions |
| ArmorList.Renamed | src/components/ArmorList.jsx:100-107 | the copy takes the path's name, URL and LinkURL, keeps the carrier's job, slot, tier and description, and its paths are the carrier's paths filtered by PendingPaths, in order: exactly those not complete under the carrier's own name |
| ArmorList.UpgradeCarrier | src/components/ArmorList.jsx:96-111 | the carrier is built from the first same-slot, same-job record that has a path named after the pointer, renamed through that path; none only when no such record exists |
| ArmorList.SlotItem | src/components/ArmorList.jsx:78-113 | a slot shows an item exactly when it has a base record; without a truthy pointer the base is shown; with one, the exact match if any, else the carrier if any, else still the base |
| ArmorList.FindUpgradeCarrier | src/components/ArmorList.jsx:96-111 | the loop with `break` returns exactly UpgradeCarrier |
| ArmorList.ResolveSlotItem | src/components/ArmorList.jsx:76-113 | the reassignments of `item` end in exactly SlotItem |
| ArmorList.CompletedTierIsDisplayed | src/components/ArmorList.jsx:78-111 | after completing a base item's upgrade to one of its paths, the slot displays that tier |
| ArmorItem.NamedRequirementAgrees | src/components/ArmorItem.jsx:193-197 | a string requirement is read under the engine's key, complete exactly when the engine counts it |
| ArmorItem.RequirementKey | src/components/ArmorItem.jsx:193 | a string requirement is keyed by itself, as the engine keys it; an object one by its item, a strict prefix of the engine's key |
| ArmorItem.RequiredQuantity | src/components/ArmorItem.jsx:194 | 1 for a string requirement, the quantity for an object one |
| ArmorItem.IsRequirementComplete | src/components/ArmorItem.jsx:195-197 | a single requirement is complete exactly when its stored count is non-zero, a multi one when the count reaches the quantity |
| ArmorItem.ObjectRequirementKeysDiffer | src/components/ArmorItem.jsx:193 | an object requirement's card key `item` never equals the engine's `item_quantity` |
| ArmorItem.OnCheckboxChange | src/components/ArmorItem.jsx:198-205 | a single requirement is toggled; a multi one is set to its quantity when checked and to 0 when unchecked; both address the path's step |
| ArmorItem.SingleCheckboxFlips | src/components/ArmorItem.jsx:198-201 | through the engine's toggle, a single requirement's checkbox flips its completeness and touches no other step |
| ArmorItem.OnButtonPress | src/components/ArmorItem.jsx:222-245 | no call for a single requirement (no buttons), − none at a count of 0 or less, + none at the quantity; otherwise each calls its operation on the path's step |
| ArmorItem.Press | src/components/ArmorItem.jsx:222-245 | an enabled + raises the count by one, an enabled − lowers it by one, a press with no call changes nothing, and no other requirement changes |
| ArmorItem.PressesStayInRange | src/components/ArmorItem.jsx:222-245 | any sequence of presses on the card's buttons keeps a count that starts in [0, quantity] there |
| ArmorItem.BaseItemName | src/components/ArmorItem.jsx:183-185 | when the first key pointing at the item's name is non-empty, the base is that key; any base other than the name is that first key (never `''`); with no pointing key, the name; none without a name |
| ArmorItem.TiersOfUnique | src/components/ArmorItem.jsx:183 | the tier object of one job and type has distinct keys |
| ArmorItem.BaseNamePointsToItem | src/components/ArmorItem.jsx:183-185 | the resolved base is the item itself or a base whose pointer names it |
| ArmorItem.IncompletePaths | src/components/ArmorItem.jsx:186-187 | no paths give no panels; one path renders exactly when it is incomplete; never more panels than paths |
| ArmorItem.IncompletePathsMembers | src/components/ArmorItem.jsx:186-187 | exactly the incomplete paths render a panel |
| ArmorItem.IncompletePathsConcat | src/components/ArmorItem.jsx:186-187 | filtering a concatenation filters each part, so the panels keep the catalog's order and repetitions |
| ArmorItem.RenderAllUpgradePaths | src/components/ArmorItem.jsx:175-187 | nothing renders exactly when there are no paths or all are complete; otherwise the panels are IncompletePaths of the item's paths, in order, and exactly the incomplete ones |
| ArmorItem.PanelFor | src/components/ArmorItem.jsx:188-265 | the panel shows the engine's Percent of the (path, path) step's progress over the path's requirements, in [0, 100]; the button appears exactly at 100 and completes (base, path) with the path as next tier |
| ArmorItem.CompleteButtonIffAllSet | src/components/ArmorItem.jsx:189-258 | the button appears exactly when the path has requirements and the engine finds all their keys set |
| ArmorItem.CompleteClickAdvancesBase | src/components/ArmorItem.jsx:260 | applied by the engine, the click moves the base item's pointer to the path |
| ArmorItem.CompleteClickUnseenByCard | src/components/ArmorItem.jsx:186-260 | the click leaves the card's completion flag and progress for the path unchanged when the base and the path differ |
| ArmorItem.CompletedCountIgnoresOtherKeys | src/contexts/ArmorContext.jsx:47-53 | writing a key that no requirement's engine key equals leaves the count unchanged |
| ArmorItem.SingleObjectTickNotCounted | src/components/ArmorItem.jsx:198-201 | ticking an object requirement of quantity 1 flips it on the card and leaves the percentage unchanged |
| ArmorItem.TickedSealStaysAtZero | src/components/ArmorItem.jsx:189-201 | a path needing `{item: "Beastman Seal", quantity: 1}` shows it ticked and stays at 0% |
| ArmorItem.ResetCall | src/components/ArmorItem.jsx:297-303 | Reset resets the resolved base name, not the displayed one, under the item's job and type; an unnamed item resets the key "undefined" |
| ArmorItem.ResetRemovesBasePointer | src/components/ArmorItem.jsx:297-303 | on an upgraded item, Reset targets the base pointing at it and the engine deletes that pointer |
| ArmorItem.ResetByDisplayedNameKeepsTiers | src/contexts/ArmorContext.jsx:133-148 | a reset by a name that is no base's key leaves the tiers as they were |
| ArmorItem.CurrentUpgradePath | src/components/ArmorItem.jsx:276-284 | the first path named like the item, else the first path; none without paths (the component computes it but renders nothing from it) |
| ArmorPieceCard.CurrentUpgrade | src/components/ArmorPieceCard.jsx:15 | the step at the tier index, present exactly when data, the array and the index all are |
| ArmorPieceCard.CurrentRequirements | src/components/ArmorPieceCard.jsx:18 | the current step's list, or the empty list when the step or its list is absent |
| ArmorPieceCard.CanUpgrade | src/components/ArmorPieceCard.jsx:22-23 | `canUpgrade` holds exactly when there is a requirement and the capped completed total reaches the required total |
| ArmorPieceCard.TotalRequired | src/components/ArmorPieceCard.jsx:26 | with positive quantities the total is positive exactly when there is a requirement |
| ArmorPieceCard.TotalCompleted | src/components/ArmorPieceCard.jsx:27 | each contribution is capped at its quantity, so the completed total never exceeds the required total |
| ArmorPieceCard.ProgressPercentage | src/components/ArmorPieceCard.jsx:28 | 0 when nothing is required; otherwise percentage × required = completed × 100 |
| ArmorPieceCard.CompletedNonNegative | src/components/ArmorPieceCard.jsx:27 | with non-negative counts and quantities the completed total is non-negative |
| ArmorPieceCard.PercentageInRange | src/components/ArmorPieceCard.jsx:26-28 | with non-negative counts and quantities the percentage lies in [0, 100] |
| ArmorPieceCard.CompletedEqualsRequiredIff | src/components/ArmorPieceCard.jsx:23-27 | completed equals required exactly when every requirement is met |
| ArmorPieceCard.FullIffCanUpgrade | src/components/ArmorPieceCard.jsx:22-28 | with positive quantities and a non-empty list, the bar is full exactly when `canUpgrade` holds |
| ArmorPieceCard.PathsFrom | src/components/ArmorPieceCard.jsx:31 | none without data; otherwise StepsFrom of the upgrade steps, in order: exactly the paths whose `fromTier` is the current tier |
| ArmorPieceCard.StepsFrom | src/components/ArmorPieceCard.jsx:31 | no steps give none; one step is kept exactly when it leaves the tier; never more steps than given |
| ArmorPieceCard.StepsFromMembers | src/components/ArmorPieceCard.jsx:31 | the filter keeps exactly the steps leaving the tier |
| ArmorPieceCard.StepsFromConcat | src/components/ArmorPieceCard.jsx:31 | filtering a concatenation filters each part, so the steps keep their order and repetitions |
| ArmorPieceCard.PathViewFor | src/components/ArmorPieceCard.jsx:77-115 | the upgrade button, to the path's `toTier`, appears exactly when all the path's requirements are met |
| ArmorPieceCard.PathViews | src/components/ArmorPieceCard.jsx:75-79 | no paths give no panels; one path gets its panel exactly when it is not flagged completed; never more panels than paths |
| ArmorPieceCard.PathViewsMembers | src/components/ArmorPieceCard.jsx:75-79 | exactly the paths not flagged completed get a panel |
| ArmorPieceCard.PathViewsConcat | src/components/ArmorPieceCard.jsx:75-79 | the panels of a concatenation are the panels of each part, so they appear in the paths' order |
| ArmorPieceCard.Render | src/components/ArmorPieceCard.jsx:14-124 | nothing without data; "Max tier reached" exactly when no path leaves the tier; the base name at tier 0; the bar's value and `canUpgrade` from the current requirements; one panel per path leaving the tier that is not flagged completed |

## Left out

- Fetching, JSON parsing, retries, timestamps, `debug` state and console logging. The loader is modelled over an already-parsed array of records.
- Persistence: the three trees are kept in a store defined outside the modelled files (src/hooks/useLocalStorage is not part of this model). The model takes the stored trees as the constructor's arguments.
- React state batching and rendering. This covers JSX, CSS, image loading and error state, and `Math.round` of the displayed percentage.
- The character registry and the migration of legacy state. Neither is defined in the modelled files. The provider in src/contexts/ArmorContext.jsx:152-161 supplies no `characters`, so as written the list always renders "No character selected" (src/components/ArmorList.jsx:63-69); the modelled list view is the one the component renders once a registry provides characters.
- The count operations (`setRequirementCount`, `incrementRequirementCount`, `decrementRequirementCount`), `getCurrentTier` and `upgradeToNextTier`. They are called but not defined in these files, so the card functions return the call, and the slot card takes the tier as a parameter.
- ArmorItem.Press: takes the engine's increment and decrement to move the stored count by exactly one (ArmorItem.AfterCall). Those operations are not defined in these files.
- ArmorItem.PressesStayInRange: rests on the same assumption about increment and decrement.
- `delete` on nested objects shared with the previous state (aliasing in `completeUpgrade` and `resetProgress`). Each operation is modelled as a replacement of whole trees.
- Percentages are exact reals. IEEE rounding of `c / t * 100`, and numbers of 1e21 or more turning into exponent notation in `${quantity}`, are not modelled.
- Quantities and counts are integers. Fractional or non-numeric stored values are not modelled, and neither are non-string catalog fields.
- Object requirements are assumed to carry an `item` string. A requirement list is assumed present where the source calls `.every` or `.map` on it, and the model reads a missing list as empty.
- Keys inherited from `Object.prototype` are not modelled. Neither is the reordering JavaScript applies to integer-like object keys (tier objects use item names).
- ArmorList.SortBySlot: agrees with the source only when every record of the job has one of the five slots. A record with any other slot makes the comparator return NaN, which the sort treats as 0, so the comparator is inconsistent and the order of the whole list is implementation-defined (an engine may, for instance, leave `[Feet, X, Head]` as it is). The model places such records after Feet. SortBySlotSorted, ListedRecordsSpec, SortBySlotStable and SlotBaseIsFirstInCatalog describe the source only for job lists whose records all have one of the five slots.
- A missing field used as a key becomes the key "undefined". A missing name passed to `completeUpgrade` is modelled as the text "undefined", which differs from JavaScript only if some pointer's value is that exact text.
- The slot card's input data (ArmorPieceCard.CardData) is a parameter whose shape is taken from the card's own reads: requirement objects `{item, quantity}` and `fromTier`, `toTier`, `completed` on each step (src/components/ArmorPieceCard.jsx:14-31). It does not match the loader's entries, whose steps carry the requirements as joined text (or `undefined`) and no `fromTier`, `toTier` or `completed` (src/hooks/useArmorData.js:131-141). The supplier `getArmorForJobAndType` that ArmorDisplay.jsx calls is not defined by the provider. So as written, loader entries reaching the card would make `.every` on a non-empty requirements string throw, and the `fromTier` filter would always leave "Max tier reached"; the model states the card's behaviour on data of the shape it reads.
- Other UI and configuration files are not part of this model: App.jsx, ArmorDisplay.jsx, JobSelector.jsx, ArmorTypeSelector.jsx, CharacterSelector.jsx and vite.config.js.
