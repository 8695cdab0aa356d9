# StaticDataContainer — a verified model

The inventory changer keeps a read-only catalog of game items (skins, gloves,
stickers, music kits, graffiti, sealed graffiti and patches) in
`StaticDataContainer`. The catalog is built once:

- the item vector is sorted by weaponID, and skins/gloves of one weaponID by paint-kit id (`sorted`);
- the constructor then copies the sticker run of that vector into a second
  vector, `tournamentStickersSorted`, and sorts it by tournament, team,
  player, golden-before-plain and rarity descending.

Every query afterwards is a binary or linear search over those two vectors.
This project models the catalog and proves that the searches answer what they
promise on the order the construction establishes.

Files:

- `game_items.dfy` (module `GameItems`): the item, its kind and the kit fields
  the storage accessors would return; the weaponID and team constants.
- `algorithms.dfy` (module `Algorithms`): the halving search behind
  `std::lower_bound`/`std::upper_bound` (`PartitionPoint`), `std::find`
  (`Find`), and an in-place sort on an array (`SortInPlace`) proved to return a
  permutation ordered by a lexicographic key.
- `static_data_container.dfy` (module `StaticData`): the two comparators,
  `sorted` and the constructor as methods over arrays, and the container as an
  immutable value with every query as a function.
- `catalog_properties.dfy` (module `CatalogProperties`): properties that
  relate construction and several queries.

The container is a datatype value: after construction the C++ class never
changes its fields, so the state change lives in `Sorted` and `Build`, which
sort arrays in place. The index holds positions in the item vector where the
C++ vector holds `reference_wrapper`s.

## Model

| member | source | states |
|---|---|---|
| `Algorithms.PartitionPoint` | Osiris/InventoryChanger/StaticDataContainer.h:54-60 | the halving search of lower_bound/upper_bound (also behind equal_range, the team and paint-kit lower bounds and getItem(weaponID)) always stops inside the searched range |
| `StaticData.SortedBefore` | Osiris/InventoryChanger/StaticDataContainer.h:163-167 | `sorted`'s comparator orders by weaponID first: a smaller weaponID always sorts before, and nothing sorts before an item of a smaller weaponID; the full order is stated by `SortedBeforeIsKeyOrder` |
| `StaticData.StickerBefore` | Osiris/InventoryChanger/StaticDataContainer.h:28-42 | the index comparator orders by tournament first: a smaller tournamentID always sorts before, and nothing sorts before a sticker of a smaller tournamentID; the full order is stated by `StickerBeforeIsKeyOrder` |
| `StaticData.SortedBeforeIsKeyOrder` | Osiris/InventoryChanger/StaticDataContainer.h:163-167 | on items whose weaponID runs are uniform, `sorted`'s comparator is the strict order of the key (weaponID, paint kit for skins/gloves) |
| `StaticData.MixedRunBreaksStrictWeakOrder` | Osiris/InventoryChanger/StaticDataContainer.h:163-167 | there is a mixed run on which the comparator is no strict weak order: a plain item is equivalent to two skins of its weaponID with different paint kits, which are ordered apart |
| `StaticData.Sorted` | Osiris/InventoryChanger/StaticDataContainer.h:161-169 | the result is a permutation of the input; weaponID never decreases, and between skins/gloves of one weaponID the paint kit never decreases |
| `Algorithms.SortInPlace` | Osiris/InventoryChanger/StaticDataContainer.h:163 | sorting with a comparator that is a key's strict order permutes the array and leaves it ordered by that key |
| `Algorithms.InsertLast` | Osiris/InventoryChanger/StaticDataContainer.h:163 | one insertion step keeps the array's elements and extends the ordered prefix by one |
| `StaticData.StickerBeforeIsKeyOrder` | Osiris/InventoryChanger/StaticDataContainer.h:28-42 | the index comparator is the lexicographic order of (tournament, team, player, golden first, rarity descending) |
| `StaticData.StickersOrderedLevels` | Osiris/InventoryChanger/StaticDataContainer.h:33-41 | in an index ordered by that comparator each level is non-decreasing among entries that tie on all earlier levels |
| `StaticData.IndexOrderIsKeyOrder` | Osiris/InventoryChanger/StaticDataContainer.h:28-42 | on the positions of the sticker run, comparing positions by their stickers is the key order the sort needs |
| `StaticData.SortedIndexIsOrdered` | Osiris/InventoryChanger/StaticDataContainer.h:25-42 | a key-sorted permutation of the sticker run's positions points into the item vector and is in comparator order |
| `StaticData.Build` | Osiris/InventoryChanger/StaticDataContainer.h:23-43 | the built container holds a permutation of the input items, sorted as above, and an index that is a permutation of the sticker run's positions in comparator order; when every item of the Sticker weaponID is a sticker (the assert the comparator makes), every indexed item is a sticker |
| `CatalogProperties.IndexIsStickerRun` | Osiris/InventoryChanger/StaticDataContainer.h:25-26 | every index entry is a sticker's position, every sticker is indexed, the index is as long as the sticker run, and no stickers give an empty index |
| `StaticData.StaticDataContainer.FindItems` | Osiris/InventoryChanger/StaticDataContainer.h:11-19 | the returned range holds exactly the positions whose item has that weaponID |
| `Algorithms.PartitionPointSplits` | Osiris/InventoryChanger/StaticDataContainer.h:54-60 | on a partitioned range the halving search stops where the predicate stops holding |
| `Algorithms.PartitionPointMonotone` | Osiris/InventoryChanger/StaticDataContainer.h:18 | a narrower predicate's partition point is not after a wider one's, so lower bound ≤ upper bound |
| `Algorithms.Find` | Osiris/InventoryChanger/StaticDataContainer.h:156 | the first position in the range whose element matches, or the range's end when none matches |
| `StaticData.StaticDataContainer.GetTournamentStickers` | Osiris/InventoryChanger/StaticDataContainer.h:51-63 | the returned index range holds exactly the index positions of that tournament's stickers |
| `CatalogProperties.TournamentRangeIsTournamentStickers` | Osiris/InventoryChanger/StaticDataContainer.h:51-63 | on a built container that range refers to exactly the sticker items of that tournament in the item vector |
| `StaticData.StaticDataContainer.GetTournamentEventStickerID` | Osiris/InventoryChanger/StaticDataContainer.h:66-79 | tournament 1 gives a value in [1, 12], 3 gives 99 or 100, 4 gives 172; any other gives the kit id of its first sticker in index order, or 0 when it has none |
| `StaticData.StaticDataContainer.GetTournamentTeamGoldStickerID` | Osiris/InventoryChanger/StaticDataContainer.h:81-99 | 0 for tournament 0 or no team; 1315 and 1316 for the two all-star teams; otherwise the kit id of the first sticker in index order of that tournament and team, or 0 |
| `StaticData.TeamLowerBound` | Osiris/InventoryChanger/StaticDataContainer.h:93-95 | inside one tournament's range the lower bound by team lands on the first sticker of that team whenever one exists |
| `StaticData.TeamLowerBoundFindsFirst` | Osiris/InventoryChanger/StaticDataContainer.h:93-98 | because team is the second sort level, the team partition point of a tournament's range is its first sticker of that team |
| `StaticData.StaticDataContainer.GetTournamentPlayerGoldStickerID` | Osiris/InventoryChanger/StaticDataContainer.h:101-106 | the kit id of the first sticker in index order with that tournament and player, or 0 when there is none |
| `CatalogProperties.PlayerGoldStickerIsStored` | Osiris/InventoryChanger/StaticDataContainer.h:101-106 | on a built container a nonzero answer is the kit id of a stored sticker of that tournament and player, and when one is stored the answer is one of their kit ids |
| `StaticData.StaticDataContainer.GetItem` | Osiris/InventoryChanger/StaticDataContainer.h:108-117 | none when the weaponID's items are not skins/gloves; found exactly when a skin/glove of that weaponID and paint kit exists, and then the first one |
| `StaticData.PaintKitLowerBound` | Osiris/InventoryChanger/StaticDataContainer.h:114 | inside a skin/glove run the lower bound by paint kit lands on the first item of that paint kit whenever one exists |
| `StaticData.PaintKitLowerBoundFindsFirst` | Osiris/InventoryChanger/StaticDataContainer.h:114 | in a uniform run ordered by paint kit, the paint-kit partition point is the run's first item of that paint kit |
| `StaticData.StaticDataContainer.GetItemByWeaponId` | Osiris/InventoryChanger/StaticDataContainer.h:119-124 | found exactly when some item's weaponID is not below the argument, and then it is the first such item |
| `CatalogProperties.GetItemByWeaponIdIgnoresEquality` | Osiris/InventoryChanger/StaticDataContainer.h:121 | the weaponID is never compared: a catalog holding only a larger weaponID still answers with that item |
| `StaticData.StaticDataContainer.FindItem` | Osiris/InventoryChanger/StaticDataContainer.h:152-159 | found exactly when an item of that weaponID projects to the value, and then the first such item |
| `StaticData.StaticDataContainer.GetMusic` | Osiris/InventoryChanger/StaticDataContainer.h:126-129 | found exactly when a music kit item with that id exists, and then it is the first one in the item vector |
| `StaticData.StaticDataContainer.GetSticker` | Osiris/InventoryChanger/StaticDataContainer.h:131-134 | found exactly when a sticker with that kit id exists, and then it is the first one in the item vector |
| `StaticData.StaticDataContainer.GetGraffiti` | Osiris/InventoryChanger/StaticDataContainer.h:136-139 | found exactly when a graffiti with that id exists, and then it is the first one in the item vector |
| `StaticData.StaticDataContainer.GetSealedGraffiti` | Osiris/InventoryChanger/StaticDataContainer.h:141-144 | found exactly when a sealed graffiti with that id exists, and then it is the first one in the item vector |
| `StaticData.StaticDataContainer.GetPatch` | Osiris/InventoryChanger/StaticDataContainer.h:146-149 | found exactly when a patch with that id exists, and then it is the first one in the item vector |
| `CatalogProperties.StoredItemsAreFound` | Osiris/InventoryChanger/StaticDataContainer.h:108-159 | every stored item is found by the kit lookup of its kind and, if a skin/glove, by getItem with its paint kit; getItem by its weaponID returns an item of that weaponID |

## Left out

- `Helpers::random` (lines 69 and 71) is a parameter `random` of `GetTournamentEventStickerID`, required to return a value in [lo, hi]; no generator is modelled.
- `StaticDataStorage` and its kit accessor tables (`getPaintKit`, `getStickerKit`, `getMusicKit`, `getGraffitiKit`, `getPatchKit`, `getGameItems`) are not part of this model: each item carries the kit fields those accessors would return.
- The numeric values of `WeaponId` and `TournamentTeam` are not part of this model: they are constants of unknown value, and teams are compared as integers.
- `tournamentID` is `std::uint32_t` in the source and a `nat` here. Kit ids, player ids and rarities are unbounded integers. No wrap-around can occur because the code does no arithmetic on them.
- StaticData.Sorted: requires that each weaponID run is all skins/gloves or has none. Then the comparator is the strict weak order `std::ranges::sort` needs; `MixedRunBreaksStrictWeakOrder` shows a mixed run where it is not. The condition is sufficient, not necessary: it also excludes mixed runs on which the comparator is still a strict weak order (a plain item beside skins/gloves that all share one paint kit). Those inputs are not modelled.
- StaticData.Build: requires uniform runs, for the same reason as `Sorted`, and so also leaves out the harmless mixed runs.
- StaticData.StaticDataContainer.GetItem: requires uniform runs. The constructor does not establish them: `Build` requires them of its input, and sorting keeps them (`UniformRunsPermutation`). On a mixed run the source checks only the run's first item (line 111). With a plain item first it returns none even when a matching skin exists. That case is not modelled.
- The sorts are modelled by insertion sort. Only the order and the permutation are promised, not the tie order of the unstable `std::ranges::sort`.
- `std::equal_range` is modelled as the pair (lower bound, upper bound). On a partitioned range this gives the same answer.
- `reference_wrapper` and `std::optional` become positions and `Option`. Lifetimes are not modelled.
- The `assert` at line 29 becomes a precondition of `Build`: every item of the Sticker weaponID is a sticker. This is slightly stronger than the assert, which never sees a sticker run of a single item because the sort does not compare it. `Build` then ensures that every indexed item is a sticker. `Valid` does not carry this, so the query lemmas do not rely on it.
- `getStorage`, the default constructor, and thread safety are not modelled. The class has no concurrency.
