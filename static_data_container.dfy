/** The catalog index over game items: built once by sorting the items and
    deriving an index of the tournament stickers, then queried read-only. */
module StaticData {
  import opened GameItems
  import opened Algorithms

  // ---------------------------------------------------------------------------
  // Order of the item vector (`sorted`)
  // ---------------------------------------------------------------------------

  /** The comparator `sorted` hands to std::ranges::sort: paint kit between two
      skins/gloves of one weaponID, weaponID otherwise. */
  predicate SortedBefore(a: Item, b: Item)
    ensures SortedBefore(a, b) ==> a.weaponID <= b.weaponID
    ensures a.weaponID < b.weaponID ==> SortedBefore(a, b)
  {
    if a.weaponID == b.weaponID && a.HasPaintKit() && b.HasPaintKit() then a.paintKit < b.paintKit
    else a.weaponID < b.weaponID
  }

  /** Every weaponID run is all skins/gloves or holds none of them. Then
      SortedBefore is a strict weak order, as std::sort requires. The
      condition is sufficient, not necessary: a plain item beside skins that
      all share one paint kit is harmless too. */
  ghost predicate UniformRuns(s: seq<Item>)
  {
    forall i, j :: 0 <= i < |s| && 0 <= j < |s| && s[i].weaponID == s[j].weaponID ==>
      s[i].HasPaintKit() == s[j].HasPaintKit()
  }

  /** The key SortedBefore compares on items of uniform runs. */
  function ItemKey(x: Item): Key
  {
    Key(x.weaponID, if x.HasPaintKit() then x.paintKit else 0, 0, 0, 0)
  }

  lemma SortedBeforeIsKeyOrder(x: Item, y: Item)
    requires x.weaponID == y.weaponID ==> x.HasPaintKit() == y.HasPaintKit()
    ensures SortedBefore(x, y) <==> KeyLess(ItemKey(x), ItemKey(y))
  {
  }

  /** A mixed run on which SortedBefore is no strict weak order: a plain item
      is equivalent to two skins of its weaponID with different paint kits,
      which are ordered apart. */
  lemma MixedRunBreaksStrictWeakOrder(w: WeaponId)
    ensures exists a: Item, b: Item, c: Item ::
              && a.weaponID == w && b.weaponID == w && c.weaponID == w
              && !SortedBefore(a, b) && !SortedBefore(b, a)
              && !SortedBefore(b, c) && !SortedBefore(c, b)
              && SortedBefore(a, c)
  {
    var kit := StickerKit(0, 0, TeamNone, 0, false);
    var a := Item(w, Skin, 0, 1, kit, 0, 0, 0);
    var b := Item(w, Other, 0, 0, kit, 0, 0, 0);
    var c := Item(w, Skin, 0, 2, kit, 0, 0, 0);
    assert !SortedBefore(a, b) && !SortedBefore(b, a) && !SortedBefore(b, c) && !SortedBefore(c, b);
    assert SortedBefore(a, c);
  }

  /** The order of the item vector: weaponID ascending, and paint kit
      ascending between skins/gloves of one weaponID. */
  ghost predicate ItemsSorted(s: seq<Item>)
  {
    forall i, j :: 0 <= i < j < |s| ==>
      && s[i].weaponID <= s[j].weaponID
      && (s[i].weaponID == s[j].weaponID && s[i].HasPaintKit() && s[j].HasPaintKit() ==>
            s[i].paintKit <= s[j].paintKit)
  }

  lemma UniformRunsPermutation(s: seq<Item>, t: seq<Item>)
    requires UniformRuns(s) && multiset(s) == multiset(t)
    ensures UniformRuns(t)
  {
    forall i, j | 0 <= i < |t| && 0 <= j < |t| && t[i].weaponID == t[j].weaponID
      ensures t[i].HasPaintKit() == t[j].HasPaintKit()
    {
      assert t[i] in multiset(s) && t[j] in multiset(s);
      var i' :| 0 <= i' < |s| && s[i'] == t[i];
      var j' :| 0 <= j' < |s| && s[j'] == t[j];
    }
  }

  /** `sorted`: the storage's items, sorted in place by SortedBefore. */
  method Sorted(storage: seq<Item>) returns (r: seq<Item>)
    requires UniformRuns(storage)
    ensures multiset(r) == multiset(storage)
    ensures ItemsSorted(r)
  {
    var items := new Item[|storage|](i requires 0 <= i < |storage| => storage[i]);
    assert items[..] == storage;
    forall x, y | x in multiset(items[..]) && y in multiset(items[..])
      ensures SortedBefore(x, y) <==> KeyLess(ItemKey(x), ItemKey(y))
    {
      var i :| 0 <= i < |storage| && storage[i] == x;
      var j :| 0 <= j < |storage| && storage[j] == y;
      SortedBeforeIsKeyOrder(x, y);
    }
    SortInPlace(items, SortedBefore, ItemKey);
    r := items[..];
    forall i, j | 0 <= i < j < |r|
      ensures r[i].weaponID <= r[j].weaponID
      ensures r[i].weaponID == r[j].weaponID && r[i].HasPaintKit() && r[j].HasPaintKit() ==>
                r[i].paintKit <= r[j].paintKit
    {
      assert KeyLe(ItemKey(items[i]), ItemKey(items[j]));
    }
  }

  // ---------------------------------------------------------------------------
  // Order of the tournament sticker index
  // ---------------------------------------------------------------------------

  /** The constructor's comparator for tournamentStickersSorted: tournament,
      then team, then player ascending, golden first, then rarity descending. */
  predicate StickerBefore(a: Item, b: Item)
    ensures StickerBefore(a, b) ==> a.stickerKit.tournamentID <= b.stickerKit.tournamentID
    ensures a.stickerKit.tournamentID < b.stickerKit.tournamentID ==> StickerBefore(a, b)
  {
    var kitA := a.stickerKit;
    var kitB := b.stickerKit;
    if kitA.tournamentID != kitB.tournamentID then kitA.tournamentID < kitB.tournamentID
    else if kitA.tournamentTeam != kitB.tournamentTeam then kitA.tournamentTeam < kitB.tournamentTeam
    else if kitA.tournamentPlayerID != kitB.tournamentPlayerID then kitA.tournamentPlayerID < kitB.tournamentPlayerID
    else if kitA.isGoldenSticker != kitB.isGoldenSticker then kitA.isGoldenSticker
    else a.rarity > b.rarity
  }

  function StickerKey(x: Item): Key
  {
    var kit := x.stickerKit;
    Key(kit.tournamentID, kit.tournamentTeam, kit.tournamentPlayerID,
        if kit.isGoldenSticker then 0 else 1, -x.rarity)
  }

  lemma StickerBeforeIsKeyOrder(x: Item, y: Item)
    ensures StickerBefore(x, y) <==> KeyLess(StickerKey(x), StickerKey(y))
  {
  }

  /** The order of the sticker index: no sticker sorts before one that
      precedes it. */
  ghost predicate StickersOrdered(v: seq<Item>)
  {
    forall i, j :: 0 <= i < j < |v| ==> !StickerBefore(v[j], v[i])
  }

  /** What StickersOrdered means level by level, each level breaking the ties
      of the one before. */
  lemma StickersOrderedLevels(v: seq<Item>, i: nat, j: nat)
    requires StickersOrdered(v) && i < j < |v|
    ensures var a, b := v[i].stickerKit, v[j].stickerKit;
            && a.tournamentID <= b.tournamentID
            && (a.tournamentID == b.tournamentID ==> a.tournamentTeam <= b.tournamentTeam)
            && (a.tournamentID == b.tournamentID && a.tournamentTeam == b.tournamentTeam ==>
                  a.tournamentPlayerID <= b.tournamentPlayerID)
            && (a.tournamentID == b.tournamentID && a.tournamentTeam == b.tournamentTeam &&
                a.tournamentPlayerID == b.tournamentPlayerID && b.isGoldenSticker ==>
                  a.isGoldenSticker)
            && (a.tournamentID == b.tournamentID && a.tournamentTeam == b.tournamentTeam &&
                a.tournamentPlayerID == b.tournamentPlayerID && a.isGoldenSticker == b.isGoldenSticker ==>
                  v[i].rarity >= v[j].rarity)
  {
    assert !StickerBefore(v[j], v[i]);
  }

  // ---------------------------------------------------------------------------
  // The container
  // ---------------------------------------------------------------------------

  /** `storage` is the sorted item vector; `tournamentStickersSorted` holds
      positions in `storage` (where the C++ class holds references). */
  datatype StaticDataContainer = StaticDataContainer(storage: seq<Item>, tournamentStickersSorted: seq<nat>)
  {
    ghost predicate IndicesInRange()
    {
      forall k :: 0 <= k < |tournamentStickersSorted| ==> tournamentStickersSorted[k] < |storage|
    }

    /** The item vector is sorted by `sorted`'s comparator over uniform
        runs. The item queries rely on it. */
    ghost predicate ItemsValid()
    {
      UniformRuns(storage) && ItemsSorted(storage)
    }

    /** The order half of the index's invariant: it points into the item
        vector and the stickers it points to are in StickerBefore order. The
        tournament queries rely on it. */
    ghost predicate StickerIndexOrdered()
    {
      IndicesInRange() && StickersOrdered(TournamentStickers())
    }

    /** Everything construction establishes: the item vector is sorted, and
        the index is a sorted permutation of the positions of the sticker run. */
    ghost predicate Valid()
    {
      && ItemsValid()
      && StickerIndexOrdered()
      && (var (first, last) := FindItems(StickerWeapon);
          multiset(tournamentStickersSorted) == multiset(Interval(first, last)))
    }

    /** The items the index refers to, in index order. */
    function TournamentStickers(): (v: seq<Item>)
      requires IndicesInRange()
      ensures |v| == |tournamentStickersSorted|
      ensures forall k :: 0 <= k < |v| ==> v[k] == storage[tournamentStickersSorted[k]]
    {
      seq(|tournamentStickersSorted|,
          k requires 0 <= k < |tournamentStickersSorted| => storage[tournamentStickersSorted[k]])
    }

    /** `findItems`: the equal range of weaponID, i.e. exactly the positions
        of the items with that weaponID. */
    function FindItems(weaponID: WeaponId): (r: (nat, nat))
      requires ItemsSorted(storage)
      ensures r.0 <= r.1 <= |storage|
      ensures forall i :: 0 <= i < |storage| ==> (r.0 <= i < r.1 <==> storage[i].weaponID == weaponID)
    {
      var before := (x: Item) => x.weaponID < weaponID;
      var notAfter := (x: Item) => !(weaponID < x.weaponID);
      assert Partitioned(storage, 0, |storage|, before);
      assert Partitioned(storage, 0, |storage|, notAfter);
      var first := PartitionPoint(storage, 0, |storage|, before);
      var last := PartitionPoint(storage, 0, |storage|, notAfter);
      PartitionPointSplits(storage, 0, |storage|, before);
      PartitionPointSplits(storage, 0, |storage|, notAfter);
      PartitionPointMonotone(storage, 0, |storage|, before, notAfter);
      (first, last)
    }

    /** `getTournamentStickers`: lower and upper bound of tournamentID in the
        index, i.e. exactly the index positions of that tournament's stickers. */
    function GetTournamentStickers(tournamentID: nat): (r: (nat, nat))
      requires StickerIndexOrdered()
      ensures r.0 <= r.1 <= |tournamentStickersSorted|
      ensures forall k :: 0 <= k < |tournamentStickersSorted| ==>
                (r.0 <= k < r.1 <==> TournamentStickers()[k].stickerKit.tournamentID == tournamentID)
    {
      var v := TournamentStickers();
      var before := (x: Item) => x.stickerKit.tournamentID < tournamentID;
      var notAfter := (x: Item) => !(x.stickerKit.tournamentID > tournamentID);
      assert Partitioned(v, 0, |v|, before) && Partitioned(v, 0, |v|, notAfter) by {
        forall i, j | 0 <= i < j < |v|
          ensures v[i].stickerKit.tournamentID <= v[j].stickerKit.tournamentID
        {
          StickersOrderedLevels(v, i, j);
        }
      }
      var begin := PartitionPoint(v, 0, |v|, before);
      var end := PartitionPoint(v, 0, |v|, notAfter);
      PartitionPointSplits(v, 0, |v|, before);
      PartitionPointSplits(v, 0, |v|, notAfter);
      PartitionPointMonotone(v, 0, |v|, before, notAfter);
      (begin, end)
    }

    /** `getTournamentEventStickerID`. Tournaments 1 and 3 draw from `random`
        (Helpers::random, which returns a value in [lo, hi]); tournament 4 is
        fixed; any other tournament gives the kit id of its first sticker in
        index order, or 0 when it has none. */
    function GetTournamentEventStickerID(tournamentID: nat, random: (int, int) -> int): (r: int)
      requires StickerIndexOrdered()
      requires forall lo, hi :: lo <= hi ==> lo <= random(lo, hi) <= hi
      ensures tournamentID == 1 ==> 1 <= r <= 12
      ensures tournamentID == 3 ==> r == 99 || r == 100
      ensures tournamentID == 4 ==> r == 172
      ensures tournamentID != 1 && tournamentID != 3 && tournamentID != 4 ==>
                var v := TournamentStickers();
                && ((forall k | 0 <= k < |v| :: v[k].stickerKit.tournamentID != tournamentID) ==> r == 0)
                && (forall k | 0 <= k < |v| && v[k].stickerKit.tournamentID == tournamentID ::
                      (forall l | 0 <= l < k :: v[l].stickerKit.tournamentID != tournamentID) ==>
                        r == v[k].stickerKit.id)
    {
      if tournamentID == 1 then random(1, 12)
      else if tournamentID == 3 then random(99, 100)
      else if tournamentID == 4 then 172
      else
        var v := TournamentStickers();
        var it := GetTournamentStickers(tournamentID).0;
        if it == |v| then 0
        else if v[it].stickerKit.tournamentID == tournamentID then v[it].stickerKit.id
        else 0
    }

    /** `getTournamentTeamGoldStickerID`: 0 for no tournament or no team, the
        two all-star stickers by constant, otherwise the kit id of the first
        sticker in index order of that tournament and team, or 0. */
    function GetTournamentTeamGoldStickerID(tournamentID: nat, team: TournamentTeam): (r: int)
      requires StickerIndexOrdered()
      ensures tournamentID == 0 || team == TeamNone ==> r == 0
      ensures tournamentID != 0 && team != TeamNone && team == AllStarTeamAmerica ==> r == 1315
      ensures (tournamentID != 0 && team != TeamNone && team != AllStarTeamAmerica
               && team == AllStarTeamEurope) ==> r == 1316
      ensures (tournamentID != 0 && team != TeamNone && team != AllStarTeamAmerica
               && team != AllStarTeamEurope) ==>
                var v := TournamentStickers();
                && ((forall k | 0 <= k < |v| :: !IsTeamSticker(v[k], tournamentID, team)) ==> r == 0)
                && (forall k | 0 <= k < |v| && IsTeamSticker(v[k], tournamentID, team) ::
                      (forall l | 0 <= l < k :: !IsTeamSticker(v[l], tournamentID, team)) ==>
                        r == v[k].stickerKit.id)
    {
      if tournamentID == 0 || team == TeamNone then 0
      else if team == AllStarTeamAmerica then 1315
      else if team == AllStarTeamEurope then 1316
      else
        var v := TournamentStickers();
        var (first, last) := GetTournamentStickers(tournamentID);
        var it := TeamLowerBound(v, first, last, tournamentID, team);
        if it == last then 0
        else if v[it].stickerKit.tournamentTeam == team then v[it].stickerKit.id
        else 0
    }

    /** `getTournamentPlayerGoldStickerID`: the kit id of the first sticker in
        index order of that tournament and player, or 0. */
    function GetTournamentPlayerGoldStickerID(tournamentID: nat, tournamentPlayerID: int): (r: int)
      requires StickerIndexOrdered()
      ensures var v := TournamentStickers();
              && ((forall k | 0 <= k < |v| :: !IsPlayerSticker(v[k], tournamentID, tournamentPlayerID)) ==> r == 0)
              && (forall k | 0 <= k < |v| && IsPlayerSticker(v[k], tournamentID, tournamentPlayerID) ::
                    (forall l | 0 <= l < k :: !IsPlayerSticker(v[l], tournamentID, tournamentPlayerID)) ==>
                      r == v[k].stickerKit.id)
    {
      var v := TournamentStickers();
      var (first, last) := GetTournamentStickers(tournamentID);
      var it := Find(v, first, last, (x: Item) => x.stickerKit.tournamentPlayerID == tournamentPlayerID);
      if it != last then v[it].stickerKit.id else 0
    }

    /** `getItem(weaponID, paintKit)`: the first skin/glove of that weaponID
        with that paint kit. Nothing is found when the weaponID's items are
        not skins or gloves; the source looks at the run's first item only,
        which suffices because runs are uniform. */
    function GetItem(weaponID: WeaponId, paintKit: int): (r: Option<Item>)
      requires ItemsValid()
      ensures (exists i | 0 <= i < |storage| :: storage[i].weaponID == weaponID && !storage[i].HasPaintKit()) ==>
                r == None
      ensures r.Some? <==> exists i | 0 <= i < |storage| :: IsPaintKitItem(storage[i], weaponID, paintKit)
      ensures forall i | 0 <= i < |storage| && IsPaintKitItem(storage[i], weaponID, paintKit) ::
                (forall l | 0 <= l < i :: !IsPaintKitItem(storage[l], weaponID, paintKit)) ==>
                  r == Some(storage[i])
    {
      var (begin, end) := FindItems(weaponID);
      if begin != end && !storage[begin].IsSkin() && !storage[begin].IsGloves() then
        None
      else
        var it := PaintKitLowerBound(storage, begin, end, weaponID, paintKit);
        if it != end && storage[it].paintKit == paintKit then Some(storage[it]) else None
    }

    /** `getItem(weaponID)`: the first item whose weaponID is not below the
        argument; the weaponID itself is not compared. */
    function GetItemByWeaponId(weaponID: WeaponId): (r: Option<Item>)
      requires ItemsValid()
      ensures r.Some? <==> exists i | 0 <= i < |storage| :: storage[i].weaponID >= weaponID
      ensures forall i | 0 <= i < |storage| && storage[i].weaponID >= weaponID ::
                (forall l | 0 <= l < i :: storage[l].weaponID < weaponID) ==> r == Some(storage[i])
    {
      var before := (x: Item) => x.weaponID < weaponID;
      assert Partitioned(storage, 0, |storage|, before);
      PartitionPointSplits(storage, 0, |storage|, before);
      var it := PartitionPoint(storage, 0, |storage|, before);
      if it != |storage| then Some(storage[it]) else None
    }

    /** `findItem`: the first item of the weaponID's run whose projected kit id
        equals `value`. */
    function FindItem(weaponID: WeaponId, value: int, projection: Item -> int): (r: Option<Item>)
      requires ItemsSorted(storage)
      ensures r.Some? <==> exists i | 0 <= i < |storage| :: storage[i].weaponID == weaponID && projection(storage[i]) == value
      ensures forall i | 0 <= i < |storage| && storage[i].weaponID == weaponID && projection(storage[i]) == value ::
                (forall l | 0 <= l < i :: !(storage[l].weaponID == weaponID && projection(storage[l]) == value)) ==>
                  r == Some(storage[i])
    {
      var (begin, end) := FindItems(weaponID);
      var it := Find(storage, begin, end, (x: Item) => projection(x) == value);
      if it != end then Some(storage[it]) else None
    }

    /** `getMusic`: the first music kit item with that music kit id. */
    function GetMusic(musicKit: int): (r: Option<Item>)
      requires ItemsValid()
      ensures r.Some? <==> exists i | 0 <= i < |storage| :: storage[i].weaponID == MusicKitWeapon && storage[i].musicKit == musicKit
      ensures r.Some? ==> r.value.weaponID == MusicKitWeapon && r.value.musicKit == musicKit
      ensures forall i | 0 <= i < |storage| && storage[i].weaponID == MusicKitWeapon && storage[i].musicKit == musicKit ::
                (forall l | 0 <= l < i :: !(storage[l].weaponID == MusicKitWeapon && storage[l].musicKit == musicKit)) ==>
                  r == Some(storage[i])
    {
      FindItem(MusicKitWeapon, musicKit, (x: Item) => x.musicKit)
    }

    /** `getSticker`: the first sticker item with that sticker kit id. */
    function GetSticker(stickerKit: int): (r: Option<Item>)
      requires ItemsValid()
      ensures r.Some? <==> exists i | 0 <= i < |storage| :: storage[i].weaponID == StickerWeapon && storage[i].stickerKit.id == stickerKit
      ensures r.Some? ==> r.value.weaponID == StickerWeapon && r.value.stickerKit.id == stickerKit
      ensures forall i | 0 <= i < |storage| && storage[i].weaponID == StickerWeapon && storage[i].stickerKit.id == stickerKit ::
                (forall l | 0 <= l < i :: !(storage[l].weaponID == StickerWeapon && storage[l].stickerKit.id == stickerKit)) ==>
                  r == Some(storage[i])
    {
      FindItem(StickerWeapon, stickerKit, (x: Item) => x.stickerKit.id)
    }

    /** `getGraffiti`: the first graffiti item with that graffiti kit id. */
    function GetGraffiti(graffitiID: int): (r: Option<Item>)
      requires ItemsValid()
      ensures r.Some? <==> exists i | 0 <= i < |storage| :: storage[i].weaponID == GraffitiWeapon && storage[i].graffitiKit == graffitiID
      ensures r.Some? ==> r.value.weaponID == GraffitiWeapon && r.value.graffitiKit == graffitiID
      ensures forall i | 0 <= i < |storage| && storage[i].weaponID == GraffitiWeapon && storage[i].graffitiKit == graffitiID ::
                (forall l | 0 <= l < i :: !(storage[l].weaponID == GraffitiWeapon && storage[l].graffitiKit == graffitiID)) ==>
                  r == Some(storage[i])
    {
      FindItem(GraffitiWeapon, graffitiID, (x: Item) => x.graffitiKit)
    }

    /** `getSealedGraffiti`: the first sealed graffiti item with that graffiti kit id. */
    function GetSealedGraffiti(graffitiID: int): (r: Option<Item>)
      requires ItemsValid()
      ensures r.Some? <==> exists i | 0 <= i < |storage| :: storage[i].weaponID == SealedGraffitiWeapon && storage[i].graffitiKit == graffitiID
      ensures r.Some? ==> r.value.weaponID == SealedGraffitiWeapon && r.value.graffitiKit == graffitiID
      ensures forall i | 0 <= i < |storage| && storage[i].weaponID == SealedGraffitiWeapon && storage[i].graffitiKit == graffitiID ::
                (forall l | 0 <= l < i :: !(storage[l].weaponID == SealedGraffitiWeapon && storage[l].graffitiKit == graffitiID)) ==>
                  r == Some(storage[i])
    {
      FindItem(SealedGraffitiWeapon, graffitiID, (x: Item) => x.graffitiKit)
    }

    /** `getPatch`: the first patch item with that patch kit id. */
    function GetPatch(patchID: int): (r: Option<Item>)
      requires ItemsValid()
      ensures r.Some? <==> exists i | 0 <= i < |storage| :: storage[i].weaponID == PatchWeapon && storage[i].patchKit == patchID
      ensures r.Some? ==> r.value.weaponID == PatchWeapon && r.value.patchKit == patchID
      ensures forall i | 0 <= i < |storage| && storage[i].weaponID == PatchWeapon && storage[i].patchKit == patchID ::
                (forall l | 0 <= l < i :: !(storage[l].weaponID == PatchWeapon && storage[l].patchKit == patchID)) ==>
                  r == Some(storage[i])
    {
      FindItem(PatchWeapon, patchID, (x: Item) => x.patchKit)
    }
  }

  /** The explicit constructor: sorts the storage's items (`sorted`), copies
      the sticker run into the tournament index and sorts the index by
      StickerBefore. An empty sticker run gives an empty index. */
  method Build(dataStorage: seq<Item>) returns (c: StaticDataContainer)
    requires UniformRuns(dataStorage)
    requires StickerRunHoldsStickers(dataStorage)
    ensures c.Valid()
    ensures multiset(c.storage) == multiset(dataStorage)
    ensures forall k | 0 <= k < |c.tournamentStickersSorted| :: c.storage[c.tournamentStickersSorted[k]].IsSticker()
  {
    var items := Sorted(dataStorage);
    UniformRunsPermutation(dataStorage, items);
    var (first, last) := StaticDataContainer(items, []).FindItems(StickerWeapon);
    var stickers := new nat[last - first](k requires 0 <= k < last - first => first + k);
    assert stickers[..] == Interval(first, last);
    IndexOrderIsKeyOrder(items, first, last);
    SortInPlace(stickers,
                (i: nat, j: nat) => i < |items| && j < |items| && StickerBefore(items[i], items[j]),
                (i: nat) => IndexKey(items, i));
    SortedIndexIsOrdered(items, first, last, stickers[..]);
    StickerRunPermutation(dataStorage, items);
    IndexedItemsAreStickers(items, first, last, stickers[..]);
    c := StaticDataContainer(items, stickers[..]);
  }

  /** The comparator of the index asserts that both items it compares are
      stickers. This asks that every item of the Sticker weaponID be one,
      which is slightly more than the assert checks: a sticker run of a single
      item is never compared. */
  ghost predicate StickerRunHoldsStickers(s: seq<Item>)
  {
    forall i | 0 <= i < |s| && s[i].weaponID == StickerWeapon :: s[i].IsSticker()
  }

  lemma StickerRunPermutation(s: seq<Item>, t: seq<Item>)
    requires StickerRunHoldsStickers(s) && multiset(s) == multiset(t)
    ensures StickerRunHoldsStickers(t)
  {
    forall i | 0 <= i < |t| && t[i].weaponID == StickerWeapon
      ensures t[i].IsSticker()
    {
      assert t[i] in multiset(s);
      var i' :| 0 <= i' < |s| && s[i'] == t[i];
    }
  }

  /** An index that permutes the positions of the sticker run refers to
      stickers only. */
  lemma IndexedItemsAreStickers(items: seq<Item>, first: nat, last: nat, index: seq<nat>)
    requires first <= last <= |items| && StickerRunHoldsStickers(items)
    requires forall i | first <= i < last :: items[i].weaponID == StickerWeapon
    requires multiset(index) == multiset(Interval(first, last))
    ensures forall k | 0 <= k < |index| :: index[k] < |items| && items[index[k]].IsSticker()
  {
    forall k | 0 <= k < |index|
      ensures index[k] < |items| && items[index[k]].IsSticker()
    {
      assert index[k] in multiset(index);
      InIntervalIff(first, last, index[k]);
    }
  }

  /** The key the index comparator compares positions of `items` by. */
  function IndexKey(items: seq<Item>, i: nat): Key
  {
    if i < |items| then StickerKey(items[i]) else Key(0, 0, 0, 0, 0)
  }

  lemma IndexOrderIsKeyOrder(items: seq<Item>, first: nat, last: nat)
    requires first <= last <= |items|
    ensures LessIsKeyOrder((i: nat, j: nat) => i < |items| && j < |items| && StickerBefore(items[i], items[j]),
                           (i: nat) => IndexKey(items, i),
                           multiset(Interval(first, last)))
  {
    forall i: nat, j: nat | i in multiset(Interval(first, last)) && j in multiset(Interval(first, last))
      ensures (i < |items| && j < |items| && StickerBefore(items[i], items[j])) <==>
              KeyLess(IndexKey(items, i), IndexKey(items, j))
    {
      InIntervalIff(first, last, i);
      InIntervalIff(first, last, j);
      StickerBeforeIsKeyOrder(items[i], items[j]);
    }
  }

  /** A permutation of the run's positions sorted by IndexKey is an index
      that stays in range and is in StickerBefore order. */
  lemma SortedIndexIsOrdered(items: seq<Item>, first: nat, last: nat, index: seq<nat>)
    requires first <= last <= |items|
    requires multiset(index) == multiset(Interval(first, last))
    requires forall i, j :: 0 <= i < j < |index| ==> KeyLe(IndexKey(items, index[i]), IndexKey(items, index[j]))
    ensures StaticDataContainer(items, index).StickerIndexOrdered()
  {
    var c := StaticDataContainer(items, index);
    forall k | 0 <= k < |index|
      ensures index[k] < |items|
    {
      assert index[k] in multiset(index);
      InIntervalIff(first, last, index[k]);
    }
    var v := c.TournamentStickers();
    forall i, j | 0 <= i < j < |v|
      ensures !StickerBefore(v[j], v[i])
    {
      assert KeyLe(IndexKey(items, index[i]), IndexKey(items, index[j]));
      StickerBeforeIsKeyOrder(v[j], v[i]);
    }
  }

  predicate IsTeamSticker(x: Item, tournamentID: nat, team: TournamentTeam)
  {
    x.stickerKit.tournamentID == tournamentID && x.stickerKit.tournamentTeam == team
  }

  predicate IsPlayerSticker(x: Item, tournamentID: nat, tournamentPlayerID: int)
  {
    x.stickerKit.tournamentID == tournamentID && x.stickerKit.tournamentPlayerID == tournamentPlayerID
  }

  predicate IsPaintKitItem(x: Item, weaponID: WeaponId, paintKit: int)
  {
    x.weaponID == weaponID && x.HasPaintKit() && x.paintKit == paintKit
  }

  /** The lower bound by team inside one tournament's index range
      [first, last), as getTournamentTeamGoldStickerID takes it: team is the
      second sort level, so it lands on the first sticker of that tournament
      and team, if there is one. */
  function TeamLowerBound(v: seq<Item>, first: nat, last: nat, tournamentID: nat, team: TournamentTeam): (it: nat)
    requires StickersOrdered(v)
    requires first <= last <= |v|
    requires forall k | 0 <= k < |v| :: first <= k < last <==> v[k].stickerKit.tournamentID == tournamentID
    ensures first <= it <= last
    ensures forall k | 0 <= k < |v| && IsTeamSticker(v[k], tournamentID, team) ::
              it <= k && it < last && IsTeamSticker(v[it], tournamentID, team)
  {
    var before := (x: Item) => x.stickerKit.tournamentTeam < team;
    assert Partitioned(v, first, last, before) by {
      forall i, j | first <= i < j < last
        ensures v[i].stickerKit.tournamentTeam <= v[j].stickerKit.tournamentTeam
      {
        StickersOrderedLevels(v, i, j);
      }
    }
    PartitionPointSplits(v, first, last - first, before);
    var it := PartitionPoint(v, first, last - first, before);
    TeamLowerBoundFindsFirst(v, first, last, tournamentID, team, it);
    it
  }

  /** Team is the second sort level, so inside one tournament's run the lower
      bound by team lands on the run's first sticker of that team, if any. */
  lemma TeamLowerBoundFindsFirst(v: seq<Item>, first: nat, last: nat, tournamentID: nat, team: TournamentTeam, it: nat)
    requires StickersOrdered(v)
    requires first <= it <= last <= |v|
    requires forall k | 0 <= k < |v| :: first <= k < last <==> v[k].stickerKit.tournamentID == tournamentID
    requires forall k | first <= k < it :: v[k].stickerKit.tournamentTeam < team
    requires forall k | it <= k < last :: v[k].stickerKit.tournamentTeam >= team
    ensures forall k | 0 <= k < |v| && IsTeamSticker(v[k], tournamentID, team) ::
              it <= k && it < last && IsTeamSticker(v[it], tournamentID, team)
  {
    forall k | 0 <= k < |v| && IsTeamSticker(v[k], tournamentID, team)
      ensures it <= k && it < last && IsTeamSticker(v[it], tournamentID, team)
    {
      if it < k {
        StickersOrderedLevels(v, it, k);
      }
    }
  }

  /** The lower bound by paint kit inside the weaponID's run [begin, end),
      as getItem(weaponID, paintKit) takes it when the run is empty or starts
      with a skin/glove: it lands on the run's first item of that paint kit,
      if there is one. */
  function PaintKitLowerBound(s: seq<Item>, begin: nat, end: nat, weaponID: WeaponId, paintKit: int): (it: nat)
    requires UniformRuns(s) && ItemsSorted(s)
    requires begin <= end <= |s|
    requires forall i | 0 <= i < |s| :: begin <= i < end <==> s[i].weaponID == weaponID
    requires begin != end ==> s[begin].HasPaintKit()
    ensures begin <= it <= end
    ensures forall i | 0 <= i < |s| && IsPaintKitItem(s[i], weaponID, paintKit) ::
              it <= i && it < end && IsPaintKitItem(s[it], weaponID, paintKit)
  {
    var before := (x: Item) => x.paintKit < paintKit;
    assert Partitioned(s, begin, end, before) by {
      forall i, j | begin <= i < j < end
        ensures s[i].paintKit <= s[j].paintKit
      {
        assert s[begin].HasPaintKit() == s[i].HasPaintKit() == s[j].HasPaintKit();
      }
    }
    PartitionPointSplits(s, begin, end - begin, before);
    var it := PartitionPoint(s, begin, end - begin, before);
    PaintKitLowerBoundFindsFirst(s, begin, end, weaponID, paintKit, it);
    it
  }

  /** Within a uniform run of skins/gloves ordered by paint kit, the lower
      bound by paint kit lands on the run's first item of that paint kit, if any. */
  lemma PaintKitLowerBoundFindsFirst(s: seq<Item>, begin: nat, end: nat, weaponID: WeaponId, paintKit: int, it: nat)
    requires UniformRuns(s) && ItemsSorted(s)
    requires begin <= it <= end <= |s|
    requires forall i | 0 <= i < |s| :: begin <= i < end <==> s[i].weaponID == weaponID
    requires forall i | begin <= i < it :: s[i].paintKit < paintKit
    requires forall i | it <= i < end :: s[i].paintKit >= paintKit
    ensures forall i | 0 <= i < |s| && IsPaintKitItem(s[i], weaponID, paintKit) ::
              it <= i && it < end && IsPaintKitItem(s[it], weaponID, paintKit)
  {
    forall i | 0 <= i < |s| && IsPaintKitItem(s[i], weaponID, paintKit)
      ensures it <= i && it < end && IsPaintKitItem(s[it], weaponID, paintKit)
    {
      assert s[it].weaponID == s[i].weaponID;
    }
  }
}
