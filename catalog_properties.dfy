/** Properties of the catalog that relate several queries to construction. */
module CatalogProperties {
  import opened GameItems
  import opened Algorithms
  import opened StaticData

  /** The index's invariant in terms of the item vector: every index entry is a
      position of the sticker run, every sticker is indexed, and the index is
      exactly as long as the run, so no sticker is indexed twice. In
      particular an empty sticker run gives an empty index. */
  lemma IndexIsStickerRun(c: StaticDataContainer)
    requires c.Valid()
    ensures forall k | 0 <= k < |c.tournamentStickersSorted| ::
              c.storage[c.tournamentStickersSorted[k]].weaponID == StickerWeapon
    ensures forall i | 0 <= i < |c.storage| && c.storage[i].weaponID == StickerWeapon ::
              i in c.tournamentStickersSorted
    ensures |c.tournamentStickersSorted| == c.FindItems(StickerWeapon).1 - c.FindItems(StickerWeapon).0
    ensures (forall i | 0 <= i < |c.storage| :: c.storage[i].weaponID != StickerWeapon) ==>
              c.tournamentStickersSorted == []
  {
    var ts := c.tournamentStickersSorted;
    var (first, last) := c.FindItems(StickerWeapon);
    forall k | 0 <= k < |ts|
      ensures c.storage[ts[k]].weaponID == StickerWeapon
    {
      assert ts[k] in multiset(ts);
      InIntervalIff(first, last, ts[k]);
    }
    forall i | 0 <= i < |c.storage| && c.storage[i].weaponID == StickerWeapon
      ensures i in ts
    {
      InIntervalIff(first, last, i);
      assert i in multiset(ts);
    }
    assert |ts| == |multiset(ts)| == last - first;
  }

  /** The index range getTournamentStickers returns covers exactly the
      positions of the stickers of that tournament in the item vector. */
  lemma TournamentRangeIsTournamentStickers(c: StaticDataContainer, tournamentID: nat)
    requires c.Valid()
    ensures var (begin, end) := c.GetTournamentStickers(tournamentID);
            forall i | 0 <= i < |c.storage| ::
              (i in c.tournamentStickersSorted[begin..end] <==>
                 c.storage[i].weaponID == StickerWeapon && c.storage[i].stickerKit.tournamentID == tournamentID)
  {
    var ts := c.tournamentStickersSorted;
    var v := c.TournamentStickers();
    var (begin, end) := c.GetTournamentStickers(tournamentID);
    IndexIsStickerRun(c);
    forall i | 0 <= i < |c.storage|
      ensures i in ts[begin..end] <==>
                c.storage[i].weaponID == StickerWeapon && c.storage[i].stickerKit.tournamentID == tournamentID
    {
      if i in ts[begin..end] {
        var k :| begin <= k < end && ts[k] == i;
        assert v[k] == c.storage[i];
      }
      if c.storage[i].weaponID == StickerWeapon && c.storage[i].stickerKit.tournamentID == tournamentID {
        var k :| 0 <= k < |ts| && ts[k] == i;
        assert v[k] == c.storage[i];
        assert ts[begin..end][k - begin] == i;
      }
    }
  }

  /** Every stored item is reachable through the query of its kind: the kit
      lookups and getItem(weaponID, paintKit) find something for it, and
      getItem(weaponID) lands on an item of its weaponID. */
  lemma StoredItemsAreFound(c: StaticDataContainer, x: Item)
    requires c.ItemsValid() && x in c.storage
    ensures x.weaponID == MusicKitWeapon ==> c.GetMusic(x.musicKit).Some?
    ensures x.weaponID == StickerWeapon ==> c.GetSticker(x.stickerKit.id).Some?
    ensures x.weaponID == GraffitiWeapon ==> c.GetGraffiti(x.graffitiKit).Some?
    ensures x.weaponID == SealedGraffitiWeapon ==> c.GetSealedGraffiti(x.graffitiKit).Some?
    ensures x.weaponID == PatchWeapon ==> c.GetPatch(x.patchKit).Some?
    ensures x.HasPaintKit() ==> c.GetItem(x.weaponID, x.paintKit).Some?
    ensures c.GetItemByWeaponId(x.weaponID).Some? && c.GetItemByWeaponId(x.weaponID).value.weaponID == x.weaponID
  {
    var i :| 0 <= i < |c.storage| && c.storage[i] == x;
    var (first, last) := c.FindItems(x.weaponID);
    forall l | 0 <= l < first
      ensures c.storage[l].weaponID < x.weaponID
    {
      assert c.storage[l].weaponID <= c.storage[first].weaponID;
    }
  }

  /** getItem(weaponID) does not compare the weaponID: with only a larger
      weaponID in the catalog it still returns that item. */
  lemma GetItemByWeaponIdIgnoresEquality(w: WeaponId)
    ensures exists c: StaticDataContainer ::
              c.ItemsValid() && c.GetItemByWeaponId(w).Some? && c.GetItemByWeaponId(w).value.weaponID != w
  {
    var x := Item(w + 1, Other, 0, 0, StickerKit(0, 0, TeamNone, 0, false), 0, 0, 0);
    var c := StaticDataContainer([x], []);
    assert c.storage[0].weaponID >= w;
    assert c.GetItemByWeaponId(w) == Some(x);
  }

  /** The player gold sticker, read back against the item vector: a nonzero
      answer is the kit id of a sticker of that tournament and player, and
      when such a sticker exists the answer is the kit id of one of them. */
  lemma PlayerGoldStickerIsStored(c: StaticDataContainer, tournamentID: nat, tournamentPlayerID: int)
    requires c.Valid()
    ensures var r := c.GetTournamentPlayerGoldStickerID(tournamentID, tournamentPlayerID);
            && (r != 0 || exists i | 0 <= i < |c.storage| :: IsStoredPlayerSticker(c, i, tournamentID, tournamentPlayerID)) ==>
                 exists i | 0 <= i < |c.storage| ::
                   IsStoredPlayerSticker(c, i, tournamentID, tournamentPlayerID) && c.storage[i].stickerKit.id == r
  {
    var r := c.GetTournamentPlayerGoldStickerID(tournamentID, tournamentPlayerID);
    var ts := c.tournamentStickersSorted;
    var v := c.TournamentStickers();
    if exists k | 0 <= k < |v| :: IsPlayerSticker(v[k], tournamentID, tournamentPlayerID) {
      var k := FirstPlayerSticker(v, tournamentID, tournamentPlayerID);
      assert r == v[k].stickerKit.id;
      IndexIsStickerRun(c);
      assert IsStoredPlayerSticker(c, ts[k], tournamentID, tournamentPlayerID);
    } else {
      assert r == 0;
      StoredPlayerStickersAreIndexed(c, tournamentID, tournamentPlayerID);
    }
  }

  predicate IsStoredPlayerSticker(c: StaticDataContainer, i: nat, tournamentID: nat, tournamentPlayerID: int)
    requires i < |c.storage|
  {
    c.storage[i].weaponID == StickerWeapon && IsPlayerSticker(c.storage[i], tournamentID, tournamentPlayerID)
  }

  /** A stored sticker of that tournament and player appears in the index. */
  lemma StoredPlayerStickersAreIndexed(c: StaticDataContainer, tournamentID: nat, tournamentPlayerID: int)
    requires c.Valid()
    ensures (exists i | 0 <= i < |c.storage| :: IsStoredPlayerSticker(c, i, tournamentID, tournamentPlayerID)) ==>
              exists k | 0 <= k < |c.tournamentStickersSorted| ::
                IsPlayerSticker(c.TournamentStickers()[k], tournamentID, tournamentPlayerID)
  {
    if exists i | 0 <= i < |c.storage| :: IsStoredPlayerSticker(c, i, tournamentID, tournamentPlayerID) {
      var i :| 0 <= i < |c.storage| && IsStoredPlayerSticker(c, i, tournamentID, tournamentPlayerID);
      IndexIsStickerRun(c);
      var k :| 0 <= k < |c.tournamentStickersSorted| && c.tournamentStickersSorted[k] == i;
      assert c.TournamentStickers()[k] == c.storage[i];
    }
  }

  /** The first index position holding a sticker of that tournament and player. */
  function FirstPlayerSticker(v: seq<Item>, tournamentID: nat, tournamentPlayerID: int): (k: nat)
    requires exists k | 0 <= k < |v| :: IsPlayerSticker(v[k], tournamentID, tournamentPlayerID)
    ensures k < |v| && IsPlayerSticker(v[k], tournamentID, tournamentPlayerID)
    ensures forall l | 0 <= l < k :: !IsPlayerSticker(v[l], tournamentID, tournamentPlayerID)
  {
    var k := Find(v, 0, |v|, (x: Item) => IsPlayerSticker(x, tournamentID, tournamentPlayerID));
    k
  }
}
