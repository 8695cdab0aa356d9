/** The item records the container indexes, with the kit fields that the
    storage's kit accessors (getPaintKit, getStickerKit, getMusicKit,
    getGraffitiKit, getPatchKit) would resolve for each item. */
module GameItems {

  /** Category key of an item (the SDK's WeaponId enumeration). Only the
      categories the container names are declared; their numeric values are
      left open, and nothing below depends on them. */
  type WeaponId = int

  const StickerWeapon: WeaponId
  const MusicKitWeapon: WeaponId
  const GraffitiWeapon: WeaponId
  const SealedGraffitiWeapon: WeaponId
  const PatchWeapon: WeaponId

  /** The SDK's TournamentTeam enumeration; again only the members the
      container tests for are named. */
  type TournamentTeam = int

  const TeamNone: TournamentTeam
  const AllStarTeamAmerica: TournamentTeam
  const AllStarTeamEurope: TournamentTeam

  datatype ItemType = Skin | Gloves | Sticker | Other

  datatype StickerKit = StickerKit(
    id: int,
    tournamentID: nat,
    tournamentTeam: TournamentTeam,
    tournamentPlayerID: int,
    isGoldenSticker: bool)

  datatype Item = Item(
    weaponID: WeaponId,
    itemType: ItemType,
    rarity: int,
    paintKit: int,          // id of getPaintKit(item)
    stickerKit: StickerKit, // getStickerKit(item)
    musicKit: int,          // id of getMusicKit(item)
    graffitiKit: int,       // id of getGraffitiKit(item)
    patchKit: int)          // id of getPatchKit(item)
  {
    predicate IsSkin() { itemType == Skin }
    predicate IsGloves() { itemType == Gloves }
    predicate IsSticker() { itemType == Sticker }

    /** Skins and gloves are the items ordered by paint kit. */
    predicate HasPaintKit() { IsSkin() || IsGloves() }
  }

  datatype Option<T> = None | Some(value: T)
}
