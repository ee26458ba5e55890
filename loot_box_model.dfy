/** The loot box document: a unique name, a cost defaulting to 1, a rarity tier,
    and an ordered list of weighted items, each referring to a reward. */
module LootBoxModel {
  import opened Common
  import opened RewardModel

  /** One entry of a box: the reward it yields and its weight (`probability`). */
  datatype LootBoxItem = LootBoxItem(reward: RewardId, probability: real)

  datatype LootBox = LootBox(
    name: string, description: string, cost: int, rarity: Rarity,
    imageUrl: Option<string>, items: seq<LootBoxItem>)

  /** An item whose weight passes the schema's `min: 0, max: 100`. */
  predicate ValidItem(item: LootBoxItem) {
    0.0 <= item.probability <= 100.0
  }

  predicate ValidItems(items: seq<LootBoxItem>) {
    forall k :: 0 <= k < |items| ==> ValidItem(items[k])
  }

  datatype RawItem = RawItem(reward: Option<RewardId>, probability: Option<real>)

  datatype RawLootBox = RawLootBox(
    name: Option<string>, description: Option<string>, cost: Option<int>,
    rarity: Option<string>, imageUrl: Option<string>, items: seq<RawItem>)

  /** Validation of one item: both paths are required, the weight lies in [0, 100]. */
  function CreateItem(raw: RawItem): (r: Result<LootBoxItem, ValidationError>)
    ensures r.Ok? <==> raw.reward.Some? && raw.probability.Some? && 0.0 <= raw.probability.value <= 100.0
    ensures r.Ok? ==> ValidItem(r.value) && r.value == LootBoxItem(raw.reward.value, raw.probability.value)
  {
    if raw.reward.None? then Err(Required("reward"))
    else if raw.probability.None? then Err(Required("probability"))
    else if !(0.0 <= raw.probability.value <= 100.0) then Err(OutOfRange("probability"))
    else Ok(LootBoxItem(raw.reward.value, raw.probability.value))
  }

  /** Validation of the item list, keeping its order; an empty list is accepted. */
  function CreateItems(raws: seq<RawItem>): (r: Result<seq<LootBoxItem>, ValidationError>)
    ensures r.Ok? <==> forall k :: 0 <= k < |raws| ==> CreateItem(raws[k]).Ok?
    ensures r.Ok? ==> |r.value| == |raws| && ValidItems(r.value)
    ensures r.Ok? ==> forall k :: 0 <= k < |raws| ==> r.value[k] == CreateItem(raws[k]).value
  {
    if forall k :: 0 <= k < |raws| ==> CreateItem(raws[k]).Ok?
    then Ok(seq(|raws|, k requires 0 <= k < |raws| => CreateItem(raws[k]).value))
    else Err(Required("items"))
  }

  /** Validation of a new box: `cost` falls back to its default of 1. */
  function CreateLootBox(raw: RawLootBox): (r: Result<LootBox, ValidationError>)
    ensures r.Ok? ==> ValidItems(r.value.items) && |r.value.items| == |raw.items|
    ensures r.Ok? ==> r.value.cost == raw.cost.GetOr(1)
    ensures r.Ok? <==>
      Present(raw.name) && Present(raw.description) && raw.rarity.Some? &&
      ParseRarity(raw.rarity.value).Some? && CreateItems(raw.items).Ok?
    ensures r.Ok? ==>
      && r.value.name == raw.name.value && r.value.description == raw.description.value
      && RarityName(r.value.rarity) == raw.rarity.value && r.value.imageUrl == raw.imageUrl
      && r.value.items == CreateItems(raw.items).value
  {
    if !Present(raw.name) then Err(Required("name"))
    else if !Present(raw.description) then Err(Required("description"))
    else if raw.rarity.None? then Err(Required("rarity"))
    else if ParseRarity(raw.rarity.value).None? then Err(NotInEnum("rarity"))
    else
      match CreateItems(raw.items)
      case Err(e) => Err(e)
      case Ok(items) =>
        Ok(LootBox(raw.name.value, raw.description.value, raw.cost.GetOr(1),
                   ParseRarity(raw.rarity.value).value, raw.imageUrl, items))
  }

  /** A box without items passes validation: the schema does not require any. */
  lemma EmptyBoxAccepted(name: string, description: string)
    requires name != "" && description != ""
    ensures CreateLootBox(RawLootBox(Some(name), Some(description), None, Some("common"), None, [])).Ok?
  {
  }

  /** The submitted form of a stored box. */
  function ToRaw(b: LootBox): RawLootBox {
    RawLootBox(Some(b.name), Some(b.description), Some(b.cost), Some(RarityName(b.rarity)), b.imageUrl,
               seq(|b.items|, k requires 0 <= k < |b.items| =>
                 RawItem(Some(b.items[k].reward), Some(b.items[k].probability))))
  }

  /** A box with a non-empty name and description and schema-valid weights
      validates back to itself, items in their order. */
  lemma CreateLootBoxRoundTrip(b: LootBox)
    requires b.name != "" && b.description != "" && ValidItems(b.items)
    ensures CreateLootBox(ToRaw(b)) == Ok(b)
  {
    var raw := ToRaw(b);
    assert forall k :: 0 <= k < |raw.items| ==> CreateItem(raw.items[k]) == Ok(b.items[k]);
    assert CreateItems(raw.items).value == b.items;
    RarityRoundTrip(b.rarity);
    assert Present(raw.name) && Present(raw.description);
  }

  /** The unique index on `name`. */
  predicate UniqueBoxNames(catalog: map<LootBoxId, LootBox>) {
    forall a, b :: a in catalog && b in catalog && a != b ==> catalog[a].name != catalog[b].name
  }
}
