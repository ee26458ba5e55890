/** The reward catalog document: a unique name, a type and a rarity from fixed
    lists, a required description and payload, and an optional image. */
module RewardModel {
  import opened Common

  datatype RewardType = Theme | Badge | Animation | Feature

  /** Rarity tiers, weakest first. */
  datatype Rarity = Common | Uncommon | Rare | Epic | Legendary

  function RewardTypeName(t: RewardType): string {
    match t
    case Theme => "theme"
    case Badge => "badge"
    case Animation => "animation"
    case Feature => "feature"
  }

  /** The `enum` check on `type`: only the four listed strings are accepted. */
  function ParseRewardType(s: string): (r: Option<RewardType>)
    ensures r.Some? <==> s in ["theme", "badge", "animation", "feature"]
    ensures r.Some? ==> RewardTypeName(r.value) == s
  {
    if s == "theme" then Some(Theme)
    else if s == "badge" then Some(Badge)
    else if s == "animation" then Some(Animation)
    else if s == "feature" then Some(Feature)
    else None
  }

  lemma RewardTypeRoundTrip(t: RewardType)
    ensures ParseRewardType(RewardTypeName(t)) == Some(t)
  {
  }

  function RarityName(r: Rarity): string {
    match r
    case Common => "common"
    case Uncommon => "uncommon"
    case Rare => "rare"
    case Epic => "epic"
    case Legendary => "legendary"
  }

  /** The `enum` check on `rarity`: only the five tiers are accepted. */
  function ParseRarity(s: string): (r: Option<Rarity>)
    ensures r.Some? <==> s in ["common", "uncommon", "rare", "epic", "legendary"]
    ensures r.Some? ==> RarityName(r.value) == s
  {
    if s == "common" then Some(Common)
    else if s == "uncommon" then Some(Uncommon)
    else if s == "rare" then Some(Rare)
    else if s == "epic" then Some(Epic)
    else if s == "legendary" then Some(Legendary)
    else None
  }

  lemma RarityRoundTrip(r: Rarity)
    ensures ParseRarity(RarityName(r)) == Some(r)
  {
  }

  /** The reward's `value`: an object interpreted only by the presentation layer,
      kept here as its JSON text. */
  type Payload = string

  datatype Reward = Reward(
    name: string, kind: RewardType, description: string, rarity: Rarity,
    value: Payload, imageUrl: Option<string>)

  /** A reward document as submitted, before casting and validation. */
  datatype RawReward = RawReward(
    name: Option<string>, kind: Option<string>, description: Option<string>,
    rarity: Option<string>, value: Option<Payload>, imageUrl: Option<string>)

  /** A required string path rejects a missing value and the empty string. */
  predicate Present(s: Option<string>) {
    s.Some? && s.value != ""
  }

  /** The schema's validation of a new reward document. */
  function CreateReward(raw: RawReward): (r: Result<Reward, ValidationError>)
    ensures r.Ok? <==>
      Present(raw.name) && Present(raw.description) && raw.value.Some? &&
      raw.kind.Some? && ParseRewardType(raw.kind.value).Some? &&
      raw.rarity.Some? && ParseRarity(raw.rarity.value).Some?
    ensures r.Ok? ==>
      r.value.name == raw.name.value && RewardTypeName(r.value.kind) == raw.kind.value &&
      RarityName(r.value.rarity) == raw.rarity.value && r.value.imageUrl == raw.imageUrl
  {
    if !Present(raw.name) then Err(Required("name"))
    else if raw.kind.None? then Err(Required("type"))
    else if ParseRewardType(raw.kind.value).None? then Err(NotInEnum("type"))
    else if !Present(raw.description) then Err(Required("description"))
    else if raw.rarity.None? then Err(Required("rarity"))
    else if ParseRarity(raw.rarity.value).None? then Err(NotInEnum("rarity"))
    else if raw.value.None? then Err(Required("value"))
    else Ok(Reward(raw.name.value, ParseRewardType(raw.kind.value).value, raw.description.value,
                   ParseRarity(raw.rarity.value).value, raw.value.value, raw.imageUrl))
  }

  /** The submitted form of a stored reward. */
  function ToRaw(w: Reward): RawReward {
    RawReward(Some(w.name), Some(RewardTypeName(w.kind)), Some(w.description),
              Some(RarityName(w.rarity)), Some(w.value), w.imageUrl)
  }

  /** A reward with a non-empty name and description validates back to itself. */
  lemma CreateRewardRoundTrip(w: Reward)
    requires w.name != "" && w.description != ""
    ensures CreateReward(ToRaw(w)) == Ok(w)
  {
    RewardTypeRoundTrip(w.kind);
    RarityRoundTrip(w.rarity);
  }

  /** The unique index on `name`: no two catalog entries share a name. */
  predicate UniqueNames(catalog: map<RewardId, Reward>) {
    forall a, b :: a in catalog && b in catalog && a != b ==> catalog[a].name != catalog[b].name
  }
}
