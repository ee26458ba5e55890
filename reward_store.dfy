/** The reward economy's request handlers over the four collections: key balances,
    the reward catalog, the loot box catalog and the ownership records. Each handler
    acts for the authenticated user passed in as `user`. */
module RewardEconomy {
  import opened Common
  import opened RewardModel
  import opened LootBoxModel
  import opened UserRewardModel
  import opened LootDraw
  import Seqs
  import Sorting

  /** The `reward` path of an ownership record in a response: the reward document
      when the record was populated, the bare reference otherwise. */
  datatype RewardRef = Unpopulated(id: RewardId) | Populated(id: RewardId, doc: Reward)

  /** The payload of a successful opening. */
  datatype OpenedBox = OpenedBox(reward: RewardRef, keyBalance: int, isNew: bool)

  /** An ownership record as returned after `populate("reward")`: the reward
      document, or None (`null`) when the referenced reward no longer exists. */
  datatype OwnedReward = OwnedReward(
    user: UserId, rewardId: RewardId, reward: Option<Reward>, isActive: bool, acquiredAt: Millis)

  function Populate(rec: UserReward, catalog: map<RewardId, Reward>): OwnedReward {
    OwnedReward(rec.user, rec.reward,
                if rec.reward in catalog then Some(catalog[rec.reward]) else None,
                rec.isActive, rec.acquiredAt)
  }

  /** A user's balance, counting a missing key record as zero. */
  function Balance(keys: map<UserId, int>, user: UserId): int {
    if user in keys then keys[user] else 0
  }

  /** The balance check of `openLootBox`: a key record exists and holds at least `cost`. */
  predicate CanAfford(keys: map<UserId, int>, user: UserId, cost: int) {
    user in keys && keys[user] >= cost
  }

  predicate NonNegativeBalances(keys: map<UserId, int>) {
    forall u :: u in keys ==> keys[u] >= 0
  }

  /** Two catalog rewards of the same type. */
  predicate SameKind(catalog: map<RewardId, Reward>, a: RewardId, b: RewardId) {
    a in catalog && b in catalog && catalog[a].kind == catalog[b].kind
  }

  /** The design's invariant on ownership: a user has at most one active reward of
      each type. */
  predicate AtMostOneActive(records: map<(UserId, RewardId), UserReward>, catalog: map<RewardId, Reward>) {
    forall a, b ::
      (a in records && b in records && a.0 == b.0 && SameKind(catalog, a.1, b.1) &&
       records[a].isActive && records[b].isActive) ==> a == b
  }

  /** The ownership records after `setActiveReward(user, rid)` succeeds: the target
      record is active, every other record of the same user whose reward has the
      target's type is inactive, and nothing else changes. */
  function Activated(records: map<(UserId, RewardId), UserReward>, catalog: map<RewardId, Reward>,
                     user: UserId, rid: RewardId): (r: map<(UserId, RewardId), UserReward>)
    requires rid in catalog
    ensures r.Keys == records.Keys
    ensures (user, rid) in records ==> r[(user, rid)] == records[(user, rid)].(isActive := true)
    ensures forall k :: k in r && k != (user, rid) && k.0 == user && SameKind(catalog, k.1, rid) ==>
      !r[k].isActive
    ensures forall k :: k in r && (k.0 != user || !SameKind(catalog, k.1, rid)) ==> r[k] == records[k]
    ensures forall k :: k in r ==> r[k].(isActive := records[k].isActive) == records[k]
  {
    map k | k in records ::
      if k == (user, rid) then records[k].(isActive := true)
      else if k.0 == user && SameKind(catalog, k.1, rid) then records[k].(isActive := false)
      else records[k]
  }

  /** Activation keeps the per-type invariant and the pair index. */
  lemma ActivatedKeepsInvariant(records: map<(UserId, RewardId), UserReward>, catalog: map<RewardId, Reward>,
                                user: UserId, rid: RewardId)
    requires rid in catalog && (user, rid) in records
    requires IndexedByPair(records) && AtMostOneActive(records, catalog)
    ensures IndexedByPair(Activated(records, catalog, user, rid))
    ensures AtMostOneActive(Activated(records, catalog, user, rid), catalog)
  {
    var r := Activated(records, catalog, user, rid);
    forall a, b | a in r && b in r && a.0 == b.0 && SameKind(catalog, a.1, b.1) && r[a].isActive && r[b].isActive
      ensures a == b
    {
      if a.0 == user && SameKind(catalog, a.1, rid) {
        assert a == (user, rid) && b == (user, rid);
      } else {
        assert a != (user, rid) && b != (user, rid);
        assert records[a].isActive && records[b].isActive;
      }
    }
  }

  /** Activating the same reward twice is the same as activating it once. */
  lemma ActivatedIdempotent(records: map<(UserId, RewardId), UserReward>, catalog: map<RewardId, Reward>,
                            user: UserId, rid: RewardId)
    requires rid in catalog && (user, rid) in records
    ensures Activated(Activated(records, catalog, user, rid), catalog, user, rid) ==
            Activated(records, catalog, user, rid)
  {
  }

  /** After activation the target is the user's only active reward of its type. */
  lemma ActivatedIsOnlyActiveOfType(records: map<(UserId, RewardId), UserReward>, catalog: map<RewardId, Reward>,
                                    user: UserId, rid: RewardId, k: (UserId, RewardId))
    requires rid in catalog && (user, rid) in records
    requires k in records && k.0 == user && SameKind(catalog, k.1, rid)
    ensures Activated(records, catalog, user, rid)[k].isActive <==> k == (user, rid)
  {
  }

  /** The loop of `setActiveReward` part-way: the user's same-type records outside
      `pending`, other than the target, have been deactivated. */
  function Deactivating(records: map<(UserId, RewardId), UserReward>, catalog: map<RewardId, Reward>,
                        user: UserId, rid: RewardId, pending: set<(UserId, RewardId)>): map<(UserId, RewardId), UserReward>
  {
    map k | k in records ::
      if k.0 == user && k !in pending && k != (user, rid) && SameKind(catalog, k.1, rid)
      then records[k].(isActive := false) else records[k]
  }

  /** One turn of that loop. */
  lemma DeactivatingStep(records: map<(UserId, RewardId), UserReward>, catalog: map<RewardId, Reward>,
                         user: UserId, rid: RewardId, pending: set<(UserId, RewardId)>, k: (UserId, RewardId))
    requires rid in catalog && k in pending && k in records && k.0 == user
    ensures var before := Deactivating(records, catalog, user, rid, pending);
      Deactivating(records, catalog, user, rid, pending - {k}) ==
        if k.1 in catalog && catalog[k.1].kind == catalog[rid].kind && k != (user, rid)
        then before[k := before[k].(isActive := false)] else before
  {
  }

  /** Once the loop is done, activating the target gives `Activated`. */
  lemma DeactivatedThenActivated(records: map<(UserId, RewardId), UserReward>, catalog: map<RewardId, Reward>,
                                 user: UserId, rid: RewardId)
    requires rid in catalog && (user, rid) in records
    ensures Deactivating(records, catalog, user, rid, {})[(user, rid) := records[(user, rid)].(isActive := true)] ==
            Activated(records, catalog, user, rid)
  {
  }

  class RewardStore {
    /** Key balances by owner (the `Key` collection). */
    var keys: map<UserId, int>
    /** The reward catalog, read-only for these handlers. */
    const rewards: map<RewardId, Reward>
    /** The loot box catalog, read-only for these handlers. */
    const lootBoxes: map<LootBoxId, LootBox>
    /** Ownership records keyed by their unique index (user, reward). */
    var userRewards: map<(UserId, RewardId), UserReward>

    ghost predicate Valid()
      reads this
    {
      UniqueNames(rewards) && UniqueBoxNames(lootBoxes) &&
      (forall b :: b in lootBoxes ==> ValidItems(lootBoxes[b].items)) &&
      NonNegativeBalances(keys) &&
      IndexedByPair(userRewards) && AtMostOneActive(userRewards, rewards)
    }

    /** A store over a seeded catalog, with no balances and no ownership yet. */
    constructor(rewards: map<RewardId, Reward>, lootBoxes: map<LootBoxId, LootBox>)
      requires UniqueNames(rewards) && UniqueBoxNames(lootBoxes)
      requires forall b :: b in lootBoxes ==> ValidItems(lootBoxes[b].items)
      ensures Valid()
      ensures this.rewards == rewards && this.lootBoxes == lootBoxes
      ensures keys == map[] && userRewards == map[]
    {
      this.rewards := rewards;
      this.lootBoxes := lootBoxes;
      keys := map[];
      userRewards := map[];
    }

    /** `getUserKeys`: the caller's balance, creating a zero balance on first use. */
    method GetUserKeys(user: UserId) returns (count: int)
      requires Valid()
      modifies this`keys
      ensures Valid()
      ensures count == Balance(old(keys), user) && user in keys
      ensures keys == if user in old(keys) then old(keys) else old(keys)[user := 0]
    {
      if user !in keys {
        keys := keys[user := 0];
      }
      count := keys[user];
    }

    /** `addUserKeys`: a missing, zero or negative amount is refused with 400;
        otherwise the amount is added to the balance, creating it if needed. */
    method AddUserKeys(user: UserId, amount: Option<int>) returns (res: Result<int, nat>)
      requires Valid()
      modifies this`keys
      ensures Valid()
      ensures res.Err? <==> amount.None? || amount.value <= 0
      ensures res.Err? ==> res.error == BadRequest && keys == old(keys)
      ensures res.Ok? ==> keys == old(keys)[user := Balance(old(keys), user) + amount.value] &&
                          res.value == keys[user] && res.value > Balance(old(keys), user)
    {
      if amount.None? || amount.value <= 0 {
        return Err(BadRequest);
      }
      if user !in keys {
        keys := keys[user := amount.value];
      } else {
        keys := keys[user := keys[user] + amount.value];
      }
      res := Ok(keys[user]);
    }

    /** `getLootBoxes`: every box of the catalog once, cheapest first. */
    method GetLootBoxes() returns (boxes: seq<(LootBoxId, LootBox)>)
      ensures |boxes| == |lootBoxes|
      ensures forall i :: 0 <= i < |boxes| ==> boxes[i].0 in lootBoxes && boxes[i].1 == lootBoxes[boxes[i].0]
      ensures forall id :: id in lootBoxes ==> (id, lootBoxes[id]) in boxes
      ensures forall i, j :: 0 <= i < j < |boxes| ==> boxes[i].1.cost <= boxes[j].1.cost
    {
      var all := Seqs.Entries(lootBoxes);
      boxes := Sorting.SortDesc(all, (e: (LootBoxId, LootBox)) => -e.1.cost);
      Sorting.SameElements(all, boxes);
      forall i | 0 <= i < |boxes| ensures boxes[i].0 in lootBoxes && boxes[i].1 == lootBoxes[boxes[i].0] {
        assert boxes[i] in all;
      }
    }

    /** `openLootBox`: 404 for an unknown box, 400 when the caller cannot pay its
        cost, 500 when the draw yields nothing (an empty box, or a drawn reward that
        no longer exists); otherwise the cost is debited and the drawn reward is
        recorded as owned (inactive, acquired `now`) unless the caller owns it. `u` is
        the value of `Math.random()`. */
    method OpenLootBox(user: UserId, boxId: LootBoxId, u: real, now: Millis) returns (res: Result<OpenedBox, nat>)
      requires Valid() && 0.0 <= u < 1.0
      modifies this`keys, this`userRewards
      ensures Valid()
      ensures boxId !in lootBoxes ==> res == Err(NotFound)
      ensures boxId in lootBoxes && !CanAfford(old(keys), user, lootBoxes[boxId].cost) ==> res == Err(BadRequest)
      ensures boxId in lootBoxes && CanAfford(old(keys), user, lootBoxes[boxId].cost) ==>
        var drawn := Draw(lootBoxes[boxId].items, u);
        (drawn.None? || drawn.value !in rewards) ==> res == Err(ServerError)
      ensures boxId in lootBoxes && CanAfford(old(keys), user, lootBoxes[boxId].cost) &&
              Draw(lootBoxes[boxId].items, u).Some? && Draw(lootBoxes[boxId].items, u).value in rewards ==>
        res.Ok?
      ensures res.Err? ==> keys == old(keys) && userRewards == old(userRewards)
      ensures res.Ok? ==>
        (boxId in lootBoxes && CanAfford(old(keys), user, lootBoxes[boxId].cost) &&
         var drawn := Draw(lootBoxes[boxId].items, u);
         drawn.Some? && drawn.value in rewards &&
         var w := drawn.value;
         keys == old(keys)[user := old(keys)[user] - lootBoxes[boxId].cost] &&
         res.value.keyBalance == keys[user] && keys[user] >= 0 && !res.value.isNew &&
         (user, w) in userRewards &&
         if (user, w) in old(userRewards) then
           userRewards == old(userRewards) && res.value.reward == Unpopulated(w)
         else
           userRewards == old(userRewards)[(user, w) := UserReward(user, w, false, now)] &&
           res.value.reward == Populated(w, rewards[w]))
    {
      if boxId !in lootBoxes {
        return Err(NotFound);
      }
      var box := lootBoxes[boxId];
      if user !in keys || keys[user] < box.cost {
        return Err(BadRequest);
      }
      var drawn := SelectRewardFromLootBox(box.items, u);
      if drawn.None? || drawn.value !in rewards {
        return Err(ServerError);
      }
      var w := drawn.value;
      keys := keys[user := keys[user] - box.cost];
      var reward: RewardRef;
      if (user, w) !in userRewards {
        userRewards := userRewards[(user, w) := UserReward(user, w, false, now)];
        reward := Populated(w, rewards[w]);
      } else {
        reward := Unpopulated(w);
      }
      // The record is either found or freshly created, so it always has an `_id`
      // and `isNew` (`!userReward._id`) is false on both paths.
      var hasId := true;
      res := Ok(OpenedBox(reward, keys[user], !hasId));
    }

    /** `UserReward.find(...).populate("reward")` for the caller, optionally only
        the active records: each matching record once, populated. */
    method FindOwned(user: UserId, activeOnly: bool) returns (docs: seq<OwnedReward>)
      requires IndexedByPair(userRewards)
      ensures forall d :: d in docs ==>
        (d.user == user && (user, d.rewardId) in userRewards &&
         d == Populate(userRewards[(user, d.rewardId)], rewards) && (activeOnly ==> d.isActive))
      ensures forall k :: k in userRewards && k.0 == user && (activeOnly ==> userRewards[k].isActive) ==>
        Populate(userRewards[k], rewards) in docs
      ensures forall i, j :: 0 <= i < j < |docs| ==> docs[i].rewardId != docs[j].rewardId
    {
      var all := Seqs.Entries(userRewards);
      var mine := Seqs.Filter(all, (e: ((UserId, RewardId), UserReward)) =>
        e.0.0 == user && (activeOnly ==> e.1.isActive));
      assert Seqs.NoDuplicates(all);
      Seqs.FilterNoDuplicates(all, (e: ((UserId, RewardId), UserReward)) =>
        e.0.0 == user && (activeOnly ==> e.1.isActive));
      docs := seq(|mine|, i requires 0 <= i < |mine| => Populate(mine[i].1, rewards));
      forall d | d in docs
        ensures d.user == user && (user, d.rewardId) in userRewards &&
          d == Populate(userRewards[(user, d.rewardId)], rewards) && (activeOnly ==> d.isActive)
      {
        var i :| 0 <= i < |docs| && docs[i] == d;
        assert mine[i] in mine;
      }
      forall k | k in userRewards && k.0 == user && (activeOnly ==> userRewards[k].isActive)
        ensures Populate(userRewards[k], rewards) in docs
      {
        assert (k, userRewards[k]) in mine;
        var i :| 0 <= i < |mine| && mine[i] == (k, userRewards[k]);
        assert docs[i] == Populate(userRewards[k], rewards);
      }
      forall i, j | 0 <= i < j < |docs| ensures docs[i].rewardId != docs[j].rewardId {
        assert mine[i] in mine && mine[j] in mine;
      }
    }

    /** `getUserRewards`: all of the caller's records, populated, most recently
        acquired first. */
    method GetUserRewards(user: UserId) returns (docs: seq<OwnedReward>)
      requires Valid()
      ensures forall d :: d in docs ==>
        (d.user == user && (user, d.rewardId) in userRewards &&
         d == Populate(userRewards[(user, d.rewardId)], rewards))
      ensures forall k :: k in userRewards && k.0 == user ==> Populate(userRewards[k], rewards) in docs
      ensures forall i, j :: 0 <= i < j < |docs| ==> docs[i].rewardId != docs[j].rewardId
      ensures forall i, j :: 0 <= i < j < |docs| ==> docs[i].acquiredAt >= docs[j].acquiredAt
    {
      var found := FindOwned(user, false);
      docs := Sorting.SortDesc(found, (d: OwnedReward) => d.acquiredAt);
      Sorting.SameElements(found, docs);
      assert Seqs.NoDuplicates(found) by {
        forall i, j | 0 <= i < j < |found| ensures found[i] != found[j] {}
      }
      Seqs.PermutationNoDuplicates(found, docs);
      forall i, j | 0 <= i < j < |docs| ensures docs[i].rewardId != docs[j].rewardId {
        assert docs[i] in found && docs[j] in found;
      }
    }

    /** `getActiveRewards`: the caller's active records, populated. */
    method GetActiveRewards(user: UserId) returns (docs: seq<OwnedReward>)
      requires Valid()
      ensures forall d :: d in docs ==>
        (d.user == user && (user, d.rewardId) in userRewards &&
         d == Populate(userRewards[(user, d.rewardId)], rewards) && d.isActive)
      ensures forall k :: k in userRewards && k.0 == user && userRewards[k].isActive ==>
        Populate(userRewards[k], rewards) in docs
      ensures forall i, j :: 0 <= i < j < |docs| ==> docs[i].rewardId != docs[j].rewardId
    {
      docs := FindOwned(user, true);
    }

    /** `setActiveReward`: 404 when the caller does not own the reward, 500 when
        the owned record points at a reward that no longer exists (reading its
        `type` fails); otherwise every other record of the caller whose reward has
        the same type is deactivated, the target is activated and returned. */
    method SetActiveReward(user: UserId, rid: RewardId) returns (res: Result<OwnedReward, nat>)
      requires Valid()
      modifies this`userRewards
      ensures Valid()
      ensures (user, rid) !in old(userRewards) ==> res == Err(NotFound)
      ensures (user, rid) in old(userRewards) && rid !in rewards ==> res == Err(ServerError)
      ensures (user, rid) in old(userRewards) && rid in rewards ==> res.Ok?
      ensures res.Err? ==> userRewards == old(userRewards)
      ensures res.Ok? ==>
        ((user, rid) in old(userRewards) && rid in rewards &&
         userRewards == Activated(old(userRewards), rewards, user, rid) &&
         res.value == Populate(userRewards[(user, rid)], rewards))
    {
      if (user, rid) !in userRewards {
        return Err(NotFound);
      }
      var rewardToActivate := userRewards[(user, rid)];
      if rid !in rewards {
        return Err(ServerError);
      }
      var rewardType := rewards[rid].kind;
      ghost var start := userRewards;
      var pending := set k | k in userRewards && k.0 == user;
      while pending != {}
        invariant forall k :: k in pending ==> k in start && k.0 == user
        invariant userRewards == Deactivating(start, rewards, user, rid, pending)
        decreases pending
      {
        var k :| k in pending;
        DeactivatingStep(start, rewards, user, rid, pending, k);
        // `populate` with `match: { type }` leaves `reward` null for records of
        // other types and for rewards missing from the catalog.
        if k.1 in rewards && rewards[k.1].kind == rewardType && k != (user, rid) {
          userRewards := userRewards[k := userRewards[k].(isActive := false)];
        }
        pending := pending - {k};
      }
      DeactivatedThenActivated(start, rewards, user, rid);
      userRewards := userRewards[(user, rid) := rewardToActivate.(isActive := true)];
      ActivatedKeepsInvariant(start, rewards, user, rid);
      res := Ok(Populate(userRewards[(user, rid)], rewards));
    }
  }
}
