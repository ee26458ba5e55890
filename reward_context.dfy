/** The client-side reward state shared by every page: the key count, the active
    rewards, and the lookup of the active reward of one type. */
module RewardContext {
  import opened Common
  import opened RewardModel
  import opened RewardEconomy

  /** How a request ended: it threw, it answered without `success`, or it answered
      with data. */
  datatype Fetch<+T> = Threw | Unsuccessful | Data(value: T)

  /** The outcome of `getActiveRewardByType`: the reward, `null`, or a TypeError
      from reading the type of a record whose reward is gone. */
  datatype Lookup = Found(reward: Reward) | NotFound | Throws

  /** `find` passes over a record when its reward exists and has another type. */
  predicate PassedOver(d: OwnedReward, t: RewardType) {
    d.reward.Some? && d.reward.value.kind != t
  }

  /** Where `find` stops: the first record it does not pass over, or the end. */
  function StopIndex(active: seq<OwnedReward>, t: RewardType): (i: nat)
    ensures i <= |active|
    ensures forall j :: 0 <= j < i ==> PassedOver(active[j], t)
    ensures i < |active| ==> !PassedOver(active[i], t)
  {
    if active == [] then 0
    else if !PassedOver(active[0], t) then 0
    else 1 + StopIndex(active[1..], t)
  }

  /** `getActiveRewardByType(type)` over the context's `activeRewards`. */
  function ActiveRewardByType(active: seq<OwnedReward>, t: RewardType): (r: Lookup)
    ensures r.NotFound? <==> forall d :: d in active ==> PassedOver(d, t)
    ensures r.Found? ==> (
      r.reward.kind == t &&
      exists i :: 0 <= i < |active| && active[i].reward == Some(r.reward) &&
        forall j :: 0 <= j < i ==> active[j].reward.Some? && active[j].reward.value.kind != t)
    ensures r.Throws? <==>
      exists i :: 0 <= i < |active| && active[i].reward.None? &&
        forall j :: 0 <= j < i ==> PassedOver(active[j], t)
  {
    var i := StopIndex(active, t);
    if i == |active| then NotFound
    else if active[i].reward.None? then Throws
    else Found(active[i].reward.value)
  }

  /** When every record has its reward, as after populating from a complete
      catalog, the lookup never throws and is `null` exactly when no active
      reward has type `t`. */
  lemma PopulatedLookup(active: seq<OwnedReward>, t: RewardType)
    requires forall d :: d in active ==> d.reward.Some?
    ensures ActiveRewardByType(active, t).NotFound? <==>
      !exists d :: d in active && d.reward.value.kind == t
    ensures !ActiveRewardByType(active, t).Throws?
  {
  }

  class RewardState {
    var keys: int
    var activeRewards: seq<OwnedReward>

    /** The state after mounting: keys first, then the active rewards; a thrown key
        request skips the second request. */
    constructor(keysFetch: Fetch<int>, activeFetch: Fetch<seq<OwnedReward>>)
      ensures keys == (if keysFetch.Data? then keysFetch.value else 0)
      ensures activeRewards == (if !keysFetch.Threw? && activeFetch.Data? then activeFetch.value else [])
    {
      keys := if keysFetch.Data? then keysFetch.value else 0;
      activeRewards := if !keysFetch.Threw? && activeFetch.Data? then activeFetch.value else [];
    }

    /** `updateKeys(forceRefresh)`: without `forceRefresh` nothing is requested;
        otherwise a successful answer replaces the count. */
    method UpdateKeys(forceRefresh: bool, fetched: Fetch<int>)
      modifies this`keys
      ensures keys == (if forceRefresh && fetched.Data? then fetched.value else old(keys))
    {
      if forceRefresh {
        match fetched
        case Data(count) => keys := count;
        case _ =>
      }
    }

    /** `addKeys(amount)`: the count becomes the server's new balance only on a
        successful answer, and the result says whether that happened. */
    method AddKeys(fetched: Fetch<int>) returns (ok: bool)
      modifies this`keys
      ensures ok <==> fetched.Data?
      ensures keys == (if ok then fetched.value else old(keys))
    {
      ok := false;
      if fetched.Data? {
        keys := fetched.value;
        ok := true;
      }
    }

    /** `refreshActiveRewards`: a successful answer replaces the list. */
    method RefreshActiveRewards(fetched: Fetch<seq<OwnedReward>>)
      modifies this`activeRewards
      ensures activeRewards == (if fetched.Data? then fetched.value else old(activeRewards))
    {
      if fetched.Data? {
        activeRewards := fetched.value;
      }
    }
  }
}
