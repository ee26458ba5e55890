/** The ownership document: which user owns which reward, whether it is active
    and when it was acquired, with a unique index on the pair (user, reward). */
module UserRewardModel {
  import opened Common

  datatype UserReward = UserReward(user: UserId, reward: RewardId, isActive: bool, acquiredAt: Millis)

  /** Creating an ownership document: `user` and `reward` are required, `isActive`
      defaults to false and `acquiredAt` to the creation time `now`. */
  function CreateUserReward(user: Option<UserId>, reward: Option<RewardId>,
                            isActive: Option<bool>, acquiredAt: Option<Millis>,
                            now: Millis): (r: Result<UserReward, ValidationError>)
    ensures r.Ok? <==> user.Some? && reward.Some?
    ensures r.Ok? ==> r.value.user == user.value && r.value.reward == reward.value
  {
    if user.None? then Err(Required("user"))
    else if reward.None? then Err(Required("reward"))
    else Ok(UserReward(user.value, reward.value, isActive.GetOr(false), acquiredAt.GetOr(now)))
  }

  /** A document created with only its two references is inactive and acquired now. */
  lemma DefaultsOnCreate(u: UserId, w: RewardId, now: Millis)
    ensures CreateUserReward(Some(u), Some(w), None, None, now) == Ok(UserReward(u, w, false, now))
  {
  }

  /** The collection keyed by its unique index: each key holds the record of that pair. */
  predicate IndexedByPair(records: map<(UserId, RewardId), UserReward>) {
    forall k :: k in records ==> records[k].user == k.0 && records[k].reward == k.1
  }

  /** Under the unique index two stored records of the same pair are the same record. */
  lemma OneRecordPerPair(records: map<(UserId, RewardId), UserReward>, a: UserReward, b: UserReward)
    requires IndexedByPair(records)
    requires a in records.Values && b in records.Values
    requires a.user == b.user && a.reward == b.reward
    ensures a == b
  {
    var ka :| ka in records && records[ka] == a;
    var kb :| kb in records && records[kb] == b;
    assert ka == (a.user, a.reward) && kb == (b.user, b.reward);
  }
}
