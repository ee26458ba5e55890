/** The rewards page: the user's owned rewards narrowed by a type and a rarity
    selection. */
module RewardsPage {
  import opened Common
  import opened RewardModel
  import opened RewardEconomy
  import Seqs

  /** The two drop-downs; None is the "All" entry (the empty string). */
  datatype Filters = Filters(typeFilter: Option<RewardType>, rarityFilter: Option<Rarity>)

  /** The callback dereferences `reward` only when a filter is set, so a record
      whose reward is gone (`null`) makes it throw exactly then. */
  predicate Throws(f: Filters, d: OwnedReward) {
    d.reward.None? && (f.typeFilter.Some? || f.rarityFilter.Some?)
  }

  predicate Selected(f: Filters, d: OwnedReward) {
    && (f.typeFilter.None? || (d.reward.Some? && d.reward.value.kind == f.typeFilter.value))
    && (f.rarityFilter.None? || (d.reward.Some? && d.reward.value.rarity == f.rarityFilter.value))
  }

  /** `filteredRewards`, None when the filter callback throws on some record. */
  function FilteredRewards(f: Filters, docs: seq<OwnedReward>): (r: Option<seq<OwnedReward>>)
    ensures r.None? <==> exists d :: d in docs && Throws(f, d)
    ensures r.Some? ==> forall d :: d in r.value <==> d in docs && Selected(f, d)
    ensures r.Some? ==> Seqs.IsSubsequence(r.value, docs)
    ensures r.Some? ==> |r.value| == Seqs.CountIf(docs, (d: OwnedReward) => Selected(f, d))
    ensures r.Some? && f.typeFilter.Some? ==>
      forall d :: d in r.value ==> d.reward.Some? && d.reward.value.kind == f.typeFilter.value
    ensures r.Some? && f.rarityFilter.Some? ==>
      forall d :: d in r.value ==> d.reward.Some? && d.reward.value.rarity == f.rarityFilter.value
  {
    if exists d :: d in docs && Throws(f, d) then None
    else
      Seqs.FilterIsSubsequence(docs, (d: OwnedReward) => Selected(f, d));
      Seqs.FilterLength(docs, (d: OwnedReward) => Selected(f, d));
      Some(Seqs.Filter(docs, (d: OwnedReward) => Selected(f, d)))
  }

  /** `clearFilters`: both selections go back to "All". */
  function ClearFilters(f: Filters): (r: Filters)
    ensures r.typeFilter.None? && r.rarityFilter.None?
  {
    Filters(None, None)
  }

  /** With no selection the whole list is shown, in its order, whatever it holds. */
  lemma ClearedShowsAll(f: Filters, docs: seq<OwnedReward>)
    ensures FilteredRewards(ClearFilters(f), docs) == Some(docs)
  {
    Seqs.FilterAll(docs, (d: OwnedReward) => Selected(Filters(None, None), d));
  }

  /** The list the server sends is populated from the catalog; when every record's
      reward is still there, no selection can make the page throw. */
  lemma CatalogRecordsNeverThrow(f: Filters, recs: seq<UserRewardModel.UserReward>, catalog: map<RewardId, Reward>)
    requires forall rec :: rec in recs ==> rec.reward in catalog
    ensures FilteredRewards(f, seq(|recs|, i requires 0 <= i < |recs| => Populate(recs[i], catalog))).Some?
  {
    var docs := seq(|recs|, i requires 0 <= i < |recs| => Populate(recs[i], catalog));
    forall d | d in docs
      ensures !Throws(f, d)
    {
      var i :| 0 <= i < |docs| && docs[i] == d;
      assert recs[i] in recs;
    }
  }
}
