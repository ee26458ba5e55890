/** The weighted draw of `selectRewardFromLootBox`: the weights are summed, a number
    r = u * total is drawn from the injected `u` in [0, 1), and the items are walked in
    their stored order accumulating the weights until the running sum reaches r; if the
    walk runs off the end the last item is returned. */
module LootDraw {
  import opened Common
  import opened LootBoxModel

  /** The sum of the weights, added from the left as `reduce` does. */
  function Total(items: seq<LootBoxItem>): real {
    if items == [] then 0.0 else Total(items[..|items| - 1]) + items[|items| - 1].probability
  }

  /** The running sum after the first `k` items: the loop's `cumulativeProbability`. */
  function Prefix(items: seq<LootBoxItem>, k: nat): real
    requires k <= |items|
  {
    Total(items[..k])
  }

  /** The running sum once item `j` has been added. */
  function RunningSum(items: seq<LootBoxItem>, j: nat): real
    requires j < |items|
  {
    Prefix(items, j + 1)
  }

  lemma PrefixStep(items: seq<LootBoxItem>, k: nat)
    requires k < |items|
    ensures Prefix(items, k + 1) == Prefix(items, k) + items[k].probability
  {
    assert items[..k + 1][..k] == items[..k];
  }

  lemma PrefixAll(items: seq<LootBoxItem>)
    ensures Prefix(items, |items|) == Total(items)
  {
    assert items[..|items|] == items;
  }

  /** The walk from position `i` on: the first position whose running sum reaches `r`,
      or None when the loop finishes without returning. */
  function WalkFrom(items: seq<LootBoxItem>, r: real, i: nat): (res: Option<nat>)
    requires i <= |items|
    ensures res.Some? ==> i <= res.value < |items|
    decreases |items| - i
  {
    if i == |items| then None
    else if r <= Prefix(items, i + 1) then Some(i)
    else WalkFrom(items, r, i + 1)
  }

  /** The position drawn for `r` from a non-empty box: the walk's answer, else the last item. */
  function Select(items: seq<LootBoxItem>, r: real): (k: nat)
    requires |items| > 0
    ensures k < |items|
  {
    match WalkFrom(items, r, 0)
    case Some(k) => k
    case None => |items| - 1
  }

  /** The reward drawn from `items` for the random number `u` in [0, 1). An empty box
      has no last item: the source then fails reading `items[-1].reward`, which the
      model reports as None. */
  function Draw(items: seq<LootBoxItem>, u: real): Option<RewardId> {
    if |items| == 0 then None else Some(items[Select(items, u * Total(items))].reward)
  }

  /** The loop itself, proved to compute `Draw`. */
  method SelectRewardFromLootBox(items: seq<LootBoxItem>, u: real) returns (reward: Option<RewardId>)
    requires 0.0 <= u < 1.0
    ensures reward.None? <==> |items| == 0
    ensures reward == Draw(items, u)
  {
    var totalProbability := Total(items);
    var random := u * totalProbability;
    var cumulativeProbability := 0.0;
    for i := 0 to |items|
      invariant cumulativeProbability == Prefix(items, i)
      invariant WalkFrom(items, random, 0) == WalkFrom(items, random, i)
    {
      PrefixStep(items, i);
      cumulativeProbability := cumulativeProbability + items[i].probability;
      if random <= cumulativeProbability {
        DrawnInLoop(items, u, random, i);
        return Some(items[i].reward);
      }
      assert WalkFrom(items, random, i) == WalkFrom(items, random, i + 1);
    }
    if |items| == 0 {
      return None;
    }
    DrawnAfterLoop(items, u, random);
    return Some(items[|items| - 1].reward);
  }

  /** The loop's early return at position `i` is the draw. */
  lemma DrawnInLoop(items: seq<LootBoxItem>, u: real, r: real, i: nat)
    requires i < |items| && r == u * Total(items)
    requires WalkFrom(items, r, 0) == WalkFrom(items, r, i) && r <= Prefix(items, i + 1)
    ensures Draw(items, u) == Some(items[i].reward)
  {
    assert WalkFrom(items, r, i) == Some(i);
    assert Select(items, r) == i;
  }

  /** Running off the end of a non-empty box is the draw of its last item. */
  lemma DrawnAfterLoop(items: seq<LootBoxItem>, u: real, r: real)
    requires |items| > 0 && r == u * Total(items)
    requires WalkFrom(items, r, 0) == WalkFrom(items, r, |items|)
    ensures Draw(items, u) == Some(items[|items| - 1].reward)
  {
    assert WalkFrom(items, r, 0).None?;
    assert Select(items, r) == |items| - 1;
  }

  /** The walk from `i` answers `k` exactly when `k` is the first position at or after
      `i` whose running sum reaches `r`. */
  lemma {:induction false} WalkFromIsFirst(items: seq<LootBoxItem>, r: real, i: nat, k: nat)
    requires i <= |items|
    ensures WalkFrom(items, r, i) == Some(k) <==>
      (i <= k < |items| && r <= Prefix(items, k + 1) &&
       forall j :: i <= j < k ==> r > RunningSum(items, j))
    decreases |items| - i
  {
    if i < |items| {
      assert RunningSum(items, i) == Prefix(items, i + 1);
      if r > Prefix(items, i + 1) {
        WalkFromIsFirst(items, r, i + 1, k);
      }
    }
  }

  /** When `r` does not exceed the total, the walk always returns from inside the loop:
      the last-item fallback is never reached. */
  lemma {:induction false} FallbackUnreachable(items: seq<LootBoxItem>, r: real, i: nat)
    requires i < |items| && r <= Total(items)
    ensures WalkFrom(items, r, i).Some?
    decreases |items| - i
  {
    PrefixAll(items);
    if r > Prefix(items, i + 1) {
      FallbackUnreachable(items, r, i + 1);
    }
  }

  /** The draw for `r` in [0, total] is the item at the first position whose running
      sum reaches `r`; in particular it is always one of the box's items. */
  lemma SelectIsFirstCovering(items: seq<LootBoxItem>, r: real)
    requires |items| > 0 && r <= Total(items)
    ensures var k := Select(items, r);
      WalkFrom(items, r, 0) == Some(k) &&
      r <= Prefix(items, k + 1) && forall j :: 0 <= j < k ==> r > RunningSum(items, j)
  {
    FallbackUnreachable(items, r, 0);
    WalkFromIsFirst(items, r, 0, Select(items, r));
  }

  /** `Math.random() * totalProbability` lies in [0, total]. */
  lemma DrawInRange(u: real, total: real)
    requires 0.0 <= u < 1.0 && 0.0 <= total
    ensures 0.0 <= u * total <= total
  {
    assert (1.0 - u) * total >= 0.0;
  }

  lemma {:induction false} TotalNonNegative(items: seq<LootBoxItem>)
    requires ValidItems(items)
    ensures Total(items) >= 0.0
  {
    if items != [] {
      var init := items[..|items| - 1];
      assert ValidItems(init) by {
        forall k | 0 <= k < |init| ensures ValidItem(init[k]) { assert init[k] == items[k]; }
      }
      TotalNonNegative(init);
      assert ValidItem(items[|items| - 1]);
    }
  }

  /** With weights in [0, 100] the running sums never decrease. */
  lemma {:induction false} PrefixMonotone(items: seq<LootBoxItem>, a: nat, b: nat)
    requires ValidItems(items) && a <= b <= |items|
    ensures Prefix(items, a) <= Prefix(items, b)
    decreases b - a
  {
    if a < b {
      PrefixStep(items, a);
      assert ValidItem(items[a]);
      PrefixMonotone(items, a + 1, b);
    }
  }

  /** The distribution of the draw: for schema-valid weights and `r` in [0, total],
      position k is drawn exactly when `r` lies in (Prefix(k), Prefix(k + 1)], an
      interval as wide as item k's weight (for k = 0 the interval also holds 0). */
  lemma DrawnIffInInterval(items: seq<LootBoxItem>, r: real, k: nat)
    requires |items| > 0 && ValidItems(items) && 0.0 <= r <= Total(items) && k < |items|
    ensures Select(items, r) == k <==>
      ((k == 0 || Prefix(items, k) < r) && r <= Prefix(items, k + 1))
    ensures Prefix(items, k + 1) - Prefix(items, k) == items[k].probability
  {
    PrefixStep(items, k);
    SelectIsFirstCovering(items, r);
    WalkFromIsFirst(items, r, 0, k);
    if (k == 0 || Prefix(items, k) < r) && r <= Prefix(items, k + 1) {
      forall j | 0 <= j < k ensures r > RunningSum(items, j) {
        PrefixMonotone(items, j + 1, k);
      }
    }
    if Select(items, r) == k && k > 0 {
      assert r > RunningSum(items, k - 1);
    }
  }

  /** An item of weight 0 after the first position is never drawn. */
  lemma ZeroWeightNeverDrawn(items: seq<LootBoxItem>, r: real, k: nat)
    requires |items| > 0 && ValidItems(items) && 0.0 <= r <= Total(items)
    requires 0 < k < |items| && items[k].probability == 0.0
    ensures Select(items, r) != k
  {
    DrawnIffInInterval(items, r, k);
  }

  /** If every weight is 0 the draw is 0, and the first item is returned. */
  lemma AllZeroWeightsDrawFirst(items: seq<LootBoxItem>, r: real)
    requires |items| > 0 && 0.0 <= r <= Total(items)
    requires forall k :: 0 <= k < |items| ==> items[k].probability == 0.0
    ensures r == 0.0 && Select(items, r) == 0
  {
    assert ValidItems(items);
    PrefixMonotone(items, 1, |items|);
    PrefixAll(items);
    PrefixStep(items, 0);
    DrawnIffInInterval(items, r, 0);
  }

  /** A box with a single item always yields that item, whatever the draw. */
  lemma SingleItemAlwaysDrawn(item: LootBoxItem, r: real)
    ensures Select([item], r) == 0
  {
  }

  /** Weights [70, 30]: the first reward is drawn exactly for r <= 70, the second for
      70 < r <= 100. */
  lemma SeventyThirty(a: RewardId, b: RewardId, r: real)
    requires 0.0 <= r <= 100.0
    ensures var items := [LootBoxItem(a, 70.0), LootBoxItem(b, 30.0)];
      Total(items) == 100.0 && (Select(items, r) == 0 <==> r <= 70.0)
  {
    var items := [LootBoxItem(a, 70.0), LootBoxItem(b, 30.0)];
    assert items[..1] == [LootBoxItem(a, 70.0)];
    assert items[..2] == items;
    assert items[..0] == [];
    PrefixStep(items, 0);
    PrefixStep(items, 1);
  }
}
