/**
 The player's three resource counts and the quest-completion handler that
 credits a quest's rewards to them. The handler works on a copy: it builds a
 new inventory and hands it to the `onInventoryUpdate` callback, and the old
 one is left as it was (values here are immutable, so that holds of every
 function below).
 */
module Inventory {
  import Js
  import Notices

  datatype Resource = Wood | Stone | Crystal

  /** The resource counts, one field per resource the inventory type declares. */
  datatype Inventory = Inventory(wood: int, stone: int, crystal: int)

  function Count(inv: Inventory, r: Resource): int {
    match r
    case Wood => inv.wood
    case Stone => inv.stone
    case Crystal => inv.crystal
  }

  /** The key under which the source names a resource. */
  function Name(r: Resource): string {
    match r
    case Wood => "wood"
    case Stone => "stone"
    case Crystal => "crystal"
  }

  /** `newInventory[item] += amount` for one reward entry. */
  function Credit(inv: Inventory, r: Resource, amount: int): (inv': Inventory)
    ensures Count(inv', r) == Count(inv, r) + amount
    ensures forall o :: o != r ==> Count(inv', o) == Count(inv, o)
  {
    match r
    case Wood => inv.(wood := inv.wood + amount)
    case Stone => inv.(stone := inv.stone + amount)
    case Crystal => inv.(crystal := inv.crystal + amount)
  }

  /** A quest's rewards as `Object.entries(rewards)` lists them: (resource, amount) pairs. */
  type Rewards = seq<(Resource, int)>

  /** The total amount the entries award to `r`. */
  function RewardFor(rewards: Rewards, r: Resource): int {
    if |rewards| == 0 then 0
    else RewardFor(rewards[..|rewards| - 1], r) + (if rewards[|rewards| - 1].0 == r then rewards[|rewards| - 1].1 else 0)
  }

  /** The entries of a JavaScript object: no key occurs twice. */
  predicate DistinctKeys(rewards: Rewards) {
    forall i, j :: 0 <= i < j < |rewards| ==> rewards[i].0 != rewards[j].0
  }

  /** The `forEach` over the entries, crediting them in order to the copy. */
  function ApplyRewards(inv: Inventory, rewards: Rewards): Inventory {
    if |rewards| == 0 then inv
    else
      var last := rewards[|rewards| - 1];
      Credit(ApplyRewards(inv, rewards[..|rewards| - 1]), last.0, last.1)
  }

  /** After crediting, each count has grown by exactly what the entries award to that resource. */
  lemma {:induction false} ApplyRewardsCounts(inv: Inventory, rewards: Rewards, r: Resource)
    ensures Count(ApplyRewards(inv, rewards), r) == Count(inv, r) + RewardFor(rewards, r)
    decreases |rewards|
  {
    if |rewards| > 0 {
      ApplyRewardsCounts(inv, rewards[..|rewards| - 1], r);
    }
  }

  /** With distinct keys, an entry's resource is awarded exactly that entry's amount. */
  lemma {:induction false} RewardForEntry(rewards: Rewards, i: int)
    requires DistinctKeys(rewards)
    requires 0 <= i < |rewards|
    ensures RewardFor(rewards, rewards[i].0) == rewards[i].1
    decreases |rewards|
  {
    var n := |rewards| - 1;
    if i < n {
      RewardForEntry(rewards[..n], i);
    } else {
      RewardForAbsent(rewards[..n], rewards[i].0);
    }
  }

  /** A resource that no entry names is awarded nothing. */
  lemma {:induction false} RewardForAbsent(rewards: Rewards, r: Resource)
    requires forall i :: 0 <= i < |rewards| ==> rewards[i].0 != r
    ensures RewardFor(rewards, r) == 0
    decreases |rewards|
  {
    if |rewards| > 0 {
      RewardForAbsent(rewards[..|rewards| - 1], r);
    }
  }

  /**
   The handler's promise, key by key: a rewarded resource ends at its old
   count plus its reward, and every resource without a reward keeps its count.
   */
  lemma QuestRewardsPointwise(inv: Inventory, rewards: Rewards, r: Resource)
    requires DistinctKeys(rewards)
    ensures forall i :: 0 <= i < |rewards| && rewards[i].0 == r ==>
      Count(ApplyRewards(inv, rewards), r) == Count(inv, r) + rewards[i].1
    ensures (forall i :: 0 <= i < |rewards| ==> rewards[i].0 != r) ==>
      Count(ApplyRewards(inv, rewards), r) == Count(inv, r)
  {
    ApplyRewardsCounts(inv, rewards, r);
    forall i | 0 <= i < |rewards| && rewards[i].0 == r
      ensures Count(ApplyRewards(inv, rewards), r) == Count(inv, r) + rewards[i].1
    {
      RewardForEntry(rewards, i);
    }
    if forall i :: 0 <= i < |rewards| ==> rewards[i].0 != r {
      RewardForAbsent(rewards, r);
    }
  }

  predicate NonNegative(inv: Inventory) {
    inv.wood >= 0 && inv.stone >= 0 && inv.crystal >= 0
  }

  predicate NonNegativeRewards(rewards: Rewards) {
    forall i :: 0 <= i < |rewards| ==> rewards[i].1 >= 0
  }

  /** Every count is at least what it is in `b`. */
  predicate AtLeast(a: Inventory, b: Inventory) {
    a.wood >= b.wood && a.stone >= b.stone && a.crystal >= b.crystal
  }

  /** Rewards that give nothing negative never lower a count, so they keep a non-negative inventory non-negative. */
  lemma {:induction false} NonNegativeRewardsGrow(inv: Inventory, rewards: Rewards)
    requires NonNegativeRewards(rewards)
    ensures AtLeast(ApplyRewards(inv, rewards), inv)
    ensures NonNegative(inv) ==> NonNegative(ApplyRewards(inv, rewards))
    decreases |rewards|
  {
    if |rewards| > 0 {
      NonNegativeRewardsGrow(inv, rewards[..|rewards| - 1]);
    }
  }

  /** The entries written as the notice lists them: `"<amount> <item>"`, joined by ", ". */
  function RewardList(rewards: Rewards): (s: string)
    ensures s == "" <==> |rewards| == 0
  {
    if |rewards| == 0 then ""
    else
      var last := rewards[|rewards| - 1];
      var item := Js.IntToString(last.1) + " " + Name(last.0);
      if |rewards| == 1 then item else RewardList(rewards[..|rewards| - 1]) + ", " + item
  }

  const QuestMessagePrefix: string := "Quest completed! Received: "

  /**
   `handleQuestComplete`: credits every entry, in order, to a copy of the
   inventory, and announces the rewards with a success notice.
   */
  method QuestComplete(inv: Inventory, rewards: Rewards, notices: seq<Notices.Notice>, id: string)
    returns (updated: Inventory, notices': seq<Notices.Notice>)
    ensures forall r :: Count(updated, r) == Count(inv, r) + RewardFor(rewards, r)
    ensures updated == ApplyRewards(inv, rewards)
    ensures notices' == Notices.Notify(notices, id, QuestMessagePrefix + RewardList(rewards), Notices.Success)
  {
    updated := inv;
    var i := 0;
    while i < |rewards|
      invariant 0 <= i <= |rewards|
      invariant updated == ApplyRewards(inv, rewards[..i])
      invariant forall r :: Count(updated, r) == Count(inv, r) + RewardFor(rewards[..i], r)
    {
      assert rewards[..i + 1][..i] == rewards[..i];
      updated := Credit(updated, rewards[i].0, rewards[i].1);
      i := i + 1;
    }
    assert rewards[..|rewards|] == rewards;
    notices' := Notices.Notify(notices, id, QuestMessagePrefix + RewardList(rewards), Notices.Success);
  }

}
