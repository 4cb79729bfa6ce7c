/** The fill-existing-stacks allocator: tops up the stacks the finder returns
    before any new stack is created. */
module FillExisting {
  import opened Inventory
  import opened StackFinder

  /** The balancing methods that fill existing stacks first. Both are handled
      by the same greedy fill; nothing spreads units evenly. */
  predicate FillsExistingStacks(m: BalancingMethod) {
    m == BalancedFillExistingStacks || m == UnbalancedFillExistingStacks
  }

  /** Room left on a stack below the item's cap. */
  function Space(s: StorageItem, cap: int): int {
    cap - s.amount
  }

  /** Room left on all the given stacks together. */
  function TotalSpace(stacks: seq<StorageItem>, cap: int): int
    decreases |stacks|
  {
    if |stacks| == 0 then 0 else Space(stacks[0], cap) + TotalSpace(stacks[1..], cap)
  }

  /** The capped fill loop: each stack in turn is raised by the remainder, or by
      its room when the remainder covers that room. The loop runs over every
      stack, also once the remainder is 0, so later stacks get a raise of 0.
      Every raise keeps its stack at or below the cap, the raises and the
      returned remainder add up to the given remainder, and a non-negative
      remainder never goes negative. */
  function FillCapped(stacks: seq<StorageItem>, cap: int, remainder: int): (r: Allocation)
    ensures |r.ops| == |stacks|
    ensures forall k :: 0 <= k < |stacks| ==>
      r.ops[k].IncreaseAmount? && r.ops[k].stackId == stacks[k].id && stacks[k].amount + r.ops[k].delta <= cap
    ensures r.remainder + Placed(r.ops) == remainder
    ensures remainder >= 0 ==> r.remainder >= 0
    decreases |stacks|
  {
    if |stacks| == 0 then Allocation(remainder, [])
    else
      var increase := FirstShare(stacks, cap, remainder);
      var rest := FillCapped(stacks[1..], cap, remainder - increase);
      Allocation(rest.remainder, [IncreaseAmount(stacks[0].id, increase)] + rest.ops)
  }

  /** The raise the k-th stack gets from the greedy fill, stated without the
      loop: whatever of the remainder the stacks before it did not absorb,
      capped by its own room. */
  function GreedyShare(stacks: seq<StorageItem>, cap: int, remainder: int, k: nat): int
    requires k < |stacks|
  {
    Min(Space(stacks[k], cap), Max(0, remainder - TotalSpace(stacks[..k], cap)))
  }

  /** With room on every stack and a non-negative remainder, the fill loop is
      the greedy left-to-right fill: stack k gets `GreedyShare`, and what is
      left is the part of the remainder beyond the total room. */
  lemma {:induction false} FillCappedIsGreedy(stacks: seq<StorageItem>, cap: int, remainder: int)
    requires remainder >= 0
    requires forall k :: 0 <= k < |stacks| ==> stacks[k].amount <= cap
    ensures var r := FillCapped(stacks, cap, remainder);
      && r.remainder == Max(0, remainder - TotalSpace(stacks, cap))
      && forall k :: 0 <= k < |stacks| ==> r.ops[k].delta == GreedyShare(stacks, cap, remainder, k)
    decreases |stacks|
  {
    if |stacks| > 0 {
      var increase := FirstShare(stacks, cap, remainder);
      var tail := stacks[1..];
      FillCappedIsGreedy(tail, cap, remainder - increase);
      var r := FillCapped(stacks, cap, remainder);
      var rest := FillCapped(tail, cap, remainder - increase);
      assert r.ops == [IncreaseAmount(stacks[0].id, increase)] + rest.ops;
      TotalSpaceNonNegative(tail, cap);
      assert stacks[..0] == [];
      forall k | 0 < k < |stacks|
        ensures r.ops[k].delta == GreedyShare(stacks, cap, remainder, k)
      {
        GreedyShareShift(stacks, cap, remainder, k);
        assert r.ops[k] == rest.ops[k - 1];
      }
    }
  }

  /** The raise the first stack gets from the fill loop. */
  function FirstShare(stacks: seq<StorageItem>, cap: int, remainder: int): int
    requires |stacks| > 0
  {
    var space := Space(stacks[0], cap);
    if remainder >= space then space else remainder
  }

  /** Dropping the first stack and its raise leaves the greedy shares of the
      other stacks as they were. */
  lemma GreedyShareShift(stacks: seq<StorageItem>, cap: int, remainder: int, k: nat)
    requires 0 < k < |stacks|
    requires remainder >= 0
    requires forall j :: 0 <= j < |stacks| ==> stacks[j].amount <= cap
    ensures GreedyShare(stacks, cap, remainder, k)
         == GreedyShare(stacks[1..], cap, remainder - FirstShare(stacks, cap, remainder), k - 1)
  {
    var tail := stacks[1..];
    assert stacks[..k][0] == stacks[0];
    assert stacks[..k][1..] == tail[..k - 1];
    assert TotalSpace(stacks[..k], cap) == Space(stacks[0], cap) + TotalSpace(tail[..k - 1], cap);
    TotalSpaceNonNegative(tail[..k - 1], cap);
    assert stacks[k] == tail[k - 1];
  }

  lemma {:induction false} TotalSpaceNonNegative(stacks: seq<StorageItem>, cap: int)
    requires forall k :: 0 <= k < |stacks| ==> stacks[k].amount <= cap
    ensures TotalSpace(stacks, cap) >= 0
    decreases |stacks|
  {
    if |stacks| > 0 {
      TotalSpaceNonNegative(stacks[1..], cap);
    }
  }

  /** GiveToExistingStorageItems. Unstackable items, balancing methods that do
      not fill, and storages with no fillable stack leave the remainder as it
      is. An uncapped item puts the whole remainder on the first fillable
      stack; a capped item runs the capped fill loop. The storage is fetched
      only once the gates are passed, and a failed fetch is passed on. */
  function GiveToExisting(storage: Lookup<Storage>, itemId: string, remainder: int, item: Item): (r: Result<Allocation>)
    ensures r.Err? ==> r.error == StorageLookupFailed && storage.LookupFailed?
    ensures r.Ok? ==> r.value.remainder + Placed(r.value.ops) == remainder
    ensures r.Ok? && remainder >= 0 ==> r.value.remainder >= 0
    ensures r.Ok? ==> forall k :: 0 <= k < |r.value.ops| ==> r.value.ops[k].IncreaseAmount?
  {
    if !item.stackable then Ok(Allocation(remainder, []))
    else if !FillsExistingStacks(item.balancing) then Ok(Allocation(remainder, []))
    else
      match storage
      case LookupFailed => Err(StorageLookupFailed)
      case Found(st) =>
        var existing := FillableStacks(st.items, itemId);
        if |existing| == 0 then Ok(Allocation(remainder, []))
        else if item.stackMaxCount == 0 then Ok(Allocation(0, [IncreaseAmount(existing[0].id, remainder)]))
        else if item.stackMaxCount > 0 then Ok(FillCapped(existing, item.stackMaxCount, remainder))
        else Ok(Allocation(remainder, []))
  }

  /** The gates, both ways: the allocator issues no write exactly when the item
      is unstackable, its method does not fill, the storage (once fetched) has
      no fillable stack, or the item's cap is negative; and when it issues no
      write it hands back the remainder it was given. */
  lemma FillGates(storage: Lookup<Storage>, itemId: string, remainder: int, item: Item)
    ensures var r := GiveToExisting(storage, itemId, remainder, item);
      && (r.Ok? && r.value.ops == [] ==> r.value.remainder == remainder)
      && (r.Ok? && r.value.ops == [] <==>
           || !item.stackable
           || !FillsExistingStacks(item.balancing)
           || (storage.Found? && (|FillableStacks(storage.value.items, itemId)| == 0 || item.stackMaxCount < 0)))
  {
  }

  /** An uncapped item with a fillable stack: exactly one write, which puts the
      whole remainder on the first stack of the storage, in storage order, that
      holds the item and is not full; nothing is left over. */
  lemma FillUncapped(st: Storage, itemId: string, remainder: int, item: Item)
    requires item.stackable && FillsExistingStacks(item.balancing) && item.stackMaxCount == 0
    requires exists j :: 0 <= j < |st.items| && Fillable(st.items[j], itemId)
    ensures exists i ::
      && 0 <= i < |st.items|
      && Fillable(st.items[i], itemId)
      && (forall j :: 0 <= j < i ==> !Fillable(st.items[j], itemId))
      && GiveToExisting(Found(st), itemId, remainder, item) == Ok(Allocation(0, [IncreaseAmount(st.items[i].id, remainder)]))
  {
    FillableStacksExactly(st.items, itemId);
    var idx := FillableIndices(st.items, itemId);
    var j :| 0 <= j < |st.items| && Fillable(st.items[j], itemId);
    assert j in idx;
    var i := idx[0];
    assert forall m :: 0 <= m < |idx| ==> i <= idx[m];
    forall j' | 0 <= j' < i ensures !Fillable(st.items[j'], itemId) {
      assert j' !in idx;
    }
    var existing := FillableStacks(st.items, itemId);
    assert existing[0] == st.items[i];
    assert GiveToExisting(Found(st), itemId, remainder, item) == Ok(Allocation(0, [IncreaseAmount(st.items[i].id, remainder)]));
  }

  /** A capped item whose stacks all carry its cap, with a non-negative
      remainder: one raise per fillable stack, in the finder's order (the
      storage's order), stack k raised by its greedy share, which is never
      negative; what is left is the part of the remainder beyond the room of
      all fillable stacks. */
  lemma FillCappedInStorage(st: Storage, itemId: string, remainder: int, item: Item)
    requires item.stackable && FillsExistingStacks(item.balancing) && item.stackMaxCount > 0
    requires remainder >= 0
    requires forall i :: 0 <= i < |st.items| && st.items[i].item.id == itemId ==>
      st.items[i].item.stackMaxCount == item.stackMaxCount
    ensures var existing := FillableStacks(st.items, itemId);
      var r := GiveToExisting(Found(st), itemId, remainder, item);
      && r.Ok?
      && |r.value.ops| == |existing|
      && r.value.remainder == Max(0, remainder - TotalSpace(existing, item.stackMaxCount))
      && forall k :: 0 <= k < |existing| ==>
           && r.value.ops[k] == IncreaseAmount(existing[k].id, GreedyShare(existing, item.stackMaxCount, remainder, k))
           && r.value.ops[k].delta >= 0
  {
    var existing := FillableStacks(st.items, itemId);
    var cap := item.stackMaxCount;
    FillableStacksExactly(st.items, itemId);
    assert forall k :: 0 <= k < |existing| ==> existing[k].amount < cap;
    FillCappedIsGreedy(existing, cap, remainder);
  }

  /** Every write of the fill raises a fillable stack: write k raises the k-th
      stack the finder returned, so no stack is raised twice when stack ids are
      distinct; with a positive cap, no raise takes its stack past the cap. */
  lemma FillRaisesFillableStacks(st: Storage, itemId: string, remainder: int, item: Item)
    requires GiveToExisting(Found(st), itemId, remainder, item).Ok?
    ensures var ops := GiveToExisting(Found(st), itemId, remainder, item).value.ops;
      var existing := FillableStacks(st.items, itemId);
      && |ops| <= |existing|
      && forall k :: 0 <= k < |ops| ==>
           && ops[k].IncreaseAmount?
           && ops[k].stackId == existing[k].id
           && (item.stackMaxCount > 0 ==> existing[k].amount + ops[k].delta <= item.stackMaxCount)
  {
  }
}
