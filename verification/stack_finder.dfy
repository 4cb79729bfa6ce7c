/** The existing-stack finder: the stacks of a storage that hold the requested
    item and still have room, in the storage's own order. */
module StackFinder {
  import opened Inventory

  /** A stack the finder keeps. Fullness is judged on the item metadata the
      stack itself carries. */
  predicate Fillable(s: StorageItem, itemId: string) {
    s.item.id == itemId && !Full(s)
  }

  /** GetExistingStorageItems once the storage has been fetched: a left-to-right
      scan that skips stacks of other items and full stacks. */
  function FillableStacks(stacks: seq<StorageItem>, itemId: string): (r: seq<StorageItem>)
    ensures |r| <= |stacks|
    ensures forall k :: 0 <= k < |r| ==> Fillable(r[k], itemId)
    decreases |stacks|
  {
    if |stacks| == 0 then []
    else if Fillable(stacks[0], itemId) then [stacks[0]] + FillableStacks(stacks[1..], itemId)
    else FillableStacks(stacks[1..], itemId)
  }

  /** The positions, from `i` on, of the stacks the finder keeps. */
  function FillableIndicesFrom(stacks: seq<StorageItem>, itemId: string, i: nat): seq<nat>
    requires i <= |stacks|
    decreases |stacks| - i
  {
    if i == |stacks| then []
    else if Fillable(stacks[i], itemId) then [i] + FillableIndicesFrom(stacks, itemId, i + 1)
    else FillableIndicesFrom(stacks, itemId, i + 1)
  }

  function FillableIndices(stacks: seq<StorageItem>, itemId: string): seq<nat> {
    FillableIndicesFrom(stacks, itemId, 0)
  }

  /** `idx` picks out `r` from `stacks` in order: `r[k]` is `stacks[idx[k]]`,
      and the positions strictly increase. */
  predicate PicksInOrder(stacks: seq<StorageItem>, r: seq<StorageItem>, idx: seq<nat>) {
    && |idx| == |r|
    && (forall k :: 0 <= k < |idx| ==> idx[k] < |stacks| && r[k] == stacks[idx[k]])
    && (forall k, l :: 0 <= k < l < |idx| ==> idx[k] < idx[l])
  }

  lemma {:induction false} FillableIndicesFromSpec(stacks: seq<StorageItem>, itemId: string, i: nat)
    requires i <= |stacks|
    ensures var idx := FillableIndicesFrom(stacks, itemId, i);
      && PicksInOrder(stacks, FillableStacks(stacks[i..], itemId), idx)
      && (forall k :: 0 <= k < |idx| ==> i <= idx[k])
      && (forall j :: i <= j < |stacks| ==> (Fillable(stacks[j], itemId) <==> j in idx))
    decreases |stacks| - i
  {
    if i < |stacks| {
      FillableIndicesFromSpec(stacks, itemId, i + 1);
      assert stacks[i..][0] == stacks[i];
      assert stacks[i..][1..] == stacks[i + 1..];
    }
  }

  /** The finder returns exactly the fillable stacks of the storage, each once
      and in storage order: the result is the subsequence of `stacks` at the
      positions `FillableIndices`, and a position is among them exactly when
      the stack there holds the item and is not full. */
  lemma FillableStacksExactly(stacks: seq<StorageItem>, itemId: string)
    ensures var idx := FillableIndices(stacks, itemId);
      && PicksInOrder(stacks, FillableStacks(stacks, itemId), idx)
      && (forall j :: 0 <= j < |stacks| ==> (Fillable(stacks[j], itemId) <==> j in idx))
  {
    FillableIndicesFromSpec(stacks, itemId, 0);
    assert stacks[0..] == stacks;
  }

  /** A stack is returned exactly when it is a stack of the storage that holds
      the item and is not full. */
  lemma FillableStacksMembership(stacks: seq<StorageItem>, itemId: string, s: StorageItem)
    ensures s in FillableStacks(stacks, itemId) <==> s in stacks && Fillable(s, itemId)
  {
  }

  /** Stacks with distinct ids stay distinct after filtering. */
  lemma FillableStacksUniqueIds(stacks: seq<StorageItem>, itemId: string)
    requires UniqueIds(stacks)
    ensures UniqueIds(FillableStacks(stacks, itemId))
  {
    FillableStacksExactly(stacks, itemId);
  }
}
