/** The grant orchestrator, GiveItem: looks up the item, fills existing stacks,
    creates new stacks for what is left, and checks that nothing is left over.

    The sampled amount, the item and storage lookups and the repository's
    answers to writes are parameters. A write's answer is modelled by
    `rejectAt`: the repository rejects write call number `rejectAt` (counting
    from 0 within the grant) and accepts every other. The service issues the
    writes one by one and stops at the first rejected one; since no amount it
    computes depends on what a write returns, only on whether it failed, the
    model computes the writes of both stages first and then issues them in that
    order with `Issue`. */
module Grant {
  import opened Inventory
  import opened StackFinder
  import opened FillExisting
  import opened NewStacks

  /** What the repository saw: the writes it applied and the call it rejected,
      if any. */
  datatype Written = Written(applied: seq<Op>, rejected: Option<nat>)

  /** Issues `planned` one write call at a time after the `applied` ones; the
      call numbered `rejectAt` fails and nothing after it is issued. So the
      applied writes are the planned ones up to the rejected call, or all of
      them when no planned call is rejected. */
  function Issue(planned: seq<Op>, applied: seq<Op>, rejectAt: Option<nat>): (w: Written)
    ensures rejectAt.Some? && |applied| <= rejectAt.value < |applied| + |planned| ==>
      w == Written(applied + planned[..rejectAt.value - |applied|], rejectAt)
    ensures !(rejectAt.Some? && |applied| <= rejectAt.value < |applied| + |planned|) ==>
      w == Written(applied + planned, None)
    decreases |planned|
  {
    if |planned| == 0 then Written(applied, None)
    else if rejectAt == Some(|applied|) then Written(applied, rejectAt)
    else
      assert applied + planned == (applied + [planned[0]]) + planned[1..];
      assert forall j :: 0 <= j < |planned| ==> applied + planned[..j + 1] == (applied + [planned[0]]) + planned[1..][..j];
      Issue(planned[1..], applied + [planned[0]], rejectAt)
  }

  /** The answer of GiveItem (the granted amount, or an error) and the writes
      the repository applied on the way. */
  datatype Outcome = Outcome(response: Result<int>, log: seq<Op>)

  /** The writes a grant plans when the repository accepts all of them, or the
      lookup error that stops it before any write. */
  function Plan(amount: int, itemId: string, item: Item, storage: Lookup<Storage>): Result<(Allocation, Allocation)> {
    match GiveToExisting(storage, itemId, amount, item)
    case Err(e) => Err(e)
    case Ok(filled) => Ok((filled, AllocateNewStacks(item, filled.remainder)))
  }

  /** GiveItem for a sampled `amount`. A failed item or storage lookup ends the
      grant before any write; a rejected write ends it at once with the writes
      before it applied; units left over after both allocators end it with
      "something went wrong"; otherwise the answer is the sampled amount. */
  function GiveItem(amount: int, itemId: string, itemLookup: Lookup<Item>, storage: Lookup<Storage>, rejectAt: Option<nat>): (g: Outcome)
    ensures g.response.Ok? ==> g.response.value == amount
    ensures g.response.Err? && g.response.error in {ItemLookupFailed, StorageLookupFailed} ==> g.log == []
    ensures g.response.Err? && g.response.error.WriteRejected? ==>
      rejectAt == Some(g.response.error.call) && |g.log| == g.response.error.call
  {
    match itemLookup
    case LookupFailed => Outcome(Err(ItemLookupFailed), [])
    case Found(item) =>
      match Plan(amount, itemId, item, storage)
      case Err(e) => Outcome(Err(e), [])
      case Ok((filled, created)) =>
        var w := Issue(filled.ops + created.ops, [], rejectAt);
        if w.rejected.Some? then Outcome(Err(WriteRejected(w.rejected.value)), w.applied)
        else if created.remainder > 0 then Outcome(Err(SomethingWentWrong), w.applied)
        else Outcome(Ok(amount), w.applied)
  }

  /** Conservation: for a non-negative amount, an item whose cap is 0 or more,
      and lookups and writes that all succeed, the grant answers with the
      sampled amount and its writes add exactly that amount to the storage. */
  lemma GiveItemConserves(amount: int, itemId: string, item: Item, storage: Lookup<Storage>)
    requires amount >= 0 && item.stackMaxCount >= 0
    requires storage.Found? || !item.stackable || !FillsExistingStacks(item.balancing)
    ensures var g := GiveItem(amount, itemId, Found(item), storage, None);
      g.response == Ok(amount) && Placed(g.log) == amount
  {
    var filled := GiveToExisting(storage, itemId, amount, item).value;
    var created := AllocateNewStacks(item, filled.remainder);
    PlacedAppend(filled.ops, created.ops);
  }

  /** "Something went wrong" is raised exactly for a stackable item with a
      negative cap and a positive amount (once the lookups it needs have
      succeeded); then no write is issued at all. So for every item with a cap
      of 0 or more the final check never fires. */
  lemma SomethingWentWrongIff(amount: int, itemId: string, itemLookup: Lookup<Item>, storage: Lookup<Storage>, rejectAt: Option<nat>)
    ensures var g := GiveItem(amount, itemId, itemLookup, storage, rejectAt);
      g.response == Err(SomethingWentWrong) <==>
        && itemLookup.Found?
        && itemLookup.value.stackable
        && itemLookup.value.stackMaxCount < 0
        && amount > 0
        && (storage.Found? || !FillsExistingStacks(itemLookup.value.balancing))
    ensures var g := GiveItem(amount, itemId, itemLookup, storage, rejectAt);
      g.response == Err(SomethingWentWrong) ==> g.log == []
  {
  }

  /** A rejected write aborts the grant at once: with call k rejected, the
      grant applies exactly the first k writes of the grant that the
      repository accepts in full and answers WriteRejected(k); when the grant
      issues fewer than k + 1 writes it is unaffected. */
  lemma GiveItemAbortsAtRejectedWrite(amount: int, itemId: string, itemLookup: Lookup<Item>, storage: Lookup<Storage>, k: nat)
    ensures var clean := GiveItem(amount, itemId, itemLookup, storage, None);
      var g := GiveItem(amount, itemId, itemLookup, storage, Some(k));
      && (k < |clean.log| ==> g == Outcome(Err(WriteRejected(k)), clean.log[..k]))
      && (k >= |clean.log| ==> g == clean)
  {
  }

  /** The writes of a grant that runs into no error: the fill raises, one per
      fillable stack in storage order for a capped item, then the new stacks. */
  lemma GiveItemLog(amount: int, itemId: string, item: Item, st: Storage, rejectAt: Option<nat>)
    ensures var g := GiveItem(amount, itemId, Found(item), Found(st), rejectAt);
      var filled := GiveToExisting(Found(st), itemId, amount, item).value;
      var created := AllocateNewStacks(item, filled.remainder);
      exists m :: 0 <= m <= |filled.ops + created.ops| && g.log == (filled.ops + created.ops)[..m]
  {
    var filled := GiveToExisting(Found(st), itemId, amount, item).value;
    var created := AllocateNewStacks(item, filled.remainder);
    var planned := filled.ops + created.ops;
    assert planned[..|planned|] == planned;
  }

  /** Each raise a grant applies is the fill's raise of the k-th fillable
      stack, which is storage stack `FillableIndices(..)[k]`. */
  lemma GiveItemRaises(amount: int, itemId: string, item: Item, st: Storage, rejectAt: Option<nat>)
    ensures var g := GiveItem(amount, itemId, Found(item), Found(st), rejectAt);
      var existing := FillableStacks(st.items, itemId);
      var idx := FillableIndices(st.items, itemId);
      forall k :: 0 <= k < |g.log| && g.log[k].IncreaseAmount? ==>
        && k < |existing| && k < |idx| && idx[k] < |st.items|
        && g.log[k].stackId == st.items[idx[k]].id
        && Fillable(st.items[idx[k]], itemId)
        && (item.stackMaxCount > 0 ==> st.items[idx[k]].amount + g.log[k].delta <= item.stackMaxCount)
  {
    var g := GiveItem(amount, itemId, Found(item), Found(st), rejectAt);
    if GiveToExisting(Found(st), itemId, amount, item).Ok? {
      var filled := GiveToExisting(Found(st), itemId, amount, item).value;
      var created := AllocateNewStacks(item, filled.remainder);
      var planned := filled.ops + created.ops;
      GiveItemLog(amount, itemId, item, st, rejectAt);
      FillRaisesFillableStacks(st, itemId, amount, item);
      FillableStacksExactly(st.items, itemId);
      forall k | 0 <= k < |g.log| && g.log[k].IncreaseAmount?
        ensures k < |filled.ops| && g.log[k] == filled.ops[k]
      {
        assert g.log[k] == planned[k];
      }
    }
  }

  /** With distinct stack ids, a raise in the log of a grant targets exactly one
      storage stack: the one at the matching finder position. */
  lemma RaiseTargetsOneStack(amount: int, itemId: string, item: Item, st: Storage, rejectAt: Option<nat>, i: nat, k: nat)
    requires UniqueIds(st.items)
    requires i < |st.items|
    requires var g := GiveItem(amount, itemId, Found(item), Found(st), rejectAt);
      k < |g.log| && Targets(g.log[k], st.items[i].id)
    ensures var idx := FillableIndices(st.items, itemId);
      k < |idx| && idx[k] == i && Fillable(st.items[i], itemId)
  {
    GiveItemRaises(amount, itemId, item, st, rejectAt);
  }

  /** Capacity: a stack of the item that is within a positive cap before the
      grant is still within the cap after the writes the grant applies, also
      when a write is rejected part way. Stacks need distinct ids. Together
      with GiveItemCreatesWithinCap this keeps every stack of a capped item
      within its cap. */
  lemma GiveItemKeepsCapacity(amount: int, itemId: string, item: Item, st: Storage, rejectAt: Option<nat>, i: nat)
    requires item.stackMaxCount > 0
    requires UniqueIds(st.items)
    requires i < |st.items| && st.items[i].item.id == itemId && st.items[i].amount <= item.stackMaxCount
    ensures var g := GiveItem(amount, itemId, Found(item), Found(st), rejectAt);
      st.items[i].amount + IncreaseOf(g.log, st.items[i].id) <= item.stackMaxCount
  {
    var g := GiveItem(amount, itemId, Found(item), Found(st), rejectAt);
    var id := st.items[i].id;
    forall k, l | 0 <= k < |g.log| && 0 <= l < |g.log| && Targets(g.log[k], id) && Targets(g.log[l], id)
      ensures k == l
    {
      RaiseTargetsOneStack(amount, itemId, item, st, rejectAt, i, k);
      RaiseTargetsOneStack(amount, itemId, item, st, rejectAt, i, l);
      FillableStacksExactly(st.items, itemId);
    }
    IncreaseOfAtMostOne(g.log, id);
    forall k | 0 <= k < |g.log| && Targets(g.log[k], id)
      ensures st.items[i].amount + g.log[k].delta <= item.stackMaxCount
    {
      RaiseTargetsOneStack(amount, itemId, item, st, rejectAt, i, k);
      GiveItemRaises(amount, itemId, item, st, rejectAt);
    }
  }

  /** With a positive cap no stack a grant creates exceeds it. */
  lemma GiveItemCreatesWithinCap(amount: int, itemId: string, item: Item, st: Storage, rejectAt: Option<nat>)
    requires item.stackMaxCount > 0
    ensures var g := GiveItem(amount, itemId, Found(item), Found(st), rejectAt);
      forall k :: 0 <= k < |g.log| && g.log[k].CreateStack? ==> g.log[k].amount <= item.stackMaxCount
  {
  }

  /** Nothing else changes: no write of a grant raises a stack of another item.
      Stacks need distinct ids. */
  lemma GiveItemLeavesOtherStacks(amount: int, itemId: string, item: Item, st: Storage, rejectAt: Option<nat>)
    requires UniqueIds(st.items)
    ensures var g := GiveItem(amount, itemId, Found(item), Found(st), rejectAt);
      forall i :: 0 <= i < |st.items| && st.items[i].item.id != itemId ==> IncreaseOf(g.log, st.items[i].id) == 0
  {
    var g := GiveItem(amount, itemId, Found(item), Found(st), rejectAt);
    forall i | 0 <= i < |st.items| && st.items[i].item.id != itemId
      ensures IncreaseOf(g.log, st.items[i].id) == 0
    {
      forall k | 0 <= k < |g.log| ensures !Targets(g.log[k], st.items[i].id) {
        if Targets(g.log[k], st.items[i].id) {
          RaiseTargetsOneStack(amount, itemId, item, st, rejectAt, i, k);
        }
      }
      IncreaseOfAtMostOne(g.log, st.items[i].id);
    }
  }
}
