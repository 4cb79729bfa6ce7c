/** Worked grants: the behaviour of GiveItem on small storages, including the
    edge cases of the code (a trailing empty stack, a negative sampled amount,
    a stack lowered by a grant). */
module Scenarios {
  import opened Inventory
  import opened Grant

  const Sword := "sword"

  function SwordItem(stackable: bool, cap: int, balancing: BalancingMethod): Item {
    Item(Sword, stackable, cap, balancing)
  }

  function OneStack(item: Item, amount: int): Storage {
    Storage("player-1", [StorageItem("stack-1", item, amount)])
  }

  /** Uncapped item that fills existing stacks, one stack of 5, grant of 10:
      the stack is raised by 10 and no stack is created. The balancing method
      must be one that fills; with DEFAULT a new stack of 10 would be made. */
  lemma UncappedFillsExistingStack()
    ensures var item := SwordItem(true, 0, UnbalancedFillExistingStacks);
      GiveItem(10, Sword, Found(item), Found(OneStack(item, 5)), None)
        == Outcome(Ok(10), [IncreaseAmount("stack-1", 10)])
  {
  }

  /** Cap 10, balanced fill, one stack of 8, grant of 5: the stack absorbs 2
      and a new stack of 3 is created. */
  lemma CappedFillThenNewStack()
    ensures var item := SwordItem(true, 10, BalancedFillExistingStacks);
      GiveItem(5, Sword, Found(item), Found(OneStack(item, 8)), None)
        == Outcome(Ok(5), [IncreaseAmount("stack-1", 2), CreateStack(3)])
  {
  }

  /** Cap 10, default balancing, one stack of 3, grant of 7: the stack is left
      alone and one new stack of 7 is created. */
  lemma DefaultBalancingCreatesNewStack()
    ensures var item := SwordItem(true, 10, Default);
      GiveItem(7, Sword, Found(item), Found(OneStack(item, 3)), None)
        == Outcome(Ok(7), [CreateStack(7)])
  {
  }

  /** Cap 4, no stacks, grant of 10: stacks of 4, 4 and 2. */
  lemma CappedSplit()
    ensures var item := SwordItem(true, 4, Default);
      GiveItem(10, Sword, Found(item), Found(Storage("player-1", [])), None)
        == Outcome(Ok(10), [CreateStack(4), CreateStack(4), CreateStack(2)])
  {
  }

  /** Cap 4, no stacks, grant of 8: two full stacks and a trailing empty one. */
  lemma CappedSplitTrailingEmptyStack()
    ensures var item := SwordItem(true, 4, Default);
      GiveItem(8, Sword, Found(item), Found(Storage("player-1", [])), None)
        == Outcome(Ok(8), [CreateStack(4), CreateStack(4), CreateStack(0)])
  {
  }

  /** Unstackable item, grant of 3: three stacks of one. */
  lemma UnstackableGrant()
    ensures var item := SwordItem(false, 0, Default);
      GiveItem(3, Sword, Found(item), Found(Storage("player-1", [])), None)
        == Outcome(Ok(3), [CreateStack(1), CreateStack(1), CreateStack(1)])
  {
  }

  /** A negative sampled amount with nothing to fill is answered as granted
      although no write is issued: conservation needs a non-negative amount. */
  lemma NegativeAmountGrantsNothing()
    ensures var item := SwordItem(true, 10, Default);
      GiveItem(-5, Sword, Found(item), Found(Storage("player-1", [])), None)
        == Outcome(Ok(-5), [])
  {
  }

  /** A stack whose embedded item copy is uncapped is never full for the
      finder, but the loop measures room against the fetched cap 10: a stack
      of 15 has room -5, so the grant of 5 lowers it by 5 and creates stacks
      of 10 and 0 to make up the difference. */
  lemma StaleCapLowersStack()
    ensures var fetched := SwordItem(true, 10, UnbalancedFillExistingStacks);
      var embedded := SwordItem(true, 0, UnbalancedFillExistingStacks);
      GiveItem(5, Sword, Found(fetched), Found(OneStack(embedded, 15)), None)
        == Outcome(Ok(5), [IncreaseAmount("stack-1", -5), CreateStack(10), CreateStack(0)])
  {
  }

  /** A negative sampled amount is not rejected by the capped fill: the first
      fillable stack is raised by -3, that is lowered, and the grant is
      answered as granted. */
  lemma NegativeAmountLowersStack()
    ensures var item := SwordItem(true, 10, BalancedFillExistingStacks);
      GiveItem(-3, Sword, Found(item), Found(OneStack(item, 8)), None)
        == Outcome(Ok(-3), [IncreaseAmount("stack-1", -3)])
  {
  }

  /** The remainder can grow again after reaching 0: the first stack takes
      the whole grant, and a later stack above the fetched cap (its own copy
      of the item is uncapped, so the finder keeps it) is lowered by 5, which
      then goes into a new stack. */
  lemma RemainderGrowsAfterZero()
    ensures var fetched := SwordItem(true, 10, BalancedFillExistingStacks);
      var embedded := SwordItem(true, 0, BalancedFillExistingStacks);
      var storage := Storage("player-1", [StorageItem("a", fetched, 5), StorageItem("b", embedded, 15)]);
      GiveItem(5, Sword, Found(fetched), Found(storage), None)
        == Outcome(Ok(5), [IncreaseAmount("a", 5), IncreaseAmount("b", -5), CreateStack(5)])
  {
  }
}
