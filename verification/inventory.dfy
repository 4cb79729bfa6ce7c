/** Data model of the economy service's inventories: items and their stacking
    policy, storages holding stacks of items, and the writes the stack
    allocation engine sends to the storage repository. */
module Inventory {

  datatype Option<+T> = None | Some(value: T)

  /** What a repository read hands back: the record, or the repository's error. */
  datatype Lookup<+T> = Found(value: T) | LookupFailed

  /** The errors a grant or a listing can end with. Repository errors are passed
      through unchanged by the service; the model only records where they
      came from. */
  datatype Error =
    | ItemLookupFailed          // itemRepository.Get failed
    | StorageLookupFailed       // storageRepository.Get failed inside the finder
    | WriteRejected(call: nat)  // the given write call (0-based) returned an error
    | SomethingWentWrong        // units were left over after both allocators ran
    | ListFailed                // storageRepository.List failed

  datatype Result<+T> = Ok(value: T) | Err(error: Error)

  /** How new units of an item are spread over a storage's stacks. */
  datatype BalancingMethod =
    | Default
    | BalancedFillExistingStacks
    | UnbalancedFillExistingStacks
    | UnbalancedCreateNewStacks

  /** An item of the catalogue. A `stackMaxCount` of 0 means a stack of this
      item has no cap. The field is a 64-bit integer in the service, so the
      model does not forbid negative values; see the Grant module for what the
      engine does with them. */
  datatype Item = Item(id: string, stackable: bool, stackMaxCount: int, balancing: BalancingMethod)

  /** One stack: a storage row holding `amount` units of `item`. The stack
      carries its own copy of the item's metadata, as the repository returns it. */
  datatype StorageItem = StorageItem(id: string, item: Item, amount: int)

  datatype Storage = Storage(id: string, items: seq<StorageItem>)

  /** A stack is full when its item has a cap and the amount has reached it. */
  predicate Full(s: StorageItem) {
    s.item.stackMaxCount > 0 && s.amount >= s.item.stackMaxCount
  }

  /** No two stacks of a storage share an id. */
  predicate UniqueIds(stacks: seq<StorageItem>) {
    forall i, j :: 0 <= i < j < |stacks| ==> stacks[i].id != stacks[j].id
  }

  /** A write the engine sends to the storage repository: raise the amount of
      an existing stack (IncreaseItemAmount), or create a new stack of the
      requested item in the requested storage (GiveItem). */
  datatype Op = IncreaseAmount(stackId: string, delta: int) | CreateStack(amount: int)

  /** The quantity one write adds to the storage. */
  function Quantity(op: Op): int {
    match op
    case IncreaseAmount(_, d) => d
    case CreateStack(a) => a
  }

  /** The quantity a sequence of writes adds to the storage. */
  function Placed(ops: seq<Op>): int
    decreases |ops|
  {
    if |ops| == 0 then 0 else Quantity(ops[0]) + Placed(ops[1..])
  }

  lemma {:induction false} PlacedAppend(a: seq<Op>, b: seq<Op>)
    ensures Placed(a + b) == Placed(a) + Placed(b)
    decreases |a|
  {
    if |a| == 0 {
      assert a + b == b;
    } else {
      assert (a + b)[1..] == a[1..] + b;
      PlacedAppend(a[1..], b);
    }
  }

  /** The write raises the stack with the given id. */
  predicate Targets(op: Op, id: string) {
    op.IncreaseAmount? && op.stackId == id
  }

  /** The total raise the writes apply to the stack with the given id. */
  function IncreaseOf(ops: seq<Op>, id: string): int
    decreases |ops|
  {
    if |ops| == 0 then 0
    else (if Targets(ops[0], id) then ops[0].delta else 0) + IncreaseOf(ops[1..], id)
  }

  /** When at most one write raises a stack, the stack's total raise is that
      write's delta, or 0 when no write raises it. */
  lemma {:induction false} IncreaseOfAtMostOne(ops: seq<Op>, id: string)
    requires forall k, l :: 0 <= k < |ops| && 0 <= l < |ops| && Targets(ops[k], id) && Targets(ops[l], id) ==> k == l
    ensures (forall k :: 0 <= k < |ops| ==> !Targets(ops[k], id)) ==> IncreaseOf(ops, id) == 0
    ensures forall k :: 0 <= k < |ops| && Targets(ops[k], id) ==> IncreaseOf(ops, id) == ops[k].delta
    decreases |ops|
  {
    if |ops| > 0 {
      var tail := ops[1..];
      forall k, l | 0 <= k < |tail| && 0 <= l < |tail| && Targets(tail[k], id) && Targets(tail[l], id)
        ensures k == l
      {
        assert ops[k + 1] == tail[k] && ops[l + 1] == tail[l];
      }
      IncreaseOfAtMostOne(tail, id);
      if Targets(ops[0], id) {
        forall k | 0 <= k < |tail| ensures !Targets(tail[k], id) {
          assert ops[k + 1] == tail[k];
        }
      } else {
        forall k | 0 <= k < |ops| && Targets(ops[k], id)
          ensures IncreaseOf(ops, id) == ops[k].delta
        {
          assert k > 0 && ops[k] == tail[k - 1];
        }
      }
    }
  }

  /** The outcome of one allocation stage: the units still to be placed and the
      writes the stage issues, in order. */
  datatype Allocation = Allocation(remainder: int, ops: seq<Op>)

  function Min(a: int, b: int): int { if a <= b then a else b }

  function Max(a: int, b: int): int { if a >= b then a else b }
}
