# Stack allocation engine of the economy service, in Dafny

This project models the inventory stack-allocation engine of a game-economy
backend. A player's storage holds stacks of items. When a quantity of an item
is granted to a storage, `GiveItem` decides how the quantity is split:

- it first tops up the storage's existing stacks of that item that are not full
  (only for stackable items whose balancing method is
  BALANCED_FILL_EXISTING_STACKS or UNBALANCED_FILL_EXISTING_STACKS);
- it turns what is left into new stacks: one unit per stack for unstackable
  items, one stack for uncapped items, and full stacks plus one partial stack
  for capped items;
- it fails with "something went wrong" if units are still left over.

The model also covers the page arithmetic of `ListStorage`.

Modules, one per component:

- `Inventory` (inventory.dfy) holds items, stacks, storages and the writes sent
  to the repository (`IncreaseAmount`, `CreateStack`). `Placed` is the quantity
  a sequence of writes adds. `IncreaseOf` is what it adds to one stack.
- `StackFinder` (stack_finder.dfy) models `GetExistingStorageItems`.
- `FillExisting` (fill_existing.dfy) models `GiveToExistingStorageItems`.
- `NewStacks` (new_stacks.dfy) models the new-stack part of `GiveItem`.
- `Grant` (grant.dfy) models `GiveItem` end to end. Persistence is a
  parameter: item lookup, storage lookup, and the number of the first write
  call the repository rejects.
- `Paging` (paging.dfy) models `ListStorage`'s limit, offset and next-page
  token, with 32-bit wrap-around written out.
- `Scenarios` (scenarios.dfy) holds worked grants on small storages.

Each stage is a pure function returning `Allocation(remainder, ops)`.
`GiveItem` concatenates the fill writes and the new-stack writes. It then
issues them through `Issue`, which stops at the rejected call. This matches
the service's interleaved loops: no amount the service computes depends on
what a write returns, only on whether it failed, and a failure ends the grant.

Behaviour of the code that a reader may not expect, and that the model keeps:

- The capped fill loop does not stop once the remainder reaches 0. Every later
  fillable stack still gets a write: a raise by 0 when the stack is within the
  fetched cap. A stack above that cap is lowered instead, and the remainder
  grows again (see `Scenarios.RemainderGrowsAfterZero`).
- The final check is `remainder > 0`. It can fire: a
  stackable item with a negative `StackMaxCount` and a positive amount matches
  neither new-stack branch.
- When the cap divides the remainder, a trailing stack of amount 0 is created.
- The uncapped-fill and final-check branches do not validate the amount. A
  negative sampled amount is answered as granted with nothing placed when there
  is nothing to fill.
- The finder judges fullness by the item copy embedded in each stack. The fill
  loop uses the fetched item's cap. When the two disagree, a stack above the
  fetched cap can be kept by the finder and then gets a negative raise: the
  grant lowers that stack and makes up the difference with new stacks (see
  `Scenarios.StaleCapLowersStack`).
- The capped fill does not check the sign of the amount either. A negative
  amount lowers the first fillable stack (see
  `Scenarios.NegativeAmountLowersStack`).
- An empty page token parses to 0 and names the first page.

## Model

| member | source | states |
|---|---|---|
| StackFinder.FillableStacks | pkg/service/v1/storage.go:242-256 | every returned stack holds the requested item and is not full, and there are no more of them than stacks in the storage |
| StackFinder.FillableStacksExactly | pkg/service/v1/storage.go:243-256 | the result is the subsequence of the storage's stacks at strictly increasing positions, and a position is picked exactly when its stack holds the item and is not full (its own cap > 0 and amount >= cap) |
| StackFinder.FillableStacksMembership | pkg/service/v1/storage.go:245-253 | a stack is returned if and only if it is in the storage, holds the item and is not full |
| StackFinder.FillableStacksUniqueIds | pkg/service/v1/storage.go:243-253 | filtering never yields the same stack id twice when the storage's ids are distinct |
| FillExisting.FillCapped | pkg/service/v1/storage.go:303-324 | one raise per fillable stack, in order, even after the remainder hits 0; no raise takes a stack past the cap; remainder left plus all raises equals the remainder given; a non-negative remainder stays non-negative |
| FillExisting.FillCappedIsGreedy | pkg/service/v1/storage.go:303-324 | with room on every stack, stack k gets min(its room, what the earlier stacks left of the remainder), and the remainder left is max(0, remainder - total room) |
| FillExisting.GiveToExisting | pkg/service/v1/storage.go:259-328 | only a failed storage fetch is an error; otherwise remainder left plus all raises equals the remainder given, a non-negative remainder stays non-negative, and every write is a raise |
| FillExisting.FillGates | pkg/service/v1/storage.go:260-282 | no write is issued exactly when the item is unstackable, its method does not fill, there is no fillable stack, or the cap is negative; with no write the remainder comes back unchanged |
| FillExisting.FillUncapped | pkg/service/v1/storage.go:284-299 | for an uncapped item with a fillable stack: a single raise by the whole remainder, on the first fillable stack in storage order, and 0 left |
| FillExisting.FillCappedInStorage | pkg/service/v1/storage.go:301-325 | for a capped item: one non-negative raise per fillable stack, in storage order, each equal to its greedy share; what is left is the remainder beyond the total room |
| FillExisting.FillRaisesFillableStacks | pkg/service/v1/storage.go:284-325 | fill write k raises the k-th fillable stack; with a positive cap no raise takes its stack past the cap |
| NewStacks.SplitAmounts | pkg/service/v1/storage.go:193-207 | for a cap of 0 or more the new amounts add up to the remainder; with a positive cap each lies between 0 and the cap; a negative cap gives no amount |
| NewStacks.SplitAmountsPartition | pkg/service/v1/storage.go:199-207 | remainder / cap + 1 stacks; all but the last are full; the last is below the cap and is 0 exactly when the cap divides the remainder |
| NewStacks.SplitAmountsUnique | pkg/service/v1/storage.go:199-207 | any list of full stacks followed by one stack below the cap that adds up to the remainder is the split |
| NewStacks.CreateStacks | pkg/service/v1/storage.go:209-221 | one create write per amount, in order, and the writes place the sum of the amounts |
| NewStacks.UnitStacks | pkg/service/v1/storage.go:173-188 | n writes, each creating a stack of one unit, placing n in total |
| NewStacks.AllocateNewStacks | pkg/service/v1/storage.go:172-222 | remainder left plus the quantity created equals the remainder given; runs only for a positive remainder; places all of it unless the item is stackable with a negative cap; with a positive cap no new stack exceeds it |
| NewStacks.UnstackableExpansion | pkg/service/v1/storage.go:173-188 | N units of an unstackable item become exactly N stacks of amount 1 with nothing left |
| NewStacks.NewStacksCapped | pkg/service/v1/storage.go:199-221 | remainder / cap full stacks followed by one stack of remainder % cap, also when that is 0, with nothing left |
| NewStacks.NewStacksUncapped | pkg/service/v1/storage.go:195-197 | an uncapped stackable item gets exactly one new stack holding the whole remainder |
| Grant.Issue | pkg/service/v1/storage.go:209-221 | the applied writes are the planned ones before the rejected call, and the rejection is reported; with no planned call rejected, all are applied |
| Grant.GiveItem | pkg/service/v1/storage.go:137-233 | a successful answer carries the sampled amount; a lookup failure applies no write; a rejected write is the configured call, after exactly that many writes |
| Grant.GiveItemConserves | pkg/service/v1/storage.go:146-232 | with amount >= 0, cap >= 0 and no failures: success with the sampled amount, and the writes add exactly that amount |
| Grant.SomethingWentWrongIff | pkg/service/v1/storage.go:224-226 | the final check fires if and only if the item is stackable with a negative cap and the amount is positive, and then no write was applied |
| Grant.GiveItemAbortsAtRejectedWrite | pkg/service/v1/storage.go:160-222 | rejecting write k yields exactly the first k writes of the failure-free grant and WriteRejected(k); a grant with at most k writes is unaffected |
| Grant.GiveItemLog | pkg/service/v1/storage.go:160-222 | the applied writes are a prefix of the fill writes followed by the new-stack writes |
| Grant.GiveItemRaises | pkg/service/v1/storage.go:160-170 | every raise in the log targets a fillable stack of the storage; with a positive cap it keeps that stack within the cap |
| Grant.RaiseTargetsOneStack | pkg/service/v1/storage.go:243-253 | with distinct ids, a raise in the log at position k targets only the storage stack at the k-th fillable position |
| Grant.GiveItemKeepsCapacity | pkg/service/v1/storage.go:301-325 | a stack of the item within a positive cap before the grant stays within it after all applied writes, also after a partial failure |
| Grant.GiveItemCreatesWithinCap | pkg/service/v1/storage.go:199-207 | with a positive cap every create write in the log is at most the cap |
| Grant.GiveItemLeavesOtherStacks | pkg/service/v1/storage.go:245-247 | with distinct ids, no write of the grant raises a stack of another item |
| Paging.ListStorage | pkg/service/v1/storage.go:69-106 | an error exactly when the repository fails; the limit is never 0; for the first page (empty token) the offset is 0 and there is a next token, 1, exactly when the total exceeds the limit |
| Paging.ListStoragePage | pkg/service/v1/storage.go:72-99 | without wrap-around, for the first page and every later one: limit is the page size or 100, offset is token × limit, and a next token token + 1 exists if and only if total > offset + limit |
| Paging.NextPageFollows | pkg/service/v1/storage.go:72-99 | without wrap-around, from the first page on, the next token's page starts where this page ends, and a page with no next token reaches the end of the listing |
| Paging.EmptyTokenIsFirstPage | pkg/service/v1/storage.go:72-86 | an empty token gives the same page as token 0, whatever number the parse produced |
| Paging.OffsetWrapsAround | pkg/service/v1/storage.go:82-86 | a large token gives a negative offset through int32 wrap-around |
| Scenarios.UncappedFillsExistingStack | pkg/service/v1/storage.go:284-299 | uncapped filling item, stack of 5, grant 10: one raise by 10, no new stack |
| Scenarios.CappedFillThenNewStack | pkg/service/v1/storage.go:160-222 | cap 10, stack of 8, grant 5: raise by 2, new stack of 3 |
| Scenarios.DefaultBalancingCreatesNewStack | pkg/service/v1/storage.go:264-267 | DEFAULT balancing with a stack of 3: the stack is untouched and one stack of 7 is created |
| Scenarios.CappedSplit | pkg/service/v1/storage.go:199-207 | cap 4, grant 10: stacks of 4, 4 and 2 |
| Scenarios.CappedSplitTrailingEmptyStack | pkg/service/v1/storage.go:206 | cap 4, grant 8: stacks of 4, 4 and an empty one |
| Scenarios.UnstackableGrant | pkg/service/v1/storage.go:173-188 | unstackable item, grant 3: three stacks of 1 |
| Scenarios.NegativeAmountGrantsNothing | pkg/service/v1/storage.go:192-232 | a sampled amount of -5 with nothing to fill is answered as granted with no write |
| Scenarios.StaleCapLowersStack | pkg/service/v1/storage.go:243-325 | a stack of 15 whose embedded copy is uncapped, fetched cap 10, grant 5: the stack is lowered by 5, then stacks of 10 and 0 are created |
| Scenarios.RemainderGrowsAfterZero | pkg/service/v1/storage.go:303-325 | fetched cap 10, stacks of 5 and 15 (the latter with an uncapped embedded copy), grant 5: raise by 5, lower by 5, then a new stack of 5 |
| Scenarios.NegativeAmountLowersStack | pkg/service/v1/storage.go:303-325 | cap 10, stack of 8, grant -3: the stack is lowered by 3 and the grant is answered as granted |

## Left out

- `CreateStorage`, `GetStorage` and `GiveCurrency` are left out. They are argument checks plus repository calls. `checkAPI` and the `fmt.Println` logging are left out too.
- `pkg/service/v1/account.go` (password hashing, JWT signing, expiry) and `pkg/repository/config/configrepository.go` (SQL and JSON marshalling) are not part of this model. They hold no allocation logic.
- `random.GenerateRandomInt` is not part of this model. The sampled amount is a parameter of `GiveItem`, and the min/max range is not modelled.
- Repository calls are parameters, not real storage. The item lookup and storage lookup are `Lookup` values. The write that fails is a call number. The repository's own errors are reduced to where they came from.
- Concurrency and atomicity of stack updates are left out. Concurrent grants against the same storage are outside the model.
- The full-stack count `math.Floor(float64(r) / float64(cap))` is integer division in the model. The two can differ once values exceed 2^53, where doubles lose precision.
- 64-bit overflow in the allocation arithmetic (`cap - amount`, `remainder -= ...`) is not modelled. Amounts are unbounded integers. The page arithmetic does model 32-bit wrap-around.
- `strconv.ParseInt` of a non-empty page token is an input (`parsedToken`). The empty token is taken as 0, which is what the parse gives for it. The token's decimal rendering by `strconv.Itoa` is a number. The storages a listing returns are not modelled, only its total size.
- GiveItemConserves: stated only for a non-negative amount and a cap of 0 or more, without failures. For a negative amount the service can answer with the amount while placing nothing (see Scenarios.NegativeAmountGrantsNothing). A negative cap raises "something went wrong" (see Grant.SomethingWentWrongIff).
- GiveItemKeepsCapacity: assumes distinct stack ids (the repository issues UUIDs) and that the item's stacks were within the cap before the grant.
- FillCappedInStorage: assumes every stack of the item carries the fetched item's cap. The finder reads each stack's embedded copy, while the loop uses the fetched item.
- FillCappedIsGreedy: stated for a non-negative remainder and stacks at or below the cap. FillCapped's own contract covers all other inputs.
