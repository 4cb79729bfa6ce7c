/** The new-stack allocator: what is left after filling existing stacks becomes
    new stacks, one unit per stack for unstackable items and split by the cap
    for stackable ones. */
module NewStacks {
  import opened Inventory

  function Sum(xs: seq<int>): int
    decreases |xs|
  {
    if |xs| == 0 then 0 else xs[0] + Sum(xs[1..])
  }

  lemma {:induction false} SumAppend(a: seq<int>, b: seq<int>)
    ensures Sum(a + b) == Sum(a) + Sum(b)
    decreases |a|
  {
    if |a| == 0 {
      assert a + b == b;
    } else {
      assert (a + b)[1..] == a[1..] + b;
      SumAppend(a[1..], b);
    }
  }

  /** `n` copies of `x`. */
  function Repeat(x: int, n: nat): (r: seq<int>)
    ensures |r| == n
    ensures forall k :: 0 <= k < n ==> r[k] == x
    decreases n
  {
    if n == 0 then [] else [x] + Repeat(x, n - 1)
  }

  lemma {:induction false} SumRepeat(x: int, n: nat)
    ensures Sum(Repeat(x, n)) == n * x
    decreases n
  {
    if n > 0 {
      assert Repeat(x, n)[1..] == Repeat(x, n - 1);
      SumRepeat(x, n - 1);
    }
  }

  /** The amounts of the new stacks of a stackable item (the service's
      `resultAmounts`). An uncapped item gets one stack holding everything. A
      capped item gets `remainder / cap` full stacks and then one stack with
      `remainder % cap`, which is an empty stack when the cap divides the
      remainder. The service counts the full stacks as
      `math.Floor(float64(remainder) / float64(cap))`; that agrees with integer
      division as long as both are exactly representable as doubles (below
      2^53), and the model uses integer division throughout. The service's `%`
      truncates toward zero, which is Dafny's `%` here because both operands are
      positive. A negative cap matches neither branch and gives no stack. */
  function SplitAmounts(remainder: int, cap: int): (amounts: seq<int>)
    requires remainder > 0
    ensures cap >= 0 ==> Sum(amounts) == remainder
    ensures cap > 0 ==> forall k :: 0 <= k < |amounts| ==> 0 <= amounts[k] <= cap
    ensures cap < 0 ==> amounts == []
  {
    if cap == 0 then [remainder]
    else if cap > 0 then
      SumAppend(Repeat(cap, remainder / cap), [remainder % cap]);
      SumRepeat(cap, remainder / cap);
      Repeat(cap, remainder / cap) + [remainder % cap]
    else []
  }

  /** The shape of a capped split: `remainder / cap + 1` stacks, all but the
      last full, the last below the cap and empty exactly when the cap divides
      the remainder. */
  lemma SplitAmountsPartition(remainder: int, cap: int)
    requires remainder > 0 && cap > 0
    ensures var amounts := SplitAmounts(remainder, cap);
      && |amounts| == remainder / cap + 1
      && (forall k :: 0 <= k < |amounts| - 1 ==> amounts[k] == cap)
      && amounts[|amounts| - 1] < cap
      && (amounts[|amounts| - 1] == 0 <==> remainder % cap == 0)
  {
  }

  /** The split is the only way to write the remainder as full stacks followed
      by one stack below the cap. */
  lemma SplitAmountsUnique(remainder: int, cap: int, xs: seq<int>)
    requires remainder > 0 && cap > 0
    requires |xs| > 0
    requires forall k :: 0 <= k < |xs| - 1 ==> xs[k] == cap
    requires 0 <= xs[|xs| - 1] < cap
    requires Sum(xs) == remainder
    ensures xs == SplitAmounts(remainder, cap)
  {
    var n := |xs| - 1;
    var last := xs[n];
    assert xs == Repeat(cap, n) + [last];
    SumAppend(Repeat(cap, n), [last]);
    SumRepeat(cap, n);
    assert Sum([last]) == last;
    assert remainder == n * cap + last;
    DivModUnique(remainder, cap, n, last);
  }

  /** Quotient and remainder of a division by a positive number are unique. */
  lemma DivModUnique(a: int, b: int, q: int, r: int)
    requires b > 0 && 0 <= r < b && a == q * b + r
    ensures q == a / b && r == a % b
  {
    var q0, r0 := a / b, a % b;
    assert a == q0 * b + r0;
    if q < q0 {
      assert (q0 - q) * b == q0 * b - q * b;
      MulAtLeast(q0 - q, b);
    } else if q > q0 {
      assert (q - q0) * b == q * b - q0 * b;
      MulAtLeast(q - q0, b);
    }
  }

  lemma {:induction false} MulAtLeast(d: int, b: int)
    requires d >= 1 && b > 0
    ensures d * b >= b
    decreases d
  {
    if d > 1 {
      MulAtLeast(d - 1, b);
      assert d * b == (d - 1) * b + b;
    }
  }

  /** One stack-creating write per amount, in order. */
  function CreateStacks(amounts: seq<int>): (ops: seq<Op>)
    ensures |ops| == |amounts|
    ensures forall k :: 0 <= k < |amounts| ==> ops[k] == CreateStack(amounts[k])
    ensures Placed(ops) == Sum(amounts)
    decreases |amounts|
  {
    if |amounts| == 0 then [] else [CreateStack(amounts[0])] + CreateStacks(amounts[1..])
  }

  /** The loop for unstackable items: `n` writes, each creating a stack of one
      unit. */
  function UnitStacks(n: nat): (ops: seq<Op>)
    ensures |ops| == n
    ensures forall k :: 0 <= k < n ==> ops[k] == CreateStack(1)
    ensures Placed(ops) == n
    decreases n
  {
    if n == 0 then [] else [CreateStack(1)] + UnitStacks(n - 1)
  }

  /** The new-stack step of GiveItem: each created stack takes its amount off
      the remainder. It only runs for a positive remainder. For an unstackable
      item or a cap of 0 or more it places all of it; a stackable item with a
      negative cap gets no stack and keeps its remainder. With a positive cap
      no new stack exceeds it. */
  function AllocateNewStacks(item: Item, remainder: int): (r: Allocation)
    ensures r.remainder + Placed(r.ops) == remainder
    ensures forall k :: 0 <= k < |r.ops| ==> r.ops[k].CreateStack?
    ensures remainder <= 0 ==> r == Allocation(remainder, [])
    ensures remainder > 0 && (!item.stackable || item.stackMaxCount >= 0) ==> r.remainder == 0
    ensures remainder > 0 && item.stackable && item.stackMaxCount < 0 ==> r == Allocation(remainder, [])
    ensures item.stackable && item.stackMaxCount > 0 ==>
      forall k :: 0 <= k < |r.ops| ==> 0 <= r.ops[k].amount <= item.stackMaxCount
  {
    if !item.stackable && remainder > 0 then
      var ops := UnitStacks(remainder);
      Allocation(remainder - |ops|, ops)
    else if item.stackable && remainder > 0 then
      var amounts := SplitAmounts(remainder, item.stackMaxCount);
      var ops := CreateStacks(amounts);
      Allocation(remainder - Placed(ops), ops)
    else
      Allocation(remainder, [])
  }

  /** Granting N units of an unstackable item creates exactly N stacks of one
      unit each and leaves nothing over. */
  lemma UnstackableExpansion(item: Item, remainder: int)
    requires !item.stackable && remainder > 0
    ensures var r := AllocateNewStacks(item, remainder);
      && r.remainder == 0
      && |r.ops| == remainder
      && forall k :: 0 <= k < |r.ops| ==> r.ops[k] == CreateStack(1)
  {
  }

  /** A stackable item with a cap: `remainder / cap` full stacks, then one stack
      with `remainder % cap` units, also when that is 0. */
  lemma NewStacksCapped(item: Item, remainder: int)
    requires item.stackable && item.stackMaxCount > 0 && remainder > 0
    ensures var r := AllocateNewStacks(item, remainder);
      var cap := item.stackMaxCount;
      && r.remainder == 0
      && |r.ops| == remainder / cap + 1
      && (forall k :: 0 <= k < remainder / cap ==> r.ops[k] == CreateStack(cap))
      && r.ops[remainder / cap] == CreateStack(remainder % cap)
  {
  }

  /** A stackable item without a cap: one new stack holding the whole
      remainder. */
  lemma NewStacksUncapped(item: Item, remainder: int)
    requires item.stackable && item.stackMaxCount == 0 && remainder > 0
    ensures AllocateNewStacks(item, remainder) == Allocation(0, [CreateStack(remainder)])
  {
  }
}
