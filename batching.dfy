/**
 * The per-tick batch bound of the parent half of a task pair.  parentRun()
 * copies the configured count into a Java `long` and decrements it after
 * every item it polls, stopping once it is zero or below.  Because the
 * decrement wraps, a count of Long.MIN_VALUE becomes Long.MAX_VALUE after
 * the first item.
 */
module Batching {
  import opened JavaLong

  /** `cnt--` on a Java long. */
  function Decrement(x: Long): (r: Long)
    ensures x > MIN ==> r == x - 1
    ensures x == MIN ==> r == MAX
  {
    if x == MIN then MAX else x - 1
  }

  /** How many items one parentRun() polls at most when the queue is long enough. */
  function DrainCap(count: Long): (cap: nat)
    ensures cap >= 1
  {
    if count >= 1 then count
    else if count == MIN then MAX + 1
    else 1
  }

  /** The counter after k polls (k <= DrainCap(count)). */
  function CounterAfter(count: Long, k: nat): int
  {
    if k == 0 then count
    else if count == MIN then MAX - (k - 1)
    else count - k
  }

  /** The counter after k + 1 polls is the decremented counter after k. */
  lemma CounterStep(count: Long, k: nat)
    requires k < DrainCap(count)
    requires k == 0 || CounterAfter(count, k) > 0
    ensures MIN <= CounterAfter(count, k) <= MAX
    ensures CounterAfter(count, k + 1) == Decrement(CounterAfter(count, k) as Long)
  {
  }

  /** The loop leaves after a poll exactly when the batch bound is reached. */
  lemma CounterExpiresAtCap(count: Long, k: nat)
    requires 1 <= k <= DrainCap(count)
    ensures CounterAfter(count, k) <= 0 <==> k == DrainCap(count)
  {
  }

  /** For every count but Long.MIN_VALUE the bound is the count itself, and at
      least one item is taken per tick. */
  lemma DrainCapOrdinary(count: Long)
    requires count != MIN
    ensures DrainCap(count) == if count >= 1 then count as int else 1
  {
  }

  function Min(a: int, b: int): int
  {
    if a <= b then a else b
  }
}
