/** The golden-ratio growth policy shared by the dynamic arrays.
    The sources compute `GROWTH_FACTOR * capacity + 0.5` in floating point with
    GROWTH_FACTOR = 1.618033988749895 and truncate to an integer (or call `round`,
    which agrees with adding one half and truncating on non-negative values).
    Here the factor is the same decimal literal, scaled by 10^15, so the product
    is exact integer arithmetic. */
module Growth {

  /** floor(1.618033988749895 * capacity + 0.5): the capacity EXPAND requests. */
  function Expanded(capacity: nat): (r: nat)
    ensures capacity <= r <= 2 * capacity
    ensures capacity >= 1 ==> r > capacity
    ensures capacity == 0 ==> r == 0
  {
    (capacity * 1618033988749895 + 500000000000000) / 1000000000000000
  }

  /** The capacity reached after `k` successful expansions starting from `capacity`. */
  function ExpandedTimes(capacity: nat, k: nat): (r: nat)
    ensures capacity >= 1 ==> r >= capacity + k
    ensures capacity == 0 ==> r == 0
    decreases k
  {
    if k == 0 then capacity else ExpandedTimes(Expanded(capacity), k - 1)
  }

  /** One more expansion after `k` of them: the growth loop's step. */
  lemma {:induction false} ExpandedTimesStep(capacity: nat, k: nat)
    ensures ExpandedTimes(capacity, k + 1) == Expanded(ExpandedTimes(capacity, k))
    decreases k
  {
    if k > 0 {
      ExpandedTimesStep(Expanded(capacity), k - 1);
    }
  }

  /** The number of expansions a growth loop `while (capacity < need) EXPAND` performs
      before it stops; defined whenever the loop terminates. The result is the least
      number of expansions that reaches `need`. */
  function GrowthSteps(capacity: nat, need: nat): (r: nat)
    requires capacity >= 1 || capacity >= need
    ensures ExpandedTimes(capacity, r) >= need
    ensures r > 0 ==> ExpandedTimes(capacity, r - 1) < need
    decreases need - capacity
  {
    if capacity >= need then 0 else 1 + GrowthSteps(Expanded(capacity), need)
  }

  /** Before the loop has performed all its expansions the capacity is still short of
      `need`, and once it has, it is not: the loop guard is false exactly at step
      GrowthSteps. */
  lemma {:induction false} ShortUntilSteps(capacity: nat, need: nat, k: nat)
    requires capacity >= 1 || capacity >= need
    requires k <= GrowthSteps(capacity, need)
    ensures ExpandedTimes(capacity, k) < need <==> k < GrowthSteps(capacity, need)
    decreases k
  {
    if k > 0 {
      ShortUntilSteps(Expanded(capacity), need, k - 1);
    }
  }

  /** Expansions never shrink the capacity: more steps give at least as much room. */
  lemma {:induction false} ExpandedTimesMonotone(capacity: nat, j: nat, k: nat)
    requires j <= k
    ensures ExpandedTimes(capacity, j) <= ExpandedTimes(capacity, k)
    decreases j
  {
    if j > 0 {
      ExpandedTimesMonotone(Expanded(capacity), j - 1, k - 1);
    }
  }
}
