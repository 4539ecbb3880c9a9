/** The one piece of the allocation layer the core depends on: how a growable buffer grows. */
module Memory {

  /** GROW_CAPACITY: an empty or small buffer jumps to 8 slots, a larger one doubles. */
  function GrowCapacity(capacity: nat): (r: nat)
    ensures r > capacity && r >= 8
    ensures capacity >= 8 ==> r == 2 * capacity
    ensures capacity < 8 ==> r == 8
  {
    if capacity < 8 then 8 else capacity * 2
  }
}
