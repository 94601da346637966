/**
 * The growth rule of silk_vector_expand, the same in src/vector.c and src/silk/vector.c:
 * an empty buffer gets one slot, a buffer of up to 1024 slots doubles, a larger one
 * grows by 1024 slots.
 */
module Growth {
  /** The capacity expand asks the allocator for after cap. */
  function NextCapacity(cap: nat): (next: nat)
    ensures cap < next <= cap + 1024
  {
    if cap == 0 then 1 else if cap <= 1024 then 2 * cap else cap + 1024
  }

  /**
   * The capacity src/vector.c's enough loop ends with when every expand succeeds: the
   * first capacity in the chain cap, NextCapacity(cap), ... that exceeds need.
   */
  function GrowUntil(cap: nat, need: nat): (r: nat)
    ensures r > need && r >= cap
    decreases need + 1 - cap
  {
    if cap > need then cap else GrowUntil(NextCapacity(cap), need)
  }

  /** Growing never over-allocates by more than 1024 slots past what is needed. */
  lemma {:induction false} GrowUntilWaste(cap: nat, need: nat)
    ensures GrowUntil(cap, need) <= if cap > need + 1024 then cap else need + 1024
    decreases need + 1 - cap
  {
    if cap <= need {
      var next := NextCapacity(cap);
      GrowUntilWaste(next, need);
      if next > need {
        assert GrowUntil(next, need) == next;
      }
    }
  }
}
