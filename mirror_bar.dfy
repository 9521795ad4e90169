/**
 * `_BarController` of `utils/mirror.py`: it splits a progress bar into
 * phases, each declared with a number of steps. Inside a phase a step
 * advances the bar only while the phase has steps left, and ending the
 * phase advances it by the steps that were not taken, so every phase moves
 * the bar by exactly its declared total. The bar itself is reduced to its
 * position `shown`; its description text is not modelled.
 */
module MirrorBar {
  import opened Wrappers

  class BarController {
    /** Steps counted in the current phase. */
    var counter: int
    /** The declared total of the current phase; None before the first phase. */
    var nextTotal: Option<int>
    /** The position of the driven bar: `bar.update(n)` adds `n` to it. */
    var shown: int
    /** Where the bar stood when the current phase began. */
    ghost var phaseBase: int

    ghost predicate Valid()
      reads this
    {
      nextTotal.Some? ==>
        && 0 <= counter
        && (counter == 0 || counter <= nextTotal.value)
        && shown == phaseBase + counter
    }

    constructor ()
      ensures Valid()
      ensures counter == 0 && nextTotal == None && shown == 0
    {
      counter := 0;
      nextTotal := None;
      shown := 0;
      phaseBase := 0;
    }

    /**
     * `update(next_total=n)` starts a phase of `n` steps after ending the
     * current one; `update()` is one step of the current phase (the source
     * compares with None and raises before the first phase, which no caller
     * does).
     */
    method Update(next: Option<int>)
      requires Valid()
      requires next.None? ==> nextTotal.Some?
      modifies this
      ensures Valid()
      ensures next.Some? ==> nextTotal == next && counter == 0 && phaseBase == shown
      ensures next.Some? && old(nextTotal).Some? ==> shown == old(phaseBase) + old(nextTotal).value
      ensures next.Some? && old(nextTotal).None? ==> shown == old(shown)
      ensures next.None? ==> nextTotal == old(nextTotal) && phaseBase == old(phaseBase)
      ensures next.None? ==> counter == (if old(counter) < old(nextTotal).value then old(counter) + 1 else old(counter))
      ensures next.None? ==> shown == phaseBase + counter
    {
      if next.Some? {
        End();
        nextTotal := next;
        counter := 0;
        phaseBase := shown;
      } else if counter < nextTotal.value {
        counter := counter + 1;
        shown := shown + 1;
      }
    }

    /** `end()`: the bar reaches the start of the phase plus its declared total. */
    method End()
      requires Valid()
      modifies this`shown
      ensures nextTotal.None? ==> shown == old(shown)
      ensures nextTotal.Some? ==> shown == phaseBase + nextTotal.value
      ensures nextTotal.Some? ==> shown - old(shown) == nextTotal.value - counter
    {
      if nextTotal.Some? {
        shown := shown + (nextTotal.value - counter);
      }
    }
  }
}
