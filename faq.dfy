/**
 * The FAQ accordion: at most one answer open, a click on a question opens
 * it and closes any other, a click on the open one closes it
 * (src/components/FAQ.tsx).
 */
module Faq {
  import opened Wrappers

  /** The number of questions. */
  const FaqCount: nat := 8

  /** Whether item `i` is expanded when `openIndex` is `open`. */
  predicate IsOpen(open: Option<nat>, i: nat) {
    open == Some(i)
  }

  /** `toggleQuestion`: `openIndex === index ? null : index`. */
  function Toggle(open: Option<nat>, index: nat): (r: Option<nat>)
    ensures IsOpen(open, index) ==> forall i :: !IsOpen(r, i)
    ensures !IsOpen(open, index) ==> IsOpen(r, index) && forall i :: i != index ==> !IsOpen(r, i)
  {
    if open == Some(index) then None else Some(index)
  }

  /**
   * However the accordion got here, no two items are open together. This
   * holds by construction: the state is one optional index, as `openIndex`
   * is a single `number | null`.
   */
  lemma AtMostOneOpen(open: Option<nat>, i: nat, j: nat)
    requires IsOpen(open, i) && IsOpen(open, j)
    ensures i == j
  {
  }

  /** From all closed, toggling an item twice closes everything again. */
  lemma ToggleTwiceCloses(index: nat)
    ensures Toggle(Toggle(None, index), index) == None
  {
  }

  /** The accordion's state. */
  class Accordion {
    var openIndex: Option<nat>

    /** An open item is one of the questions. */
    ghost predicate Valid()
      reads this
    {
      openIndex.Some? ==> openIndex.value < FaqCount
    }

    constructor ()
      ensures Valid() && openIndex == None
    {
      openIndex := None;
    }

    /** A click on question `index`. */
    method ToggleQuestion(index: nat)
      requires Valid() && index < FaqCount
      modifies this
      ensures Valid() && openIndex == Toggle(old(openIndex), index)
    {
      openIndex := if openIndex == Some(index) then None else Some(index);
    }
  }
}
