/**
 * The testimonial carousel: four slides, arrows and dots to move between
 * them, and an autoplay that any manual move switches off for good
 * (src/components/Testimonials.tsx).
 */
module Testimonials {
  /** The number of testimonials. */
  const Count: nat := 4

  /** `(prev + 1) % testimonials.length` */
  function Next(i: nat): (r: nat)
    requires i < Count
    ensures r < Count
    ensures r == if i == Count - 1 then 0 else i + 1
  {
    (i + 1) % Count
  }

  /** `(prev - 1 + testimonials.length) % testimonials.length` */
  function Previous(i: nat): (r: nat)
    requires i < Count
    ensures r < Count
    ensures r == if i == 0 then Count - 1 else i - 1
  {
    (i - 1 + Count) % Count
  }

  /** Going back undoes going forward, and the other way round. */
  lemma PreviousUndoesNext(i: nat)
    requires i < Count
    ensures Previous(Next(i)) == i && Next(Previous(i)) == i
  {
  }

  /** Stepping forward once per slide comes back to the start. */
  lemma {:induction false} NextCycles(i: nat, k: nat)
    requires i < Count
    ensures Iterate(i, k + Count) == Iterate(i, k)
  {
    if k == 0 {
      assert Iterate(i, 1) == Next(i);
      assert Iterate(i, 2) == Next(Next(i));
      assert Iterate(i, 3) == Next(Next(Next(i)));
      assert Iterate(i, 4) == Next(Next(Next(Next(i))));
    } else {
      NextCycles(i, k - 1);
    }
  }

  /** `k` steps forward from `i`. */
  function Iterate(i: nat, k: nat): (r: nat)
    requires i < Count
    ensures r < Count
  {
    if k == 0 then i else Next(Iterate(i, k - 1))
  }

  /** The carousel's state. */
  class Carousel {
    var currentIndex: nat
    var isAutoPlaying: bool

    ghost predicate Valid()
      reads this
    {
      currentIndex < Count
    }

    constructor ()
      ensures Valid() && currentIndex == 0 && isAutoPlaying
    {
      currentIndex, isAutoPlaying := 0, true;
    }

    /** One tick of the five-second interval; the interval only runs while autoplay is on. */
    method AutoStep()
      requires Valid()
      modifies this
      ensures Valid() && isAutoPlaying == old(isAutoPlaying)
      ensures currentIndex == if old(isAutoPlaying) then Next(old(currentIndex)) else old(currentIndex)
    {
      if isAutoPlaying {
        currentIndex := Next(currentIndex);
      }
    }

    /** `goToPrevious` */
    method GoToPrevious()
      requires Valid()
      modifies this
      ensures Valid() && !isAutoPlaying && currentIndex == Previous(old(currentIndex))
    {
      isAutoPlaying := false;
      currentIndex := Previous(currentIndex);
    }

    /** `goToNext` */
    method GoToNext()
      requires Valid()
      modifies this
      ensures Valid() && !isAutoPlaying && currentIndex == Next(old(currentIndex))
    {
      isAutoPlaying := false;
      currentIndex := Next(currentIndex);
    }

    /** A dot's click handler; the dots are the slides' indices. */
    method GoTo(index: nat)
      requires Valid() && index < Count
      modifies this
      ensures Valid() && !isAutoPlaying && currentIndex == index
    {
      isAutoPlaying := false;
      currentIndex := index;
    }
  }
}
