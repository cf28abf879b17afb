/**
 * The home-page carousel (app/components/Carousel.js): one piece of state, the index
 * of the slide on show, moved by the arrows, the five-second timer and the indicators.
 */
module CarouselComponent {

  /** The number of slides. */
  const SlideCount: nat := 3

  /** The step `nextSlide` and the timer apply. */
  function NextIndex(i: nat): (r: nat)
    requires i < SlideCount
    ensures r < SlideCount
    ensures r == (i + 1) % SlideCount
  {
    if i == SlideCount - 1 then 0 else i + 1
  }

  /** The step `prevSlide` applies. */
  function PrevIndex(i: nat): (r: nat)
    requires i < SlideCount
    ensures r < SlideCount
    ensures r == (i + SlideCount - 1) % SlideCount
  {
    if i == 0 then SlideCount - 1 else i - 1
  }

  /** Going back undoes going forward, and the other way round. */
  lemma PrevUndoesNext(i: nat)
    requires i < SlideCount
    ensures PrevIndex(NextIndex(i)) == i
    ensures NextIndex(PrevIndex(i)) == i
  {
  }

  /** `k` forward steps from `i`. */
  function Advance(i: nat, k: nat): (r: nat)
    requires i < SlideCount
    ensures r < SlideCount
  {
    if k == 0 then i else NextIndex(Advance(i, k - 1))
  }

  lemma {:induction false} AdvanceIsModular(i: nat, k: nat)
    requires i < SlideCount
    ensures Advance(i, k) == (i + k) % SlideCount
  {
    if k > 0 {
      AdvanceIsModular(i, k - 1);
    }
  }

  /** A full round of the slides comes back to the slide it started from. */
  lemma FullRoundReturns(i: nat)
    requires i < SlideCount
    ensures Advance(i, SlideCount) == i
  {
    AdvanceIsModular(i, SlideCount);
  }

  class Carousel {
    var current: nat

    ghost predicate Valid()
      reads this
    {
      current < SlideCount
    }

    /** `useState(0)` */
    constructor ()
      ensures Valid() && current == 0
    {
      current := 0;
    }

    method Next()
      requires Valid()
      modifies this
      ensures Valid() && current == NextIndex(old(current))
    {
      current := if current == SlideCount - 1 then 0 else current + 1;
    }

    method Prev()
      requires Valid()
      modifies this
      ensures Valid() && current == PrevIndex(old(current))
    {
      current := if current == 0 then SlideCount - 1 else current - 1;
    }

    /** The timer callback: the same step as `nextSlide`. */
    method Tick()
      requires Valid()
      modifies this
      ensures Valid() && current == NextIndex(old(current))
    {
      Next();
    }

    /** A click on indicator `k`; the indicators are drawn one per slide. */
    method Select(k: nat)
      requires k < SlideCount
      modifies this
      ensures Valid() && current == k
    {
      current := k;
    }
  }
}
