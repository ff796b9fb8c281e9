/**
 * The works carousel of the page (script.js:4-67): an index into the
 * carousel items that the previous/next buttons, the indicators and the
 * five-second autoplay move, and the indicators that mark the current item.
 */
module Carousel {
  import opened JsMath
  import opened Marks

  /**
   * nextSlide's new index (script.js:26): the successor of i reduced modulo
   * the number of items, so the last item is followed by the first.
   */
  function NextIndex(i: int, n: int): (j: int)
    requires n > 0 && i >= 0
    ensures 0 <= j < n
    ensures j == (i + 1) % n
  {
    JsRemNonNegative(i + 1, n);
    JsRem(i + 1, n)
  }

  /**
   * prevSlide's new index (script.js:32): adding n before JavaScript's `%`
   * makes it the predecessor reduced modulo n, so the first item is preceded
   * by the last.
   */
  function PrevIndex(i: int, n: int): (j: int)
    requires n > 0 && i >= 0
    ensures 0 <= j < n
    ensures j == (i - 1) % n
  {
    JsRemNonNegative(i - 1 + n, n);
    RemainderShift(i - 1, n);
    JsRem(i - 1 + n, n)
  }

  lemma RemainderShift(a: int, n: int)
    requires n > 0
    ensures (a + n) % n == a % n
  {
    RemainderUnique(a + n, n, a / n + 1, a % n);
  }

  /** Each button undoes the other. */
  lemma PrevUndoesNext(i: int, n: int)
    requires 0 <= i < n
    ensures PrevIndex(NextIndex(i, n), n) == i
    ensures NextIndex(PrevIndex(i, n), n) == i
  {
    RemainderUnique(i, n, 0, i);
    if i == n - 1 {
      RemainderUnique(i + 1, n, 1, 0);
      RemainderUnique(-1, n, -1, n - 1);
    } else {
      RemainderUnique(i + 1, n, 0, i + 1);
    }
    if i == 0 {
      RemainderUnique(-1, n, -1, n - 1);
      RemainderUnique(n, n, 1, 0);
    } else {
      RemainderUnique(i - 1, n, 0, i - 1);
    }
  }

  /** The index after k presses of next (or k autoplay ticks). */
  function NextTimes(i: int, n: int, k: nat): (j: int)
    requires n > 0 && i >= 0
    ensures k == 0 ==> j == i
    ensures k > 0 ==> 0 <= j < n
    decreases k
  {
    if k == 0 then i else NextTimes(NextIndex(i, n), n, k - 1)
  }

  /** k presses of next move k items on, modulo the number of items ... */
  lemma {:induction false} NextTimesMovesOn(i: int, n: int, k: nat)
    requires 0 <= i < n
    ensures NextTimes(i, n, k) == (i + k) % n
    decreases k
  {
    if k == 0 {
      RemainderUnique(i, n, 0, i);
    } else {
      var j := NextIndex(i, n);
      NextTimesMovesOn(j, n, k - 1);
      SuccessorRemainder(i, k - 1, n);
    }
  }

  /** Reducing before adding k gives the same remainder as adding first. */
  lemma SuccessorRemainder(i: int, k: int, n: int)
    requires n > 0
    ensures ((i + 1) % n + k) % n == (i + 1 + k) % n
  {
    var a := i + 1;
    RemainderUnique(a + k, n, a / n + (a % n + k) / n, (a % n + k) % n);
  }

  /** ... so n presses bring the carousel back to where it started. */
  lemma FullCycle(i: int, n: int)
    requires 0 <= i < n
    ensures NextTimes(i, n, n) == i
  {
    NextTimesMovesOn(i, n, n);
    RemainderUnique(i + n, n, 1, i);
  }

  /** The carousel's state: the closure variables of the DOMContentLoaded handler. */
  class CarouselState {
    const totalItems: nat
    const itemWidth: real
    /** Indicator k carries the class 'active' exactly when indicators[k]. */
    const indicators: array<bool>
    var currentIndex: int
    /** The track is shown translated left by this many pixels. */
    var offset: real

    ghost predicate Valid()
      reads this
    {
      totalItems > 0 && currentIndex >= 0
    }

    /**
     * The state on page load (script.js:10-12). The page reads the width of
     * the first item, so it needs at least one. No indicator is touched
     * until the first move.
     */
    constructor (totalItems: nat, itemWidth: real, indicators: array<bool>)
      requires totalItems > 0
      ensures Valid()
      ensures this.totalItems == totalItems && this.itemWidth == itemWidth && this.indicators == indicators
      ensures currentIndex == 0 && offset == 0.0
    {
      this.totalItems := totalItems;
      this.itemWidth := itemWidth;
      this.indicators := indicators;
      currentIndex := 0;
      offset := 0.0;
    }

    /**
     * updateCarousel() (script.js:15-22): move the track and mark the
     * indicator of the current index, and only it.
     */
    method UpdateCarousel()
      modifies this`offset, indicators
      ensures offset == currentIndex as real * itemWidth
      ensures forall k :: 0 <= k < indicators.Length ==> indicators[k] == (k == currentIndex)
      ensures ActiveCount(indicators[..]) == (if 0 <= currentIndex < indicators.Length then 1 else 0)
    {
      for k := 0 to indicators.Length
        invariant forall k' :: 0 <= k' < k ==> indicators[k'] == (k' == currentIndex)
      {
        indicators[k] := k == currentIndex;
      }
      offset := currentIndex as real * itemWidth;
      OnlyCurrentActive(indicators[..], currentIndex);
    }

    /** nextSlide() (script.js:25-28), also run by the autoplay timer. */
    method NextSlide()
      requires Valid()
      modifies this`currentIndex, this`offset, indicators
      ensures Valid() && currentIndex < totalItems
      ensures currentIndex == NextIndex(old(currentIndex), totalItems)
      ensures offset == currentIndex as real * itemWidth
      ensures forall k :: 0 <= k < indicators.Length ==> indicators[k] == (k == currentIndex)
    {
      currentIndex := JsRem(currentIndex + 1, totalItems);
      UpdateCarousel();
    }

    /** prevSlide() (script.js:31-34). */
    method PrevSlide()
      requires Valid()
      modifies this`currentIndex, this`offset, indicators
      ensures Valid() && currentIndex < totalItems
      ensures currentIndex == PrevIndex(old(currentIndex), totalItems)
      ensures offset == currentIndex as real * itemWidth
      ensures forall k :: 0 <= k < indicators.Length ==> indicators[k] == (k == currentIndex)
    {
      currentIndex := JsRem(currentIndex - 1 + totalItems, totalItems);
      UpdateCarousel();
    }

    /**
     * The window resize handler (script.js:49-53): the track is moved by the
     * re-measured item width; the indicators and the stored width stay.
     */
    method OnResize(newItemWidth: real)
      modifies this`offset
      ensures offset == currentIndex as real * newItemWidth
    {
      offset := currentIndex as real * newItemWidth;
    }

    /** A click on indicator `index` (script.js:37-42). */
    method SelectIndicator(index: nat)
      requires Valid() && index < indicators.Length
      modifies this`currentIndex, this`offset, indicators
      ensures Valid() && currentIndex == index
      ensures offset == currentIndex as real * itemWidth
      ensures forall k :: 0 <= k < indicators.Length ==> indicators[k] == (k == index)
      ensures ActiveCount(indicators[..]) == 1
    {
      currentIndex := index;
      UpdateCarousel();
    }
  }
}
