/**
 * Rows of page elements of which some carry the CSS class 'active': the
 * carousel's indicators and the navigation links.
 */
module Marks {

  /** The number of elements marked active. */
  function ActiveCount(marks: seq<bool>): nat
  {
    if marks == [] then 0 else ActiveCount(marks[..|marks| - 1]) + (if marks[|marks| - 1] then 1 else 0)
  }

  /**
   * When element k is marked exactly when k is `current`, one element is
   * marked if `current` is a position of the row, and none otherwise.
   */
  lemma {:induction false} OnlyCurrentActive(marks: seq<bool>, current: int)
    requires forall k :: 0 <= k < |marks| ==> marks[k] == (k == current)
    ensures ActiveCount(marks) == (if 0 <= current < |marks| then 1 else 0)
  {
    if marks != [] {
      OnlyCurrentActive(marks[..|marks| - 1], current);
    }
  }
}
