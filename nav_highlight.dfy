/**
 * The highlighting of the navigation link of the section being read
 * (script.js:521-561): the sections the links point to are collected once,
 * and on every scroll the link of the last section whose top has been
 * reached is marked active.
 */
module NavHighlight {
  import opened JsMath
  import opened Marks

  /** The scroll handler treats a section as reached this many pixels early (script.js:541). */
  const Lead: int := 100

  /** An href of the form '#id', pointing into the page. */
  predicate IsFragment(href: string)
  {
    |href| > 0 && href[0] == '#'
  }

  /**
   * The hrefs that become entries of `sections` (script.js:526-537): those
   * that start with '#' and name an element of the page, in link order.
   */
  function Targets(hrefs: seq<string>, ids: set<string>): (t: seq<string>)
    ensures |t| <= |hrefs|
    ensures forall h :: h in t <==> h in hrefs && IsFragment(h) && h in ids
  {
    if hrefs == [] then []
    else
      var last := hrefs[|hrefs| - 1];
      Targets(hrefs[..|hrefs| - 1], ids) + (if IsFragment(last) && last in ids then [last] else [])
  }

  /**
   * The order of `Targets` is the links' order: the targets of two runs of
   * links, one after the other, are the first run's targets followed by the
   * second's.
   */
  lemma {:induction false} TargetsAppend(a: seq<string>, b: seq<string>, ids: set<string>)
    ensures Targets(a + b, ids) == Targets(a, ids) + Targets(b, ids)
    decreases |b|
  {
    if b == [] {
      assert a + b == a;
    } else {
      var front := b[..|b| - 1];
      assert (a + b)[..|a + b| - 1] == a + front;
      assert (a + b)[|a + b| - 1] == b[|b| - 1];
      TargetsAppend(a, front, ids);
    }
  }

  /** The section collection loop: `sections.push` for every qualifying link, in order. */
  method CollectSections(hrefs: seq<string>, ids: set<string>) returns (sections: seq<string>)
    ensures sections == Targets(hrefs, ids)
  {
    sections := [];
    for k := 0 to |hrefs|
      invariant sections == Targets(hrefs[..k], ids)
    {
      assert hrefs[..k + 1][..k] == hrefs[..k];
      var targetId := hrefs[k];
      if IsFragment(targetId) && targetId in ids {
        sections := sections + [targetId];
      }
    }
    assert hrefs[..|hrefs|] == hrefs;
  }

  /**
   * The section to highlight when the sections' tops are `tops`: the last
   * one whose top is at most `position`, or none.
   */
  function LastReached(tops: seq<int>, position: int): (found: Option<nat>)
    ensures found.Some? ==> found.value < |tops| && tops[found.value] <= position
    ensures found.Some? ==> forall j :: found.value < j < |tops| ==> tops[j] > position
    ensures found.None? <==> forall j :: 0 <= j < |tops| ==> tops[j] > position
  {
    if tops == [] then None
    else if tops[|tops| - 1] <= position then Some(|tops| - 1)
    else LastReached(tops[..|tops| - 1], position)
  }

  /** Scrolling further down never selects an earlier section. */
  lemma {:induction false} LastReachedMonotone(tops: seq<int>, p: int, q: int)
    requires p <= q && LastReached(tops, p).Some?
    ensures LastReached(tops, q).Some?
    ensures LastReached(tops, p).value <= LastReached(tops, q).value
  {
    var i := LastReached(tops, p).value;
    assert tops[i] <= q;
  }

  /** document.querySelector('.nav-link[href="id"]'): the first link with that href. */
  function FirstLink(hrefs: seq<string>, id: string): (k: nat)
    requires id in hrefs
    ensures k < |hrefs| && hrefs[k] == id
    ensures forall j :: 0 <= j < k ==> hrefs[j] != id
  {
    if hrefs[0] == id then 0 else 1 + FirstLink(hrefs[1..], id)
  }

  /** The navigation bar: the links' hrefs, the collected sections and which links are active. */
  class NavBar {
    const hrefs: seq<string>
    const sections: seq<string>
    /** Link k carries the class 'active' exactly when active[k]. */
    const active: array<bool>

    ghost predicate Valid()
      reads this
    {
      active.Length == |hrefs| && forall i :: 0 <= i < |sections| ==> sections[i] in hrefs
    }

    /**
     * The set-up of script.js:522-537 over the links' hrefs and the ids of
     * the page's elements, followed by the scroll event that script.js:561
     * dispatches at once. `classes` says which links carry 'active' in the
     * page as loaded; `tops` and `scrollY` are the section tops and the
     * scroll position at that first scroll.
     */
    constructor (hrefs: seq<string>, ids: set<string>, classes: seq<bool>, tops: seq<int>, scrollY: int)
      requires |classes| == |hrefs| && |tops| == |Targets(hrefs, ids)|
      ensures Valid() && fresh(active)
      ensures this.hrefs == hrefs && sections == Targets(hrefs, ids)
      ensures var found := LastReached(tops, scrollY + Lead);
        forall k :: 0 <= k < active.Length ==>
          (active[k] <==> found.Some? && k == FirstLink(hrefs, sections[found.value]))
      ensures ActiveCount(active[..]) <= 1
      ensures ActiveCount(active[..]) == 1 <==> exists i :: 0 <= i < |tops| && tops[i] <= scrollY + Lead
    {
      var collected := CollectSections(hrefs, ids);
      this.hrefs := hrefs;
      sections := collected;
      active := new bool[|hrefs|](k requires 0 <= k < |hrefs| => classes[k]);
      new;
      OnScroll(tops, scrollY);
    }

    /**
     * The scroll handler (script.js:540-558), where tops[i] is the top of
     * section i at the moment of the scroll: every link is cleared, then the
     * sections are scanned from the last one back and the first link to the
     * first section reached is marked, and the scan stops.
     */
    method OnScroll(tops: seq<int>, scrollY: int)
      requires Valid() && |tops| == |sections|
      modifies active
      ensures Valid()
      ensures var found := LastReached(tops, scrollY + Lead);
        forall k :: 0 <= k < active.Length ==>
          (active[k] <==> found.Some? && k == FirstLink(hrefs, sections[found.value]))
      ensures ActiveCount(active[..]) <= 1
      ensures ActiveCount(active[..]) == 1 <==> exists i :: 0 <= i < |tops| && tops[i] <= scrollY + Lead
    {
      var scrollPosition := scrollY + Lead;
      for k := 0 to active.Length
        invariant forall k' :: 0 <= k' < k ==> !active[k']
      {
        active[k] := false;
      }
      ghost var chosen: Option<nat> := None;
      var i := |sections| - 1;
      while i >= 0
        invariant -1 <= i < |sections|
        invariant forall j :: i < j < |tops| ==> tops[j] > scrollPosition
        invariant forall k :: 0 <= k < active.Length ==> !active[k]
      {
        if tops[i] <= scrollPosition {
          var activeLink := FirstLink(hrefs, sections[i]);
          active[activeLink] := true;
          chosen := Some(i);
          break;
        }
        i := i - 1;
      }
      assert chosen == LastReached(tops, scrollPosition);
      var link := if chosen.Some? then FirstLink(hrefs, sections[chosen.value]) else -1;
      OnlyCurrentActive(active[..], link);
    }
  }
}
