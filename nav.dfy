/** The navigation bar (techportfolio/app/components/NavBar.tsx): the scrolled flag, the
    active-section scan, and the mobile-menu flag. The page's elements are given as a map
    from element id to its bounding rectangle; an id that is absent has no element. */
module Nav {
  import opened Js

  const Sections: seq<string> := ["home", "about", "techstack", "blog", "contact"]
  const ScrollThreshold: real := 50.0

  /** The vertical extent of `getBoundingClientRect()`, in viewport coordinates. */
  datatype Rect = Rect(top: real, bottom: real)

  type Dom = map<string, Rect>

  /** The visibility test: the element's top is above the middle of the viewport and its
      bottom is below the viewport's top edge. An id without an element, an element
      scrolled entirely above the viewport, or one starting in the lower half never qualifies. */
  predicate Qualifies(dom: Dom, innerHeight: real, id: string): (b: bool)
    ensures b ==> id in dom
    ensures id in dom && dom[id].bottom <= 0.0 ==> !b
    ensures id in dom && dom[id].top >= innerHeight / 2.0 ==> !b
  {
    id in dom && dom[id].top < innerHeight / 2.0 && dom[id].bottom > 0.0
  }

  /** The first section, at index `from` or later, that qualifies. */
  function FirstQualifying(dom: Dom, innerHeight: real, from: nat): (r: Option<nat>)
    requires from <= |Sections|
    ensures r.Some? ==> from <= r.value < |Sections| && Qualifies(dom, innerHeight, Sections[r.value])
    ensures r.Some? ==> forall j :: from <= j < r.value ==> !Qualifies(dom, innerHeight, Sections[j])
    ensures r.None? ==> forall j :: from <= j < |Sections| ==> !Qualifies(dom, innerHeight, Sections[j])
    decreases |Sections| - from
  {
    if from == |Sections| then None
    else if Qualifies(dom, innerHeight, Sections[from]) then Some(from)
    else FirstQualifying(dom, innerHeight, from + 1)
  }

  /** The active section after one scan: the first qualifying section, or `current` unchanged
      when none qualifies. */
  function NextActive(current: string, dom: Dom, innerHeight: real): (r: string)
    ensures current in Sections ==> r in Sections
  {
    match FirstQualifying(dom, innerHeight, 0)
    case None => current
    case Some(i) => Sections[i]
  }

  /** A section that qualifies is never passed over for a later one. */
  lemma EarlierSectionWins(dom: Dom, innerHeight: real, current: string, i: nat)
    requires i < |Sections| && Qualifies(dom, innerHeight, Sections[i])
    ensures exists j :: 0 <= j <= i && NextActive(current, dom, innerHeight) == Sections[j]
                        && Qualifies(dom, innerHeight, Sections[j])
  {
    var k := FirstQualifying(dom, innerHeight, 0).value;
    assert NextActive(current, dom, innerHeight) == Sections[k];
  }

  class NavBar {
    var isScrolled: bool
    var activeSection: string
    var isMobileMenuOpen: bool

    ghost predicate Valid()
      reads this
    {
      activeSection in Sections
    }

    constructor ()
      ensures Valid()
      ensures !isScrolled && activeSection == "home" && !isMobileMenuOpen
    {
      isScrolled, activeSection, isMobileMenuOpen := false, "home", false;
    }

    /** The scroll listener that styles the bar. */
    method HandleScroll(scrollY: real)
      modifies this`isScrolled
      ensures isScrolled == (scrollY > ScrollThreshold)
    {
      isScrolled := scrollY > ScrollThreshold;
    }

    /** The scroll listener that tracks the active section: the `for ... of` loop over the
        section ids, stopping at the first one whose element is visible. */
    method TrackActiveSection(dom: Dom, innerHeight: real)
      requires Valid()
      modifies this`activeSection
      ensures Valid()
      ensures activeSection == NextActive(old(activeSection), dom, innerHeight)
    {
      var i := 0;
      while i < |Sections|
        invariant 0 <= i <= |Sections|
        invariant activeSection == old(activeSection)
        invariant forall j :: 0 <= j < i ==> !Qualifies(dom, innerHeight, Sections[j])
        decreases |Sections| - i
      {
        var section := Sections[i];
        if section in dom {
          var rect := dom[section];
          var visible := rect.top < innerHeight / 2.0 && rect.bottom > 0.0;
          if visible {
            activeSection := section;
            assert FirstQualifying(dom, innerHeight, 0) == Some(i);
            break;
          }
        }
        i := i + 1;
      }
    }

    /** A click on a menu entry: scrolls when the element exists, and always closes the
        mobile menu. `scrolled` says whether `scrollIntoView` was called. */
    method ScrollToSection(sectionId: string, dom: Dom) returns (scrolled: bool)
      modifies this`isMobileMenuOpen
      ensures scrolled == (sectionId in dom)
      ensures !isMobileMenuOpen
    {
      scrolled := sectionId in dom;
      isMobileMenuOpen := false;
    }

    /** The mobile menu button. */
    method ToggleMenu()
      modifies this`isMobileMenuOpen
      ensures isMobileMenuOpen == !old(isMobileMenuOpen)
    {
      isMobileMenuOpen := !isMobileMenuOpen;
    }
  }
}
