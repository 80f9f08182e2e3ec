/**
 * The navigation bar (Navbar.jsx): which section is highlighted for a scroll
 * position, what a click on a navigation item does, and when the mobile menu closes.
 *
 * The document lookups are abstracted: `offsets` maps a section id to the
 * `offsetTop` of the element found for it (by id or by `data-section`); an id
 * without an entry has no element.
 */
module Navbar {
  import opened Wrappers

  const Home: string := "home"
  /** The sections checked on scroll, bottom of the page first. */
  const SectionOrder: seq<string> := ["contact", "achievements", "resume", "gallery", "about"]
  /** Below this scroll position the page counts as at the top. */
  const TopThreshold: int := 50
  /** A section counts as reached this many pixels before its top (the navbar's height). */
  const SectionAllowance: int := 100
  /** A navigation click scrolls to this many pixels above the section's top. */
  const ScrollMargin: int := 80

  /** The navigation items: (href, id). */
  const NavItems: seq<(string, string)> := [
    ("#", "home"), ("#about", "about"), ("#gallery", "gallery"),
    ("#resume", "resume"), ("#achievements", "achievements"), ("#contact", "contact")]

  /** The section `id` has an element and the page has scrolled to within the allowance of its top. */
  predicate Reached(scrollY: int, offsets: map<string, int>, id: string)
  {
    id in offsets && scrollY >= offsets[id] - SectionAllowance
  }

  /**
   * The selection rule: at the top of the page, home; otherwise the first section,
   * in checking order, that has been reached, or home when none has.
   */
  ghost predicate IsActiveFor(scrollY: int, offsets: map<string, int>, active: string)
  {
    if scrollY < TopThreshold then active == Home
    else
      (active == Home && forall k :: 0 <= k < |SectionOrder| ==> !Reached(scrollY, offsets, SectionOrder[k]))
      || exists k :: 0 <= k < |SectionOrder| && active == SectionOrder[k] && Reached(scrollY, offsets, SectionOrder[k])
           && forall j :: 0 <= j < k ==> !Reached(scrollY, offsets, SectionOrder[j])
  }

  /** The scroll listener's decision: a loop over the sections with an early return. */
  method SelectActiveSection(scrollY: int, offsets: map<string, int>) returns (active: string)
    ensures IsActiveFor(scrollY, offsets, active)
  {
    if scrollY < TopThreshold {
      return Home;
    }
    for k := 0 to |SectionOrder|
      invariant forall j :: 0 <= j < k ==> !Reached(scrollY, offsets, SectionOrder[j])
    {
      var sectionId := SectionOrder[k];
      if sectionId in offsets {
        var elementTop := offsets[sectionId] - SectionAllowance;
        if scrollY >= elementTop {
          return sectionId;
        }
      }
    }
    return Home;
  }

  /** Where a navigation click scrolls to, if anywhere; `element` is the offsetTop of the target element found. */
  function NavScrollTarget(href: string, id: string, element: Option<int>): Option<int>
  {
    if href == "#" || id == Home then Some(0)
    else match element
      case None => None
      case Some(top) => Some(top - ScrollMargin)
  }

  // ---------------------------------------------------------------------------

  /** The rule picks one section: it determines the active section uniquely. */
  lemma ActiveSectionUnique(scrollY: int, offsets: map<string, int>, a: string, b: string)
    requires IsActiveFor(scrollY, offsets, a) && IsActiveFor(scrollY, offsets, b)
    ensures a == b
  {
    if scrollY >= TopThreshold && a != Home && b != Home {
      var ka :| 0 <= ka < |SectionOrder| && a == SectionOrder[ka] && Reached(scrollY, offsets, SectionOrder[ka])
           && forall j :: 0 <= j < ka ==> !Reached(scrollY, offsets, SectionOrder[j]);
      var kb :| 0 <= kb < |SectionOrder| && b == SectionOrder[kb] && Reached(scrollY, offsets, SectionOrder[kb])
           && forall j :: 0 <= j < kb ==> !Reached(scrollY, offsets, SectionOrder[j]);
      assert !(ka < kb) && !(kb < ka);
    }
  }

  /** A section without an element is never active; the active section is home or a listed section. */
  lemma ActiveSectionHasElement(scrollY: int, offsets: map<string, int>, active: string)
    requires IsActiveFor(scrollY, offsets, active)
    ensures active == Home || (active in SectionOrder && active in offsets)
    ensures scrollY < TopThreshold ==> active == Home
  {
  }

  /** Once the contact section is reached (below the top band), it wins over every other section. */
  lemma ContactHasPriority(scrollY: int, offsets: map<string, int>, active: string)
    requires IsActiveFor(scrollY, offsets, active)
    requires scrollY >= TopThreshold && Reached(scrollY, offsets, "contact")
    ensures active == "contact"
  {
    assert Reached(scrollY, offsets, SectionOrder[0]);
    if active != Home {
      var k :| 0 <= k < |SectionOrder| && active == SectionOrder[k] && Reached(scrollY, offsets, SectionOrder[k])
           && forall j :: 0 <= j < k ==> !Reached(scrollY, offsets, SectionOrder[j]);
      assert k == 0;
    }
  }

  /** Home scrolls to the top; any other item scrolls 80 pixels above its element, or nowhere without one. */
  lemma NavScrollTargets(href: string, id: string, element: Option<int>)
    ensures (href == "#" || id == Home) ==> NavScrollTarget(href, id, element) == Some(0)
    ensures href != "#" && id != Home ==>
      (NavScrollTarget(href, id, element).Some? <==> element.Some?)
      && (element.Some? ==> NavScrollTarget(href, id, element) == Some(element.value - ScrollMargin))
  {
  }

  /** Every item other than home links to the anchor of its own id, so all three lookups seek the same section. */
  lemma NavItemsLinkTheirSections()
    ensures forall k :: 0 <= k < |NavItems| && NavItems[k].1 != Home ==> NavItems[k].0 == "#" + NavItems[k].1
    ensures forall k :: 0 <= k < |NavItems| && NavItems[k].1 == Home ==> NavItems[k].0 == "#"
  {
  }

  // ---------------------------------------------------------------------------

  class NavbarState {
    var isMenuOpen: bool
    var activeSection: string

    constructor ()
      ensures !isMenuOpen && activeSection == Home
    {
      isMenuOpen, activeSection := false, Home;
    }

    /** The window's scroll listener. */
    method HandleScroll(scrollY: int, offsets: map<string, int>)
      modifies this
      ensures IsActiveFor(scrollY, offsets, activeSection)
      ensures isMenuOpen == old(isMenuOpen)
    {
      activeSection := SelectActiveSection(scrollY, offsets);
    }

    /** A navigation item was clicked; returns where the window scrolls to, if anywhere. */
    method HandleNavClick(href: string, id: string, element: Option<int>) returns (scrollTo: Option<int>)
      modifies this
      ensures !isMenuOpen && activeSection == id
      ensures scrollTo == NavScrollTarget(href, id, element)
    {
      isMenuOpen := false;
      activeSection := id;
      if href == "#" || id == Home {
        return Some(0);
      }
      scrollTo := None;
      if element.Some? {
        var offsetTop := element.value - ScrollMargin;
        scrollTo := Some(offsetTop);
      }
    }

    /** A click anywhere in the document: an open menu closes when the click is outside the nav. */
    method HandleClickOutside(insideNav: bool)
      modifies this
      ensures isMenuOpen == (old(isMenuOpen) && insideNav)
      ensures activeSection == old(activeSection)
    {
      if isMenuOpen && !insideNav {
        isMenuOpen := false;
      }
    }

    /** The menu button. */
    method ToggleMenu()
      modifies this
      ensures isMenuOpen == !old(isMenuOpen) && activeSection == old(activeSection)
    {
      isMenuOpen := !isMenuOpen;
    }

    /** A click on the backdrop shown behind the open menu. */
    method CloseFromBackdrop()
      modifies this
      ensures !isMenuOpen && activeSection == old(activeSection)
    {
      isMenuOpen := false;
    }
  }
}
