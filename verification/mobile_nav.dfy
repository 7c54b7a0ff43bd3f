/**
 * The mobile navigation drawer of `initMobileNav` (src/main.js): one
 * boolean, the navbar's `is-open` class, from which the toggle's
 * `aria-expanded` attribute and the body's `overflow` style are derived,
 * driven by four event handlers.
 */
module MobileNav {

  /** The events the four handlers react to. */
  datatype Event =
    | ToggleClick
    | LinkClick
    | DocumentClick(insideNavbar: bool, insideToggle: bool)
    | DocumentKeyDown(key: string)

  /** Whether the drawer is open after a handler for `e` has run on a drawer that was `open`. */
  function OpenAfter(open: bool, e: Event): (r: bool)
    ensures r && !open ==> e.ToggleClick?
    ensures e.ToggleClick? ==> r != open
  {
    match e
    case ToggleClick => !open
    case LinkClick => false
    case DocumentClick(insideNavbar, insideToggle) =>
      if open && !insideNavbar && !insideToggle then false else open
    case DocumentKeyDown(key) =>
      if key == "Escape" && open then false else open
  }

  /** Link click, outside click and Escape close an open drawer and never open a closed one. */
  lemma OnlyToggleOpens(open: bool, e: Event)
    requires !e.ToggleClick?
    ensures OpenAfter(open, e) ==> open
    ensures e.LinkClick? ==> !OpenAfter(open, e)
    ensures e == DocumentKeyDown("Escape") ==> !OpenAfter(open, e)
    ensures e.DocumentClick? && !e.insideNavbar && !e.insideToggle ==> !OpenAfter(open, e)
  {
  }

  /** Two toggle clicks restore the state. */
  lemma ToggleIsInvolution(open: bool)
    ensures OpenAfter(OpenAfter(open, ToggleClick), ToggleClick) == open
  {
  }

  /**
   * A click bubbles to the document handler after the element's own:
   * the document handler ignores a click on the toggle, so it does not
   * undo the toggle, and a link click inside the navbar stays closed.
   */
  lemma BubblingKeepsHandlerEffect(open: bool, insideNavbar: bool)
    ensures OpenAfter(OpenAfter(open, ToggleClick), DocumentClick(insideNavbar, true)) == !open
    ensures !OpenAfter(OpenAfter(open, LinkClick), DocumentClick(true, false))
  {
  }

  /** The navbar's `is-open` class, the toggle's `aria-expanded`, and `document.body.style.overflow`. */
  class Drawer {
    var isOpen: bool
    var ariaExpanded: string
    var bodyOverflow: string

    /** The attributes derived from `is-open` agree with it. */
    predicate Synced()
      reads this
    {
      ariaExpanded == (if isOpen then "true" else "false") &&
      bodyOverflow == (if isOpen then "hidden" else "")
    }

    /** The drawer as the markup leaves it; the attributes need not agree yet. */
    constructor (open: bool, expanded: string, overflow: string)
      ensures isOpen == open && ariaExpanded == expanded && bodyOverflow == overflow
    {
      isOpen := open;
      ariaExpanded := expanded;
      bodyOverflow := overflow;
    }

    /** Setting `is-open` to `open` and both derived attributes with it. */
    method SetOpen(open: bool)
      modifies this
      ensures isOpen == open && Synced()
    {
      isOpen := open;
      ariaExpanded := if open then "true" else "false";
      bodyOverflow := if open then "hidden" else "";
    }

    /** The toggle's click handler: flip `is-open` and derive the attributes. */
    method OnToggleClick()
      modifies this
      ensures isOpen == OpenAfter(old(isOpen), ToggleClick) && Synced()
    {
      SetOpen(!isOpen);
    }

    /** A nav link's click handler: always close. */
    method OnLinkClick()
      modifies this
      ensures isOpen == OpenAfter(old(isOpen), LinkClick) && Synced()
    {
      SetOpen(false);
    }

    /** The document's click handler: close only an open drawer clicked outside navbar and toggle. */
    method OnDocumentClick(insideNavbar: bool, insideToggle: bool)
      modifies this
      ensures isOpen == OpenAfter(old(isOpen), DocumentClick(insideNavbar, insideToggle))
      ensures if old(isOpen) && !insideNavbar && !insideToggle then Synced() else unchanged(this)
    {
      if isOpen && !insideNavbar && !insideToggle {
        SetOpen(false);
      }
    }

    /** The document's keydown handler: Escape closes an open drawer. */
    method OnKeyDown(key: string)
      modifies this
      ensures isOpen == OpenAfter(old(isOpen), DocumentKeyDown(key))
      ensures if key == "Escape" && old(isOpen) then Synced() else unchanged(this)
    {
      if key == "Escape" && isOpen {
        SetOpen(false);
      }
    }
  }
}
