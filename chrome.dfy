/**
 * main.js, the site-wide chrome: the navbar that hides on scroll down and reveals on scroll up
 * (`initNavbar`), the click-to-toggle dropdowns (`initDropdowns`), the mobile menu
 * (`initMobileMenu`) and the contact panel with its focus trap (`initContactPanel`).
 */
module Chrome {
  import opened Wrappers
  import Flags

  /** At or above this `scrollY` the navbar carries no state class. */
  const TopZone := 10
  /** Scrolling down hides the navbar only past this `scrollY`. */
  const HideThreshold := 80

  /** The navbar's `is-hidden`, `is-revealed` and `is-solid` classes. */
  datatype NavbarClasses = NavbarClasses(hidden: bool, revealed: bool, solid: bool)

  /** A navbar is never hidden and revealed at once, and only a revealed navbar is solid. */
  predicate Coherent(c: NavbarClasses) {
    !(c.hidden && c.revealed) && (c.solid ==> c.revealed)
  }

  /**
   * The classes set before the first scroll event: on a page loaded already scrolled past the
   * top zone the navbar is revealed, and solid once the hero is scrolled past.
   */
  function InitialNavbar(scrollY: nat, heroBottom: nat): (c: NavbarClasses)
    ensures Coherent(c) && !c.hidden
    ensures c.revealed <==> scrollY > TopZone
    ensures c.solid <==> scrollY > TopZone && scrollY >= heroBottom
  {
    if scrollY > TopZone then NavbarClasses(false, true, scrollY >= heroBottom)
    else NavbarClasses(false, false, false)
  }

  /** Whether a frame scrolls down past the threshold (the branch that also closes the dropdowns). */
  predicate HidesOnFrame(scrollY: nat, lastScrollY: nat) {
    scrollY > TopZone && scrollY > lastScrollY && scrollY > HideThreshold
  }

  /**
   * One animation frame of `onScroll` (mobile menu closed), from `scrollY`, the previous frame's
   * `lastScrollY` and the hero's height: the top zone clears every class, scrolling down past
   * the threshold hides, scrolling up reveals (solid below the hero), anything else keeps the
   * classes as they are.
   */
  function NavbarFrame(c: NavbarClasses, scrollY: nat, lastScrollY: nat, heroBottom: nat): (r: NavbarClasses)
    ensures scrollY <= TopZone ==> r == NavbarClasses(false, false, false)
    ensures HidesOnFrame(scrollY, lastScrollY) ==> r == NavbarClasses(true, false, false)
    ensures scrollY > TopZone && scrollY < lastScrollY ==> r.revealed && !r.hidden && (r.solid <==> scrollY >= heroBottom)
    ensures scrollY > TopZone && scrollY >= lastScrollY && !HidesOnFrame(scrollY, lastScrollY) ==> r == c
    ensures Coherent(c) ==> Coherent(r)
  {
    if scrollY <= TopZone then NavbarClasses(false, false, false)
    else if scrollY > lastScrollY && scrollY > HideThreshold then NavbarClasses(true, false, false)
    else if scrollY < lastScrollY then NavbarClasses(false, true, scrollY >= heroBottom)
    else c
  }

  /**
   * A frame newly hides a visible navbar exactly when it scrolls down past the threshold, and
   * such a frame leaves it neither revealed nor solid.
   */
  lemma NewlyHiddenIff(c: NavbarClasses, scrollY: nat, lastScrollY: nat, heroBottom: nat)
    ensures !c.hidden ==> (NavbarFrame(c, scrollY, lastScrollY, heroBottom).hidden <==> HidesOnFrame(scrollY, lastScrollY))
    ensures HidesOnFrame(scrollY, lastScrollY) ==>
      !NavbarFrame(c, scrollY, lastScrollY, heroBottom).revealed && !NavbarFrame(c, scrollY, lastScrollY, heroBottom).solid
  {
  }

  /** Two frames at the same position change nothing the second time. */
  lemma FrameIdempotent(c: NavbarClasses, scrollY: nat, lastScrollY: nat, heroBottom: nat)
    ensures NavbarFrame(NavbarFrame(c, scrollY, lastScrollY, heroBottom), scrollY, scrollY, heroBottom)
            == NavbarFrame(c, scrollY, lastScrollY, heroBottom)
  {
  }

  /** A scroll down followed by a scroll back up to below the hero leaves a solid, revealed navbar. */
  lemma HideThenReveal(c: NavbarClasses, down: nat, up: nat, last: nat, heroBottom: nat)
    requires down > last && down > HideThreshold && TopZone < up < down && up >= heroBottom
    ensures NavbarFrame(NavbarFrame(c, down, last, heroBottom), up, down, heroBottom) == NavbarClasses(false, true, true)
  {
  }

  /**
   * The dropdown trigger click on dropdown `i` of `open`: close every dropdown, then open this
   * one if it was closed.
   */
  function Toggled(open: seq<bool>, i: nat): (r: seq<bool>)
    requires i < |open|
    ensures |r| == |open|
    ensures r[i] <==> !open[i]
    ensures forall j :: 0 <= j < |r| && j != i ==> !r[j]
    ensures Flags.Count(r) <= 1
  {
    Flags.CountOnly(|open|, i);
    Flags.CountCleared(|open|);
    if open[i] then Flags.Cleared(|open|) else Flags.Only(|open|, i)
  }

  /** Clicking the same trigger twice leaves that dropdown as it was and every other one closed. */
  lemma ToggleTwice(open: seq<bool>, i: nat)
    requires i < |open|
    ensures Toggled(Toggled(open, i), i) == (if open[i] then Flags.Only(|open|, i) else Flags.Cleared(|open|))
  {
  }

  /** Where the panel's Tab handler sends focus: `Some(k)` moves it to focusable `k`, None leaves it to the browser. */
  function TrapFocus(key: string, shift: bool, focused: Option<nat>, count: nat): (r: Option<nat>)
    ensures r.Some? ==> key == "Tab" && r.value < count
    ensures r.Some? <==> (key == "Tab" && count > 0 &&
      ((shift && focused == Some(0)) || (!shift && focused == Some(count - 1))))
    ensures r.Some? && shift ==> r.value == count - 1
    ensures r.Some? && !shift ==> r.value == 0
  {
    if key != "Tab" || count == 0 then None
    else if shift && focused == Some(0) then Some(count - 1)
    else if !shift && focused == Some(count - 1) then Some(0)
    else None
  }

  /** Tab off the last element and Shift+Tab straight back returns focus to the last element. */
  lemma TrapRoundTrip(count: nat)
    requires count > 0
    ensures TrapFocus("Tab", false, Some(count - 1), count) == Some(0)
    ensures TrapFocus("Tab", true, TrapFocus("Tab", false, Some(count - 1), count), count) == Some(count - 1)
  {
  }

  /**
   * The page's chrome. Components missing from the markup (navbar, hamburger with menu, panel
   * with overlay) register no handlers, so the corresponding methods require them.
   */
  class SiteChrome {
    const hasNavbar: bool
    const hasMobileMenu: bool
    const hasPanel: bool
    /** Per `.navbar__item[data-dropdown]`: whether its dropdown lies inside the mobile menu. */
    const dropdownInMenu: seq<bool>
    /** `is-open` per dropdown. */
    const open: array<bool>
    /** `aria-expanded="true"` per dropdown trigger. */
    const expanded: array<bool>

    var navbar: NavbarClasses
    /** The navbar's `menu-open` class. */
    var navbarMenuOpen: bool
    var lastScrollY: nat

    /** `is-open` on the mobile menu. */
    var menuOpen: bool
    /** `is-active` on the hamburger. */
    var hamburgerActive: bool
    /** `aria-expanded="true"` on the hamburger. */
    var hamburgerExpanded: bool
    /** `overflow: hidden` on the body. */
    var scrollLocked: bool

    /** `is-active` on the panel and on the overlay, and `contact-open` on the body. */
    var panelActive: bool
    var overlayActive: bool
    var bodyContactOpen: bool
    /** Delayed (150ms) panel opens scheduled from the mobile contact links and not yet run. */
    var pendingOpens: nat

    /**
     * The invariants: a coherent navbar; at most one dropdown open, with `aria-expanded`
     * exactly on its trigger; hamburger, body lock and `menu-open` all following the menu; the
     * panel, the overlay and the body class agreeing.
     */
    ghost predicate Valid()
      reads this, open, expanded
    {
      && open.Length == |dropdownInMenu| && expanded.Length == |dropdownInMenu| && open != expanded
      && Coherent(navbar)
      && expanded[..] == open[..] && Flags.Count(open[..]) <= 1
      && (menuOpen ==> hasMobileMenu)
      && hamburgerActive == menuOpen && hamburgerExpanded == menuOpen && scrollLocked == menuOpen
      && navbarMenuOpen == (hasNavbar && menuOpen)
      && (panelActive ==> hasPanel)
      && overlayActive == panelActive && bodyContactOpen == panelActive
    }

    /** The page after DOMContentLoaded, on markup with every dropdown, menu and panel closed. */
    constructor (hasNavbar: bool, scrollY: nat, heroBottom: nat, hasMobileMenu: bool, hasPanel: bool, dropdownInMenu: seq<bool>)
      ensures Valid()
      ensures this.hasNavbar == hasNavbar && this.hasMobileMenu == hasMobileMenu && this.hasPanel == hasPanel
      ensures this.dropdownInMenu == dropdownInMenu
      ensures hasNavbar ==> navbar == InitialNavbar(scrollY, heroBottom) && lastScrollY == scrollY
      ensures open[..] == Flags.Cleared(|dropdownInMenu|)
      ensures !menuOpen && !panelActive && pendingOpens == 0
    {
      this.hasNavbar := hasNavbar;
      this.hasMobileMenu := hasMobileMenu;
      this.hasPanel := hasPanel;
      this.dropdownInMenu := dropdownInMenu;
      open := new bool[|dropdownInMenu|](i => false);
      expanded := new bool[|dropdownInMenu|](i => false);
      navbar := if hasNavbar then InitialNavbar(scrollY, heroBottom) else NavbarClasses(false, false, false);
      navbarMenuOpen := false;
      lastScrollY := scrollY;
      menuOpen, hamburgerActive, hamburgerExpanded, scrollLocked := false, false, false, false;
      panelActive, overlayActive, bodyContactOpen := false, false, false;
      pendingOpens := 0;
      new;
      assert open[..] == Flags.Cleared(|dropdownInMenu|);
      Flags.CountCleared(|dropdownInMenu|);
    }

    /** `closeAllDropdowns` */
    method CloseAllDropdowns()
      requires Valid()
      modifies open, expanded
      ensures Valid() && open[..] == Flags.Cleared(open.Length)
    {
      Flags.ClearAll(open);
      Flags.ClearAll(expanded);
      Flags.CountCleared(open.Length);
    }

    /**
     * One animation frame after a scroll event: nothing happens while the mobile menu is open;
     * otherwise the navbar takes its next classes, a hide also closes every dropdown, and the
     * position is remembered.
     */
    method ScrollFrame(scrollY: nat, heroBottom: nat)
      requires Valid() && hasNavbar
      modifies this, open, expanded
      ensures Valid()
      ensures old(menuOpen) ==> unchanged(this, open, expanded)
      ensures !old(menuOpen) ==>
        && navbar == NavbarFrame(old(navbar), scrollY, old(lastScrollY), heroBottom)
        && lastScrollY == scrollY
        && open[..] == (if HidesOnFrame(scrollY, old(lastScrollY)) then Flags.Cleared(open.Length) else old(open[..]))
      ensures menuOpen == old(menuOpen) && panelActive == old(panelActive) && pendingOpens == old(pendingOpens)
    {
      if menuOpen {
        return;
      }
      var hides := HidesOnFrame(scrollY, lastScrollY);
      navbar := NavbarFrame(navbar, scrollY, lastScrollY, heroBottom);
      if hides {
        CloseAllDropdowns();
      }
      lastScrollY := scrollY;
    }

    /** A click on the trigger of dropdown `i`. */
    method TriggerClick(i: nat)
      requires Valid() && i < open.Length
      modifies open, expanded
      ensures Valid() && open[..] == Toggled(old(open[..]), i)
    {
      var wasOpen := open[i];
      CloseAllDropdowns();
      if !wasOpen {
        open[i] := true;
        expanded[i] := true;
        assert open[..] == Flags.Only(open.Length, i);
        Flags.CountOnly(open.Length, i);
      }
    }

    /** A click anywhere else: outside every dropdown item it closes them all. */
    method DocumentClick(insideItem: bool)
      requires Valid()
      modifies open, expanded
      ensures Valid()
      ensures insideItem ==> open[..] == old(open[..])
      ensures !insideItem ==> open[..] == Flags.Cleared(open.Length)
    {
      if !insideItem {
        CloseAllDropdowns();
      }
    }

    /** `openMenu` */
    method OpenMenu()
      requires Valid() && hasMobileMenu
      modifies this
      ensures Valid() && menuOpen && hamburgerExpanded && scrollLocked
      ensures navbar == (if hasNavbar then old(navbar).(hidden := false) else old(navbar))
      ensures panelActive == old(panelActive) && pendingOpens == old(pendingOpens) && lastScrollY == old(lastScrollY)
    {
      menuOpen, hamburgerActive, hamburgerExpanded, scrollLocked := true, true, true, true;
      if hasNavbar {
        navbar := navbar.(hidden := false);
        navbarMenuOpen := true;
      }
    }

    /** `closeMenu`: the menu closes and so does every dropdown inside it. */
    method CloseMenu()
      requires Valid() && hasMobileMenu
      modifies this, open, expanded
      ensures Valid() && !menuOpen && !hamburgerExpanded && !scrollLocked
      ensures forall j :: 0 <= j < open.Length ==> open[j] == (old(open[j]) && !dropdownInMenu[j])
      ensures navbar == old(navbar) && panelActive == old(panelActive) && pendingOpens == old(pendingOpens)
      ensures lastScrollY == old(lastScrollY)
    {
      menuOpen, hamburgerActive, hamburgerExpanded, scrollLocked := false, false, false, false;
      navbarMenuOpen := false;
      ghost var before := open[..];
      Flags.ClearWithin(open, dropdownInMenu);
      Flags.ClearWithin(expanded, dropdownInMenu);
      assert expanded[..] == open[..];
      OpenSubset(before, open[..]);
    }

    /** Clearing flags never raises the count. */
    static lemma {:induction false} OpenSubset(before: seq<bool>, after: seq<bool>)
      requires |before| == |after| && forall j :: 0 <= j < |after| && after[j] ==> before[j]
      ensures Flags.Count(after) <= Flags.Count(before)
    {
      if after != [] {
        OpenSubset(before[..|before| - 1], after[..|after| - 1]);
      }
    }

    /**
     * A click on the hamburger. Its listener toggles the menu (`openMenu` when it is closed,
     * `closeMenu` when it is open); the click then bubbles to the document listener, which
     * closes every dropdown unless the hamburger lies inside a dropdown item (`insideItem`).
     */
    method HamburgerClick(insideItem: bool)
      requires Valid() && hasMobileMenu
      modifies this, open, expanded
      ensures Valid() && menuOpen == !old(menuOpen)
      ensures !old(menuOpen) ==> navbar == (if hasNavbar then old(navbar).(hidden := false) else old(navbar))
      ensures old(menuOpen) ==> navbar == old(navbar)
      ensures !insideItem ==> open[..] == Flags.Cleared(open.Length)
      ensures insideItem && !old(menuOpen) ==> open[..] == old(open[..])
      ensures insideItem && old(menuOpen) ==>
        forall j :: 0 <= j < open.Length ==> open[j] == (old(open[j]) && !dropdownInMenu[j])
      ensures panelActive == old(panelActive) && pendingOpens == old(pendingOpens) && lastScrollY == old(lastScrollY)
    {
      if menuOpen {
        CloseMenu();
      } else {
        OpenMenu();
      }
      DocumentClick(insideItem);
    }

    /**
     * A click on a direct `a.navbar__link` of the menu or on a `.navbar__dropdown-link`: the
     * listener is `closeMenu`, then the document listener closes every dropdown unless the link
     * lies inside a dropdown item (as the dropdown sub-links do).
     */
    method NavLinkClick(insideItem: bool)
      requires Valid() && hasMobileMenu
      modifies this, open, expanded
      ensures Valid() && !menuOpen && !hamburgerExpanded && !scrollLocked
      ensures !insideItem ==> open[..] == Flags.Cleared(open.Length)
      ensures insideItem ==> forall j :: 0 <= j < open.Length ==> open[j] == (old(open[j]) && !dropdownInMenu[j])
      ensures navbar == old(navbar) && panelActive == old(panelActive) && pendingOpens == old(pendingOpens)
      ensures lastScrollY == old(lastScrollY)
    {
      CloseMenu();
      DocumentClick(insideItem);
    }

    /** Escape: close every dropdown, then the mobile menu if open, then the panel if open. */
    method KeyDown(key: string)
      requires Valid()
      modifies this, open, expanded
      ensures Valid()
      ensures key != "Escape" ==> unchanged(this, open, expanded)
      ensures key == "Escape" ==> open[..] == Flags.Cleared(open.Length) && !menuOpen && !panelActive
      ensures navbar == old(navbar) && lastScrollY == old(lastScrollY) && pendingOpens == old(pendingOpens)
    {
      if key != "Escape" {
        return;
      }
      CloseAllDropdowns();
      if menuOpen {
        CloseMenu();
        assert open[..] == Flags.Cleared(open.Length);
      }
      if panelActive {
        ClosePanel();
      }
    }

    /** `openPanel`, the listener of the desktop contact trigger. */
    method OpenPanel()
      requires Valid() && hasPanel
      modifies this
      ensures Valid() && panelActive && overlayActive && bodyContactOpen
      ensures menuOpen == old(menuOpen) && navbar == old(navbar) && pendingOpens == old(pendingOpens)
      ensures lastScrollY == old(lastScrollY)
    {
      panelActive, overlayActive, bodyContactOpen := true, true, true;
    }

    /** `closePanel`, the listener of the close button and of the overlay, and part of Escape. */
    method ClosePanel()
      requires Valid() && hasPanel
      modifies this
      ensures Valid() && !panelActive && !overlayActive && !bodyContactOpen
      ensures menuOpen == old(menuOpen) && navbar == old(navbar) && pendingOpens == old(pendingOpens)
      ensures lastScrollY == old(lastScrollY)
    {
      panelActive, overlayActive, bodyContactOpen := false, false, false;
    }

    /**
     * A click on the desktop `#contactTrigger`: its listener opens the panel, then the document
     * listener closes every dropdown unless the trigger lies inside a dropdown item.
     */
    method PanelTriggerClick(insideItem: bool)
      requires Valid() && hasPanel
      modifies this, open, expanded
      ensures Valid() && panelActive
      ensures !insideItem ==> open[..] == Flags.Cleared(open.Length)
      ensures insideItem ==> open[..] == old(open[..])
      ensures menuOpen == old(menuOpen) && navbar == old(navbar) && pendingOpens == old(pendingOpens)
      ensures lastScrollY == old(lastScrollY)
    {
      OpenPanel();
      DocumentClick(insideItem);
    }

    /**
     * A click on the panel's close button or on the overlay: its listener closes the panel,
     * then the document listener closes every dropdown unless the element lies inside a
     * dropdown item.
     */
    method PanelCloseClick(insideItem: bool)
      requires Valid() && hasPanel
      modifies this, open, expanded
      ensures Valid() && !panelActive
      ensures !insideItem ==> open[..] == Flags.Cleared(open.Length)
      ensures insideItem ==> open[..] == old(open[..])
      ensures menuOpen == old(menuOpen) && navbar == old(navbar) && pendingOpens == old(pendingOpens)
      ensures lastScrollY == old(lastScrollY)
    {
      ClosePanel();
      DocumentClick(insideItem);
    }

    /**
     * A click on a `[data-contact-trigger]` link. Its listener closes the mobile menu at once,
     * without touching the dropdowns, and schedules the panel to open after a delay. The click
     * then bubbles to the document listener, which closes every dropdown unless the link lies
     * inside a dropdown item.
     */
    method MobileContactClick(insideItem: bool)
      requires Valid() && hasPanel
      modifies this, open, expanded
      ensures Valid() && !menuOpen && !hamburgerExpanded && !scrollLocked
      ensures pendingOpens == old(pendingOpens) + 1 && panelActive == old(panelActive) && navbar == old(navbar)
      ensures lastScrollY == old(lastScrollY)
      ensures !insideItem ==> open[..] == Flags.Cleared(open.Length)
      ensures insideItem ==> open[..] == old(open[..])
    {
      if menuOpen {
        menuOpen, hamburgerActive, hamburgerExpanded, navbarMenuOpen, scrollLocked := false, false, false, false, false;
      }
      pendingOpens := pendingOpens + 1;
      DocumentClick(insideItem);
    }

    /** A delayed open scheduled by a mobile contact link runs. */
    method DelayedPanelOpen()
      requires Valid() && hasPanel && pendingOpens > 0
      modifies this
      ensures Valid() && panelActive && pendingOpens == old(pendingOpens) - 1
      ensures menuOpen == old(menuOpen) && navbar == old(navbar) && lastScrollY == old(lastScrollY)
      ensures hamburgerExpanded == old(hamburgerExpanded) && scrollLocked == old(scrollLocked)
    {
      pendingOpens := pendingOpens - 1;
      OpenPanel();
    }
  }
}
