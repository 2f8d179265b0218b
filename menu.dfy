/**
 * The mobile navigation menu: the `active` class on the `nav` element and
 * on its toggle button, flipped together by the button and cleared together
 * by a click on a link or anywhere outside the menu.
 */
module MobileMenu {

  /** Where a click lands. */
  datatype Target =
    | ToggleButton  // the menu button itself
    | NavLink       // a `.nav-link` inside the menu
    | InsideNav     // anywhere else inside the menu
    | Outside       // anywhere else on the page

  class Menu {
    /** Whether `nav` carries the class `active`, and whether the toggle button does. */
    var navActive: bool
    var toggleActive: bool

    /** Both elements agree. */
    predicate InStep()
      reads this
    {
      navActive == toggleActive
    }

    /** The listeners once `#mobile-menu-toggle` and `#nav` are both found;
        the classes are whatever the markup has. */
    constructor (navActive: bool, toggleActive: bool)
      ensures this.navActive == navActive && this.toggleActive == toggleActive
    {
      this.navActive := navActive;
      this.toggleActive := toggleActive;
    }

    /** One click, delivered first to the listener on its target and then,
        bubbling, to the document's listener. */
    method Click(target: Target)
      modifies this
      ensures target == ToggleButton ==>
                navActive == !old(navActive) && toggleActive == !old(toggleActive)
      ensures target == NavLink ==> !navActive && !toggleActive
      ensures target == InsideNav ==> navActive == old(navActive) && toggleActive == old(toggleActive)
      ensures target == Outside ==>
                if old(navActive) then !navActive && !toggleActive
                else toggleActive == old(toggleActive) && !navActive
      ensures old(InStep()) ==> InStep()
    {
      // the target's own listener
      match target {
        case ToggleButton =>
          navActive := !navActive;
          toggleActive := !toggleActive;
        case NavLink =>
          navActive := false;
          toggleActive := false;
        case _ =>
      }
      // the document's listener
      var isClickInsideNav := target == NavLink || target == InsideNav;
      var isClickOnToggle := target == ToggleButton;
      if !isClickInsideNav && !isClickOnToggle && navActive {
        navActive := false;
        toggleActive := false;
      }
    }
  }
}
