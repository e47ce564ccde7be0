/**
 * The mobile menu (initMobileMenu): the toggle button and the link list each
 * carry class 'active', and the body's overflow style locks scrolling while
 * the menu is open. Only built when both #mobile-menu-btn and #nav-links exist.
 */
module MobileMenu {

  /** Where a click lands, as the handlers' contains() tests see it. */
  datatype ClickTarget =
    | OnMenuButton    // the toggle button or anything inside it
    | OnNavLink       // an <a> inside #nav-links
    | InsideNavLinks  // anything else inside #nav-links
    | Outside         // anywhere else on the page

  const Hidden := "hidden"

  class Menu {
    var buttonActive: bool
    var linksActive: bool
    var bodyOverflow: string

    /** Button and list agree, and the body is locked exactly while the menu is open. */
    ghost predicate Valid()
      reads this
    {
      buttonActive == linksActive && bodyOverflow == (if linksActive then Hidden else "")
    }

    predicate IsOpen()
      reads this
    {
      linksActive
    }

    constructor ()
      ensures Valid() && !IsOpen()
    {
      buttonActive := false;
      linksActive := false;
      bodyOverflow := "";
    }

    /** The button's listener: toggle both classes, then set overflow from the list's class. */
    method ToggleClicked()
      modifies this
      ensures buttonActive == !old(buttonActive) && linksActive == !old(linksActive)
      ensures bodyOverflow == (if linksActive then Hidden else "")
    {
      buttonActive := !buttonActive;
      linksActive := !linksActive;
      bodyOverflow := if linksActive then Hidden else "";
    }

    /** The closing step shared by the link listeners and the document listener. */
    method Close()
      modifies this
      ensures Valid() && !IsOpen()
    {
      buttonActive := false;
      linksActive := false;
      bodyOverflow := "";
    }

    /** The document's listener: close unless the click is inside the button or the list. */
    method DocumentClicked(target: ClickTarget)
      requires Valid()
      modifies this
      ensures Valid()
      ensures target == Outside ==> !IsOpen()
      ensures target != Outside ==> IsOpen() == old(IsOpen()) && bodyOverflow == old(bodyOverflow)
    {
      if target == Outside {
        Close();
      }
    }

    /**
     * One click, dispatched as the page does: the target's own listener first,
     * then the document's listener as the event bubbles up.
     */
    method Click(target: ClickTarget)
      requires Valid()
      modifies this
      ensures Valid()
      ensures target == OnMenuButton ==> IsOpen() == !old(IsOpen())
      ensures target == OnNavLink || target == Outside ==> !IsOpen()
      ensures target == InsideNavLinks ==> IsOpen() == old(IsOpen())
    {
      if target == OnMenuButton {
        ToggleClicked();
      } else if target == OnNavLink {
        Close();
      }
      DocumentClicked(target);
    }
  }
}
