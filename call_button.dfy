/**
 * The floating call button (initMobileCallButton): hidden once the contact
 * section comes within 100 pixels of the viewport's bottom edge or the
 * footer enters the viewport. Only built when .mobile-call-btn and #contact exist.
 */
module CallButton {
  import opened Wrappers

  /** A top edge in viewport coordinates, or JavaScript's Infinity. */
  datatype Edge = At(y: int) | Infinity

  /** e < bound, with Infinity above no bound. */
  predicate IsBelowBound(e: Edge, bound: int) {
    e.At? && e.y < bound
  }

  /** How far above the viewport's bottom the contact section must reach. */
  const ContactMargin := 100

  /** `footer ? footer.getBoundingClientRect().top : Infinity`. */
  function FooterTop(footer: Option<int>): Edge
  {
    if footer.Some? then At(footer.value) else Infinity
  }

  /** The test in handleScroll. */
  predicate ShouldHide(contactTop: int, footerTop: Edge, windowHeight: int) {
    contactTop < windowHeight - ContactMargin || IsBelowBound(footerTop, windowHeight)
  }

  /** The button's state: hidden (transparent, moved down, not clickable) or shown. */
  class FloatingCallButton {
    var hidden: bool

    /** Set-up ends with one call of handleScroll, so the state is right from the load on. */
    constructor (contactTop: int, footer: Option<int>, windowHeight: int)
      ensures hidden == ShouldHide(contactTop, FooterTop(footer), windowHeight)
    {
      hidden := ShouldHide(contactTop, FooterTop(footer), windowHeight);
    }

    /** handleScroll: the state follows the current geometry alone. */
    method OnScroll(contactTop: int, footer: Option<int>, windowHeight: int)
      modifies this
      ensures hidden <==> (contactTop < windowHeight - ContactMargin
                           || (footer.Some? && footer.value < windowHeight))
    {
      if ShouldHide(contactTop, FooterTop(footer), windowHeight) {
        hidden := true;
      } else {
        hidden := false;
      }
    }
  }

  /** A page without a footer behaves as one whose footer is still below the viewport. */
  lemma MissingFooterIsFarFooter(contactTop: int, windowHeight: int, footerTop: int)
    requires footerTop >= windowHeight
    ensures ShouldHide(contactTop, FooterTop(None), windowHeight)
            == ShouldHide(contactTop, FooterTop(Some(footerTop)), windowHeight)
  {
  }
}
