/** The navbar's scroll listener (initNavbar): class 'scrolled' past a fixed offset. */
module NavbarScroll {

  /** The offset the page must exceed before the navbar takes class 'scrolled'. */
  const ScrolledThreshold := 50

  predicate IsScrolled(offset: int) {
    offset > ScrolledThreshold
  }

  /** The #navbar element's 'scrolled' class and the listener's `lastScroll` variable. */
  class Navbar {
    var scrolled: bool
    var lastScroll: int

    constructor ()
      ensures !scrolled && lastScroll == 0
    {
      scrolled := false;
      lastScroll := 0;
    }

    /** One scroll event: the class follows the current offset alone, whatever it was before. */
    method OnScroll(offset: int)
      modifies this
      ensures scrolled <==> offset > ScrolledThreshold
      ensures lastScroll == offset
    {
      if IsScrolled(offset) {
        scrolled := true;
      } else {
        scrolled := false;
      }
      lastScroll := offset;
    }
  }
}
