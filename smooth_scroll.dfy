/** The in-page anchor handler (initSmoothScroll): where a click on a[href^="#"] scrolls to. */
module SmoothScroll {
  import opened Wrappers

  /** The gap left between the navbar and the target once scrolled. */
  const Margin := 20

  /** What one click does: whether the default jump is suppressed, and the offset scrolled to. */
  datatype AnchorClick = AnchorClick(defaultPrevented: bool, scrollTo: Option<int>)

  /**
   * The click on an anchor with attribute href. targetTop is the viewport top
   * of the element document.querySelector(href) finds, None when it finds
   * none or the href is no valid selector; navbarHeight is #navbar's
   * offsetHeight, None when there is no #navbar (the handler then throws).
   */
  function OnAnchorClick(href: string, targetTop: Option<int>, pageYOffset: int, navbarHeight: Option<nat>)
    : (r: AnchorClick)
    ensures r.defaultPrevented
    ensures r.scrollTo.Some? <==> href != "#" && targetTop.Some? && navbarHeight.Some?
    ensures r.scrollTo.Some? ==>
              targetTop.value + pageYOffset - r.scrollTo.value == navbarHeight.value + Margin
  {
    if href == "#" || targetTop == None || navbarHeight == None then AnchorClick(true, None)
    else AnchorClick(true, Some(targetTop.value + pageYOffset - navbarHeight.value - Margin))
  }
}
