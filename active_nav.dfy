/**
 * The scroll listener that highlights the navigation link of the section in
 * view: a scan over the sections that carry an id, then a pass over the
 * in-page links of the navigation list.
 */
module ActiveNav {
  import opened Wrappers

  /** A section[id] element: its id and its offsetTop and offsetHeight. */
  datatype Section = Section(id: string, offsetTop: int, offsetHeight: nat)

  /** A '.nav-links a[href^="#"]' element: its href attribute and whether it has class 'active'. */
  datatype NavLink = NavLink(href: string, active: bool)

  /** Used when there is no #navbar element or its offsetHeight is 0. */
  const FallbackNavbarHeight: nat := 80

  /** How far above a section's top its range begins, beyond the navbar height. */
  const Lookahead: nat := 100

  /** `document.getElementById('navbar')?.offsetHeight || 80`. */
  function NavbarHeight(navbar: Option<nat>): (h: nat)
    ensures h > 0
    ensures navbar.Some? && navbar.value > 0 ==> h == navbar.value
    ensures navbar == None || navbar == Some(0) ==> h == FallbackNavbarHeight
  {
    if navbar.Some? && navbar.value != 0 then navbar.value else FallbackNavbarHeight
  }

  /** Section s's range, shifted up by the navbar height and the lookahead, contains offset y. */
  predicate Spans(s: Section, y: int, navbarHeight: int) {
    var top := s.offsetTop - navbarHeight - Lookahead;
    top <= y < top + s.offsetHeight
  }

  /** The id the scan settles on: that of the last section in document order that spans y, or "". */
  function ActiveSectionId(sections: seq<Section>, y: int, navbarHeight: int): string
  {
    if sections == [] then ""
    else if Spans(sections[|sections| - 1], y, navbarHeight) then sections[|sections| - 1].id
    else ActiveSectionId(sections[..|sections| - 1], y, navbarHeight)
  }

  /** The scan's result, characterised: "" when no section spans y, else the id of the last one that does. */
  lemma {:induction false} ActiveSectionIdIsLastSpanning(sections: seq<Section>, y: int, navbarHeight: int)
    ensures (forall k :: 0 <= k < |sections| ==> !Spans(sections[k], y, navbarHeight)) ==>
              ActiveSectionId(sections, y, navbarHeight) == ""
    ensures forall k :: 0 <= k < |sections| && Spans(sections[k], y, navbarHeight)
                        && (forall j :: k < j < |sections| ==> !Spans(sections[j], y, navbarHeight)) ==>
              ActiveSectionId(sections, y, navbarHeight) == sections[k].id
  {
    if sections != [] {
      var init := sections[..|sections| - 1];
      ActiveSectionIdIsLastSpanning(init, y, navbarHeight);
      assert forall k :: 0 <= k < |init| ==> init[k] == sections[k];
    }
  }

  /** The forEach over the sections, updating `current` as it goes. */
  method ScanActiveSection(sections: seq<Section>, y: int, navbarHeight: int) returns (current: string)
    ensures current == ActiveSectionId(sections, y, navbarHeight)
  {
    current := "";
    for i := 0 to |sections|
      invariant current == ActiveSectionId(sections[..i], y, navbarHeight)
    {
      assert sections[..i + 1][..i] == sections[..i];
      if Spans(sections[i], y, navbarHeight) {
        current := sections[i].id;
      }
    }
    assert sections[..|sections|] == sections;
  }

  /** The class a link ends with: active exactly when its href is '#' followed by the current id. */
  predicate IsActiveHref(href: string, current: string) {
    href == "#" + current
  }

  /** The forEach over the links: remove 'active', then add it back where the href matches. */
  method MarkActiveLinks(links: array<NavLink>, current: string)
    modifies links
    ensures forall i :: 0 <= i < links.Length ==>
              links[i] == NavLink(old(links[i].href), IsActiveHref(old(links[i].href), current))
  {
    for i := 0 to links.Length
      invariant forall j :: 0 <= j < i ==>
                  links[j] == NavLink(old(links[j].href), IsActiveHref(old(links[j].href), current))
      invariant forall j :: i <= j < links.Length ==> links[j] == old(links[j])
    {
      links[i] := links[i].(active := false);
      if IsActiveHref(links[i].href, current) {
        links[i] := links[i].(active := true);
      }
    }
  }

  /** One scroll event: exactly the links that point at the last spanning section end active. */
  method OnScroll(sections: seq<Section>, links: array<NavLink>, y: int, navbar: Option<nat>)
    modifies links
    ensures forall i :: 0 <= i < links.Length ==> links[i].href == old(links[i].href)
    ensures forall i :: 0 <= i < links.Length ==>
              (links[i].active <==> IsActiveHref(links[i].href, ActiveSectionId(sections, y, NavbarHeight(navbar))))
  {
    var current := ScanActiveSection(sections, y, NavbarHeight(navbar));
    MarkActiveLinks(links, current);
  }

  /** When no section spans the offset, only a link whose href is exactly "#" can be active. */
  lemma NoSpanningSectionLeavesBareHash(sections: seq<Section>, y: int, navbarHeight: int, href: string)
    requires forall k :: 0 <= k < |sections| ==> !Spans(sections[k], y, navbarHeight)
    ensures IsActiveHref(href, ActiveSectionId(sections, y, navbarHeight)) <==> href == "#"
  {
    ActiveSectionIdIsLastSpanning(sections, y, navbarHeight);
  }
}
