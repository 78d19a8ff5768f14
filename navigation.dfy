/** Header and navigation state driven by the window's scroll position: the
    header's `scrolled` look, the `active` mark on the navigation link of the
    section being read, and the click on a navigation link. */
module Navigation {
  import opened Options
  import Menu

  /** Scroll offset beyond which the header takes its `scrolled` look. */
  const ScrolledThreshold: int := 100
  /** How far below the top of the viewport the current section is looked up. */
  const LookAhead: int := 200

  /** A `section[id]` of the page: its id and its vertical span in pixels. */
  datatype Section = Section(id: string, top: int, height: int)

  /** The position `p` lies in the half-open span `[top, top + height)`. */
  predicate Contains(s: Section, p: int) {
    s.top <= p < s.top + s.height
  }

  /** Index of the last section, in document order, whose span holds `p`. */
  function LastHit(sections: seq<Section>, p: int): (r: Option<nat>)
    ensures r.None? <==> forall j :: 0 <= j < |sections| ==> !Contains(sections[j], p)
    ensures r.Some? ==> r.value < |sections| && Contains(sections[r.value], p)
    ensures r.Some? ==> forall j :: r.value < j < |sections| ==> !Contains(sections[j], p)
  {
    if sections == [] then None
    else if Contains(sections[|sections| - 1], p) then Some(|sections| - 1)
    else LastHit(sections[..|sections| - 1], p)
  }

  /** No two links share an `href`. */
  predicate DistinctLinks(hrefs: seq<string>) {
    forall a, b :: 0 <= a < b < |hrefs| ==> hrefs[a] != hrefs[b]
  }

  /** At most one link carries the `active` class. */
  predicate AtMostOneActive(marks: seq<bool>) {
    forall a, b :: 0 <= a < |marks| && 0 <= b < |marks| && marks[a] && marks[b] ==> a == b
  }

  /** The marks point at section `id`: a link is active exactly when its
      `href` is `#id`. */
  predicate PointsAt(hrefs: seq<string>, marks: seq<bool>, id: string) {
    |marks| == |hrefs| && forall k :: 0 <= k < |hrefs| ==> (marks[k] <==> hrefs[k] == "#" + id)
  }

  class NavBar {
    /** The `href` of each `nav a[href^="#"]` link, in document order. */
    const hrefs: seq<string>
    /** Whether each link carries the `active` class. */
    var active: seq<bool>
    /** Whether the header carries the `scrolled` class. */
    var scrolled: bool

    ghost predicate Valid()
      reads this
    {
      |active| == |hrefs|
    }

    /** The header and links as the page is loaded. */
    constructor (links: seq<string>, marks: seq<bool>)
      requires |marks| == |links|
      ensures Valid() && hrefs == links && active == marks && !scrolled
    {
      hrefs := links;
      active := marks;
      scrolled := false;
    }

    /** `updateActiveNavLink`: for every section whose span holds
        `scrollY + 200`, every link loses `active` and the link to that
        section gets it. The last such section therefore decides; when none
        holds the position the marks are left as they were. */
    method UpdateActiveNavLink(sections: seq<Section>, scrollY: int)
      requires Valid()
      modifies this`active
      ensures Valid()
      ensures LastHit(sections, scrollY + LookAhead).None? ==> active == old(active)
      ensures LastHit(sections, scrollY + LookAhead).Some? ==>
                PointsAt(hrefs, active, sections[LastHit(sections, scrollY + LookAhead).value].id)
      ensures DistinctLinks(hrefs) && LastHit(sections, scrollY + LookAhead).Some? ==> AtMostOneActive(active)
      ensures DistinctLinks(hrefs) && AtMostOneActive(old(active)) ==> AtMostOneActive(active)
    {
      var position := scrollY + LookAhead;
      var i := 0;
      while i < |sections|
        invariant 0 <= i <= |sections| && |active| == |hrefs|
        invariant LastHit(sections[..i], position).None? ==> active == old(active)
        invariant LastHit(sections[..i], position).Some? ==>
                    PointsAt(hrefs, active, sections[LastHit(sections[..i], position).value].id)
      {
        var section := sections[i];
        if Contains(section, position) {
          var k := 0;
          while k < |hrefs|
            invariant 0 <= k <= |hrefs| && |active| == |hrefs|
            invariant forall j :: 0 <= j < k ==> (active[j] <==> hrefs[j] == "#" + section.id)
          {
            active := active[k := false];
            if hrefs[k] == "#" + section.id {
              active := active[k := true];
            }
            k := k + 1;
          }
        }
        assert sections[..i + 1][..i] == sections[..i];
        i := i + 1;
      }
      assert sections[..i] == sections;
    }

    /** The window's `scroll` listener: the header is `scrolled` exactly when
        the offset exceeds 100 (and drops the look again below it), then the
        active link is updated. */
    method OnScroll(sections: seq<Section>, scrollTop: int)
      requires Valid()
      modifies this
      ensures Valid()
      ensures scrolled <==> scrollTop > ScrolledThreshold
      ensures LastHit(sections, scrollTop + LookAhead).None? ==> active == old(active)
      ensures LastHit(sections, scrollTop + LookAhead).Some? ==>
                PointsAt(hrefs, active, sections[LastHit(sections, scrollTop + LookAhead).value].id)
    {
      scrolled := scrollTop > ScrolledThreshold;
      UpdateActiveNavLink(sections, scrollTop);
    }

    /** Click on a navigation link. `targetTop` is the offset of the element
        the link names, or `None` when there is no such element. With a
        target, the page scrolls to it less the header's height and the
        mobile menu closes; without one, nothing happens. */
    method LinkClick(menu: Menu.MobileMenu, targetTop: Option<int>, headerHeight: int)
      returns (scrollTo: Option<int>)
      modifies menu
      ensures targetTop.None? ==> scrollTo.None? && menu.hidden == old(menu.hidden) && menu.icon == old(menu.icon)
      ensures targetTop.Some? ==> scrollTo == Some(targetTop.value - headerHeight)
      ensures targetTop.Some? ==> menu.Valid() && menu.hidden && menu.icon == Menu.Bars
    {
      scrollTo := None;
      if targetTop.Some? {
        scrollTo := Some(targetTop.value - headerHeight);
        menu.Close();
      }
    }
  }
}
