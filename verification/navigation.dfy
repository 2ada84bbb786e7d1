/** The two scroll listeners of `initNavigation` in script.js: hiding the navbar while
    scrolling down, and highlighting the navigation link of the section in view. Scroll
    positions and section geometry are whole pixels here. */
module Navigation {

  import opened Wrappers

  /** Below this scroll position the navbar is always shown. */
  const HideThreshold: int := 100
  /** The highlight test looks this far below the top of the viewport. */
  const HighlightOffset: int := 100

  /** Where the navbar is animated to: `y: 0` (shown) or `y: -100` (hidden). */
  datatype NavbarPosition = Shown | Hidden

  /** What one scroll event decides, and the `lastScrollY` it leaves behind. */
  datatype ScrollUpdate = ScrollUpdate(position: NavbarPosition, lastScrollY: int)

  /** The hide/show listener. */
  function OnScroll(current: int, last: int): (u: ScrollUpdate)
    ensures u.position == Hidden <==> current > HideThreshold && current > last
    ensures u.lastScrollY == current
  {
    if current > HideThreshold then
      if current > last then ScrollUpdate(Hidden, current) else ScrollUpdate(Shown, current)
    else
      ScrollUpdate(Shown, current)
  }

  /** The navbar positions chosen by a series of scroll events, starting from `last`. */
  function Positions(last: int, ys: seq<int>): (ps: seq<NavbarPosition>)
    ensures |ps| == |ys|
    decreases |ys|
  {
    if |ys| == 0 then []
    else
      var u := OnScroll(ys[0], last);
      [u.position] + Positions(u.lastScrollY, ys[1..])
  }

  /** The scroll position event `i` is compared with. */
  function Previous(last: int, ys: seq<int>, i: nat): int
    requires i < |ys|
  {
    if i == 0 then last else ys[i - 1]
  }

  /** Over a series of events, each event hides the navbar exactly when it is past the
      threshold and further down than the event before it. */
  lemma {:induction false} PositionsFollowDirection(last: int, ys: seq<int>)
    ensures forall i :: 0 <= i < |ys| ==>
              (Positions(last, ys)[i] == Hidden <==> ys[i] > HideThreshold && ys[i] > Previous(last, ys, i))
    decreases |ys|
  {
    if |ys| > 0 {
      PositionsFollowDirection(ys[0], ys[1..]);
      forall i | 0 < i < |ys|
        ensures Positions(last, ys)[i] == Positions(ys[0], ys[1..])[i - 1]
        ensures Previous(last, ys, i) == Previous(ys[0], ys[1..], i - 1)
      {
      }
    }
  }

  /** Scrolling up, or staying put, never hides the navbar. */
  lemma ScrollingUpShows(last: int, ys: seq<int>)
    requires forall i :: 0 <= i < |ys| ==> ys[i] <= Previous(last, ys, i)
    ensures forall i :: 0 <= i < |ys| ==> Positions(last, ys)[i] == Shown
  {
    PositionsFollowDirection(last, ys);
  }

  /** A page section: `offsetTop`, `offsetHeight` and its `id`. */
  datatype Section = Section(top: int, height: int, id: string)

  /** A navigation link: its `href` and whether it carries the `active` class. */
  datatype Link = Link(href: string, active: bool)

  /** The section spans the probed position. */
  predicate Covers(s: Section, y: int) {
    s.top <= y < s.top + s.height
  }

  /** Section `k` covers `y` and no later section does. */
  predicate IsLastCovering(sections: seq<Section>, k: int, y: int) {
    && 0 <= k < |sections|
    && Covers(sections[k], y)
    && forall j :: k < j < |sections| ==> !Covers(sections[j], y)
  }

  /** The `href` that points at a section. */
  function Anchor(id: string): string {
    "#" + id
  }

  /** The inner loop over the links: clear every `active` class, then set it on the links
      pointing at `id`. */
  function MarkActive(links: seq<Link>, id: string): (r: seq<Link>)
    ensures |r| == |links|
    ensures forall i :: 0 <= i < |links| ==> r[i].href == links[i].href
    ensures forall i :: 0 <= i < |links| ==> (r[i].active <==> links[i].href == Anchor(id))
  {
    seq(|links|, i requires 0 <= i < |links| => Link(links[i].href, links[i].href == Anchor(id)))
  }

  /** The index of the last section that covers `y`, if any. */
  function LastCovering(sections: seq<Section>, y: int): (k: Option<nat>)
    ensures k.Some? ==> IsLastCovering(sections, k.value, y)
    ensures k.None? ==> forall j :: 0 <= j < |sections| ==> !Covers(sections[j], y)
    decreases |sections|
  {
    if |sections| == 0 then None
    else if Covers(sections[|sections| - 1], y) then Some(|sections| - 1)
    else LastCovering(sections[..|sections| - 1], y)
  }

  /** The link state after the outer loop has looked at `sections`: set by the last covering
      section, untouched when none covers `y`. */
  function HighlightedBy(links: seq<Link>, sections: seq<Section>, y: int): seq<Link> {
    match LastCovering(sections, y)
    case None => links
    case Some(k) => MarkActive(links, sections[k].id)
  }

  /** Marking depends only on the hrefs, so a later marking overrides an earlier one. */
  lemma MarkActiveOverrides(links: seq<Link>, a: string, b: string)
    ensures MarkActive(MarkActive(links, a), b) == MarkActive(links, b)
  {
  }

  /** The highlight listener: every section covering `scrollY + 100`, in document order,
      resets the links to its own anchor, so the last such section wins. */
  method Highlight(sections: seq<Section>, links: seq<Link>, scrollY: int) returns (r: seq<Link>)
    ensures |r| == |links|
    ensures forall i :: 0 <= i < |links| ==> r[i].href == links[i].href
    ensures (forall j :: 0 <= j < |sections| ==> !Covers(sections[j], scrollY + HighlightOffset)) ==> r == links
    ensures forall k :: IsLastCovering(sections, k, scrollY + HighlightOffset) ==>
              forall i :: 0 <= i < |r| ==> (r[i].active <==> links[i].href == Anchor(sections[k].id))
  {
    var y := scrollY + HighlightOffset;
    r := links;
    var n := 0;
    while n < |sections|
      invariant 0 <= n <= |sections|
      invariant r == HighlightedBy(links, sections[..n], y)
    {
      assert sections[..n + 1][..n] == sections[..n];
      if Covers(sections[n], y) {
        if LastCovering(sections[..n], y).Some? {
          MarkActiveOverrides(links, sections[LastCovering(sections[..n], y).value].id, sections[n].id);
        }
        r := MarkActive(r, sections[n].id);
      }
      n := n + 1;
    }
    assert sections[..n] == sections;
  }
}
