/** The site-wide script (script.js): the sidebar toggle, exclusive submenus,
    marking the menu entry of the current page, and the testimonial carousel.
    The `li` items of the sidebar navigation are a sequence of `active` flags;
    the `.has-submenu` items are positions in that sequence. */
module Navigation {
  import opened Flags

  // ---------------------------------------------------------------------
  // Active-link matching
  // ---------------------------------------------------------------------

  /** String.prototype.includes: t occurs in s as a contiguous substring. */
  function Includes(s: string, t: string): bool
    decreases |s|
  {
    if |t| > |s| then false
    else if s[..|t|] == t then true
    else |s| > 0 && Includes(s[1..], t)
  }

  /** t occurs in s starting at position i. */
  predicate OccursAt(s: string, t: string, i: int)
  {
    0 <= i && i + |t| <= |s| && s[i..i + |t|] == t
  }

  /** Includes agrees with the definition by position. */
  lemma {:induction false} IncludesIff(s: string, t: string)
    ensures Includes(s, t) <==> exists i :: OccursAt(s, t, i)
  {
    if |t| > |s| {
    } else if s[..|t|] == t {
      assert OccursAt(s, t, 0);
    } else if |s| > 0 {
      IncludesIff(s[1..], t);
      if exists i :: OccursAt(s, t, i) {
        var i :| OccursAt(s, t, i);
        assert i != 0;
        assert s[1..][i - 1..i - 1 + |t|] == s[i..i + |t|];
        assert OccursAt(s[1..], t, i - 1);
      }
      if Includes(s[1..], t) {
        var i :| OccursAt(s[1..], t, i);
        assert s[1..][i..i + |t|] == s[i + 1..i + 1 + |t|];
        assert OccursAt(s, t, i + 1);
      }
    }
  }

  /** The test script.js applies to each menu link: the href is the current
      path, or the path contains it and it is not the home page. */
  predicate IsActiveLink(href: string, path: string)
  {
    href == path || (Includes(path, href) && href != "index.html")
  }

  /** The same test by positions in the path. */
  lemma ActiveLinkIff(href: string, path: string)
    ensures IsActiveLink(href, path)
        <==> href == path ||
             (href != "index.html" && exists i :: OccursAt(path, href, i))
  {
    IncludesIff(path, href);
  }

  /** A link to the current path is active, and the home link is active only
      on the path "index.html" itself. */
  lemma ActiveLinkCases(href: string, path: string)
    ensures IsActiveLink(path, path)
    ensures IsActiveLink("index.html", path) <==> path == "index.html"
    ensures href != "index.html" && Includes(path, href) ==> IsActiveLink(href, path)
    ensures href != path && !Includes(path, href) ==> !IsActiveLink(href, path)
  {
  }

  /** A page below a directory marks the link to its file name. */
  lemma ActiveLinkExample()
    ensures IsActiveLink("about.html", "/pages/about.html")
    ensures !IsActiveLink("index.html", "/pages/index.html")
  {
  }

  // ---------------------------------------------------------------------
  // Marking the current page's menu entry
  // ---------------------------------------------------------------------

  /** A `.sidebar-nav a`: its href, the sidebar item that is its parent, and
      the sidebar item owning the `.submenu` it sits in, if any. */
  datatype MenuLink = MenuLink(href: string, item: nat, submenuOwner: Option<nat>)

  predicate LinkIn(l: MenuLink, n: nat)
  {
    l.item < n && (l.submenuOwner.Some? ==> l.submenuOwner.value < n)
  }

  /** Link l, active on this path, marks item j. */
  predicate Lights(l: MenuLink, path: string, j: nat)
  {
    IsActiveLink(l.href, path) && (l.item == j || l.submenuOwner == Some(j))
  }

  /** The flags after the loop has visited `links` in order. */
  function MarkLinks(items: seq<bool>, links: seq<MenuLink>, path: string): (r: seq<bool>)
    requires forall k :: 0 <= k < |links| ==> LinkIn(links[k], |items|)
    ensures |r| == |items|
  {
    if links == [] then items
    else
      var prev := MarkLinks(items, links[..|links| - 1], path);
      var l := links[|links| - 1];
      assert LinkIn(l, |prev|);
      if !IsActiveLink(l.href, path) then prev
      else
        var lit := prev[l.item := true];
        if l.submenuOwner.Some? then lit[l.submenuOwner.value := true] else lit
  }

  /** After marking, an item is active exactly when it was before or some
      active link lights it: its parent item, or the item owning its submenu. */
  lemma {:induction false} MarkLinksChar(items: seq<bool>, links: seq<MenuLink>, path: string, j: nat)
    requires forall k :: 0 <= k < |links| ==> LinkIn(links[k], |items|)
    requires j < |items|
    ensures MarkLinks(items, links, path)[j]
        <==> items[j] || exists k :: 0 <= k < |links| && Lights(links[k], path, j)
  {
    if links != [] {
      var init := links[..|links| - 1];
      MarkLinksChar(items, init, path, j);
      var l := links[|links| - 1];
      if exists k :: 0 <= k < |links| && Lights(links[k], path, j) {
        var k :| 0 <= k < |links| && Lights(links[k], path, j);
        if k < |links| - 1 {
          assert init[k] == links[k];
        }
      }
      if exists k :: 0 <= k < |init| && Lights(init[k], path, j) {
        var k :| 0 <= k < |init| && Lights(init[k], path, j);
        assert links[k] == init[k];
      }
    }
  }

  // ---------------------------------------------------------------------
  // The sidebar
  // ---------------------------------------------------------------------

  /** The flags after a click on the main link of the s-th `.has-submenu`
      item: every other submenu item is closed and the clicked one toggled;
      the other sidebar items keep their flags. */
  function SubmenusAfter(items: seq<bool>, submenus: seq<nat>, s: nat): seq<bool>
    requires s < |submenus| && submenus[s] < |items|
  {
    seq(|items|, j requires 0 <= j < |items| =>
      if j == submenus[s] then !items[j] else if j in submenus then false else items[j])
  }

  predicate Distinct(submenus: seq<nat>)
  {
    forall a, b :: 0 <= a < b < |submenus| ==> submenus[a] != submenus[b]
  }

  /** After a submenu click at most one submenu is open, the clicked one is
      open exactly when it was closed, and items outside submenus are kept. */
  lemma SubmenusExclusive(items: seq<bool>, submenus: seq<nat>, s: nat)
    requires s < |submenus| && Distinct(submenus)
    requires forall t :: 0 <= t < |submenus| ==> submenus[t] < |items|
    ensures var r := SubmenusAfter(items, submenus, s);
      (forall a, b ::
         0 <= a < |submenus| && 0 <= b < |submenus| && r[submenus[a]] && r[submenus[b]]
         ==> a == b) &&
      r[submenus[s]] == !items[submenus[s]] &&
      (forall j :: 0 <= j < |items| && j !in submenus ==> r[j] == items[j])
  {
  }

  class Sidebar {
    /** `active` on the `.sidebar`. */
    var open: bool
    /** `active` on each `li` of the sidebar navigation. */
    var items: seq<bool>
    /** The positions of the `.has-submenu` items, in document order. */
    const submenus: seq<nat>
    const links: seq<MenuLink>

    ghost predicate Valid()
      reads this
    {
      Distinct(submenus) &&
      (forall t :: 0 <= t < |submenus| ==> submenus[t] < |items|) &&
      (forall k :: 0 <= k < |links| ==> LinkIn(links[k], |items|))
    }

    constructor (items: seq<bool>, submenus: seq<nat>, links: seq<MenuLink>)
      requires Distinct(submenus)
      requires forall t :: 0 <= t < |submenus| ==> submenus[t] < |items|
      requires forall k :: 0 <= k < |links| ==> LinkIn(links[k], |items|)
      ensures Valid() && !open
      ensures this.items == items && this.submenus == submenus && this.links == links
    {
      open := false;
      this.items := items;
      this.submenus := submenus;
      this.links := links;
    }

    /** The `#menu-toggle` click handler; two toggles restore the sidebar. */
    method Toggle()
      modifies this
      ensures open == !old(open) && items == old(items)
    {
      open := !open;
    }

    /** A click inside the s-th `.has-submenu` item; `onMainLink` says
        whether it landed on the item's own link (otherwise nothing happens). */
    method SubmenuClick(s: nat, onMainLink: bool)
      requires Valid() && s < |submenus|
      modifies this
      ensures Valid() && open == old(open)
      ensures items == if onMainLink then SubmenusAfter(old(items), submenus, s) else old(items)
    {
      if !onMainLink {
        return;
      }
      var item := submenus[s];
      var t := 0;
      while t < |submenus|
        invariant 0 <= t <= |submenus| && |items| == |old(items)| && open == old(open)
        invariant forall j :: 0 <= j < |items| ==>
          items[j] == (if j in submenus[..t] && j != item then false else old(items)[j])
      {
        if submenus[t] != item {
          items := items[submenus[t] := false];
        }
        assert submenus[..t + 1] == submenus[..t] + [submenus[t]];
        t := t + 1;
      }
      assert submenus[..t] == submenus;
      items := items[item := !items[item]];
    }

    /** The page-load loop over the menu links for the current path. */
    method MarkActiveLinks(path: string)
      requires Valid()
      modifies this
      ensures Valid() && open == old(open)
      ensures items == MarkLinks(old(items), links, path)
      ensures forall j :: 0 <= j < |items| ==>
        (items[j] <==> old(items)[j] || exists k :: 0 <= k < |links| && Lights(links[k], path, j))
    {
      var k := 0;
      while k < |links|
        invariant 0 <= k <= |links| && |items| == |old(items)| && open == old(open)
        invariant items == MarkLinks(old(items), links[..k], path)
      {
        var link := links[k];
        if IsActiveLink(link.href, path) {
          items := items[link.item := true];
          if link.submenuOwner.Some? {
            items := items[link.submenuOwner.value := true];
          }
        }
        assert links[..k + 1][..k] == links[..k];
        k := k + 1;
      }
      assert links[..k] == links;
      forall j | 0 <= j < |items|
        ensures items[j] <==> old(items)[j] || exists k :: 0 <= k < |links| && Lights(links[k], path, j)
      {
        MarkLinksChar(old(items), links, path, j);
      }
    }
  }

  // ---------------------------------------------------------------------
  // The testimonial carousel
  // ---------------------------------------------------------------------

  /** The index showTestimonial(index) settles on with n testimonials. */
  function Wrap(index: int, n: nat): int
  {
    if index < 0 then n - 1 else if index >= n then 0 else index
  }

  /** With at least one testimonial the index is always a valid position,
      and an in-range index is kept. */
  lemma WrapInRange(index: int, n: nat)
    requires n > 0
    ensures 0 <= Wrap(index, n) < n
    ensures 0 <= index < n ==> Wrap(index, n) == index
    ensures index < 0 ==> Wrap(index, n) == n - 1
    ensures index >= n ==> Wrap(index, n) == 0
  {
  }

  /** From a valid position, next and prev are addition and subtraction of
      one modulo n, and each undoes the other. */
  lemma NextPrevModular(k: int, n: nat)
    requires 0 <= k < n
    ensures Wrap(k + 1, n) == (k + 1) % n
    ensures Wrap(k - 1, n) == (k - 1) % n
    ensures Wrap(Wrap(k + 1, n) - 1, n) == k
    ensures Wrap(Wrap(k - 1, n) + 1, n) == k
  {
  }

  class Carousel {
    /** The number of `.testimonial` elements. */
    const count: nat
    var currentIndex: int

    ghost predicate Valid()
      reads this
    {
      count > 0 ==> 0 <= currentIndex < count
    }

    constructor (count: nat)
      ensures Valid() && this.count == count && currentIndex == 0
    {
      this.count := count;
      currentIndex := 0;
    }

    method ShowTestimonial(index: int)
      modifies this
      ensures Valid()
      ensures currentIndex == Wrap(index, count)
    {
      var i := index;
      if i < 0 {
        i := count - 1;
      } else if i >= count {
        i := 0;
      }
      currentIndex := i;
    }

    /** The prev button: from 0 it wraps to the last testimonial. */
    method Prev()
      modifies this
      ensures Valid()
      ensures currentIndex == Wrap(old(currentIndex) - 1, count)
    {
      ShowTestimonial(currentIndex - 1);
    }

    /** The next button: from the last testimonial it wraps to 0. */
    method Next()
      modifies this
      ensures Valid()
      ensures currentIndex == Wrap(old(currentIndex) + 1, count)
    {
      ShowTestimonial(currentIndex + 1);
    }
  }
}
