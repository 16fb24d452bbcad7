/** The exclusive and toggle widgets of js/main.js: accordions, tab groups,
    resource tabs, the like/bookmark counters of the confession page and the
    podcast play buttons of the resources page. Each collection of elements is
    a sequence of class flags in document order; each event handler is a
    method whose new state is given by a function of the old one. */
module Widgets {
  import opened Flags

  // ---------------------------------------------------------------------
  // Accordions (initAccordions)
  // ---------------------------------------------------------------------

  /** The item flags after a click on item i: the clicked item is toggled and
      every other item is closed. */
  function AccordionItemsAfter(items: seq<bool>, i: nat): seq<bool>
    requires i < |items|
  {
    seq(|items|, j requires 0 <= j < |items| => if j == i then !items[i] else false)
  }

  /** The content flags after a click on item i: the clicked item's content is
      toggled on its own, and another item's content is closed only when that
      item itself was open. */
  function AccordionContentsAfter(items: seq<bool>, contents: seq<bool>, i: nat): seq<bool>
    requires |items| == |contents| && i < |items|
  {
    seq(|contents|, j requires 0 <= j < |contents| =>
      if j == i then !contents[i] else contents[j] && !items[j])
  }

  /** After any click at most one item is open, and it is the clicked one. */
  lemma AccordionOneOpen(items: seq<bool>, i: nat)
    requires i < |items|
    ensures AtMostOne(AccordionItemsAfter(items, i))
    ensures forall j :: 0 <= j < |items| && AccordionItemsAfter(items, i)[j] ==> j == i
    ensures AccordionItemsAfter(items, i)[i] == !items[i]
  {
  }

  /** An item whose content flag agrees with its own flag keeps agreeing:
      a page that starts in step stays in step. */
  lemma AccordionInStep(items: seq<bool>, contents: seq<bool>, i: nat)
    requires |items| == |contents| && i < |items| && items == contents
    ensures AccordionItemsAfter(items, i) == AccordionContentsAfter(items, contents, i)
  {
  }

  /** Clicking the same item twice closes every other item and leaves the
      clicked one as it was. */
  lemma AccordionClickTwice(items: seq<bool>, i: nat)
    requires i < |items|
    ensures AccordionItemsAfter(AccordionItemsAfter(items, i), i)
         == seq(|items|, j requires 0 <= j < |items| => j == i && items[i])
  {
  }

  class Accordion {
    /** `active` on each `.accordion-item`. */
    var items: seq<bool>
    /** `active` on each item's `.accordion-content`. */
    var contents: seq<bool>

    ghost predicate Valid()
      reads this
    {
      |items| == |contents|
    }

    constructor (items: seq<bool>, contents: seq<bool>)
      requires |items| == |contents|
      ensures Valid() && this.items == items && this.contents == contents
    {
      this.items := items;
      this.contents := contents;
    }

    /** The click handler of item i's `.accordion-trigger`. */
    method Click(i: nat)
      requires Valid() && i < |items|
      modifies this
      ensures Valid()
      ensures items == AccordionItemsAfter(old(items), i)
      ensures contents == AccordionContentsAfter(old(items), old(contents), i)
    {
      items := items[i := !items[i]];
      contents := contents[i := !contents[i]];
      // Close the others.
      var j := 0;
      while j < |items|
        invariant 0 <= j <= |items| == |contents| == |old(items)|
        invariant items[i] == !old(items)[i] && contents[i] == !old(contents)[i]
        invariant forall k :: 0 <= k < j && k != i ==> !items[k] && contents[k] == (old(contents)[k] && !old(items)[k])
        invariant forall k :: j <= k < |items| && k != i ==> items[k] == old(items)[k] && contents[k] == old(contents)[k]
      {
        if j != i && items[j] {
          items := items[j := false];
          contents := contents[j := false];
        }
        j := j + 1;
      }
    }
  }

  /** The FAQ list: a click on an item's question toggles that item alone. */
  class FaqList {
    var open: seq<bool>

    constructor (open: seq<bool>)
      ensures this.open == open
    {
      this.open := open;
    }

    method Click(i: nat)
      requires i < |open|
      modifies this
      ensures open == old(open)[i := !old(open)[i]]
    {
      open := open[i := !open[i]];
    }
  }

  // ---------------------------------------------------------------------
  // Tabs (initTabs)
  // ---------------------------------------------------------------------

  /** A tab group: the `[data-tab]` triggers of one group and the content
      panels of its container, each with its `active` flag. */
  class TabGroup {
    var triggers: seq<bool>
    var panels: seq<bool>

    constructor (triggers: seq<bool>, panels: seq<bool>)
      ensures this.triggers == triggers && this.panels == panels
    {
      this.triggers := triggers;
      this.panels := panels;
    }

    /** The general tab handler for trigger k. `grouped` says whether the
        trigger sits inside a tab-group element (only then are the other
        triggers deactivated); `target` is the panel whose id is the trigger's
        data-tab, None when no element has that id. */
    method Activate(k: nat, grouped: bool, target: Option<nat>)
      requires k < |triggers|
      requires target.Some? ==> target.value < |panels|
      modifies this
      ensures triggers == if grouped then OnlyAt(|triggers|, k) else old(triggers)[k := true]
      ensures panels == if target.Some? then OnlyAt(|panels|, target.value) else NoneSet(|panels|)
    {
      if grouped {
        triggers := ClearAll(triggers);
      }
      triggers := triggers[k := true];
      panels := ClearAll(panels);
      if target.Some? {
        panels := panels[target.value := true];
      }
    }

    /** The `.resource-tab` handler for tab k: every tab and every resources
        panel loses `active`, then the clicked tab and its target panel gain
        it. When no element has the target id the handler throws after
        clearing the panels: `ok` is false and no panel is active. */
    method ActivateResource(k: nat, target: Option<nat>) returns (ok: bool)
      requires k < |triggers|
      requires target.Some? ==> target.value < |panels|
      modifies this
      ensures ok == target.Some?
      ensures triggers == OnlyAt(|triggers|, k)
      ensures panels == if ok then OnlyAt(|panels|, target.value) else NoneSet(|panels|)
    {
      triggers := ClearAll(triggers);
      triggers := triggers[k := true];
      panels := ClearAll(panels);
      if target.None? {
        return false;
      }
      panels := panels[target.value := true];
      ok := true;
    }
  }

  /** The `forEach(t => t.classList.remove('active'))` loop. */
  method ClearAll(s: seq<bool>) returns (r: seq<bool>)
    ensures r == NoneSet(|s|)
  {
    r := s;
    var i := 0;
    while i < |r|
      invariant 0 <= i <= |r| == |s|
      invariant forall j :: 0 <= j < i ==> !r[j]
    {
      r := r[i := false];
      i := i + 1;
    }
  }

  // ---------------------------------------------------------------------
  // Like / bookmark counters (initConfessionPage)
  // ---------------------------------------------------------------------

  /** A `.stat` button: its `active` flag and the number in its counter. */
  datatype Stat = Stat(active: bool, count: int)

  /** The click handler's effect on one button. */
  function StatClick(s: Stat): Stat
  {
    if s.active then Stat(false, s.count - 1) else Stat(true, s.count + 1)
  }

  /** The count the button would show when inactive. */
  function BaseCount(s: Stat): int
  {
    s.count - (if s.active then 1 else 0)
  }

  /** A click flips the flag and keeps the base count: the counter moves by
      one in the direction of the new flag. */
  lemma StatClickKeepsBase(s: Stat)
    ensures StatClick(s).active == !s.active
    ensures BaseCount(StatClick(s)) == BaseCount(s)
    ensures StatClick(s).count == s.count + (if s.active then -1 else 1)
  {
  }

  /** Two clicks restore the flag and the counter. */
  lemma StatClickTwice(s: Stat)
    ensures StatClick(StatClick(s)) == s
  {
  }

  class StatButtons {
    var stats: seq<Stat>

    constructor (stats: seq<Stat>)
      ensures this.stats == stats
    {
      this.stats := stats;
    }

    method Click(i: nat)
      requires i < |stats|
      modifies this
      ensures stats == old(stats)[i := StatClick(old(stats)[i])]
    {
      var count := stats[i].count;
      if stats[i].active {
        stats := stats[i := Stat(false, count - 1)];
      } else {
        stats := stats[i := Stat(true, count + 1)];
      }
    }
  }

  // ---------------------------------------------------------------------
  // Podcast players (initResourcesPage)
  // ---------------------------------------------------------------------

  /** The `playing` flags after a click on button i: everything stops, and
      the clicked button starts unless it was the one playing. */
  function PlayersAfter(playing: seq<bool>, i: nat): seq<bool>
    requires i < |playing|
  {
    if playing[i] then NoneSet(|playing|) else OnlyAt(|playing|, i)
  }

  /** At most one player plays after any click; the clicked one plays exactly
      when it was not playing before, and no other plays. */
  lemma PlayersExclusive(playing: seq<bool>, i: nat)
    requires i < |playing|
    ensures AtMostOne(PlayersAfter(playing, i))
    ensures PlayersAfter(playing, i)[i] == !playing[i]
    ensures forall j :: 0 <= j < |playing| && j != i ==> !PlayersAfter(playing, i)[j]
  {
  }

  /** Clicking the button that plays stops all; clicking it again restarts it. */
  lemma PlayersPauseResume(playing: seq<bool>, i: nat)
    requires i < |playing| && AtMostOne(playing) && playing[i]
    ensures PlayersAfter(playing, i) == NoneSet(|playing|)
    ensures PlayersAfter(PlayersAfter(playing, i), i) == playing
  {
  }

  class PodcastPlayers {
    var playing: seq<bool>

    constructor (n: nat)
      ensures playing == NoneSet(n)
    {
      playing := NoneSet(n);
    }

    method Click(i: nat)
      requires i < |playing|
      modifies this
      ensures playing == PlayersAfter(old(playing), i)
    {
      var wasPlaying := playing[i];
      playing := ClearAll(playing);
      if !wasPlaying {
        playing := playing[i := true];
      }
    }
  }
}
