/** The page-rating widget (js/rating.js). One module-level `currentRating`
    is shared by every rating container on the page; each container has a row
    of stars carrying a `data-rating`, an `active` flag per star and an
    optional feedback section. Initialisation appends one five-star container
    to the main content when the page has main content and no container. */
module Rating {
  import opened Flags

  /** The feedback section of a container: missing, hidden, or shown. */
  datatype Feedback = NoSection | FeedbackHidden | FeedbackShown

  /** The data-rating values of the stars of a created container. */
  const DefaultStars: seq<int> := [1, 2, 3, 4, 5]

  /** The `active` flags highlightStars(stars, r) leaves on a row of stars. */
  function Highlight(stars: seq<int>, r: int): seq<bool>
  {
    seq(|stars|, k requires 0 <= k < |stars| => stars[k] <= r)
  }

  /** A star is lit exactly when its rating is at most r, so a higher
      rating never darkens a star. */
  lemma HighlightMonotone(stars: seq<int>, r1: int, r2: int)
    requires r1 <= r2
    ensures forall k :: 0 <= k < |stars| ==> (Highlight(stars, r1)[k] <==> stars[k] <= r1)
    ensures forall k :: 0 <= k < |stars| && Highlight(stars, r1)[k] ==> Highlight(stars, r2)[k]
  {
  }

  /** On a row sorted by rating the lit stars are a prefix: a star lights up
      with all the stars before it. */
  lemma HighlightPrefix(stars: seq<int>, r: int)
    requires forall i, j :: 0 <= i < j < |stars| ==> stars[i] <= stars[j]
    ensures forall i, j :: 0 <= i < j < |stars| && Highlight(stars, r)[j] ==> Highlight(stars, r)[i]
  {
  }

  /** A rating of 0 (nothing chosen yet) lights no star of positively rated
      stars. */
  lemma HighlightZero(stars: seq<int>)
    requires forall k :: 0 <= k < |stars| ==> stars[k] >= 1
    ensures Highlight(stars, 0) == NoneSet(|stars|)
  {
  }

  function Min(a: int, b: int): int
  {
    if a <= b then a else b
  }

  /** The number of entries below r in 0, 1, ..., n - 1. */
  lemma {:induction false} CountBelow(n: nat, r: nat)
    ensures CountTrue(seq(n, k => k < r)) == Min(r, n)
  {
    if n > 0 {
      CountBelow(n - 1, r);
      assert seq(n, k => k < r)[..n - 1] == seq(n - 1, k => k < r);
    }
  }

  /** On a created container, rating r in 0..5 lights exactly the first r
      stars. */
  lemma HighlightDefault(r: int)
    requires 0 <= r <= 5
    ensures forall k :: 0 <= k < 5 ==> (Highlight(DefaultStars, r)[k] <==> k < r)
    ensures CountTrue(Highlight(DefaultStars, r)) == r
  {
    assert Highlight(DefaultStars, r) == seq(5, k => k < r);
    CountBelow(5, r);
  }

  /** The containers after createRatingComponents. */
  function Created(hasMainContent: bool, containers: seq<seq<int>>): seq<seq<int>>
  {
    if hasMainContent && containers == [] then [DefaultStars] else containers
  }

  /** Creation is idempotent, adds at most one container, and never removes
      or alters an existing one. */
  lemma CreatedIdempotent(hasMainContent: bool, containers: seq<seq<int>>)
    ensures Created(hasMainContent, Created(hasMainContent, containers))
         == Created(hasMainContent, containers)
    ensures |Created(hasMainContent, containers)| <= |containers| + 1
    ensures containers != [] ==> Created(hasMainContent, containers) == containers
    ensures |Created(hasMainContent, containers)| == 1 + |containers|
        <==> hasMainContent && containers == []
  {
  }

  class RatingSystem {
    /** Whether the page has a `.main-content` element. */
    const hasMainContent: bool
    var currentRating: int
    /** data-rating of every star, per container. */
    var stars: seq<seq<int>>
    /** `active` on every star, per container. */
    var active: seq<seq<bool>>
    var feedback: seq<Feedback>

    ghost predicate Valid()
      reads this
    {
      |active| == |stars| && |feedback| == |stars| &&
      forall c :: 0 <= c < |stars| ==> |active[c]| == |stars[c]|
    }

    /** The page as loaded: `existing` are the containers already in the
        markup, with no star lit. */
    constructor (hasMainContent: bool, existing: seq<seq<int>>, existingFeedback: seq<Feedback>)
      requires |existingFeedback| == |existing|
      ensures Valid() && this.hasMainContent == hasMainContent
      ensures currentRating == 0 && stars == existing && feedback == existingFeedback
      ensures active == seq(|existing|, c requires 0 <= c < |existing| => NoneSet(|existing[c]|))
    {
      this.hasMainContent := hasMainContent;
      currentRating := 0;
      stars := existing;
      active := seq(|existing|, c requires 0 <= c < |existing| => NoneSet(|existing[c]|));
      feedback := existingFeedback;
    }

    /** init / createRatingComponents: the stars of a new container start
        unlit and its feedback section hidden. */
    method Init()
      requires Valid()
      modifies this
      ensures Valid() && currentRating == old(currentRating)
      ensures stars == Created(hasMainContent, old(stars))
      ensures if hasMainContent && old(stars) == []
              then active == [NoneSet(5)] && feedback == [FeedbackHidden]
              else active == old(active) && feedback == old(feedback)
    {
      if hasMainContent && |stars| == 0 {
        stars := [DefaultStars];
        active := [NoneSet(5)];
        feedback := [FeedbackHidden];
      }
    }

    /** highlightStars on the stars of container c. */
    method HighlightStars(c: nat, r: int)
      requires Valid() && c < |stars|
      modifies this
      ensures Valid()
      ensures stars == old(stars) && feedback == old(feedback) && currentRating == old(currentRating)
      ensures active == old(active)[c := Highlight(stars[c], r)]
    {
      var k := 0;
      while k < |stars[c]|
        invariant stars == old(stars) && feedback == old(feedback) && currentRating == old(currentRating)
        invariant 0 <= k <= |stars[c]| && Valid()
        invariant |active| == |old(active)|
        invariant forall d :: 0 <= d < |active| && d != c ==> active[d] == old(active)[d]
        invariant forall j :: 0 <= j < k ==> active[c][j] == (stars[c][j] <= r)
      {
        active := active[c := active[c][k := stars[c][k] <= r]];
        k := k + 1;
      }
      assert active[c] == Highlight(stars[c], r);
    }

    /** mouseenter on star k of container c: preview its rating. */
    method MouseEnter(c: nat, k: nat)
      requires Valid() && c < |stars| && k < |stars[c]|
      modifies this
      ensures Valid()
      ensures stars == old(stars) && feedback == old(feedback) && currentRating == old(currentRating)
      ensures active == old(active)[c := Highlight(stars[c], stars[c][k])]
    {
      HighlightStars(c, stars[c][k]);
    }

    /** mouseleave on any star of container c: back to the chosen rating. */
    method MouseLeave(c: nat)
      requires Valid() && c < |stars|
      modifies this
      ensures Valid()
      ensures stars == old(stars) && feedback == old(feedback) && currentRating == old(currentRating)
      ensures active == old(active)[c := Highlight(stars[c], currentRating)]
    {
      HighlightStars(c, currentRating);
    }

    /** click on star k of container c: choose its rating and show the
        container's feedback section, if it has one. */
    method Click(c: nat, k: nat)
      requires Valid() && c < |stars| && k < |stars[c]|
      modifies this
      ensures Valid() && stars == old(stars)
      ensures currentRating == stars[c][k]
      ensures active == old(active)[c := Highlight(stars[c], stars[c][k])]
      ensures feedback == if old(feedback)[c] == NoSection then old(feedback)
                          else old(feedback)[c := FeedbackShown]
    {
      currentRating := stars[c][k];
      HighlightStars(c, currentRating);
      if feedback[c] != NoSection {
        feedback := feedback[c := FeedbackShown];
      }
    }

    /** The submit button of container c hands submitRating the shared
        rating, whichever container it belongs to. */
    method SubmitRating(c: nat) returns (rating: int)
      requires Valid() && c < |stars|
      ensures rating == currentRating
    {
      rating := currentRating;
    }
  }

  /** A click on star k of container a fixes the rating that the submit
      button of container b, the same one or another, hands over next. */
  method ClickThenSubmit(system: RatingSystem, a: nat, k: nat, b: nat) returns (rating: int)
    requires system.Valid() && a < |system.stars| && k < |system.stars[a]|
    requires b < |system.stars|
    modifies system
    ensures rating == old(system.stars[a][k])
  {
    system.Click(a, k);
    rating := system.SubmitRating(b);
  }

  /** Hovering changes only the highlight; leaving restores the highlight of
      the chosen rating, so a container that showed it before shows it again. */
  method HoverThenLeave(system: RatingSystem, c: nat, k: nat)
    requires system.Valid() && c < |system.stars| && k < |system.stars[c]|
    modifies system
    ensures system.Valid() && system.currentRating == old(system.currentRating)
    ensures system.stars == old(system.stars)
    ensures system.active[c] == Highlight(system.stars[c], system.currentRating)
    ensures old(system.active[c]) == Highlight(system.stars[c], system.currentRating)
            ==> system.active == old(system.active)
  {
    system.MouseEnter(c, k);
    system.MouseLeave(c);
  }
}
