/** The self-assessment questionnaire of the mental-check page (js/main.js,
    initMentalTests). A form is an ordered list of questions, each an ordered
    list of options carrying an integer `data-value`; clicking an option makes
    it the only selected option of its question and refreshes the progress bar,
    and submitting sums the selected values and shows a banded result. The
    stress form and the anxiety form run the same handlers; they differ only in
    the test type passed to the result view. */
module Assessment {
  import opened Flags

  datatype TestType = Stress | Anxiety

  datatype Band = Low | Medium | High

  /** Bands in increasing order of severity. */
  function Rank(b: Band): nat
  {
    match b
    case Low => 0
    case Medium => 1
    case High => 2
  }

  // ---------------------------------------------------------------------
  // Result banding (showResults)
  // ---------------------------------------------------------------------

  /** The band chosen by showResults, branch for branch. */
  function Classify(t: TestType, score: int): Band
  {
    match t
    case Stress =>
      if score <= 13 then Low else if score <= 26 then Medium else High
    case Anxiety =>
      if score <= 15 then Low else if score <= 30 then Medium else High
  }

  /** The threshold table: the inclusive upper bound of the Low band and of the
      Medium band for each test. */
  function LowMax(t: TestType): int
  {
    match t
    case Stress => 13
    case Anxiety => 15
  }

  function MediumMax(t: TestType): int
  {
    match t
    case Stress => 26
    case Anxiety => 30
  }

  /** Classify agrees with the threshold table: each band is exactly an
      inclusive score range. */
  lemma ClassifyByTable(t: TestType, score: int)
    ensures Classify(t, score) == Low <==> score <= LowMax(t)
    ensures Classify(t, score) == Medium <==> LowMax(t) < score <= MediumMax(t)
    ensures Classify(t, score) == High <==> MediumMax(t) < score
  {
  }

  /** A higher score never gives a milder band. */
  lemma ClassifyMonotone(t: TestType, s1: int, s2: int)
    requires s1 <= s2
    ensures Rank(Classify(t, s1)) <= Rank(Classify(t, s2))
  {
  }

  /** The boundary scores of both tests. */
  lemma ClassifyBoundaries()
    ensures Classify(Stress, 13) == Low && Classify(Stress, 14) == Medium
    ensures Classify(Stress, 26) == Medium && Classify(Stress, 27) == High
    ensures Classify(Anxiety, 15) == Low && Classify(Anxiety, 16) == Medium
    ensures Classify(Anxiety, 30) == Medium && Classify(Anxiety, 31) == High
  {
  }

  /** The level word shown next to the score. */
  function LevelLabel(b: Band): string
  {
    match b
    case Low => "Thấp"
    case Medium => "Trung bình"
    case High => "Cao"
  }

  /** The heading of the result summary. */
  function Heading(t: TestType): string
  {
    match t
    case Stress => "Kết quả đánh giá Stress"
    case Anxiety => "Kết quả đánh giá Lo âu"
  }

  /** The six fixed messages, keyed by test and band. */
  function Message(t: TestType, b: Band): string
  {
    match (t, b)
    case (Stress, Low) => "Mức độ stress của bạn ở mức thấp."
    case (Stress, Medium) => "Mức độ stress của bạn ở mức trung bình."
    case (Stress, High) => "Mức độ stress của bạn ở mức cao."
    case (Anxiety, Low) => "Mức độ lo âu của bạn ở mức thấp."
    case (Anxiety, Medium) => "Mức độ lo âu của bạn ở mức trung bình."
    case (Anxiety, High) => "Mức độ lo âu của bạn ở mức cao."
  }

  /** The fields written into `.result-summary`. */
  datatype Summary = Summary(heading: string, score: int, level: string, message: string)

  function Summarize(t: TestType, score: int): Summary
  {
    var b := Classify(t, score);
    Summary(Heading(t), score, LevelLabel(b), Message(t, b))
  }

  /** The message table is injective: the text shown identifies the test and
      the band. */
  lemma MessageIdentifiesBand(t1: TestType, b1: Band, t2: TestType, b2: Band)
    requires Message(t1, b1) == Message(t2, b2)
    ensures t1 == t2 && b1 == b2
  {
  }

  /** Two submissions show the same text exactly when their scores fall in
      the same band of the same test. */
  lemma SummaryTextByBand(t: TestType, s1: int, s2: int)
    ensures (Summarize(t, s1).message == Summarize(t, s2).message)
        <==> Classify(t, s1) == Classify(t, s2)
  {
    if Summarize(t, s1).message == Summarize(t, s2).message {
      MessageIdentifiesBand(t, Classify(t, s1), t, Classify(t, s2));
    }
  }

  // ---------------------------------------------------------------------
  // Form state: selections, progress, next unanswered question, score
  // ---------------------------------------------------------------------

  /** values[q][o] is the data-value of option o of question q and
      selected[q][o] whether that option carries the `selected` class. */
  predicate WellFormed(values: seq<seq<int>>, selected: seq<seq<bool>>)
  {
    |values| == |selected| &&
    forall q :: 0 <= q < |values| ==> |values[q]| == |selected[q]|
  }

  /** At most one option of every question is selected. */
  predicate Exclusive(selected: seq<seq<bool>>)
  {
    forall q :: 0 <= q < |selected| ==> AtMostOne(selected[q])
  }

  predicate Answered(options: seq<bool>)
  {
    true in options
  }

  /** The number of `.option.selected` elements of the form. */
  function SelectedCount(selected: seq<seq<bool>>): nat
  {
    if selected == [] then 0
    else SelectedCount(selected[..|selected| - 1]) + CountTrue(selected[|selected| - 1])
  }

  /** The number of questions with a selected option. */
  function AnsweredCount(selected: seq<seq<bool>>): (n: nat)
    ensures n <= |selected|
  {
    if selected == [] then 0
    else AnsweredCount(selected[..|selected| - 1]) + (if Answered(selected[|selected| - 1]) then 1 else 0)
  }

  /** Counting selected options counts answered questions, because selection
      is exclusive per question. */
  lemma {:induction false} SelectedCountIsAnswered(selected: seq<seq<bool>>)
    requires Exclusive(selected)
    ensures SelectedCount(selected) == AnsweredCount(selected)
  {
    if selected != [] {
      var init := selected[..|selected| - 1];
      assert Exclusive(init) by {
        forall q | 0 <= q < |init| ensures AtMostOne(init[q]) {
          assert init[q] == selected[q];
        }
      }
      SelectedCountIsAnswered(init);
      AtMostOneCount(selected[|selected| - 1]);
    }
  }

  /** The progress bar width in percent: selected options over questions. */
  function Progress(selected: seq<seq<bool>>): real
    requires |selected| > 0
  {
    (SelectedCount(selected) as real / |selected| as real) * 100.0
  }

  /** Progress stays within [0, 100], and reaches 100 exactly when every
      question is answered. */
  lemma ProgressInRange(selected: seq<seq<bool>>)
    requires |selected| > 0 && Exclusive(selected)
    ensures 0.0 <= Progress(selected) <= 100.0
    ensures Progress(selected) == 100.0 <==> AnsweredCount(selected) == |selected|
    ensures Progress(selected) == 0.0 <==> AnsweredCount(selected) == 0
  {
    SelectedCountIsAnswered(selected);
    RatioBounds(AnsweredCount(selected), |selected|);
  }

  /** For 0 <= a <= n and n > 0, the ratio a / n lies in [0, 1] and hits
      its ends exactly at a == 0 and a == n. */
  lemma RatioBounds(a: nat, n: nat)
    requires 0 < n && a <= n
    ensures 0.0 <= (a as real / n as real) * 100.0 <= 100.0
    ensures (a as real / n as real) * 100.0 == 100.0 <==> a == n
    ensures (a as real / n as real) * 100.0 == 0.0 <==> a == 0
  {
  }

  /** Three answered questions out of ten give a 30% bar. */
  lemma ProgressExample(selected: seq<seq<bool>>)
    requires |selected| == 10 && Exclusive(selected) && AnsweredCount(selected) == 3
    ensures Progress(selected) == 30.0
  {
    SelectedCountIsAnswered(selected);
  }

  /** The first question at position `from` or later with no selected option,
      as `.question:not(:has(.option.selected))` finds it. */
  function FirstUnansweredFrom(selected: seq<seq<bool>>, from: nat): (r: Option<nat>)
    requires from <= |selected|
    ensures r.Some? ==> from <= r.value < |selected| && !Answered(selected[r.value])
    ensures r.Some? ==> forall p :: from <= p < r.value ==> Answered(selected[p])
    ensures r.None? ==> forall p :: from <= p < |selected| ==> Answered(selected[p])
    decreases |selected| - from
  {
    if from == |selected| then None
    else if !Answered(selected[from]) then Some(from)
    else FirstUnansweredFrom(selected, from + 1)
  }

  /** The question the page scrolls to after a click, if any. */
  function FirstUnanswered(selected: seq<seq<bool>>): (r: Option<nat>)
    ensures r.Some? ==> r.value < |selected| && !Answered(selected[r.value])
    ensures r.Some? ==> forall p :: 0 <= p < r.value ==> Answered(selected[p])
    ensures r.None? <==> forall p :: 0 <= p < |selected| ==> Answered(selected[p])
  {
    FirstUnansweredFrom(selected, 0)
  }

  /** The sum of the data-values of the selected options of one question. */
  function OptionsScore(values: seq<int>, selected: seq<bool>): int
    requires |values| == |selected|
  {
    if values == [] then 0
    else OptionsScore(values[..|values| - 1], selected[..|selected| - 1])
         + (if selected[|selected| - 1] then values[|values| - 1] else 0)
  }

  /** The score a submission computes: the sum of the data-values of every
      selected option of the form. */
  function Score(values: seq<seq<int>>, selected: seq<seq<bool>>): int
    requires WellFormed(values, selected)
  {
    if values == [] then 0
    else Score(values[..|values| - 1], selected[..|selected| - 1])
         + OptionsScore(values[|values| - 1], selected[|selected| - 1])
  }

  /** The value a question contributes: its selected option's, or 0 if it is
      unanswered. */
  ghost function AnswerValue(values: seq<int>, selected: seq<bool>): int
    requires |values| == |selected|
  {
    if exists o :: 0 <= o < |selected| && selected[o]
    then var o :| 0 <= o < |selected| && selected[o]; values[o]
    else 0
  }

  /** With at most one selected option, a question scores its answer's value. */
  lemma {:induction false} OptionsScoreIsAnswer(values: seq<int>, selected: seq<bool>)
    requires |values| == |selected| && AtMostOne(selected)
    ensures OptionsScore(values, selected) == AnswerValue(values, selected)
  {
    if values != [] {
      var n := |values| - 1;
      var vi, si := values[..n], selected[..n];
      assert AtMostOne(si);
      OptionsScoreIsAnswer(vi, si);
      if selected[n] {
        assert forall o :: 0 <= o < n ==> !si[o];
        assert AnswerValue(vi, si) == 0;
        assert AnswerValue(values, selected) == values[n];
      } else {
        assert forall o :: 0 <= o < n ==> si[o] == selected[o];
        assert AnswerValue(values, selected) == AnswerValue(vi, si);
      }
    }
  }

  /** The sum of each question's answer value. */
  ghost function AnswersTotal(values: seq<seq<int>>, selected: seq<seq<bool>>): int
    requires WellFormed(values, selected)
  {
    if values == [] then 0
    else AnswersTotal(values[..|values| - 1], selected[..|selected| - 1])
         + AnswerValue(values[|values| - 1], selected[|selected| - 1])
  }

  /** The submitted score is the total of the answers; unanswered questions
      add nothing. */
  lemma {:induction false} ScoreIsAnswersTotal(values: seq<seq<int>>, selected: seq<seq<bool>>)
    requires WellFormed(values, selected) && Exclusive(selected)
    ensures Score(values, selected) == AnswersTotal(values, selected)
  {
    if values != [] {
      var n := |values| - 1;
      var vi, si := values[..n], selected[..n];
      assert WellFormed(vi, si) by {
        forall q | 0 <= q < n ensures |vi[q]| == |si[q]| { assert vi[q] == values[q]; }
      }
      assert Exclusive(si) by {
        forall q | 0 <= q < n ensures AtMostOne(si[q]) { assert si[q] == selected[q]; }
      }
      ScoreIsAnswersTotal(vi, si);
      OptionsScoreIsAnswer(values[n], selected[n]);
    }
  }

  /** A question with nothing selected scores 0. */
  lemma {:induction false} OptionsScoreUnanswered(values: seq<int>, selected: seq<bool>)
    requires |values| == |selected| && !Answered(selected)
    ensures OptionsScore(values, selected) == 0
  {
    if values != [] {
      var n := |values| - 1;
      assert !Answered(selected[..n]) by {
        forall o | 0 <= o < n ensures !selected[..n][o] { assert selected[..n][o] == selected[o]; }
      }
      OptionsScoreUnanswered(values[..n], selected[..n]);
    }
  }

  /** Submitting with nothing selected scores 0, the Low band of both tests. */
  lemma {:induction false} ScoreOfBlankForm(values: seq<seq<int>>, selected: seq<seq<bool>>)
    requires WellFormed(values, selected) && AnsweredCount(selected) == 0
    ensures Score(values, selected) == 0
    ensures Classify(Stress, Score(values, selected)) == Low
    ensures Classify(Anxiety, Score(values, selected)) == Low
  {
    if values != [] {
      var n := |values| - 1;
      var vi, si := values[..n], selected[..n];
      assert WellFormed(vi, si) by {
        forall q | 0 <= q < n ensures |vi[q]| == |si[q]| { assert vi[q] == values[q]; }
      }
      ScoreOfBlankForm(vi, si);
      OptionsScoreUnanswered(values[n], selected[n]);
    }
  }

  /** With every data-value in [0, m], the score lies in [0, m * answered]. */
  lemma {:induction false} ScoreBounds(values: seq<seq<int>>, selected: seq<seq<bool>>, m: nat)
    requires WellFormed(values, selected) && Exclusive(selected)
    requires forall q, o :: 0 <= q < |values| && 0 <= o < |values[q]| ==> 0 <= values[q][o] <= m
    ensures 0 <= Score(values, selected) <= m * AnsweredCount(selected)
  {
    ScoreIsAnswersTotal(values, selected);
    AnswersTotalBounds(values, selected, m);
  }

  lemma {:induction false} AnswersTotalBounds(values: seq<seq<int>>, selected: seq<seq<bool>>, m: nat)
    requires WellFormed(values, selected)
    requires forall q, o :: 0 <= q < |values| && 0 <= o < |values[q]| ==> 0 <= values[q][o] <= m
    ensures 0 <= AnswersTotal(values, selected) <= m * AnsweredCount(selected)
  {
    if values != [] {
      var n := |values| - 1;
      var vi, si := values[..n], selected[..n];
      assert WellFormed(vi, si) by {
        forall q | 0 <= q < n ensures |vi[q]| == |si[q]| { assert vi[q] == values[q]; }
      }
      assert forall q, o :: 0 <= q < |vi| && 0 <= o < |vi[q]| ==> 0 <= vi[q][o] <= m by {
        forall q, o | 0 <= q < |vi| && 0 <= o < |vi[q]| ensures 0 <= vi[q][o] <= m {
          assert vi[q] == values[q];
        }
      }
      AnswersTotalBounds(vi, si, m);
      var d := if Answered(selected[n]) then 1 else 0;
      assert 0 <= AnswerValue(values[n], selected[n]) <= m * d;
      assert AnsweredCount(selected) == AnsweredCount(si) + d;
      assert m * (AnsweredCount(si) + d) == m * AnsweredCount(si) + m * d;
    }
  }

  // ---------------------------------------------------------------------
  // The result view (`#results`)
  // ---------------------------------------------------------------------

  /** What `#results` shows: whether it is displayed, the summary it holds and
      the display state of each `.result-card`. */
  datatype ViewState = ViewState(displayed: bool, summary: Option<Summary>, cards: seq<bool>)

  /** The view after showResults(t, score), for a section whose
      `.result-summary` exists iff hasSummary. */
  function Shown(v: ViewState, hasSummary: bool, t: TestType, score: int): ViewState
  {
    ViewState(true,
              if hasSummary then Some(Summarize(t, score)) else v.summary,
              seq(|v.cards|, i => true))
  }

  /** Showing the same result twice is the same as showing it once, so
      re-submitting an unchanged form leaves the page as it was. */
  lemma ShownIdempotent(v: ViewState, hasSummary: bool, t: TestType, score: int)
    ensures Shown(Shown(v, hasSummary, t, score), hasSummary, t, score)
         == Shown(v, hasSummary, t, score)
  {
  }

  /** Only the last show matters: whatever an earlier showResults wrote,
      a later one leaves the section exactly as if it had been the only one. */
  lemma ShownLastWins(v: ViewState, hasSummary: bool, t1: TestType, s1: int, t2: TestType, s2: int)
    ensures Shown(Shown(v, hasSummary, t1, s1), hasSummary, t2, s2) == Shown(v, hasSummary, t2, s2)
  {
  }

  class ResultsView {
    const hasSummary: bool
    var displayed: bool
    var summary: Option<Summary>
    var cards: seq<bool>

    function State(): ViewState
      reads this
    {
      ViewState(displayed, summary, cards)
    }

    /** A hidden results section with `cardCount` hidden result cards. */
    constructor (hasSummary: bool, cardCount: nat)
      ensures this.hasSummary == hasSummary
      ensures State() == ViewState(false, None, NoneSet(cardCount))
    {
      this.hasSummary := hasSummary;
      displayed := false;
      summary := None;
      cards := NoneSet(cardCount);
    }

    /** showResults(t, score) with this section present. */
    method Show(t: TestType, score: int)
      modifies this
      ensures State() == Shown(old(State()), hasSummary, t, score)
    {
      displayed := true;
      if hasSummary {
        summary := Some(Summarize(t, score));
      }
      var i := 0;
      while i < |cards|
        invariant 0 <= i <= |cards| && |cards| == |old(cards)|
        invariant forall j :: 0 <= j < i ==> cards[j]
        invariant displayed && summary == Shown(old(State()), hasSummary, t, score).summary
      {
        cards := cards[i := true];
        i := i + 1;
      }
      assert cards == seq(|old(cards)|, j => true);
    }
  }

  // ---------------------------------------------------------------------
  // The form and its handlers
  // ---------------------------------------------------------------------

  /** What a handled option click reports: the progress bar width and the
      question scrolled to. */
  datatype ClickEffect = ClickEffect(progress: real, scrollTo: Option<nat>)

  class AssessmentForm {
    const testType: TestType
    const values: seq<seq<int>>
    /** The click handlers are attached only when the form's progress bar exists. */
    const hasProgressBar: bool
    var selected: seq<seq<bool>>

    ghost predicate Valid()
      reads this
    {
      WellFormed(values, selected) && Exclusive(selected)
    }

    /** A freshly loaded form: no option selected. */
    constructor (testType: TestType, values: seq<seq<int>>, hasProgressBar: bool)
      ensures Valid()
      ensures this.testType == testType && this.values == values
      ensures this.hasProgressBar == hasProgressBar
      ensures selected == seq(|values|, q requires 0 <= q < |values| => NoneSet(|values[q]|))
      ensures AnsweredCount(selected) == 0
    {
      this.testType := testType;
      this.values := values;
      this.hasProgressBar := hasProgressBar;
      var sel := seq(|values|, q requires 0 <= q < |values| => NoneSet(|values[q]|));
      selected := sel;
      new;
      NoneAnswered(sel);
    }

    static lemma {:induction false} NoneAnswered(sel: seq<seq<bool>>)
      requires forall q :: 0 <= q < |sel| ==> true !in sel[q]
      ensures AnsweredCount(sel) == 0
    {
      if sel != [] {
        NoneAnswered(sel[..|sel| - 1]);
      }
    }

    /** The click handler of option o of question q. */
    method ClickOption(q: nat, o: nat) returns (effect: Option<ClickEffect>)
      requires Valid() && q < |values| && o < |values[q]|
      modifies this
      ensures Valid()
      ensures selected == if hasProgressBar then old(selected)[q := OnlyAt(|values[q]|, o)]
                          else old(selected)
      ensures effect == if hasProgressBar
                        then Some(ClickEffect(Progress(selected), FirstUnanswered(selected)))
                        else None
    {
      if !hasProgressBar {
        return None;
      }
      // Remove `selected` from every option of the question...
      var k := 0;
      while k < |selected[q]|
        invariant |selected| == |old(selected)|
        invariant 0 <= k <= |selected[q]| == |values[q]|
        invariant forall p :: 0 <= p < |selected| && p != q ==> selected[p] == old(selected)[p]
        invariant forall j :: 0 <= j < k ==> !selected[q][j]
      {
        selected := selected[q := selected[q][k := false]];
        k := k + 1;
      }
      // ... and add it to the clicked one.
      selected := selected[q := selected[q][o := true]];
      assert selected[q] == OnlyAt(|values[q]|, o);
      OnlyAtExclusive(|values[q]|, o);
      effect := Some(ClickEffect(Progress(selected), FirstUnanswered(selected)));
    }

    /** The score loop of the submit handler: add the data-value of every
        selected option, in document order. */
    method ComputeScore() returns (score: int)
      requires WellFormed(values, selected)
      ensures score == Score(values, selected)
    {
      score := 0;
      var q := 0;
      while q < |values|
        invariant 0 <= q <= |values|
        invariant score == Score(values[..q], selected[..q])
      {
        var o := 0;
        ghost var before := score;
        while o < |values[q]|
          invariant 0 <= o <= |values[q]|
          invariant score == before + OptionsScore(values[q][..o], selected[q][..o])
        {
          if selected[q][o] {
            score := score + values[q][o];
          }
          assert values[q][..o + 1][..o] == values[q][..o];
          assert selected[q][..o + 1][..o] == selected[q][..o];
          o := o + 1;
        }
        assert values[q][..o] == values[q] && selected[q][..o] == selected[q];
        assert values[..q + 1][..q] == values[..q];
        assert selected[..q + 1][..q] == selected[..q];
        q := q + 1;
      }
      assert values[..q] == values && selected[..q] == selected;
    }

    /** The submit handler: compute the score and show the result in `view`
        (null when the page has no `#results` section). The selection is not
        changed, so a second submit recomputes the same score. */
    method Submit(view: ResultsView?) returns (score: int)
      requires Valid()
      modifies view
      ensures score == Score(values, selected)
      ensures view != null ==> view.State() == Shown(old(view.State()), view.hasSummary, testType, score)
    {
      score := ComputeScore();
      if view != null {
        view.Show(testType, score);
      }
    }
  }

  /** Five questions valued 0 to 3 with the top value picked in each score 15,
      the Medium stress band, whose message is the fixed Medium text. */
  lemma EndToEndExample()
    ensures var values := seq(5, q => [0, 1, 2, 3]);
            var selected := seq(5, q => [false, false, false, true]);
            WellFormed(values, selected) &&
            Score(values, selected) == 15 &&
            Classify(Stress, 15) == Medium &&
            Summarize(Stress, 15).message == "Mức độ stress của bạn ở mức trung bình."
  {
    var values := seq(5, q => [0, 1, 2, 3]);
    var selected := seq(5, q => [false, false, false, true]);
    assert forall q :: 0 <= q < 5 ==> OptionsScore(values[q], selected[q]) == 3 by {
      var v, s := [0, 1, 2, 3], [false, false, false, true];
      assert OptionsScore(v, s) == 3 by {
        assert v[..3] == [0, 1, 2] && s[..3] == [false, false, false];
        assert [0, 1, 2][..2] == [0, 1] && [false, false, false][..2] == [false, false];
        assert [0, 1][..1] == [0] && [false, false][..1] == [false];
        assert [0][..0] == [] && [false][..0] == [];
      }
    }
    assert Score(values, selected) == 15 by {
      assert Score(values[..1], selected[..1]) == 3;
      assert values[..2][..1] == values[..1] && selected[..2][..1] == selected[..1];
      assert Score(values[..2], selected[..2]) == 6;
      assert values[..3][..2] == values[..2] && selected[..3][..2] == selected[..2];
      assert Score(values[..3], selected[..3]) == 9;
      assert values[..4][..3] == values[..3] && selected[..4][..3] == selected[..3];
      assert Score(values[..4], selected[..4]) == 12;
      assert values[..4] == values[..|values| - 1];
    }
  }

  /** The same scenario driven through the handlers: five clicks on the
      option worth 3, then a submit into a results section with a summary. */
  method StressScenario() returns (score: int)
    ensures score == 15
  {
    var form := new AssessmentForm(Stress, seq(5, q => [0, 1, 2, 3]), true);
    var view := new ResultsView(true, 2);
    var q := 0;
    while q < 5
      invariant 0 <= q <= 5 && form.Valid() && fresh(form)
      invariant form.values == seq(5, q => [0, 1, 2, 3]) && form.hasProgressBar && form.testType == Stress
      invariant |form.selected| == 5
      invariant forall p :: 0 <= p < q ==> form.selected[p] == [false, false, false, true]
      invariant forall p :: q <= p < 5 ==> form.selected[p] == NoneSet(4)
    {
      var _ := form.ClickOption(q, 3);
      assert OnlyAt(4, 3) == [false, false, false, true];
      q := q + 1;
    }
    assert form.selected == seq(5, q => [false, false, false, true]);
    EndToEndExample();
    score := form.Submit(view);
    assert view.summary == Some(Summary("Kết quả đánh giá Stress", 15, "Trung bình",
                                        "Mức độ stress của bạn ở mức trung bình."));
  }
}
