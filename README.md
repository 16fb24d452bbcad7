# Mindspace front-end state machines in Dafny

This project models the client-side behaviour of the Mindspace mental-health
site (js/main.js, js/rating.js, script.js) and proves properties of it. The
page's DOM is abstracted. A collection of elements that share a class is a
sequence with one class flag (`selected`, `active`, `playing`) or record per
element, in document order. Each event handler is a method of a class that
holds those sequences. A pure function of the old state specifies each
handler's new state, and lemmas prove what the site promises about that
function.

- `flags.dfy` (module `Flags`): shared vocabulary. This includes `Option`,
  "only element k flagged" (`OnlyAt`), "nothing flagged" (`NoneSet`), "at
  most one flagged" (`AtMostOne`) and the count of flagged elements.
- `assessment.dfy` (module `Assessment`): the stress and anxiety
  self-assessment of the mental-check page. It covers exclusive option
  selection, the progress ratio, the next unanswered question, the score loop,
  the banding in `showResults` with its fixed thresholds and messages, and the
  results section.
- `widgets.dfy` (module `Widgets`): accordions, FAQ items, tab groups,
  resource tabs, like/bookmark counters and podcast play buttons.
- `validation.dfy` (module `Validation`): required-field validation on
  submit, clearing on input, and JavaScript's `String.prototype.trim`.
- `rating.js` → `rating.dfy` (module `Rating`): the star rating. It holds the
  single `currentRating` shared by all containers, `highlightStars`, the
  hover/leave/click handlers and the idempotent creation of the component.
- `script.js` → `navigation.dfy` (module `Navigation`): the sidebar toggle,
  exclusive submenus, the active-link predicate and the marking loop, and the
  wrap-around index of the testimonial carousel.

Behaviour of the code worth noting:

- The progress ratio counts `.option.selected` elements (js/main.js:319) and
  is not clamped. `SelectedCountIsAnswered` proves that, with at most one
  selected option per question, this count equals the number of answered
  questions, and `ProgressInRange` proves the ratio lies within [0, 100].
- The submit handler (js/main.js:364-379) leaves the selection as it is and
  attaches no guard, so clicks still change answers afterwards and a second
  submit recomputes the score from the current selection. Showing the same
  result twice equals showing it once (`ShownIdempotent`).
- The result shows the level words "Thấp", "Trung bình" and "Cao", and a
  heading per test (js/main.js:402-455).
- A `data-value` is read with `parseInt` and may be any integer. Only
  `ScoreBounds` assumes a range of values.

Inputs from the environment become parameters:

- the current path (`MarkActiveLinks`)
- whether the click landed on a submenu's own link (`SubmenuClick`)
- whether a trigger sits in a tab group, and which panel matches its id
  (`Activate`)
- whether the page has main content and a summary element
- how many result cards exist

## Model

| member | source | states |
|---|---|---|
| Assessment.ClassifyByTable | js/main.js:413-440 | Each band is an inclusive score range of the per-test table: stress Low ≤ 13 < Medium ≤ 26 < High, anxiety Low ≤ 15 < Medium ≤ 30 < High, in both directions |
| Assessment.ClassifyMonotone | js/main.js:413-440 | A higher score never yields a milder band |
| Assessment.ClassifyBoundaries | js/main.js:414-437 | 13→Low, 14→Medium, 26→Medium, 27→High for stress; 15, 16, 30, 31 likewise for anxiety |
| Assessment.MessageIdentifiesBand | js/main.js:413-440 | The six fixed messages are pairwise distinct: the text determines the test and the band |
| Assessment.SummaryTextByBand | js/main.js:409-447 | Two scores of one test show the same message iff they fall in the same band |
| Assessment.SelectedCountIsAnswered | js/main.js:318-319 | Under per-question exclusivity, the number of `.option.selected` equals the number of answered questions |
| Assessment.ProgressInRange | js/main.js:318-320 | The progress ratio lies within [0, 100]. It is 100 iff every question is answered and 0 iff none is |
| Assessment.ProgressExample | js/main.js:318-320 | 3 answered of 10 questions gives 30 |
| Assessment.FirstUnansweredFrom | js/main.js:325-328 | Returns the first question at or after a position with no selected option, with every earlier question answered, or None when all of them are answered |
| Assessment.FirstUnanswered | js/main.js:325-328 | The scroll target is the first unanswered question in order; there is none iff every question is answered |
| Assessment.OptionsScoreIsAnswer | js/main.js:369-374 | With at most one option selected, a question contributes exactly that option's value, or 0 |
| Assessment.ScoreIsAnswersTotal | js/main.js:369-374 | The submitted score is the sum of each question's answer value, and unanswered questions add 0 |
| Assessment.ScoreOfBlankForm | js/main.js:386-391 | Submitting with nothing selected scores 0, which is the Low band for both tests |
| Assessment.ScoreBounds | js/main.js:369-374 | With data-values in [0, m], the score lies in [0, m × answered questions] |
| Assessment.ShownIdempotent | js/main.js:398-457 | Showing the same result twice leaves the section as showing it once does |
| Assessment.ShownLastWins | js/main.js:402-455 | A later showResults leaves the section exactly as if it were the only one: nothing an earlier show wrote survives it |
| Assessment.ResultsView.Show | js/main.js:399-456 | The section's new state is `Shown` of its old state |
| Assessment.AssessmentForm.constructor | js/main.js:297-306 | A loaded form has no option selected and no question answered |
| Assessment.AssessmentForm.ClickOption | js/main.js:304-331 | If the progress bar exists, the clicked option becomes the only selected option of its question. Other questions are unchanged, exclusivity is kept, and the reported progress and scroll target are those of the new selection. Without a progress bar nothing happens |
| Assessment.AssessmentForm.ComputeScore | js/main.js:369-374 | The score loop returns the sum of the data-values of all selected options |
| Assessment.AssessmentForm.Submit | js/main.js:364-396 | Submit computes that score and, if a results section exists, shows it with the form's test type |
| Assessment.EndToEndExample | js/main.js:369-423 | Five questions valued 0..3 with the 3 picked each time score 15. That is Medium stress, with the fixed Medium message |
| Assessment.StressScenario | js/main.js:307-423 | The same scenario driven through five option clicks and a submit scores 15 |
| Widgets.AccordionOneOpen | js/main.js:106-122 | After a click at most one accordion item is open, only the clicked one can be, and it is toggled |
| Widgets.AccordionInStep | js/main.js:106-122 | If every item's flag agrees with its content's flag, a click keeps them in agreement |
| Widgets.AccordionClickTwice | js/main.js:106-122 | Two clicks on one item close all others and restore the clicked item |
| Widgets.Accordion.Click | js/main.js:101-123 | The new item and content flags are `AccordionItemsAfter` and `AccordionContentsAfter` of the old ones |
| Widgets.FaqList.Click | js/main.js:132-140 | A FAQ question click toggles its own item only |
| Widgets.TabGroup.Activate | js/main.js:150-174 | In a group only the clicked trigger is active; outside a group the clicked trigger becomes active and the others are kept. Only the panel with the trigger's id is shown, or none |
| Widgets.TabGroup.ActivateResource | js/main.js:180-190 | Only the clicked resource tab and its target panel are active. A missing target ends the handler with all panels inactive |
| Widgets.ClearAll | js/main.js:158 | The clearing loop removes the flag from every element |
| Flags.OnlyAtExclusive | js/main.js:155-173 | After the clear-then-set of a grouped activation the clicked trigger, and no other, is active (the same clear-then-set selects one option per question) |
| Widgets.StatClickKeepsBase | js/main.js:517-526 | A stat click flips the flag and moves the counter by +1 when it becomes active and −1 when it becomes inactive |
| Widgets.StatClickTwice | js/main.js:517-526 | Two clicks restore both the flag and the counter |
| Widgets.StatButtons.Click | js/main.js:516-527 | Only the clicked button changes, as `StatClick` says |
| Widgets.PlayersExclusive | js/main.js:539-555 | After a click at most one player plays. The clicked one plays iff it did not before, and no other plays |
| Widgets.PlayersPauseResume | js/main.js:540-554 | Clicking the playing button stops everything, and a second click restores it |
| Widgets.PodcastPlayers.Click | js/main.js:539-555 | The new playing flags are `PlayersAfter` of the old ones |
| Validation.TrimStart | js/main.js:205 | The result is a suffix of the input and does not start with whitespace |
| Validation.TrimStartDropsWhitespace | js/main.js:205 | Every character the leading trim removes is whitespace, so no other character is lost |
| Validation.TrimEnd | js/main.js:205 | The result is a prefix of the input and does not end with whitespace |
| Validation.TrimEndDropsWhitespace | js/main.js:205 | Every character the trailing trim removes is whitespace, so no other character is lost |
| Validation.TrimEmptyIffBlank | js/main.js:205 | `value.trim()` is empty iff every character is ECMAScript whitespace |
| Validation.CheckedMarksFailures | js/main.js:203-227 | A checked required field is marked invalid, with its message shown, iff its value is blank. Non-required fields are untouched |
| Validation.CheckedIdempotent | js/main.js:203-246 | Checking twice equals checking once, and typing afterwards leaves no mark or visible message |
| Validation.Form.Submit | js/main.js:199-234 | Every field becomes `Checked` of its old state, and submission is allowed iff every required field is non-blank |
| Validation.Form.Input | js/main.js:238-246 | Typing into a field clears its invalid mark and hides its message |
| Rating.HighlightMonotone | js/rating.js:143-152 | A star is active iff its data-rating ≤ r, so raising r never darkens a star |
| Rating.HighlightPrefix | js/rating.js:69-73 | On a row sorted by rating, a star is lit together with every star before it |
| Rating.HighlightZero | js/rating.js:143-152 | With r = 0 no positively rated star is active |
| Rating.HighlightDefault | js/rating.js:37-43 | On a created five-star row, rating r in 0..5 lights exactly the first r stars |
| Rating.CreatedIdempotent | js/rating.js:28-31 | Creation is idempotent and adds at most one container. It adds one iff main content exists and no container does |
| Rating.RatingSystem.constructor | js/rating.js:9 | The shared rating starts at 0 |
| Rating.RatingSystem.Init | js/rating.js:13-56 | The containers become `Created` of the old ones. A new container's stars are unlit and its feedback section hidden |
| Rating.RatingSystem.HighlightStars | js/rating.js:143-152 | Only the given container's star flags change, to `Highlight(stars, r)` |
| Rating.RatingSystem.MouseEnter | js/rating.js:70-73 | Hover previews the hovered star's rating and leaves `currentRating` unchanged |
| Rating.RatingSystem.MouseLeave | js/rating.js:76-78 | Leaving re-highlights the container with `currentRating` |
| Rating.RatingSystem.Click | js/rating.js:81-90 | A click sets `currentRating` to the star's rating, highlights accordingly and shows the container's feedback section if it has one |
| Rating.ClickThenSubmit | js/rating.js:81-100 | A click on star k of container a, followed by `SubmitRating` from the button of any container b, hands over that star's rating: the one module-level `currentRating` is shared by all containers |
| Rating.HoverThenLeave | js/rating.js:70-78 | Hover then leave keeps `currentRating` and restores the highlight the container had, if it matched the rating |
| Navigation.IncludesIff | script.js:39 | `path.includes(href)` holds iff href occurs at some position of path |
| Navigation.ActiveLinkIff | script.js:38-39 | A link is active iff its href equals the path, or occurs in it and is not 'index.html' |
| Navigation.ActiveLinkCases | script.js:38-39 | A link to the path itself is active; 'index.html' is active only when the path is exactly 'index.html' |
| Navigation.ActiveLinkExample | script.js:38-39 | 'about.html' is active on '/pages/about.html', while 'index.html' is not active on '/pages/index.html' |
| Navigation.MarkLinksChar | script.js:37-50 | After marking, an item is active iff it was before or some active link has it as its parent or as the owner of its submenu |
| Navigation.Sidebar.MarkActiveLinks | script.js:34-50 | The marking loop produces exactly that set of active items |
| Navigation.SubmenusExclusive | script.js:20-28 | After a submenu click at most one submenu is open. The clicked one is toggled, and items outside submenus are kept |
| Navigation.Sidebar.SubmenuClick | script.js:15-30 | A click on a submenu's own link yields `SubmenusAfter`, and any other click changes nothing |
| Navigation.Sidebar.Toggle | script.js:8-10 | The menu toggle flips the sidebar's flag, so two toggles restore it |
| Navigation.WrapInRange | script.js:62-69 | With n > 0 the index stays in [0, n). Below 0 gives n−1, n or more gives 0, and anything else is kept |
| Navigation.NextPrevModular | script.js:75-81 | From a valid index, next is +1 mod n and prev is −1 mod n, and each undoes the other |
| Navigation.Carousel.ShowTestimonial | script.js:62-72 | `currentIndex` becomes `Wrap(index, count)`, and the carousel invariant is kept |
| Navigation.Carousel.Prev | script.js:75-77 | Prev shows `currentIndex − 1` wrapped, so from 0 it goes to the last testimonial |
| Navigation.Carousel.Next | script.js:79-81 | Next shows `currentIndex + 1` wrapped, so from the last testimonial it goes to 0 |

## Left out

- Assessment.AssessmentForm.ClickOption: progress is the exact ratio as a real. The rounding of JavaScript's double division and the CSS width string are not modelled.
- Assessment.AssessmentForm.ClickOption: the smooth scroll to the next unanswered question is reduced to returning that question's position.
- Assessment.ResultsView.Show: `scrollIntoView`, `style.display` and the HTML markup are reduced to a displayed flag, the summary record and card flags.
- Option values, star ratings and counter text are taken to be integers. `parseInt` yielding NaN on other text is not modelled.
- The page dispatch by path (js/main.js:461-475) is not modelled: each page's handlers are modelled as if that page is loaded.
- `initNavigation` (js/main.js:15-64) is not modelled. It holds the mobile navbar toggle, the width-gated submenu toggle, the click-outside close and the icon swap. Its submenu handler (js/main.js:38-47) toggles the same `active` class on the same `.has-submenu` elements, so on a page that loads both js/main.js and script.js, at a width of 992 or less, a click on a submenu's own link toggles that item twice and leaves it unchanged. `Navigation.Sidebar.SubmenuClick` describes script.js on its own.
- Animations, timers and geometry are not modelled: `initAnimations` (js/main.js:67-94), `initScrollReveal` (js/main.js:269-293), the FAQ `maxHeight` (js/main.js:135-139), the carousel's pixel scroll and auto-scroll interval (script.js:70-71, 84-97), and the fade-out timers of the rating messages (js/rating.js:101-137).
- The character counters (js/main.js:251-265, 484-488) and the confession form's success message and delayed reset (js/main.js:490-509) are text rendering and timers, so they are not modelled.
- `submitRating` (js/rating.js:155-172) is a mock Promise that logs and resolves after a timer. The model keeps only the rating it is handed (`Rating.RatingSystem.SubmitRating`).
- Rating listeners may be attached twice, because `initRatings` and rating.js's own load handler both call `init` (js/main.js:561-567, js/rating.js:181-183). The model treats a second `Init` only as creation. For the star handlers the duplicate listeners are harmless, since each sets the same rating and highlight again. The `.submit-rating` button gets two click listeners (js/rating.js:95), so one click calls `submitRating` twice with the same rating (js/rating.js:100); `Rating.RatingSystem.SubmitRating` hands it over once.
- Widgets.TabGroup.Activate: a panel found by id outside the trigger's container is not modelled; the target is a position among the container's panels or absent.
- Widgets.TabGroup.ActivateResource: likewise, js/main.js:189 activates whatever element has the `data-target` id, not only a `.resources-content` panel; the model's target is a position among those panels or absent.
- The markup is assumed to start with no `.option.selected`, no lit star, no `.playing` button, a hidden `#results` and a closed sidebar (the constructors of `Assessment.AssessmentForm`, `Assessment.ResultsView`, `Rating.RatingSystem`, `Widgets.PodcastPlayers` and `Navigation.Sidebar`). The scripts never set these at load; js/main.js:297-306 only looks the elements up. `AssessmentForm.Valid()`'s exclusivity, and with it the upper bound of `ProgressInRange`, rests on this start state.
- Navigation.Sidebar.SubmenuClick: event bubbling is reduced to a flag. The `closest('a')` test against the item's first link becomes `onMainLink`.
- The audio button's icon markup and `console.log` (js/main.js:545-553) are presentation and are not modelled.
