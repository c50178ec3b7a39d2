# Carousels, image probe and form validation of the diagnostic-center site script

This project models the stateful core of `assets/js/script.js`, the one
script behind a diagnostic center's marketing homepage, and proves
properties of that model. It covers three parts.

- **The carousels.** There are four of them:
  - the hero background slider, with previous/next buttons, one dot per
    slide, and a hover pause;
  - the testimonials slider, with a row of `.slider-btn` buttons, counted
    apart from the items, and a permanent auto-advance;
  - the popular-tests and why-choose-us card carousels. These page through
    their cards, showing 1, 2 or 4 (resp. 3) cards per view depending on
    the window width. They have previous/next buttons, a hover pause and a
    debounced resize handler.

  Each slider's closure state (`currentIndex`, the `slideInterval` handle,
  the pending resize) is a class whose methods are the event handlers. The
  browser's repeating timers are modelled as the set of running interval
  ids plus the id held in the handle (module `Intervals`). Because of that,
  an interval that the handle no longer names stays visible.
- **The hero image probe.** For each slide the probe tries
  `assets/images/hero-slider/image<n>.<format>` for jpg, jpeg, png and webp,
  in that order, and keeps the first path that loads. Slides for which no
  path loads are dropped. The slider is set up only when at least one slide
  is left. Whether a path loads is a parameter, `loads: string -> bool`.
- **Form validation.** `validateField` runs three checks on a field:
  - the required check, on the trimmed value;
  - the email pattern `^[^\s@]+@[^\s@]+\.[^\s@]+$`, which the model decides
    by an explicit split proved equal to the pattern;
  - the ten-digit phone pattern, applied after deleting whitespace.

  `validateForm` validates every required field without stopping at the
  first failure.

Modules: `Rotation` (wrap-around index steps), `Paging` (cards per view,
page count, card steps), `Intervals` (timers), `ImageProbe`, `Hero`,
`Testimonials`, `Cards` (both card carousels, which differ only in their
desktop cards per view), `Validation`, and `Options`.

### Behaviour worth knowing

- **Two timers can run at once.** `mouseleave` starts an interval without
  clearing the one the handle names (`assets/js/script.js:258-261`,
  `427-430`), and a click re-arms the timer (`224-226`, `409-411`). Explicit navigation during a hover
  re-arms the timer, so hover, click next and leave leave two intervals
  running (`Hero.HoverClickLeaveLeaks`, `Cards.HoverClickLeaveLeaks`).
  Nothing can stop the leaked interval (`Intervals.LeakedIntervalSurvives`).
- **A resize always starts a timer.** The card carousels' debounced resize
  handler calls `resetAutoSlide` unconditionally (`438-441`). A timer then runs even
  when every card fits in one view (`Cards.ResizeArmsStaticCarousel`).
- **Explicit navigation always arms the timer.** This holds even with a
  single hero slide or a single card page (`Hero.HeroSlider.ClickNext`,
  `Hero.HeroSlider.ClickDot`, `Cards.CardSlider.ClickNext` ensure `Armed`).
- **The testimonial index can point past the last item.** The testimonial
  buttons are counted apart from the items, so a button can select an item
  that does not exist (`320-325`) (`Testimonials.TestimonialSlider.ClickButton`).

## Model

| member | source | states |
|---|---|---|
| Rotation.NextIndex | assets/js/script.js:197-200 | the next slide is always in `[0, n)`: `i + 1` when that exists, 0 after the last |
| Rotation.PrevIndex | assets/js/script.js:202-205 | the previous slide is always in `[0, n)`: `i - 1`, or the last slide from slide 0 |
| Rotation.PrevUndoesNext | assets/js/script.js:197-205 | a previous step undoes a next step |
| Rotation.NextUndoesPrev | assets/js/script.js:197-205 | a next step undoes a previous step |
| Rotation.AdvanceInRange | assets/js/script.js:197-200 | any number of next steps stays in range |
| Rotation.AdvanceAdds | assets/js/script.js:197-200 | `a` next steps followed by `b` next steps are `a + b` next steps |
| Rotation.AdvanceWithoutWrap | assets/js/script.js:197-200 | `k` next steps that do not pass the last slide reach slide `i + k` |
| Rotation.AdvanceIsModularSum | assets/js/script.js:197-200 | `k` next steps from `i` reach `(i + k) mod n` |
| Rotation.FullCycleForward | assets/js/script.js:197-200 | `n` next steps return to the starting slide |
| Rotation.RetreatUndoesAdvance | assets/js/script.js:197-205 | `k` previous steps undo `k` next steps |
| Rotation.RetreatFirst | assets/js/script.js:202-205 | the first of `k + 1` previous steps can be taken first |
| Rotation.FullCycleBackward | assets/js/script.js:202-205 | `n` previous steps return to the starting slide |
| Paging.DesktopCardsPerView | assets/js/script.js:350-355 | a desktop view shows 4 popular tests (line 354) and 3 why-choose-us cards (line 470) |
| Paging.CardsPerView | assets/js/script.js:350-355 | `getCardsPerView` is never 0 and at most the desktop count; it is 1 exactly up to 768 px, 2 from 769 to 1024 px, and the desktop count exactly above 1024 px |
| Paging.CardsPerViewMonotone | assets/js/script.js:466-471 | a wider window never shows fewer cards per view |
| Paging.Pages | assets/js/script.js:376 | `ceil(n / v)` pages hold all `n` cards, and dropping a page would not |
| Paging.PagesBounds | assets/js/script.js:376 | there is no page exactly when there is no card, and never more pages than cards |
| Paging.MorePagesIffOverflow | assets/js/script.js:446-448 | there is more than one page (`maxIndex > 0`) exactly when `n > cardsPerView`, the condition that arms auto-advance |
| Paging.OnePerViewPages | assets/js/script.js:352 | on mobile each card is a page |
| Paging.PageStartsOnACard | assets/js/script.js:376 | every page begins at a card that exists |
| Paging.CardNext | assets/js/script.js:375-381 | with at least one card the next page exists; it is page 0 when there is at most one page, otherwise the following page, wrapping from the last to 0 |
| Paging.CardPrev | assets/js/script.js:387-393 | with at least one card the previous page exists; it is page 0 when there is at most one page, otherwise the preceding page, wrapping from 0 to the last |
| Paging.CardStepsInRange | assets/js/script.js:374-396 | the card carousels' next and previous steps land in `[0, pages - 1]` from any starting index, and on page 0 when there is at most one page |
| Paging.CardStepsArePageRotation | assets/js/script.js:490-512 | with at least one card, the guarded card steps are `(i + 1) mod pages` and `(i - 1 + pages) mod pages` |
| Paging.CardPrevUndoesNext | assets/js/script.js:374-396 | over the pages, a card previous step undoes a card next step and vice versa |
| Paging.CardFullCycle | assets/js/script.js:374-384 | `pages` card next steps return to the starting page |
| Paging.CardAdvanceIsAdvance | assets/js/script.js:374-384 | `k` card next steps are `k` wrap-around steps over the pages |
| Paging.DesktopOffset | assets/js/script.js:369 | the desktop track offset `-index * cardWidth * cardsPerView` is 0 on page 0 and never moves the track right |
| Paging.DesktopOffsetPerPage | assets/js/script.js:368-371 | the desktop track offset moves left by one view of cards per page, and page `i` starts at card `i * v` |
| Intervals.SetInterval | assets/js/script.js:213-215 | `setInterval` starts one more interval with a fresh id, and the handle names it; earlier intervals keep running |
| Intervals.ClearInterval | assets/js/script.js:254-256 | `clearInterval` stops only the interval the handle names; after it nothing is armed, and with no leak nothing runs |
| Intervals.Reset | assets/js/script.js:217-220 | `resetAutoSlide` leaves the timer armed and does not change the number of running intervals when one was armed |
| Intervals.SetIntervalSingleIff | assets/js/script.js:258-261 | starting an interval keeps a single one running exactly when none ran before |
| Intervals.ClearAndResetKeepSingle | assets/js/script.js:217-220 | clearing and resetting never add a second running interval |
| Intervals.LeakedIntervalSurvives | assets/js/script.js:213-220 | an interval the handle no longer names survives every later clear, reset and start |
| ImageProbe.ProbeFromIsFirst | assets/js/script.js:95-115 | the format-by-format probe finds a path exactly when some format loads, and then it is the earliest format's path |
| ImageProbe.CheckImageExists | assets/js/script.js:91-119 | `checkImageExists` resolves with the path of the first of jpg, jpeg, png, webp that loads, or with null when none does |
| ImageProbe.ValidSlidesExactly | assets/js/script.js:125-146 | a slide is kept with a path exactly when its `data-image` is non-empty and its probe resolves with that path |
| ImageProbe.ValidSlidesOrdered | assets/js/script.js:136-146 | kept slides are real slides, in document order |
| ImageProbe.LoadAvailableSlides | assets/js/script.js:122-146 | `loadAvailableSlides` keeps exactly the valid slides, in order |
| Hero.HeroSlider.constructor | assets/js/script.js:244-249 | slide 0 is active, and auto-advance is armed exactly when there is more than one slide |
| Hero.HeroSlider.Tick | assets/js/script.js:213-214 | a firing advances to the next slide and leaves the timers alone |
| Hero.HeroSlider.ClickNext | assets/js/script.js:223-228 | the next button advances the slide and resets the timer, which is then armed |
| Hero.HeroSlider.ClickPrev | assets/js/script.js:230-235 | the previous button steps back and resets the timer, which is then armed |
| Hero.HeroSlider.ClickDot | assets/js/script.js:207-211 | dot `k` makes slide `k` active and resets the timer |
| Hero.HeroSlider.MouseEnter | assets/js/script.js:254-256 | entering stops the handle's interval and keeps the slide; with no leak, no interval runs |
| Hero.HeroSlider.MouseLeave | assets/js/script.js:258-262 | leaving starts one more interval when there is more than one slide, without stopping any |
| Hero.InitHero | assets/js/script.js:122-175 | the slider is set up over exactly the valid slides, and not at all when there are none |
| Hero.HoverClickLeaveLeaks | assets/js/script.js:252-263 | hover, click next, leave: two intervals run and the slide advanced once |
| Hero.HoverLeaveKeepsOne | assets/js/script.js:252-263 | hover and leave with no click keep exactly one interval running |
| Testimonials.TestimonialSlider.constructor | assets/js/script.js:328-335 | testimonial 0 is active, and the interval runs exactly when there is more than one testimonial |
| Testimonials.TestimonialSlider.ClickButton | assets/js/script.js:320-325 | button `k` selects index `k`, which shows a testimonial exactly when `k < n` |
| Testimonials.TestimonialSlider.Tick | assets/js/script.js:329-332 | a firing advances with wrap-around and always shows a testimonial |
| Testimonials.InitTestimonials | assets/js/script.js:297-336 | nothing is set up exactly when there are no testimonials; otherwise testimonial 0 is active, every button is usable, and the interval runs exactly when there is more than one testimonial |
| Cards.CardSlider.constructor | assets/js/script.js:445-448 | page 0 is shown, and auto-advance is armed exactly when the cards fill more than one page |
| Cards.CardSlider.ClickNext | assets/js/script.js:374-384 | the next button takes the guarded next step over the pages at the current width, and resets the timer |
| Cards.CardSlider.ClickPrev | assets/js/script.js:386-396 | the previous button takes the guarded previous step, and resets the timer |
| Cards.CardSlider.Tick | assets/js/script.js:398-400 | a firing calls `nextSlide`, which resets the timer; a leaked interval keeps running |
| Cards.CardSlider.MouseEnter | assets/js/script.js:423-425 | entering stops the handle's interval and keeps the page |
| Cards.CardSlider.MouseLeave | assets/js/script.js:427-431 | leaving starts one more interval when the cards do not fit in one view |
| Cards.CardSlider.Resize | assets/js/script.js:436-438 | a resize changes the width and schedules the debounced handler; the page and the timers wait |
| Cards.CardSlider.ResizeSettled | assets/js/script.js:438-442 | the debounced handler returns to page 0 and resets the timer unconditionally |
| Cards.InitCards | assets/js/script.js:345-448 | nothing is set up exactly when there are no cards; otherwise page 0 is shown at the current width, no resize is pending, and auto-advance is armed exactly when `n > cardsPerView` |
| Cards.HoverClickLeaveLeaks | assets/js/script.js:420-432 | hover, click next, leave: two intervals run, and still two after a firing of the leaked one |
| Cards.ResizeArmsStaticCarousel | assets/js/script.js:434-448 | three cards at four per view start no timer, but a settled resize starts one, and its firing stays on page 0 |
| Validation.TrimStartSuffix | assets/js/script.js:635 | trimming the start removes a run of whitespace and keeps a suffix that does not start with whitespace |
| Validation.TrimEndPrefix | assets/js/script.js:635 | trimming the end removes a run of whitespace and keeps a prefix that does not end with whitespace |
| Validation.TrimEmptyIffBlank | assets/js/script.js:635 | the trimmed value is empty exactly when the value is all whitespace; otherwise it starts and ends with non-whitespace |
| Validation.TrimIdempotent | assets/js/script.js:635 | trimming twice is trimming once |
| Validation.Trim | assets/js/script.js:635 | `value.trim()`, trimming the start then the end; characterised by `TrimStartSuffix`, `TrimEndPrefix` and `TrimEmptyIffBlank` |
| Validation.RemoveWhitespace | assets/js/script.js:665 | `value.replace(/\s+/g, '')`; characterised by `RemoveWhitespaceSpec` and `RemoveWhitespaceAppend` |
| Validation.PhoneShaped | assets/js/script.js:664 | `/^[0-9]{10}$/`: exactly ten ASCII digits |
| Validation.MatchesEmailPattern | assets/js/script.js:655 | `/^[^\s@]+@[^\s@]+\.[^\s@]+$/` read as a split into three non-empty runs of non-whitespace, non-`@` characters around an `@` and a later `.`; equal to `EmailShaped` by `EmailShapedIffPattern` |
| Validation.RemoveWhitespaceSpec | assets/js/script.js:665 | deleting whitespace leaves no whitespace and never lengthens; it leaves a string without whitespace unchanged |
| Validation.RemoveWhitespaceAppend | assets/js/script.js:665 | deleting whitespace works piecewise over a concatenation |
| Validation.EmailShapedMatches | assets/js/script.js:655-656 | a string the email decision procedure accepts matches the email pattern |
| Validation.PatternIsEmailShaped | assets/js/script.js:655-656 | a string matching the email pattern is accepted by the decision procedure |
| Validation.EmailShapedIffPattern | assets/js/script.js:655-656 | the email decision procedure and the pattern agree on every string |
| Validation.AtMostOneCheckFails | assets/js/script.js:647-669 | at most one of the required, email and phone checks fails on any field |
| Validation.BlankOptionalFieldValid | assets/js/script.js:647-669 | an optional field left blank is valid whatever its type |
| Validation.PhoneFailsIff | assets/js/script.js:663-668 | a non-blank tel field fails exactly when its value, with whitespace deleted, is not ten digits |
| Validation.TrimKeepsNonWhitespace | assets/js/script.js:665 | for the phone check, trimming first makes no difference |
| Validation.BlankPrefixRemoved | assets/js/script.js:665 | leading whitespace vanishes when whitespace is deleted |
| Validation.BlankSuffixRemoved | assets/js/script.js:665 | trailing whitespace vanishes when whitespace is deleted |
| Validation.AllWhitespaceRemoved | assets/js/script.js:665 | deleting the whitespace of a blank string leaves nothing |
| Validation.ValidateField | assets/js/script.js:634-681 | the field is valid exactly when no check fails; a valid field has no message, and a failing check's message is the one left |
| Validation.RequiredFields | assets/js/script.js:623 | `validateForm` selects exactly the form's required fields: a field is selected iff it is in the form and required |
| Validation.RequiredFieldsStep | assets/js/script.js:623 | the selection keeps document order: one more field extends it by that field exactly when the field is required |
| Validation.FormValidIff | assets/js/script.js:621-632 | the form is valid exactly when every required field is valid |
| Validation.ValidateForm | assets/js/script.js:621-632 | every required field is validated and marked exactly when it fails, and the result is true exactly when all pass |
| Validation.ErrorMarksMeaning | assets/js/script.js:625-629 | the `k`-th mark is set exactly when the `k`-th required field fails |
| Validation.OptionalFieldIgnored | assets/js/script.js:623 | a field without `required` never changes the form's result, even when its content is malformed |

## Left out

- DOM effects are not modelled: `classList` toggling, `style` writes, `innerHTML`, and creating the dot buttons. The active slide, dot or button is the one at `index`.
- Real time is not modelled: the 5000 ms interval and the 250 ms debounce. Firings are explicit `Tick` calls, and the debounce is `Resize` followed by `ResizeSettled`.
- The mobile centring offset of `updateSlider` is left out, because it depends on layout measurements and fractional pixels. Only the desktop formula is modelled (`Paging.DesktopOffset`).
- The asynchronous loading is left out: `new Image`, `onload`/`onerror` and `Promise.all`. `ImageProbe.LoadAvailableSlides` does in one ordered loop what the source does with a list of promises and a loop over the results; the kept slides and their order are the same.
- Whether a path loads is a parameter, since it is the browser's behaviour.
- The whitespace set is the code point set of JavaScript's `\s` and `trim`. Strings are sequences of characters, so UTF-16 surrogates and other encoding details are left out.
- Menu toggling, smooth scrolling, the upload button, the date `min`, the WhatsApp and `tel:` links, scroll-to-top and logo display are browser glue and are not modelled.
- The hero and testimonial sliders have no resize handler, and the card carousels have no dots. The model adds no `goTo` or `resize` method that the source lacks.
- The testimonial interval is never cleared and has no hover pause, so it is a flag set at construction.
- A missing container element (`!slider`, a missing `.hero`, `.tests-slider-container` or button) makes the source skip set-up or a handler. This is left out: the model assumes every element is present except the items counted.
- `field.name || field.id` is computed by `validateField` but never used, so it is left out. So is showing the message, which is a DOM effect.
- Paging.Pages: `Math.ceil(n / v)` is computed in floating point. The model uses the exact ceiling, which agrees for any realistic card count.
- Hero.HeroSlider.Tick: requires the firing interval to be live. This is the only way the browser calls it.
- Testimonials.TestimonialSlider.Tick: requires the interval to have been started, which happens only when there is more than one testimonial.
