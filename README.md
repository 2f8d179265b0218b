# Site UI controllers, modelled in Dafny

This project models the stateful logic of the site script `src/js/script.js`
of a marketing web page, with the browser abstracted away:

- `GallerySlider` (module `Gallery`): an image carousel with a current slide
  index that wraps in both directions, a track offset and per-image
  `aria-hidden` attributes recomputed after every move, an autoplay interval
  that every navigation clears and re-arms, pause on `mouseenter`, resume on
  `mouseleave`, and navigation by the buttons, the arrow keys and horizontal
  swipes of more than 50px.
- `HeaderAutoHide` (module `Header`): the fixed header's `visible`/`hidden`
  classes driven by scroll samples. Moves under 10px are ignored; inside the
  hero region (one viewport height) the header is shown and any pending hide
  is cancelled; beyond it the header is shown and one hide timer is
  scheduled, which on firing hides the header if the page is then scrolled
  past the hero height captured when it was scheduled.
- `validateField` with `isValidEmail` and `isValidPhone` (module
  `FormValidation`): the contact form's field check, on the value after
  `String.prototype.trim`.
- `highlightActiveNavLink` (module `NavHighlight`) and the mobile menu toggle
  (module `MobileMenu`).

Timers are modelled by `Timers.TimerTable`: the set of armed timers of one
controller, each with the value its callback captured, and fresh positive
handles. There is no clock. Each timer's callback is a method that a caller
may invoke only for an armed timer (`OnAutoPlayTick`, `OnHideTimeout`).
Scroll offsets, the viewport height, touch coordinates and key names are
parameters of the methods that handle the corresponding events.

Behaviour of the code that the model keeps as written:

- Autoplay uses `setInterval`. Every tick goes through `nextSlide`, which
  clears the interval and arms a new one, so each navigation restarts the
  cadence.
- `resetAutoPlay` clears the interval but keeps the stale handle. This is
  never observable: while playing the handle is overwritten at once, and
  while paused it is already `null` (`Valid` states this: playing exactly
  when a handle is held).
- `resumeAutoPlay` arms a new interval without clearing one that is already
  armed. After a `mouseleave` that did not follow a `mouseenter`, two
  intervals run and the older one can no longer be cleared.
  `ResumeAutoPlay`'s postcondition shows this. Every other operation keeps
  the "one armed interval" property (`SingleTimer`).
- The swipe start coordinate is never reset, so a `touchend` without a new
  `touchstart` is measured from the previous gesture's start.
- The hide timer's handle is kept after the timer fires or is cleared.

A cleaner design for these controllers would use a one-shot autoplay timer,
re-armed after each tick. It would clear the swipe origin after each
gesture, cancel any armed interval before resuming, and never hide the
header inside the hero region. The code does not do these things, and the
model follows the code:

- Autoplay is an interval that navigation restarts.
- The swipe origin persists between gestures.
- Resuming does not cancel an interval that is already armed.
- The header can be hidden inside the hero region in two ways. Both are
  shown as scenarios:
  - A sample within 10px of the last one is ignored before the hero test,
    so a header hidden just below the hero height stays hidden after a
    small scroll back into the region (`JitterKeepsHeaderHiddenInHero`).
  - The hide timer compares the offset at fire time with the viewport
    height captured when the timer was scheduled, not the current one. If
    the viewport grows in between, the header hides inside the new hero
    region (`ResizeHidesHeaderInHero`).

## Model

| member | source | states |
|---|---|---|
| Timers.TimerTable.Schedule | src/js/script.js:177-179 | arming a timer returns a handle never used before and adds exactly it to the armed timers |
| Timers.TimerTable.Cancel | src/js/script.js:44-46 | clearing removes exactly that handle; an unarmed handle is ignored |
| Timers.TimerTable.Fire | src/js/script.js:62-68 | a one-shot timer that fires leaves the table and passes on the value its callback captured |
| JsMath.Abs | src/js/script.js:35 | the result is non-negative and equals the argument or its negation |
| Gallery.NextIndex | src/js/script.js:163 | the next index stays in range and wraps from the last slide to the first |
| Gallery.PrevIndex | src/js/script.js:169 | the previous index stays in range and wraps from the first slide to the last |
| Gallery.Step | src/js/script.js:120-143 | the index after a classified input stays in range, and a no-op request leaves it unchanged |
| Gallery.AdvancedWithinCycle | src/js/script.js:162-166 | within one cycle, k advances from i land on i + k, less the slide count once past the end |
| Gallery.AdvancedCompose | src/js/script.js:162-166 | a advances then b advances equal a + b advances |
| Gallery.FullCycleReturns | src/js/script.js:162-166 | as many advances as there are slides return to the start, and no shorter positive run does |
| Gallery.AdvancedPeriodic | src/js/script.js:162-166 | the slide shown after k advances repeats with period the slide count |
| Gallery.PrevUndoesNext | src/js/script.js:162-172 | previous undoes next and next undoes previous |
| Gallery.KeyAction | src/js/script.js:120-123 | ArrowLeft goes back, ArrowRight goes forward, every other key does nothing |
| Gallery.SwipeAction | src/js/script.js:133-144 | start minus end above 50 advances, below -50 goes back, between -50 and 50 inclusive does nothing |
| Gallery.GallerySlider.constructor | src/js/script.js:93-108 | a non-empty slider starts at slide 0, playing, with one armed interval and slide 0 rendered |
| Gallery.GallerySlider.UpdateSlider | src/js/script.js:147-160 | the track offset becomes -100 times the index; every slide image's aria-hidden becomes whether it is not the current slide; slides without an image are untouched |
| Gallery.GallerySlider.StartAutoPlay | src/js/script.js:174-180 | while playing, a fresh interval is armed and its handle kept; while paused nothing changes |
| Gallery.GallerySlider.ResetAutoPlay | src/js/script.js:195-202 | the held interval is cleared and, while playing, exactly one fresh one armed and held |
| Gallery.GallerySlider.NextSlide | src/js/script.js:162-166 | the index advances with wrap-around, the slider is re-rendered, the old interval is replaced by a fresh one while playing and nothing is armed while paused |
| Gallery.GallerySlider.PrevSlide | src/js/script.js:168-172 | the index goes back with wrap-around, with the same rendering and interval effects as NextSlide |
| Gallery.GallerySlider.Navigate | src/js/script.js:112-113 | a button press moves as requested; a no-op request changes nothing |
| Gallery.GallerySlider.OnKeyDown | src/js/script.js:120-123 | the index moves as KeyAction says; other keys leave index and timers unchanged |
| Gallery.GallerySlider.OnTouchStart | src/js/script.js:129-131 | the touch start coordinate is recorded |
| Gallery.GallerySlider.OnTouchEnd | src/js/script.js:133-144 | the index moves as SwipeAction of the recorded start says, and the start is kept |
| Gallery.GallerySlider.OnAutoPlayTick | src/js/script.js:177-179 | a tick of an armed interval advances the slide and re-arms autoplay |
| Gallery.GallerySlider.PauseAutoPlay | src/js/script.js:182-188 | playing stops, the handle becomes null, the held interval is cleared, and with a single interval nothing stays armed |
| Gallery.GallerySlider.ResumeAutoPlay | src/js/script.js:190-193 | playing resumes with a fresh interval added without clearing any; after a pause exactly one is armed, while already playing the old one stays armed too |
| Gallery.Mount | src/js/script.js:86-102 | a slider runs exactly when the track exists and there is at least one slide |
| Header.ClassifyScroll | src/js/script.js:33-56 | a move under 10px is ignored; otherwise the hero branch is taken exactly when the offset is at most the viewport height |
| Header.HeaderAutoHide.constructor | src/js/script.js:3-8 | the controller records the start-up scroll offset and holds no hide timer |
| Header.HeaderAutoHide.ShowHeader | src/js/script.js:78-81 | the header has visible and not hidden |
| Header.HeaderAutoHide.HideHeader | src/js/script.js:73-76 | the header has hidden and not visible |
| Header.HeaderAutoHide.HandleScroll | src/js/script.js:33-71 | jitter changes nothing; in the hero region the header is shown, no hide is pending and the offset recorded; beyond it the header is shown, exactly one fresh hide timer capturing the viewport height is pending, and the offset recorded; the two classes are never both set afterwards if they were not before |
| Header.HeaderAutoHide.OnHideTimeout | src/js/script.js:62-68 | only the latest scheduled timer can fire; afterwards none is pending; the header is hidden iff the offset at fire time exceeds the captured hero height, otherwise its classes are unchanged |
| Header.JitterKeepsHeaderHiddenInHero | src/js/script.js:33-38 | a header hidden at 1005px stays hidden after a sample at 996px with a 1000px viewport, because the 9px move is ignored before the hero test |
| Header.ResizeHidesHeaderInHero | src/js/script.js:49-68 | a hide timer scheduled with a 1000px viewport hides the header at 1100px, even if the viewport has meanwhile grown to 1200px |
| Header.Mount | src/js/script.js:10-12 | the controller runs exactly when the header element exists |
| FormValidation.IsSpace | src/js/script.js:472 | the definition is the statement: the characters JavaScript's \s matches, which are also those String.prototype.trim removes |
| FormValidation.TrimStart | src/js/script.js:432 | the result is a suffix of the input starting at a non-space, and all that was dropped is white space |
| FormValidation.TrimEnd | src/js/script.js:432 | the result is a prefix of the input ending at a non-space, and all that was dropped is white space |
| FormValidation.Trim | src/js/script.js:432 | the result is a slice of the input with white space only around it and none at its ends |
| FormValidation.TrimEmptyIffBlank | src/js/script.js:443 | the trimmed value is empty exactly when the raw value is all white space |
| FormValidation.TrimIdempotent | src/js/script.js:432 | trimming twice is trimming once |
| FormValidation.IsValidEmail | src/js/script.js:471-474 | the definition is the statement: some @ splits the string into a non-empty run of non-space, non-@ characters and a domain made of two such runs around a dot; EmailCharacterization restates it in plain terms |
| FormValidation.EmailPatternMeansShape | src/js/script.js:471-474 | a string the email pattern matches has no white space, exactly one @ with something before it, and a dot after it that is not next to the @ nor last |
| FormValidation.ShapeMeansEmailPattern | src/js/script.js:471-474 | every string of that shape matches the email pattern |
| FormValidation.EmailCharacterization | src/js/script.js:471-474 | the email pattern matches exactly the strings of that shape |
| FormValidation.IsValidPhone | src/js/script.js:476-479 | the definition is the statement: at least ten characters, each a digit, white space, -, (, ) or +; TelFieldVerdict ties it to the verdict |
| FormValidation.ErrorMessage | src/js/script.js:443-452 | the definition is the statement: the message shown for each failing rule |
| FormValidation.FirstFailure | src/js/script.js:443-454 | the verdict names the first rule in the order required, email, tel that fails, and is accepted exactly when none fails |
| FormValidation.ValidateField | src/js/script.js:431-455 | the same, applied to the trimmed value of the field |
| FormValidation.BlankOptionalFieldAccepted | src/js/script.js:443-454 | an optional field holding only white space is accepted |
| FormValidation.BlankRequiredFieldRejected | src/js/script.js:443-445 | a required field holding only white space is rejected as missing |
| FormValidation.VerdictIgnoresSurroundingSpace | src/js/script.js:432 | the verdict depends on the value only through its trimmed form |
| FormValidation.TelFieldVerdict | src/js/script.js:476-479 | a tel field is accepted iff it is blank and optional, or its trimmed value is at least ten digits, spaces, dashes, parentheses or plus signs |
| FormValidation.EmailFieldVerdict | src/js/script.js:446-448 | an email field is accepted iff it is blank and optional, or its trimmed value has the address shape |
| NavHighlight.LastCoveringFound | src/js/script.js:330-343 | a found section covers the probe and no later section does |
| NavHighlight.LastCoveringNone | src/js/script.js:330-343 | nothing is found only when no section covers the probe |
| NavHighlight.LastCovering | src/js/script.js:330-343 | the definition is the statement: the id of the last section, in document order, whose extent contains the probe position, or none; LastCoveringFound and LastCoveringNone characterise it |
| NavHighlight.Marked | src/js/script.js:336-341 | the definition is the statement: a link is active exactly when its href is # followed by the section id; MarkLinks is proved against it |
| NavHighlight.MarkLinks | src/js/script.js:336-341 | after the inner loop the link classes are exactly Marked |
| NavHighlight.HighlightActiveNavLink | src/js/script.js:327-344 | the links end up marked for the last section covering scrollY + 100, or unchanged if none covers it |
| MobileMenu.Menu.constructor | src/js/script.js:217 | the menu starts with the classes the markup gives |
| MobileMenu.Menu.Click | src/js/script.js:218-241 | the button flips both classes; a link clears both; a click elsewhere in the menu changes nothing; a click outside clears both if the menu was open; nav and button stay in step |

## Left out

- DOM queries, listener registration and the optional-chaining guards on the buttons and container (lines 87-91, 110-117). The listeners are the methods named `On…` and the callers of `Navigate`, `PauseAutoPlay` and `ResumeAutoPlay`.
- The `requestAnimationFrame` guard `ticking` (lines 20-30). `HandleScroll` is one atomic step.
- Millisecond delays (300, 4000, 2000): timers are abstract handles without a clock, so "not before the delay" is not stated. Which armed timer fires, and when, is the caller's choice.
- The write-only field `isScrolling` (lines 8, 41, 63).
- Fractional scroll offsets and pixel coordinates: browsers may report non-integer values; the model uses integers.
- UTF-16: JavaScript strings are UTF-16 code units and Dafny strings are Unicode scalar values. The patterns' character classes treat both alike, except that the length bound of `isValidPhone` counts scalar values. The two differ only on characters outside the Basic Multilingual Plane, and those already fail the phone class.
- `showFieldError`'s element creation and styling (lines 457-469): only the chosen rule and its message (`ErrorMessage`) are modelled. The `input` listener that re-validates only fields already marked with `error` (lines 424-428) is wiring.
- The `scrolled` header class at 100px and its write-only `lastScrollTop` (lines 267-281), the scroll-to-top button (lines 363-414), the parallax effect (floating point, lines 348-361), smooth anchor scrolling (lines 244-264), the IntersectionObserver animations (lines 283-301), the submit button reset (lines 303-321) and the injected style sheet (lines 481-508): presentation or foreign browser APIs.
- `debounce` and `debouncedScroll` (lines 511-527): never attached to an event, with an empty callback.
- The initial classes of the header and of the menu come from the markup and are constructor parameters. So `Exclusive` and `InStep` are shown to be preserved, and `HandleScroll` is shown to establish `Exclusive` on every sample it does not ignore, rather than assumed from the start.
