# Power Technology site scripts — a Dafny model

The Power Technology marketing site drives its pages with small integer-indexed UI state
machines written in browser JavaScript:

- hero sliders that wrap around;
- an exclusive tab switcher;
- card carousels that clamp their index;
- a case-study slider that locks itself while a transition runs;
- the site-wide chrome: active navigation entry, a navbar that hides and reveals on scroll,
  dropdowns, the mobile menu, and the contact panel with its focus trap.

This project models each of these in Dafny and proves the properties the scripts rely on.

Each element class or boolean ARIA attribute of a NodeList (`is-active`, `is-exiting`,
`aria-selected`, `is-open`, `aria-expanded`) is an `array<bool>` with one entry per element.
A closed-over `let` variable of an `init…` function becomes a field of a class. Every event
handler becomes a method of that class. Everything the browser measures is passed to the
handler as a number: card widths, computed gaps, track widths and heights, `scrollY`, hero
heights and bounding rectangles.

## Modules

- `Wrappers`: `Option`.
- `Flags`: the flag vectors `Only(n, k)` and `Cleared(n)`, the `forEach` loops that produce them, and counting lemmas ("exactly one", "at most one").
- `Autoplay`:
  - The shared `startAutoplay`/`stopAutoplay` pattern.
  - The `autoplayTimer` variable is paired with the set of intervals the browser still has live for the component.
  - The model proves that at most one interval is ever live, that stop is idempotent, and that reset is the same as start.
- `Slides`: the wrap policy of the hero sliders (`(i + 1) % n` and `(i - 1 + n) % n`), and the hero's on-screen test for arrow keys.
- `Carousel`:
  - The clamp policy, with the formulas `visible = max(1, floor((viewport + gap) / (cardW + gap)))`, `maxIndex = max(0, total - visible)`, the clamp itself, swipe and autoplay steps, and the proportional progress bar.
  - One class `CardCarousel` for the four textual copies of the carousel: `initCarousel` in home-alt.js and in home.js, `initCompaniesCarousel` in impact.js, and `initBizImpactCarousel` in home-v2.js.
  - The copies differ only in a `Config`: default card width and gap, whether autoplay runs, and whether a missing progress bar disables the carousel.
  - `HomeAlt.CarouselConfig`, `Home.CarouselConfig`, `Impact.CarouselConfig` and `HomeV2.CarouselConfig` hold each page's constants.
- `Tabs`: `initTabs`, which is the same text in home-alt.js and home.js, as class `TabSwitcher`.
- `HomeAlt`: the home-alt.js hero slider, whose vertical progress bar fills `(i + 1) / n` of the track with a 20px floor.
- `Home`: the home.js hero slider, with dash indicators, dash jumps and swipe.
- `Impact`, `HomeV2`: the page constants of their carousels.
- `ImpactV2`: the impact-v2.js case-study slider. It has a transition lock, mirrored 40px entry and exit offsets, and arrows, keys and swipes that do not wrap while autoplay does.
- `ActiveNav`: `initActiveNav` from main.js. It covers the last path segment, the page-to-link rules and the highlighting loops.
- `Chrome`: the rest of main.js. It covers the navbar decision, the dropdowns, the mobile menu, the contact panel and the focus trap.

The delayed callbacks are explicit events the caller fires:

- the autoplay tick (`AutoplayTick`; it requires a live interval);
- the 1000ms `is-exiting` cleanup of the hero sliders (`ExitCleanup`);
- the 600ms end of a case-study transition (`FinishTransition`);
- the 150ms delayed panel open (`DelayedPanelOpen`).

One animation frame of the navbar's scroll handler is one call of `ScrollFrame`.

## Model

| member | source | states |
|---|---|---|
| Flags.CountOnly | js/home-alt.js:148-151 | A `toggle(cls, i === k)` loop leaves exactly one flagged element when `k` is an index, and none otherwise. |
| Flags.CountCleared | js/main.js:131-137 | After every flag is removed, no element carries it. |
| Flags.AtMostOneIffCount | js/main.js:149-162 | "At most one dropdown open" and "open count at most one" are the same statement. |
| Flags.CountZeroIffCleared | js/main.js:131-137 | The count is zero exactly when no element carries the flag. |
| Flags.OnlyAtMostOne | js/home.js:59-63 | The vectors produced by the marking loops never flag two elements. |
| Flags.MarkOnly | js/home.js:59-63 | After the `forEach`, element `k` and only `k` carries the flag. |
| Flags.ClearAll | js/main.js:131-137 | After the loop, no element carries the flag. |
| Flags.ClearWithin | js/main.js:213-219 | The flags inside the container are removed, and the other elements keep theirs. |
| Autoplay.Stop | js/home-alt.js:74-79 | A stop clears the live interval and leaves the handle null. |
| Autoplay.Start | js/home-alt.js:69-72 | A start clears the previous interval and then schedules one new interval, which is then the only live one. |
| Autoplay.AtMostOneLive | js/impact.js:62-81 | A valid timer never has two live intervals. |
| Autoplay.StopIdempotent | js/impact-v2.js:142-147 | Stopping twice is stopping once. |
| Autoplay.StartTwiceLeavesOne | js/home.js:65-68 | Two starts in a row leave one live interval, and the first start's interval is no longer live. |
| Autoplay.ResetIsStart | js/impact.js:83-86 | `resetAutoplay` (stop, then start) has the same effect as a start. |
| Slides.Next | js/home-alt.js:49-52 | The next index stays in `[0, n)`: one step forward, and from the last slide to the first. |
| Slides.Prev | js/home-alt.js:54-57 | The previous index stays in `[0, n)`: one step back, and from the first slide to the last. |
| Slides.PrevNextInverse | js/home.js:49-57 | Prev undoes Next, and Next undoes Prev. |
| Slides.SingleSlideSteps | js/home-alt.js:31 | With one slide, both steps target the current slide, so `goToSlide` ignores them. |
| Slides.Advance | js/home-alt.js:71 | Repeated ticks keep the index in range. |
| Slides.AdvanceFromFirst | js/home-alt.js:49-52 | `k` steps from slide 0 land on slide `k mod n`. |
| Slides.AdvanceFullCycle | js/home.js:49-52 | `n` steps forward return to the starting slide. |
| Slides.AdvanceShift | js/home.js:49-52 | `k` steps from slide `i` land where `i + k` steps from slide 0 land. |
| Slides.HeroInViewIffSharedRow | js/home-alt.js:102-105 | Arrow keys are ignored without a hero. With a hero (its top not below its bottom) and a window of non-negative height, they act exactly when the hero and the window share a row of the page, edges included. |
| Slides.ArrowKeysSplit | js/home-alt.js:107-115 | The four arrow keys split into the forward keys (ArrowRight, ArrowDown) and the backward keys (ArrowLeft, ArrowUp). No key is in both sets, and no other key is in either, so any other key leaves the slider alone. |
| Carousel.FitCount | js/home-alt.js:215 | At least one card is visible. The visible cards, with their gaps, fit the viewport unless a single card is wider than it. One more card does not fit. |
| Carousel.CardMetrics | js/home-alt.js:208-217 | With no card, the metrics are the page defaults with 3 visible. Otherwise the card width is measured, a NaN or 0 gap falls back to the default, and `visible >= 1`. |
| Carousel.MaxIndex | js/home-alt.js:221 | `maxIndex` (`max(0, total - visible)`) is 0 when all cards fit; otherwise the last window ends on the last card. |
| Carousel.WindowsStayOnCards | js/home.js:230 | Every window up to `maxIndex` is filled with cards, unless all cards fit at once. |
| Carousel.Clamp | js/home-alt.js:223-224 | The result lies in `[0, maxIndex]`. A value already inside is kept, and a value outside goes to the nearer end. |
| Carousel.ClampIsNearest | js/impact.js:44-45 | No index inside the bounds is closer to the input than the clamped one. |
| Carousel.ClampIdempotent | js/home-v2.js:43-44 | Re-clamping an index under the same bound changes nothing. |
| Carousel.SwipeStep | js/home-alt.js:296-303 | A swipe moves at most one card. Forward needs `diff > 0` and room to go forward; back needs `diff < 0` and room to go back. The result stays in bounds. |
| Carousel.AutoplayStep | js/home-alt.js:246-251 | The tick result never passes `maxIndex`. |
| Carousel.AutoplayStepWraps | js/impact.js:67-71 | Inside the bounds, a tick is the wrap-around successor over the `maxIndex + 1` windows. |
| Carousel.AutoplayRun | js/impact.js:64-73 | After any positive number of ticks, the index is within bounds. |
| Carousel.AutoplayRunFromFirst | js/home-alt.js:243-253 | From window 0, `k` ticks show window `k mod (maxIndex + 1)`, so every window is visited in turn. |
| Carousel.Progress | js/home-alt.js:234 | The fraction is 0 when `maxIndex <= 0` and otherwise lies in `[0, 1]`. It is 0 exactly at the first window and 1 exactly at the last. |
| Carousel.BarWidth | js/home-alt.js:235-237 | The bar is 60px at progress 0 and the full track at progress 1. On a track at least 60px wide it always lies between the two. |
| Carousel.BarWidthMonotone | js/impact.js:55-58 | A later window never draws a shorter bar, on a track at least 60px wide. |
| Carousel.CardCarousel.constructor | js/home-alt.js:324-326 | The first window is drawn, and autoplay starts where the page has it. The touch start coordinate starts at 0. |
| Carousel.CardCarousel.UpdateCarousel | js/home-alt.js:219-238 | The index is re-clamped into `[0, maxIndex]` under the measured layout. The offset, the disabled flags (prev iff index 0, next iff index `>= maxIndex`) and the bar width then agree with it. |
| Carousel.CardCarousel.StartAutoplay | js/home-alt.js:241-253 | The timer becomes `Start` of the old timer, and the view is untouched. |
| Carousel.CardCarousel.StopAutoplay | js/home-alt.js:255-260 | The timer becomes `Stop` of the old timer, and the view is untouched. |
| Carousel.CardCarousel.ResetAutoplay | js/home-alt.js:262-265 | Stop followed by start equals a start. |
| Carousel.CardCarousel.AutoplayTick | js/home-alt.js:243-252 | The index becomes `AutoplayStep` under the bound measured now, and the view is redrawn. |
| Carousel.CardCarousel.PrevClick | js/home-alt.js:268-274 | At index 0 nothing changes. Otherwise the index steps back by one, the view is redrawn, and autoplay restarts where present. |
| Carousel.CardCarousel.NextClick | js/home-alt.js:276-284 | Below the current bound, the index steps forward by one, the view is redrawn, and autoplay restarts. Otherwise nothing changes. |
| Carousel.CardCarousel.TouchStart | js/home-alt.js:288-291 | The start x is recorded, and autoplay is stopped where present. |
| Carousel.CardCarousel.TouchEnd | js/home-alt.js:293-306 | Travel of 50px or less changes nothing. A longer swipe applies `SwipeStep` and redraws. Autoplay restarts in both cases where present. |
| Tabs.IndicatorWidth | js/home-alt.js:154 | Each tab's share of the bar is in `(0, 100]`, and the shares add up to 100%. |
| Tabs.IndicatorLeft | js/home-alt.js:155-157 | The indicator of any tab lies inside the bar. |
| Tabs.TabSwitcher.constructor | js/home-alt.js:186-187 | Initialising activates tab 0. If the markup already shows panel 0, its classes stay as written. |
| Tabs.TabSwitcher.ActivateTab | js/home-alt.js:143-179 | Re-activating the shown tab is a no-op. Otherwise, exactly tab `i` is active and `aria-selected`, exactly panel `i` (when it exists) is active, and the indicator sits under tab `i`. |
| Tabs.TabSwitcher.MarkTab | js/home.js:158-161 | The tab loop sets `is-active` and `aria-selected` on tab `i` only. |
| HomeAlt.EmptyTrackMetrics | js/home-alt.js:210 | Without cards, the carousel assumes three 380px cards with a 32px gap. |
| HomeAlt.ProgressHeight | js/home-alt.js:59-67 | The height is never below 20px and never above the track unless it is exactly the floor. On the last slide it is the whole track, or 20px on a shorter track. |
| HomeAlt.ProgressHeightMonotone | js/home-alt.js:62-65 | A later slide never shows a shorter bar. |
| HomeAlt.HeroSlider.constructor | js/home-alt.js:125-127 | Slide 0 is shown and nothing is exiting. With a progress bar, the bar is drawn on the measured track at `ProgressHeight(0, total, measured)`. One autoplay interval is live. |
| HomeAlt.HeroSlider.UpdateProgress | js/home-alt.js:59-67 | When both bar and track exist, the bar height is `ProgressHeight` of the current slide. Otherwise nothing changes. |
| HomeAlt.HeroSlider.GoToSlide | js/home-alt.js:30-47 | On the current index, a no-op. Otherwise the old slide loses `is-active` and gains `is-exiting` with its cleanup scheduled, the new slide is the only active one, other slides are unchanged, and the bar is redrawn. |
| HomeAlt.HeroSlider.NextSlide | js/home-alt.js:49-52 | Moves to `Slides.Next` of the current slide. |
| HomeAlt.HeroSlider.PrevSlide | js/home-alt.js:54-57 | Moves to `Slides.Prev` of the current slide. |
| HomeAlt.HeroSlider.StartAutoplay | js/home-alt.js:69-72 | The timer becomes `Start`; slides are untouched. This method is also the mouseleave handler. |
| HomeAlt.HeroSlider.StopAutoplay | js/home-alt.js:74-79 | The timer becomes `Stop`; slides are untouched. This method is also the mouseenter handler. |
| HomeAlt.HeroSlider.NextClick | js/home-alt.js:82-89 | The next arrow moves to the next slide and restarts autoplay. |
| HomeAlt.HeroSlider.PrevClick | js/home-alt.js:91-98 | The prev arrow moves to the previous slide and restarts autoplay. |
| HomeAlt.HeroSlider.KeyDown | js/home-alt.js:101-116 | With the hero in view, ArrowRight and ArrowDown go next, and ArrowLeft and ArrowUp go prev, each restarting autoplay. Any other key, or a hero out of view, changes nothing. |
| HomeAlt.HeroSlider.AutoplayTick | js/home-alt.js:71 | A live interval moves to the next slide. |
| HomeAlt.HeroSlider.ExitCleanup | js/home-alt.js:38-40 | A pending cleanup removes `is-exiting` from the slide it captured, even if that slide has since become active again. |
| Home.CarouselNeverAutoplays | js/home.js:215-217 | The home.js carousel has no autoplay, so a well-formed carousel with its configuration keeps the idle timer with no live interval. Its progress bar is optional, and its default metrics are three 380px cards with a 32px gap. |
| Home.HeroSwipe | js/home.js:122-131 | Travel of 50px or less does nothing. A leftward swipe goes to the next slide, and a rightward one to the previous, both wrapping. |
| Home.SwipeThereAndBack | js/home.js:122-131 | A long swipe followed by the opposite swipe returns to the starting slide. |
| Home.HeroSlider.constructor | js/home.js:135-137 | Slide 0 and dash 0 are active, nothing is exiting, and one autoplay interval is live. The touch start coordinate starts at 0. |
| Home.HeroSlider.GoToSlide | js/home.js:28-47 | The same hand-off as on home-alt. Afterwards exactly the dash at the new index is active. |
| Home.HeroSlider.NextSlide | js/home.js:49-52 | Moves to `Slides.Next` of the current slide. |
| Home.HeroSlider.PrevSlide | js/home.js:54-57 | Moves to `Slides.Prev` of the current slide. |
| Home.HeroSlider.StartAutoplay | js/home.js:65-68 | The timer becomes `Start`; slides are untouched. |
| Home.HeroSlider.StopAutoplay | js/home.js:70-75 | The timer becomes `Stop`; slides are untouched. |
| Home.HeroSlider.DashClick | js/home.js:78-86 | A dash jumps to its `data-slide` only when that differs from the current slide, and then restarts autoplay. Otherwise nothing changes. |
| Home.HeroSlider.NextClick | js/home.js:89-94 | The next arrow moves to the next slide and restarts autoplay. |
| Home.HeroSlider.KeyDown | js/home.js:97-112 | The same key rules and in-view test as on home-alt. |
| Home.HeroSlider.TouchStart | js/home.js:118-120 | The start x is recorded; nothing else changes. |
| Home.HeroSlider.TouchEnd | js/home.js:122-131 | The slide becomes `HeroSwipe`'s target, with an autoplay restart, or nothing changes when there is no target. |
| Home.HeroSlider.AutoplayTick | js/home.js:67 | A live interval moves to the next slide. |
| Home.HeroSlider.ExitCleanup | js/home.js:37-39 | A pending cleanup removes `is-exiting` from the slide it captured. |
| Impact.EmptyTrackMetrics | js/impact.js:29-31 | Without cards, the carousel assumes three 360px cards with a 24px gap. |
| HomeV2.EmptyTrackMetrics | js/home-v2.js:26-28 | Without cards, the carousel assumes three 411px cards with a 32px gap. |
| ImpactV2.ExitOffset | js/impact-v2.js:34-46 | The outgoing slide leaves on the side opposite to where the incoming one enters, so both travel the same way. Going forward it leaves to the left, going back to the right. |
| ImpactV2.AutoplayTargetWraps | js/impact-v2.js:133-139 | On a non-empty slider, the tick target is the wrap-around successor. |
| ImpactV2.SectionInViewIffSharedPixel | js/impact-v2.js:90-94 | Keys are ignored without a section. For a section of positive height in a non-empty window, they act exactly when some pixel row of the section is on screen. |
| ImpactV2.SectionInViewStricter | js/impact-v2.js:93 | This test implies the hero sliders' test. A section touching the bottom edge passes the hero test and fails this one. |
| ImpactV2.SwipeIsArrow | js/impact-v2.js:120-126 | A swipe asks for the slide one of the arrows asks for: the next one only after more than 50px to the left, the previous one only after more than 50px to the right. |
| ImpactV2.SwipeBack | js/impact-v2.js:116-126 | The same gesture made in the opposite direction asks for the slide the first swipe started from. |
| ImpactV2.VerticalSwipeIgnored | js/impact-v2.js:120 | A swipe with at least as much vertical as horizontal travel never moves. |
| ImpactV2.NoWrapAtEnds | js/impact-v2.js:77-85 | Asking for the slide before the first or after the last is refused rather than wrapped. |
| ImpactV2.CaseStudySlider.constructor | js/impact-v2.js:161-163 | Slide 0 is shown, with the navigation drawn on the measured track and one autoplay interval live. Both touch coordinates start at 0. An empty slider is allowed. |
| ImpactV2.CaseStudySlider.UpdateNav | js/impact-v2.js:63-74 | Prev is disabled iff the index is 0, and Next iff the index is at least `total - 1`. The bar is `BarWidth(Progress(index, total - 1))`. |
| ImpactV2.CaseStudySlider.GoToSlide | js/impact-v2.js:27-61 | A refused move changes nothing. An accepted one locks, activates only the target, marks only the old slide exiting with the mirrored offsets, and redraws the navigation. |
| ImpactV2.CaseStudySlider.FinishTransition | js/impact-v2.js:55-60 | The cleanup releases the lock, leaves no slide exiting, and clears both transforms. The index, the navigation, the bar, the timer and the touch coordinates are kept. |
| ImpactV2.CaseStudySlider.StartAutoplay | js/impact-v2.js:131-140 | The timer becomes `Start`, and the slides are untouched. |
| ImpactV2.CaseStudySlider.StopAutoplay | js/impact-v2.js:142-147 | The timer becomes `Stop`, and the slides are untouched. |
| ImpactV2.CaseStudySlider.ResetAutoplay | js/impact-v2.js:149-152 | Stop followed by start equals a start. |
| ImpactV2.CaseStudySlider.PrevClick | js/impact-v2.js:77-80 | The previous slide is requested (`Moved`), which is refused at 0 or while locked. A refused request keeps the slides, the lock and the navigation exactly as they were. An accepted one hands off from the old slide to the target and redraws the navigation on the measured track. The touch coordinates are kept, and the timer becomes `Start`. |
| ImpactV2.CaseStudySlider.NextClick | js/impact-v2.js:82-85 | The next slide is requested (`Moved`), which is refused at the last slide or while locked. A refused request keeps the slides, the lock and the navigation exactly as they were. An accepted one hands off from the old slide to the target and redraws the navigation on the measured track. The touch coordinates are kept, and the timer becomes `Start`. |
| ImpactV2.CaseStudySlider.KeyDown | js/impact-v2.js:88-103 | With the section in view, ArrowLeft requests the previous slide and ArrowRight the next one, each as `Moved` with the timer restarted, as the arrows do. Everything else leaves the state unchanged. |
| ImpactV2.CaseStudySlider.TouchStart | js/impact-v2.js:109-113 | Both start coordinates are recorded and autoplay is stopped. The slides, the lock and the navigation are unchanged. |
| ImpactV2.CaseStudySlider.TouchEnd | js/impact-v2.js:115-128 | A swipe with a `SwipeTarget` requests it as `Moved`. Without one, the slides, the lock, the navigation and the touch coordinates are unchanged. Autoplay restarts in every case. |
| ImpactV2.CaseStudySlider.AutoplayTick | js/impact-v2.js:133-139 | A tick requests `AutoplayTarget`, and is dropped during a transition. |
| ActiveNav.LastSegment | js/main.js:20 | The result contains no '/', is a suffix of the path, and is preceded by '/' unless it is the whole path. |
| ActiveNav.LastSegmentOfJoin | js/main.js:20 | The last segment of `dir/name` is `name`. |
| ActiveNav.Index | js/main.js:20 | The default page name is non-empty and has no '/'. |
| ActiveNav.CurrentPage | js/main.js:20 | The current page is the last segment, or `index.html` when that is empty. |
| ActiveNav.ContainsIff | js/main.js:41 | The `includes` scan holds exactly when the substring occurs at some position. |
| ActiveNav.ExactPagesMarkOwnLink | js/main.js:39-46 | On the index, about and careers pages, a link is marked exactly when its href is the page itself. |
| ActiveNav.ImpactPagesMarkImpactLinks | js/main.js:41-42 | On an impact page, a link is marked exactly when "impact" occurs somewhere in its href. |
| ActiveNav.MarkedLinksPointHere | js/main.js:39-46 | Outside the impact pages, every marked link points at the page itself. |
| ActiveNav.OtherPagesMarkNoLink | js/main.js:39-46 | Any other page marks no link. |
| ActiveNav.LowerProperties | js/main.js:53 | Lower-casing keeps the length, leaves no capital letter, keeps every other character, and is idempotent. |
| ActiveNav.TriggerMarkedAnyCase | js/main.js:51-53 | On a solutions page, a trigger is marked whenever eight letters of its label lower-case to "solution", whatever their case. |
| ActiveNav.InitActiveNav | js/main.js:18-58 | Items lose `is-active`. Each `.navbar__link` afterwards carries it exactly when it lies in the nav and `LinkMarked` holds. Triggers keep their class, or gain it on a solutions page with a "solution" label. |
| ActiveNav.MarkLinks | js/main.js:35-48 | The link loop marks exactly the matching nav links. |
| ActiveNav.MarkTriggers | js/main.js:51-57 | The trigger loop adds `is-active` to matching triggers and leaves the others as they were. |
| Chrome.InitialNavbar | js/main.js:114-122 | A page loaded past 10px starts revealed, and solid if past the hero. Otherwise it starts with no class. The result is always coherent. |
| Chrome.NavbarFrame | js/main.js:87-107 | At 10px or less, all classes are cleared. Scrolling down past 80px hides and unsets revealed and solid. Scrolling up reveals and sets solid iff `scrollY >= heroBottom`. Otherwise the classes are kept. A coherent navbar stays coherent. |
| Chrome.NewlyHiddenIff | js/main.js:95-98 | A frame hides a visible navbar exactly when it scrolls down past 80px (`HidesOnFrame`), the branch that also closes the dropdowns; such a frame leaves it neither revealed nor solid. |
| Chrome.FrameIdempotent | js/main.js:92-109 | A second frame at the same position changes nothing. |
| Chrome.HideThenReveal | js/main.js:95-106 | Hiding, then scrolling back up below the hero, gives a revealed, solid navbar, when the upward scroll ends outside the top 10px. |
| Chrome.Toggled | js/main.js:149-162 | After a trigger click, that dropdown is open iff it was closed, every other one is closed, and at most one is open. |
| Chrome.ToggleTwice | js/main.js:152-161 | Two clicks on one trigger restore that dropdown and leave every other one closed. |
| Chrome.TrapFocus | js/main.js:366-381 | Only Tab is intercepted: Shift+Tab on the first element goes to the last, Tab on the last goes to the first, and nothing else is intercepted. An empty panel intercepts nothing. |
| Chrome.TrapRoundTrip | js/main.js:374-380 | Tab off the last element followed by Shift+Tab returns to the last element. |
| Chrome.SiteChrome.constructor | js/main.js:114-122 | The navbar starts as `InitialNavbar`, `lastScrollY` is the load position, and everything else starts closed. |
| Chrome.SiteChrome.CloseAllDropdowns | js/main.js:131-138 | Every dropdown is closed and every trigger is unexpanded. |
| Chrome.SiteChrome.ScrollFrame | js/main.js:72-111 | With the mobile menu open, nothing changes. Otherwise the navbar becomes `NavbarFrame`, a hide closes every dropdown, and `lastScrollY` becomes `scrollY`. |
| Chrome.SiteChrome.TriggerClick | js/main.js:149-162 | The dropdowns become `Toggled`, with `aria-expanded` set exactly on the open one. |
| Chrome.SiteChrome.DocumentClick | js/main.js:166-170 | A click outside every dropdown item closes them all; a click inside changes nothing. |
| Chrome.SiteChrome.OpenMenu | js/main.js:194-203 | The menu opens, the hamburger is active and expanded, the body is locked, and the navbar is unhidden and marked `menu-open`. |
| Chrome.SiteChrome.CloseMenu | js/main.js:205-220 | The menu, the hamburger, the body lock and `menu-open` are undone, and every dropdown inside the menu closes. The navbar's hidden, revealed and solid classes stay as they are. |
| Chrome.SiteChrome.NavLinkClick | js/main.js:231-239 | A click on a direct menu link or a dropdown sub-link runs `closeMenu`, then the document listener. Outside a dropdown item every dropdown ends closed; inside one (as a sub-link is), only the dropdowns inside the menu close. The navbar classes, the panel and `lastScrollY` are unchanged. |
| Chrome.SiteChrome.HamburgerClick | js/main.js:222-228 | The hamburger's listener flips the menu: opening unhides the navbar, closing keeps it. The click then bubbles to the document listener (js/main.js:166-170), so outside a dropdown item every dropdown ends closed. Inside one, opening keeps the dropdowns and closing closes only those in the menu. The panel, the pending opens and `lastScrollY` are unchanged. |
| Chrome.SiteChrome.KeyDown | js/main.js:173-177 | Escape closes every dropdown, then the open menu, then the open panel, as the listeners at js/main.js:241-246 and 359-363 add. The navbar classes, `lastScrollY` and the pending opens are unchanged. Other keys do nothing. |
| Chrome.SiteChrome.OpenPanel | js/main.js:306-312 | The panel, the overlay and the body class go on together. The menu, the navbar, `lastScrollY` and the pending opens are unchanged. |
| Chrome.SiteChrome.PanelTriggerClick | js/main.js:322-328 | A click on the desktop contact trigger opens the panel, then the document listener closes every dropdown unless the trigger lies inside a dropdown item. The menu, the navbar and `lastScrollY` are unchanged. |
| Chrome.SiteChrome.ClosePanel | js/main.js:314-320 | The panel, the overlay and the body class go off together. The menu, the navbar, `lastScrollY` and the pending opens are unchanged. |
| Chrome.SiteChrome.PanelCloseClick | js/main.js:349-355 | A click on the close button or the overlay closes the panel, then the document listener closes every dropdown unless the element lies inside a dropdown item. The menu, the navbar and `lastScrollY` are unchanged. |
| Chrome.SiteChrome.MobileContactClick | js/main.js:331-347 | The link's listener closes an open mobile menu at once, without touching the dropdowns, and schedules one delayed panel open. The click then bubbles to the document listener, so outside a dropdown item every dropdown ends closed. The panel, the navbar classes and `lastScrollY` are unchanged. |
| Chrome.SiteChrome.DelayedPanelOpen | js/main.js:346 | A scheduled open runs and opens the panel. The menu, the hamburger, the body lock, the navbar and `lastScrollY` are unchanged. |

The classes keep these invariants (`Valid`) across every method:

- **Hero sliders:**
  - exactly one active slide and, on home.js, exactly one active dash;
  - every exiting slide has a pending cleanup;
  - at most one live interval;
  - on home-alt.js, the bar height matches the slide.
- **Carousel:** the index lies in `[0, maxIndex]` and the arrow flags agree.
- **Case-study slider:**
  - the lock is set iff a transition is pending;
  - exactly the outgoing slide is exiting during a transition;
  - no slide is exiting outside one.
- **Chrome:**
  - the navbar is coherent: never hidden and revealed, and solid only when revealed;
  - at most one dropdown is open, with `aria-expanded` exactly on its trigger;
  - the hamburger, the body lock and `menu-open` follow the menu;
  - the panel, the overlay and `contact-open` agree.

## Left out

- DOM lookups, listener registration, `preventDefault` and `stopPropagation`: each handler is a method, and a component missing from the markup registers nothing, so its methods require it to exist.
- `initScrollAnimations` (js/main.js:253-291) and home-3.js: they only add an `in-view` class through an IntersectionObserver and staggered timeouts.
- Real time:
  - The 6s, 5s and 7s interval delays, the 1000ms and 600ms cleanups, and the 150ms resize debounce are not modelled as time.
  - Ticks and cleanups are explicit events.
  - The debounced resize handler is a call of `UpdateCarousel`.
- `requestAnimationFrame` and the `ticking` flag: one frame is one `ScrollFrame` step.
- CSS output:
  - Transform, opacity, display, position and pointer-events strings are not modelled.
  - The indicator, bar widths and heights are stated as `real` numbers rather than JavaScript floats.
  - Pixel-string formatting is not modelled.
- `focus()` calls: the hamburger after Escape, the close button 400ms after opening, the trigger after closing, and the focus-trap moves themselves. `TrapFocus` computes the target only.
- The contact form's SENT! feedback (js/main.js:384-400), which is cosmetic.
- `document.body.style.overflow` is modelled as a boolean: `hidden` or the empty string.
- ActiveNav.InitActiveNav:
  - `trim()` on trigger labels is left out: removing leading and trailing whitespace cannot change whether the word "solution" occurs.
  - `toLowerCase` is modelled for ASCII letters only.
  - An element that is both a trigger and a `.navbar__link` is not modelled.
- Chrome.SiteChrome.CloseAllDropdowns: only the dropdowns of `.navbar__item[data-dropdown]` items are modelled. Stray `.navbar__dropdown` elements elsewhere in the page are not.
- Starting markup other than the one the scripts are written for. The constructors start from slide 0 carrying `is-active`, no slide `is-exiting` or with an inline transform, every dropdown, the mobile menu and the contact panel closed, and a navbar without state classes.
- A dash whose `data-slide` is not a slide index: the source throws inside `goToSlide`, and the model requires a valid index.
- Tabs.TabSwitcher.ActivateTab: re-activating the current tab when no panel has its index throws a TypeError in the source. The model treats this as the no-op it amounts to.
- Overlapping exit cleanups: a slide re-entered before its cleanup fires carries `is-active` and `is-exiting` together until then. `ExitCleanup` models this, and no invariant claims the opposite.
