/**
 * impact-v2.js: the case-study slider. Slides cross-fade with a 40px horizontal slide; while a
 * 600ms transition runs every further move is refused. Arrows, keys and swipes do not wrap; the
 * 7s autoplay does.
 */
module ImpactV2 {
  import opened Wrappers
  import Flags
  import Autoplay
  import Slides
  import Carousel

  /** Horizontal travel a swipe must exceed, in px. */
  const SwipeThreshold := 50
  /** How far a slide travels while it fades in or out, in px. */
  const SlideShift := 40

  /**
   * The guard of `goToSlide`: a move is made only when no transition runs and the target is a
   * different, existing slide.
   */
  predicate Accepts(transitioning: bool, currentIndex: nat, newIndex: int, total: nat) {
    !(transitioning || newIndex == currentIndex || newIndex < 0 || newIndex >= total)
  }

  /** Where the incoming slide starts: 40px to the right when going forward, to the left otherwise. */
  function EntryOffset(forward: bool): int {
    if forward then SlideShift else -SlideShift
  }

  /**
   * Where the outgoing slide ends up: always on the side opposite to the incoming one, so that
   * both travel the same way; going forward the content moves to the left.
   */
  function ExitOffset(forward: bool): (x: int)
    ensures x == -EntryOffset(forward)
    ensures forward <==> x < 0
  {
    if forward then -SlideShift else SlideShift
  }

  /** The autoplay tick's target: the next slide, or the first one after the last. */
  function AutoplayTarget(currentIndex: nat, total: nat): nat {
    if currentIndex < total - 1 then currentIndex + 1 else 0
  }

  /** On a non-empty slider the autoplay tick is the wrap-around successor. */
  lemma AutoplayTargetWraps(currentIndex: nat, total: nat)
    requires currentIndex < total
    ensures AutoplayTarget(currentIndex, total) == Slides.Next(currentIndex, total)
  {
  }

  /** The keydown gate: the case-study section overlaps the window (strict comparisons). */
  predicate SectionInView(section: Option<Slides.Rect>, innerHeight: int) {
    match section
    case None => false
    case Some(rect) => rect.top < innerHeight && rect.bottom > 0
  }

  /** Pixel row `y` lies on the element and in the window, each taken as a half-open range of rows. */
  predicate SharedPixel(rect: Slides.Rect, innerHeight: int, y: int) {
    rect.top <= y < rect.bottom && 0 <= y < innerHeight
  }

  /**
   * What the gate means: for a section of positive height in a non-empty window, the keys act
   * exactly when some pixel row of the section is on screen.
   */
  lemma SectionInViewIffSharedPixel(section: Option<Slides.Rect>, innerHeight: int)
    requires section.Some? ==> section.value.top < section.value.bottom
    requires innerHeight > 0
    ensures section.None? ==> !SectionInView(section, innerHeight)
    ensures section.Some? ==> (SectionInView(section, innerHeight) <==> exists y :: SharedPixel(section.value, innerHeight, y))
  {
    if section.Some? {
      var rect := section.value;
      if SectionInView(section, innerHeight) {
        var y := if rect.top < 0 then 0 else rect.top;
        assert SharedPixel(rect, innerHeight, y);
      }
      if exists y :: SharedPixel(rect, innerHeight, y) {
        var y :| SharedPixel(rect, innerHeight, y);
        assert rect.top <= y < innerHeight && 0 <= y < rect.bottom;
      }
    }
  }

  /**
   * The case-study gate is stricter than the hero sliders' one: a section that merely touches an
   * edge of the window passes the hero test and fails this one.
   */
  lemma SectionInViewStricter(section: Option<Slides.Rect>, innerHeight: int)
    ensures SectionInView(section, innerHeight) ==> Slides.HeroInView(section, innerHeight)
    ensures innerHeight >= 0 && section == Some(Slides.Rect(innerHeight, innerHeight + 1)) ==>
      Slides.HeroInView(section, innerHeight) && !SectionInView(section, innerHeight)
  {
  }

  function Abs(x: int): nat {
    if x < 0 then -x else x
  }

  /**
   * The touchend decision: only a mostly horizontal swipe longer than 50px moves, a swipe to the
   * left (positive `dx` = start - end) to the next slide and one to the right to the previous.
   */
  function SwipeTarget(currentIndex: nat, dx: int, dy: int): Option<int> {
    if Abs(dx) > SwipeThreshold && Abs(dx) > Abs(dy) then
      Some(if dx > 0 then currentIndex + 1 else currentIndex - 1)
    else None
  }

  /** A vertical scroll gesture never changes the slide, however long it is. */
  lemma VerticalSwipeIgnored(currentIndex: nat, dx: int, dy: int)
    requires Abs(dy) >= Abs(dx)
    ensures SwipeTarget(currentIndex, dx, dy) == None
  {
  }

  /**
   * A swipe asks for exactly the slide one of the arrows asks for: forward (as NextClick) for
   * a swipe to the left, back (as PrevClick) for one to the right.
   */
  lemma SwipeIsArrow(currentIndex: nat, dx: int, dy: int)
    ensures SwipeTarget(currentIndex, dx, dy) == Some(currentIndex + 1) ==> dx > SwipeThreshold
    ensures SwipeTarget(currentIndex, dx, dy) == Some(currentIndex - 1) ==> dx < -SwipeThreshold
    ensures SwipeTarget(currentIndex, dx, dy).Some? ==>
      SwipeTarget(currentIndex, dx, dy) in {Some(currentIndex + 1), Some(currentIndex - 1)}
  {
  }

  /** The same gesture the other way round asks for the slide the swipe started from. */
  lemma SwipeBack(currentIndex: nat, dx: int, dy: int)
    requires SwipeTarget(currentIndex, dx, dy).Some? && SwipeTarget(currentIndex, dx, dy).value >= 0
    ensures SwipeTarget(SwipeTarget(currentIndex, dx, dy).value as nat, -dx, -dy) == Some(currentIndex)
  {
  }

  /** Arrows, keys and swipes ask for a neighbour; at either end the request is refused, never wrapped. */
  lemma NoWrapAtEnds(total: nat)
    requires total > 0
    ensures !Accepts(false, 0, -1, total)
    ensures !Accepts(false, total - 1, total, total)
  {
  }

  /** The transition in flight: the slide leaving, the slide entering, and the direction. */
  datatype Transition = Transition(from: nat, to: nat, forward: bool)

  /** The case-study slider (`initCaseStudySlider`); it may hold no slide at all. */
  class CaseStudySlider {
    const total: nat
    /** `is-active` per slide. */
    const active: array<bool>
    /** `is-exiting` per slide. */
    const exiting: array<bool>
    /** Each slide's inline `translateX`, in px; None for the empty `style.transform`. */
    const transform: array<Option<int>>
    var currentIndex: nat
    var isTransitioning: bool
    /** The transition whose 600ms cleanup is pending. */
    var transition: Option<Transition>
    var timer: Autoplay.Timer
    /** `is-disabled` on the two arrows. */
    var prevDisabled: bool
    var nextDisabled: bool
    /** `progressBar.style.width`, in px. */
    var progressWidth: real
    /** The bar-track width measured by the last `updateNav`. */
    ghost var barTrack: nat
    var touchStartX: int
    var touchStartY: int

    ghost predicate Wellformed()
      reads this
    {
      && active.Length == total && exiting.Length == total && transform.Length == total
      && active != exiting
      && (currentIndex < total || (total == 0 && currentIndex == 0))
      && (isTransitioning <==> transition.Some?)
      && (transition.Some? ==> transition.value.from < total && transition.value.to == currentIndex
                               && transition.value.from != transition.value.to
                               && transition.value.forward == (transition.value.to > transition.value.from))
      && Autoplay.Valid(timer)
    }

    /** The arrows and the bar describe the current slide (`updateNav`). */
    ghost predicate NavShows(index: nat, measured: nat)
      reads this
    {
      && (index < total || total == 0)
      && prevDisabled == (index == 0)
      && nextDisabled == (index >= total - 1)
      && progressWidth == Carousel.BarWidth(Carousel.Progress(index, total - 1), measured)
    }

    /**
     * Exactly the current slide is active; outside a transition nothing is exiting and no slide
     * has an inline transform; during one, exactly the outgoing slide is exiting, parked on the
     * far side, and the incoming slide sits at 0.
     */
    ghost predicate Valid()
      reads this, active, exiting, transform
    {
      && Wellformed()
      && active[..] == Flags.Only(total, currentIndex)
      && NavShows(currentIndex, barTrack)
      && match transition
        case None =>
          exiting[..] == Flags.Cleared(total) && transform[..] == seq(total, _ => None)
        case Some(t) =>
          && exiting[..] == Flags.Only(total, t.from)
          && transform[..] == seq(total, s => if s == t.from then Some(ExitOffset(t.forward))
                                              else if s == t.to then Some(0) else None)
    }

    /** The slides, the lock and the navigation are as they were (the timer is not covered). */
    twostate predicate SlidesKept()
      reads this, active, exiting, transform
    {
      && currentIndex == old(currentIndex) && transition == old(transition)
      && isTransitioning == old(isTransitioning)
      && prevDisabled == old(prevDisabled) && nextDisabled == old(nextDisabled)
      && progressWidth == old(progressWidth) && barTrack == old(barTrack)
      && active[..] == old(active[..]) && exiting[..] == old(exiting[..]) && transform[..] == old(transform[..])
    }

    /**
     * The effect of `goToSlide(newIndex)` on everything but the timer: a refused move changes
     * nothing, an accepted one starts a transition from the old slide to `newIndex` and redraws
     * the navigation on the measured track.
     */
    twostate predicate Moved(newIndex: int, measured: nat)
      reads this, active, exiting, transform
    {
      && touchStartX == old(touchStartX) && touchStartY == old(touchStartY)
      && if !Accepts(old(isTransitioning), old(currentIndex), newIndex, total) then SlidesKept()
      else
        && currentIndex == newIndex && isTransitioning
        && transition == Some(Transition(old(currentIndex), newIndex as nat, newIndex > old(currentIndex)))
        && barTrack == measured
    }

    /** `goToSlide(newIndex)` itself, which leaves the timer alone. */
    twostate predicate MovedTo(newIndex: int, measured: nat)
      reads this, active, exiting, transform
    {
      Moved(newIndex, measured) && timer == old(timer)
    }

    /** Initialisation on markup that shows slide 0 without inline transforms. */
    constructor (total: nat, measured: nat)
      ensures Valid() && this.total == total && currentIndex == 0 && !isTransitioning
      ensures barTrack == measured && touchStartX == 0 && touchStartY == 0
      ensures fresh(active) && fresh(exiting) && fresh(transform)
      ensures timer == Autoplay.Start(Autoplay.Idle())
    {
      this.total := total;
      active := new bool[total](i => i == 0);
      exiting := new bool[total](i => false);
      transform := new Option<int>[total](i => None);
      currentIndex := 0;
      isTransitioning := false;
      transition := None;
      timer := Autoplay.Idle();
      touchStartX, touchStartY := 0, 0;
      new;
      assert active[..] == Flags.Only(total, 0);
      assert exiting[..] == Flags.Cleared(total);
      assert transform[..] == seq(total, _ => None);
      UpdateNav(measured);
      StartAutoplay();
    }

    /** `updateNav`, with the bar's track `offsetWidth` measured as `measured`. */
    method UpdateNav(measured: nat)
      requires currentIndex < total || total == 0
      modifies this
      ensures NavShows(currentIndex, measured) && barTrack == measured
      ensures currentIndex == old(currentIndex) && isTransitioning == old(isTransitioning)
      ensures transition == old(transition) && timer == old(timer)
      ensures touchStartX == old(touchStartX) && touchStartY == old(touchStartY)
    {
      prevDisabled := currentIndex == 0;
      nextDisabled := currentIndex >= total - 1;
      barTrack := measured;
      progressWidth := Carousel.BarWidth(Carousel.Progress(currentIndex, total - 1), measured);
    }

    /** `goToSlide(newIndex)` */
    method GoToSlide(newIndex: int, measured: nat)
      requires Valid()
      modifies this, active, exiting, transform
      ensures Valid() && MovedTo(newIndex, measured)
    {
      if isTransitioning || newIndex == currentIndex || newIndex < 0 || newIndex >= total {
        return;
      }
      isTransitioning := true;
      var from, to := currentIndex, newIndex as nat;
      var forward := to > from;
      transform[to] := Some(EntryOffset(forward));
      exiting[to] := false;
      active[from] := false;
      exiting[from] := true;
      transform[from] := Some(ExitOffset(forward));
      active[to] := true;
      transform[to] := Some(0);
      currentIndex := to;
      transition := Some(Transition(from, to, forward));
      UpdateNav(measured);
      assert active[..] == Flags.Only(total, to);
      assert exiting[..] == Flags.Only(total, from);
    }

    /** The pending 600ms cleanup: the outgoing slide stops exiting, both transforms are cleared, moves are accepted again. */
    method FinishTransition()
      requires Valid() && transition.Some?
      modifies this, exiting, transform
      ensures Valid() && !isTransitioning && transition == None
      ensures currentIndex == old(currentIndex) && timer == old(timer)
      ensures exiting[..] == Flags.Cleared(total) && transform[..] == seq(total, _ => None)
      ensures prevDisabled == old(prevDisabled) && nextDisabled == old(nextDisabled)
      ensures progressWidth == old(progressWidth) && barTrack == old(barTrack)
      ensures touchStartX == old(touchStartX) && touchStartY == old(touchStartY)
    {
      var t := transition.value;
      exiting[t.from] := false;
      transform[t.from] := None;
      transform[t.to] := None;
      isTransitioning := false;
      transition := None;
      assert exiting[..] == Flags.Cleared(total);
      assert transform[..] == seq(total, _ => None);
    }

    /** `startAutoplay` (also the section's mouseleave handler). */
    method StartAutoplay()
      requires Wellformed()
      modifies this
      ensures Wellformed() && timer == Autoplay.Start(old(timer))
      ensures currentIndex == old(currentIndex) && isTransitioning == old(isTransitioning) && transition == old(transition)
      ensures prevDisabled == old(prevDisabled) && nextDisabled == old(nextDisabled)
      ensures progressWidth == old(progressWidth) && barTrack == old(barTrack)
      ensures touchStartX == old(touchStartX) && touchStartY == old(touchStartY)
    {
      StopAutoplay();
      Autoplay.StopIdempotent(old(timer));
      var id := timer.issued + 1;
      timer := Autoplay.Timer(Some(id), timer.live + {id}, id);
    }

    /** `stopAutoplay` (also the section's mouseenter handler). */
    method StopAutoplay()
      requires Wellformed()
      modifies this
      ensures Wellformed() && timer == Autoplay.Stop(old(timer))
      ensures currentIndex == old(currentIndex) && isTransitioning == old(isTransitioning) && transition == old(transition)
      ensures prevDisabled == old(prevDisabled) && nextDisabled == old(nextDisabled)
      ensures progressWidth == old(progressWidth) && barTrack == old(barTrack)
      ensures touchStartX == old(touchStartX) && touchStartY == old(touchStartY)
    {
      if Autoplay.Truthy(timer.handle) {
        timer := Autoplay.Timer(None, timer.live - {timer.handle.value}, timer.issued);
      }
    }

    /** `resetAutoplay`: stop, then start; the same as starting. */
    method ResetAutoplay()
      requires Wellformed()
      modifies this
      ensures Wellformed() && timer == Autoplay.Start(old(timer))
      ensures currentIndex == old(currentIndex) && isTransitioning == old(isTransitioning) && transition == old(transition)
      ensures prevDisabled == old(prevDisabled) && nextDisabled == old(nextDisabled)
      ensures progressWidth == old(progressWidth) && barTrack == old(barTrack)
      ensures touchStartX == old(touchStartX) && touchStartY == old(touchStartY)
    {
      StopAutoplay();
      StartAutoplay();
      Autoplay.ResetIsStart(old(timer));
    }

    /** The prev arrow: ask for the previous slide (refused on the first one), then restart autoplay. */
    method PrevClick(measured: nat)
      requires Valid()
      modifies this, active, exiting, transform
      ensures Valid() && Moved(old(currentIndex) as int - 1, measured) && timer == Autoplay.Start(old(timer))
    {
      GoToSlide(currentIndex - 1, measured);
      ResetAutoplay();
    }

    /** The next arrow: ask for the next slide (refused on the last one), then restart autoplay. */
    method NextClick(measured: nat)
      requires Valid()
      modifies this, active, exiting, transform
      ensures Valid() && Moved(old(currentIndex) + 1, measured) && timer == Autoplay.Start(old(timer))
    {
      GoToSlide(currentIndex + 1, measured);
      ResetAutoplay();
    }

    /** The document keydown handler: ArrowLeft and ArrowRight act like the arrows while the section is in view. */
    method KeyDown(key: string, section: Option<Slides.Rect>, innerHeight: int, measured: nat)
      requires Valid()
      modifies this, active, exiting, transform
      ensures Valid()
      ensures !SectionInView(section, innerHeight) || (key != "ArrowLeft" && key != "ArrowRight") ==>
        unchanged(this, active, exiting, transform)
      ensures SectionInView(section, innerHeight) && (key == "ArrowLeft" || key == "ArrowRight") ==>
        timer == Autoplay.Start(old(timer))
      ensures SectionInView(section, innerHeight) && key == "ArrowLeft" ==> Moved(old(currentIndex) as int - 1, measured)
      ensures SectionInView(section, innerHeight) && key == "ArrowRight" ==> Moved(old(currentIndex) + 1, measured)
    {
      if !SectionInView(section, innerHeight) {
        return;
      }
      if key == "ArrowLeft" {
        PrevClick(measured);
      } else if key == "ArrowRight" {
        NextClick(measured);
      }
    }

    /** touchstart: remember where the finger went down and pause autoplay. */
    method TouchStart(screenX: int, screenY: int)
      requires Valid()
      modifies this
      ensures Valid() && touchStartX == screenX && touchStartY == screenY
      ensures timer == Autoplay.Stop(old(timer)) && SlidesKept()
    {
      touchStartX, touchStartY := screenX, screenY;
      StopAutoplay();
    }

    /** touchend: a horizontal swipe asks for a neighbour; autoplay resumes in every case. */
    method TouchEnd(screenX: int, screenY: int, measured: nat)
      requires Valid()
      modifies this, active, exiting, transform
      ensures Valid() && timer == Autoplay.Start(old(timer))
      ensures var t := SwipeTarget(old(currentIndex), old(touchStartX) - screenX, old(touchStartY) - screenY);
        if t.Some? then Moved(t.value, measured)
        else SlidesKept() && touchStartX == old(touchStartX) && touchStartY == old(touchStartY)
    {
      var dx := touchStartX - screenX;
      var dy := touchStartY - screenY;
      if Abs(dx) > SwipeThreshold && Abs(dx) > Abs(dy) {
        if dx > 0 {
          GoToSlide(currentIndex + 1, measured);
        } else {
          GoToSlide(currentIndex - 1, measured);
        }
      }
      StartAutoplay();
    }

    /** The autoplay interval fires (only while it is live): next slide, wrapping to the first. */
    method AutoplayTick(measured: nat)
      requires Valid() && Autoplay.Truthy(timer.handle)
      modifies this, active, exiting, transform
      ensures Valid() && MovedTo(AutoplayTarget(old(currentIndex), total), measured)
    {
      if currentIndex < total - 1 {
        GoToSlide(currentIndex + 1, measured);
      } else {
        GoToSlide(0, measured);
      }
    }
  }
}
