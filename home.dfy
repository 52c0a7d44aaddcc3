/**
 * home.js: the hero slider with dash indicators and swipe, the tab switcher (module Tabs) and
 * the manually driven impact carousel (module Carousel, with the constants below).
 */
module Home {
  import opened Wrappers
  import Flags
  import Autoplay
  import Slides
  import Carousel

  /** `initCarousel` here: 380px cards and a 32px gap by default, no autoplay, optional bar. */
  const CarouselConfig := Carousel.Config(380, 32, false, false)

  /**
   * This carousel never holds a live autoplay interval: its configuration has no autoplay, so
   * a well-formed carousel built from it keeps the idle timer. The bar is optional, and
   * without cards the metrics are the page defaults.
   */
  lemma CarouselNeverAutoplays(c: Carousel.CardCarousel)
    requires c.Wellformed() && c.config == CarouselConfig
    ensures c.timer == Autoplay.Idle() && c.timer.live == {}
    ensures !CarouselConfig.autoplay && !CarouselConfig.needsProgressBar
    ensures forall layout: Carousel.Layout :: Carousel.CardMetrics(0, layout, CarouselConfig) == Carousel.Metrics(380, 32, 3)
  {
  }

  /** Horizontal travel a hero swipe must exceed, in px. */
  const HeroSwipeThreshold := 50

  /**
   * The hero's touchend decision, with `diff` = start x - end x: beyond 50px a swipe to the
   * left (positive `diff`) shows the next slide and one to the right the previous slide.
   */
  function HeroSwipe(i: nat, diff: int, total: nat): (r: Option<nat>)
    requires i < total
    ensures r.Some? <==> diff > HeroSwipeThreshold || diff < -HeroSwipeThreshold
    ensures r.Some? ==> r.value < total
    ensures r.Some? && diff > 0 ==> r.value == Slides.Next(i, total)
    ensures r.Some? && diff < 0 ==> r.value == Slides.Prev(i, total)
  {
    if (if diff < 0 then -diff else diff) > HeroSwipeThreshold then
      if diff > 0 then Some((i + 1) % total) else Some((i - 1 + total) % total)
    else None
  }

  /** A long swipe one way followed by a long swipe back returns to the starting slide. */
  lemma SwipeThereAndBack(i: nat, d: int, total: nat)
    requires i < total && d > HeroSwipeThreshold
    ensures HeroSwipe(i, d, total).Some?
    ensures HeroSwipe(HeroSwipe(i, d, total).value, -d, total) == Some(i)
  {
    Slides.PrevNextInverse(i, total);
  }

  /** The hero slider of home.js (`initHeroSlider`); it exists only when there is a slide. */
  class HeroSlider {
    const total: nat
    /** `is-active` per slide. */
    const active: array<bool>
    /** `is-exiting` per slide. */
    const exiting: array<bool>
    /** `is-active` per dash. */
    const dashActive: array<bool>
    /** Each dash's `data-slide`, a slide index. */
    const dashSlide: seq<nat>
    var currentIndex: nat
    /** Slides whose 1000ms `is-exiting` cleanup has been scheduled and has not run yet, in order. */
    var pendingExits: seq<nat>
    var timer: Autoplay.Timer
    var touchStartX: int

    ghost predicate Wellformed()
      reads this
    {
      && total > 0 && active.Length == total && exiting.Length == total
      && active != exiting && dashActive != active && dashActive != exiting
      && dashActive.Length == |dashSlide|
      && (forall d :: 0 <= d < |dashSlide| ==> dashSlide[d] < total)
      && currentIndex < total
      && (forall k :: 0 <= k < |pendingExits| ==> pendingExits[k] < total)
      && Autoplay.Valid(timer)
    }

    /**
     * Exactly the current slide and exactly the dashes at the current position are active, and
     * every exiting slide still has its cleanup pending.
     */
    ghost predicate Valid()
      reads this, active, exiting, dashActive
    {
      && Wellformed()
      && active[..] == Flags.Only(total, currentIndex)
      && dashActive[..] == Flags.Only(dashActive.Length, currentIndex)
      && (forall s :: 0 <= s < total && exiting[s] ==> s in pendingExits)
    }

    /**
     * The effect of `goToSlide(index)`: nothing if `index` is the current slide; otherwise the
     * old slide loses `is-active` and gains `is-exiting` (with its cleanup scheduled), and slide
     * `index` and the dash in position `index` become the only active ones.
     */
    twostate predicate MovedTo(index: nat)
      reads this, active, exiting, dashActive
    {
      && touchStartX == old(touchStartX)
      && if index == old(currentIndex) then
        && currentIndex == old(currentIndex) && pendingExits == old(pendingExits)
        && active[..] == old(active[..]) && exiting[..] == old(exiting[..])
        && dashActive[..] == old(dashActive[..])
      else
        && old(currentIndex) < exiting.Length && index < total
        && currentIndex == index
        && active[..] == Flags.Only(total, index)
        && dashActive[..] == Flags.Only(dashActive.Length, index)
        && exiting[..] == old(exiting[..])[old(currentIndex) := true]
        && pendingExits == old(pendingExits) + [old(currentIndex)]
    }

    /** Initialisation on markup that shows slide 0: mark the dashes and start autoplay. */
    constructor (total: nat, dashSlide: seq<nat>)
      requires total > 0 && forall d :: 0 <= d < |dashSlide| ==> dashSlide[d] < total
      ensures Valid() && currentIndex == 0 && this.total == total && this.dashSlide == dashSlide
      ensures fresh(active) && fresh(exiting) && fresh(dashActive)
      ensures exiting[..] == Flags.Cleared(total) && pendingExits == [] && touchStartX == 0
      ensures timer == Autoplay.Start(Autoplay.Idle())
    {
      this.total := total;
      this.dashSlide := dashSlide;
      active := new bool[total](i => i == 0);
      exiting := new bool[total](i => false);
      dashActive := new bool[|dashSlide|];
      currentIndex := 0;
      pendingExits := [];
      timer := Autoplay.Idle();
      touchStartX := 0;
      new;
      assert active[..] == Flags.Only(total, 0);
      assert exiting[..] == Flags.Cleared(total);
      Flags.MarkOnly(dashActive, 0);
      StartAutoplay();
    }

    /** `goToSlide(index)`. */
    method GoToSlide(index: nat)
      requires Valid() && index < total
      modifies this, active, exiting, dashActive
      ensures Valid() && MovedTo(index) && timer == old(timer)
    {
      if index == currentIndex {
        return;
      }
      active[currentIndex] := false;
      exiting[currentIndex] := true;
      pendingExits := pendingExits + [currentIndex];
      currentIndex := index;
      active[currentIndex] := true;
      Flags.MarkOnly(dashActive, currentIndex);
      assert active[..] == Flags.Only(total, index);
    }

    /** `nextSlide` */
    method NextSlide()
      requires Valid()
      modifies this, active, exiting, dashActive
      ensures Valid() && MovedTo(Slides.Next(old(currentIndex), total)) && timer == old(timer)
    {
      GoToSlide((currentIndex + 1) % total);
    }

    /** `prevSlide` */
    method PrevSlide()
      requires Valid()
      modifies this, active, exiting, dashActive
      ensures Valid() && MovedTo(Slides.Prev(old(currentIndex), total)) && timer == old(timer)
    {
      GoToSlide((currentIndex - 1 + total) % total);
    }

    /** `startAutoplay` */
    method StartAutoplay()
      requires Wellformed()
      modifies this
      ensures Wellformed() && timer == Autoplay.Start(old(timer))
      ensures currentIndex == old(currentIndex) && pendingExits == old(pendingExits) && touchStartX == old(touchStartX)
    {
      StopAutoplay();
      Autoplay.StopIdempotent(old(timer));
      var id := timer.issued + 1;
      timer := Autoplay.Timer(Some(id), timer.live + {id}, id);
    }

    /** `stopAutoplay` */
    method StopAutoplay()
      requires Wellformed()
      modifies this
      ensures Wellformed() && timer == Autoplay.Stop(old(timer))
      ensures currentIndex == old(currentIndex) && pendingExits == old(pendingExits) && touchStartX == old(touchStartX)
    {
      if Autoplay.Truthy(timer.handle) {
        timer := Autoplay.Timer(None, timer.live - {timer.handle.value}, timer.issued);
      }
    }

    /** A click on dash `d`: jump to its slide unless it is already shown, then restart autoplay. */
    method DashClick(d: nat)
      requires Valid() && d < |dashSlide|
      modifies this, active, exiting, dashActive
      ensures Valid()
      ensures dashSlide[d] == old(currentIndex) ==> unchanged(this, active, exiting, dashActive)
      ensures dashSlide[d] != old(currentIndex) ==> MovedTo(dashSlide[d]) && timer == Autoplay.Start(old(timer))
    {
      var slideIndex := dashSlide[d];
      if slideIndex != currentIndex {
        GoToSlide(slideIndex);
        StartAutoplay();
      }
    }

    /** The next arrow: advance, then restart autoplay. */
    method NextClick()
      requires Valid()
      modifies this, active, exiting, dashActive
      ensures Valid() && MovedTo(Slides.Next(old(currentIndex), total))
      ensures timer == Autoplay.Start(old(timer))
    {
      NextSlide();
      StartAutoplay();
    }

    /** The document keydown handler; only a hero that is at least partly on screen reacts. */
    method KeyDown(key: string, hero: Option<Slides.Rect>, innerHeight: int)
      requires Valid()
      modifies this, active, exiting, dashActive
      ensures Valid()
      ensures !Slides.HeroInView(hero, innerHeight) || !(Slides.ForwardKey(key) || Slides.BackwardKey(key)) ==>
        unchanged(this, active, exiting, dashActive)
      ensures Slides.HeroInView(hero, innerHeight) && Slides.ForwardKey(key) ==>
        MovedTo(Slides.Next(old(currentIndex), total)) && timer == Autoplay.Start(old(timer))
      ensures Slides.HeroInView(hero, innerHeight) && Slides.BackwardKey(key) ==>
        MovedTo(Slides.Prev(old(currentIndex), total)) && timer == Autoplay.Start(old(timer))
    {
      if !Slides.HeroInView(hero, innerHeight) {
        return;
      }
      if key == "ArrowRight" || key == "ArrowDown" {
        NextSlide();
        StartAutoplay();
      } else if key == "ArrowLeft" || key == "ArrowUp" {
        PrevSlide();
        StartAutoplay();
      }
    }

    /** touchstart on the hero records the first touch's `screenX`. */
    method TouchStart(screenX: int)
      requires Valid()
      modifies this
      ensures Valid() && touchStartX == screenX
      ensures currentIndex == old(currentIndex) && pendingExits == old(pendingExits) && timer == old(timer)
    {
      touchStartX := screenX;
    }

    /** touchend on the hero: a long enough swipe changes slide and restarts autoplay. */
    method TouchEnd(screenX: int)
      requires Valid()
      modifies this, active, exiting, dashActive
      ensures Valid()
      ensures HeroSwipe(old(currentIndex), old(touchStartX) - screenX, total) == None ==>
        unchanged(this, active, exiting, dashActive)
      ensures HeroSwipe(old(currentIndex), old(touchStartX) - screenX, total).Some? ==>
        && MovedTo(HeroSwipe(old(currentIndex), old(touchStartX) - screenX, total).value)
        && timer == Autoplay.Start(old(timer))
    {
      var diff := touchStartX - screenX;
      if (if diff < 0 then -diff else diff) > HeroSwipeThreshold {
        if diff > 0 {
          NextSlide();
        } else {
          PrevSlide();
        }
        StartAutoplay();
      }
    }

    /** The autoplay interval fires (only while it is live). */
    method AutoplayTick()
      requires Valid() && Autoplay.Truthy(timer.handle)
      modifies this, active, exiting, dashActive
      ensures Valid() && MovedTo(Slides.Next(old(currentIndex), total)) && timer == old(timer)
    {
      NextSlide();
    }

    /**
     * The `k`-th pending 1000ms cleanup fires and removes `is-exiting` from the slide it
     * captured, whatever that slide's state is by then.
     */
    method ExitCleanup(k: nat)
      requires Valid() && k < |pendingExits|
      modifies this, exiting
      ensures Valid()
      ensures exiting[..] == old(exiting[..])[old(pendingExits[k]) := false]
      ensures pendingExits == old(pendingExits[..k] + pendingExits[k + 1..])
      ensures currentIndex == old(currentIndex) && timer == old(timer) && touchStartX == old(touchStartX)
    {
      var slide := pendingExits[k];
      exiting[slide] := false;
      pendingExits := pendingExits[..k] + pendingExits[k + 1..];
      forall s | 0 <= s < total && exiting[s] ensures s in pendingExits {
        var j :| 0 <= j < |old(pendingExits)| && old(pendingExits)[j] == s;
        assert j != k;
        if j < k {
          assert pendingExits[j] == s;
        } else {
          assert pendingExits[j - 1] == s;
        }
      }
    }
  }
}
