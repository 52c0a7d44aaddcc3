/**
 * home-alt.js: the hero slider with a vertical scroll-indicator progress bar, the tab switcher
 * (module Tabs) and the autoplaying impact carousel (module Carousel, with the constants below).
 */
module HomeAlt {
  import opened Wrappers
  import Flags
  import Autoplay
  import Slides
  import Carousel

  /** `initCarousel` here: 380px cards and a 32px gap by default, autoplay, progress bar required. */
  const CarouselConfig := Carousel.Config(380, 32, true, true)

  /** With no card in the track the metrics are the defaults: three 380px cards, 32px apart. */
  lemma EmptyTrackMetrics(layout: Carousel.Layout)
    ensures Carousel.CardMetrics(0, layout, CarouselConfig) == Carousel.Metrics(380, 32, 3)
  {
  }

  /** Height floor of the hero progress bar, in px. */
  const MinProgressHeight: real := 20.0

  /**
   * `updateProgress`: with several slides the bar fills `(index + 1) / totalSlides` of the
   * track, with one slide the whole track, and it is never shorter than 20px.
   */
  function ProgressHeight(index: nat, total: nat, trackHeight: nat): (h: real)
    requires index < total
    ensures h >= MinProgressHeight && (h == MinProgressHeight || h <= trackHeight as real)
    ensures index == total - 1 ==> h == (if trackHeight as real > MinProgressHeight then trackHeight as real else MinProgressHeight)
  {
    var raw :=
      if total > 1 then
        FractionOfTrack(index + 1, total, trackHeight);
        ((index + 1) as real / total as real) * trackHeight as real
      else trackHeight as real;
    if raw > MinProgressHeight then raw else MinProgressHeight
  }

  lemma FractionOfTrack(k: nat, total: nat, trackHeight: nat)
    requires 0 < k <= total
    ensures (k as real / total as real) * trackHeight as real <= trackHeight as real
    ensures k == total ==> (k as real / total as real) * trackHeight as real == trackHeight as real
  {
    var f := k as real / total as real;
    assert f * total as real == k as real;
    assert f <= 1.0;
    assert (1.0 - f) * trackHeight as real >= 0.0;
    if k == total {
      assert f == 1.0;
    }
  }

  /** A later slide never shows a shorter bar. */
  lemma ProgressHeightMonotone(i: nat, j: nat, total: nat, trackHeight: nat)
    requires i <= j < total
    ensures ProgressHeight(i, total, trackHeight) <= ProgressHeight(j, total, trackHeight)
  {
    if total > 1 {
      var t := total as real;
      var fi, fj := (i + 1) as real / t, (j + 1) as real / t;
      assert fi * t == (i + 1) as real && fj * t == (j + 1) as real;
      assert fi <= fj;
      NonNegativeProduct(fj - fi, trackHeight as real);
      assert fi * trackHeight as real <= fj * trackHeight as real;
    }
  }

  lemma NonNegativeProduct(x: real, y: real)
    requires x >= 0.0 && y >= 0.0
    ensures x * y >= 0.0
  {
  }

  /** The hero slider of home-alt.js (`initHeroSlider`); it exists only when there is a slide. */
  class HeroSlider {
    const total: nat
    /** `is-active` per slide. */
    const active: array<bool>
    /** `is-exiting` per slide. */
    const exiting: array<bool>
    /** Whether both `#heroProgress` and the scroll-indicator track exist. */
    const hasProgress: bool
    var currentIndex: nat
    /** Slides whose 1000ms `is-exiting` cleanup has been scheduled and has not run yet, in order. */
    var pendingExits: seq<nat>
    var timer: Autoplay.Timer
    /** `progressBar.style.height`, in px. */
    var progressHeight: real
    /** The track height measured by the last `updateProgress`. */
    ghost var trackHeight: nat

    ghost predicate Wellformed()
      reads this
    {
      && total > 0 && active.Length == total && exiting.Length == total && active != exiting
      && currentIndex < total
      && (forall k :: 0 <= k < |pendingExits| ==> pendingExits[k] < total)
      && Autoplay.Valid(timer)
    }

    /**
     * Exactly the current slide is active, every exiting slide still has its cleanup pending,
     * and the progress bar shows the current slide.
     */
    ghost predicate Valid()
      reads this, active, exiting
    {
      && Wellformed()
      && active[..] == Flags.Only(total, currentIndex)
      && (forall s :: 0 <= s < total && exiting[s] ==> s in pendingExits)
      && (hasProgress ==> progressHeight == ProgressHeight(currentIndex, total, trackHeight))
    }

    /**
     * The effect of `goToSlide(index)`: nothing if `index` is the current slide; otherwise the
     * old slide loses `is-active` and gains `is-exiting` (with its cleanup scheduled), slide
     * `index` becomes the only active one, no other slide changes, and the bar is redrawn.
     */
    twostate predicate MovedTo(index: nat, measured: nat)
      reads this, active, exiting
    {
      if index == old(currentIndex) then
        && currentIndex == old(currentIndex) && pendingExits == old(pendingExits)
        && active[..] == old(active[..]) && exiting[..] == old(exiting[..])
        && progressHeight == old(progressHeight) && trackHeight == old(trackHeight)
      else
        && old(currentIndex) < exiting.Length && index < total
        && currentIndex == index
        && active[..] == Flags.Only(total, index)
        && exiting[..] == old(exiting[..])[old(currentIndex) := true]
        && pendingExits == old(pendingExits) + [old(currentIndex)]
        && (hasProgress ==> progressHeight == ProgressHeight(index, total, measured))
        && (!hasProgress ==> progressHeight == old(progressHeight) && trackHeight == old(trackHeight))
    }

    /**
     * Initialisation on markup that shows slide 0: draw the bar and start autoplay.
     */
    constructor (total: nat, hasProgress: bool, measured: nat)
      requires total > 0
      ensures Valid() && currentIndex == 0 && this.total == total && this.hasProgress == hasProgress
      ensures fresh(active) && fresh(exiting)
      ensures exiting[..] == Flags.Cleared(total) && pendingExits == []
      ensures hasProgress ==> trackHeight == measured && progressHeight == ProgressHeight(0, total, measured)
      ensures timer == Autoplay.Start(Autoplay.Idle())
    {
      this.total := total;
      this.hasProgress := hasProgress;
      active := new bool[total](i => i == 0);
      exiting := new bool[total](i => false);
      currentIndex := 0;
      pendingExits := [];
      timer := Autoplay.Idle();
      progressHeight := MinProgressHeight;
      trackHeight := 0;
      new;
      assert active[..] == Flags.Only(total, 0);
      assert exiting[..] == Flags.Cleared(total);
      UpdateProgress(measured);
      StartAutoplay();
    }

    /** `updateProgress`, with the track's `offsetHeight` measured as `measured`. */
    method UpdateProgress(measured: nat)
      requires Wellformed()
      modifies this
      ensures Wellformed()
      ensures currentIndex == old(currentIndex) && pendingExits == old(pendingExits) && timer == old(timer)
      ensures hasProgress ==> progressHeight == ProgressHeight(currentIndex, total, measured) && trackHeight == measured
      ensures !hasProgress ==> progressHeight == old(progressHeight) && trackHeight == old(trackHeight)
    {
      if hasProgress {
        trackHeight := measured;
        progressHeight := ProgressHeight(currentIndex, total, measured);
      }
    }

    /** `goToSlide(index)`; every caller passes a slide index. */
    method GoToSlide(index: nat, measured: nat)
      requires Valid() && index < total
      modifies this, active, exiting
      ensures Valid() && MovedTo(index, measured) && timer == old(timer)
    {
      if index == currentIndex {
        return;
      }
      active[currentIndex] := false;
      exiting[currentIndex] := true;
      pendingExits := pendingExits + [currentIndex];
      currentIndex := index;
      active[currentIndex] := true;
      UpdateProgress(measured);
      assert active[..] == Flags.Only(total, index);
    }

    /** `nextSlide` */
    method NextSlide(measured: nat)
      requires Valid()
      modifies this, active, exiting
      ensures Valid() && MovedTo(Slides.Next(old(currentIndex), total), measured) && timer == old(timer)
    {
      GoToSlide((currentIndex + 1) % total, measured);
    }

    /** `prevSlide` */
    method PrevSlide(measured: nat)
      requires Valid()
      modifies this, active, exiting
      ensures Valid() && MovedTo(Slides.Prev(old(currentIndex), total), measured) && timer == old(timer)
    {
      GoToSlide((currentIndex - 1 + total) % total, measured);
    }

    /** `startAutoplay` (also the hero's mouseleave handler). */
    method StartAutoplay()
      requires Wellformed()
      modifies this
      ensures Wellformed() && timer == Autoplay.Start(old(timer))
      ensures currentIndex == old(currentIndex) && pendingExits == old(pendingExits)
      ensures progressHeight == old(progressHeight) && trackHeight == old(trackHeight)
    {
      StopAutoplay();
      Autoplay.StopIdempotent(old(timer));
      var id := timer.issued + 1;
      timer := Autoplay.Timer(Some(id), timer.live + {id}, id);
    }

    /** `stopAutoplay` (also the hero's mouseenter handler). */
    method StopAutoplay()
      requires Wellformed()
      modifies this
      ensures Wellformed() && timer == Autoplay.Stop(old(timer))
      ensures currentIndex == old(currentIndex) && pendingExits == old(pendingExits)
      ensures progressHeight == old(progressHeight) && trackHeight == old(trackHeight)
    {
      if Autoplay.Truthy(timer.handle) {
        timer := Autoplay.Timer(None, timer.live - {timer.handle.value}, timer.issued);
      }
    }

    /** The next arrow: advance, then restart autoplay. */
    method NextClick(measured: nat)
      requires Valid()
      modifies this, active, exiting
      ensures Valid() && MovedTo(Slides.Next(old(currentIndex), total), measured)
      ensures timer == Autoplay.Start(old(timer))
    {
      NextSlide(measured);
      StartAutoplay();
    }

    /** The prev arrow: step back, then restart autoplay. */
    method PrevClick(measured: nat)
      requires Valid()
      modifies this, active, exiting
      ensures Valid() && MovedTo(Slides.Prev(old(currentIndex), total), measured)
      ensures timer == Autoplay.Start(old(timer))
    {
      PrevSlide(measured);
      StartAutoplay();
    }

    /** The document keydown handler; only a hero that is at least partly on screen reacts. */
    method KeyDown(key: string, hero: Option<Slides.Rect>, innerHeight: int, measured: nat)
      requires Valid()
      modifies this, active, exiting
      ensures Valid()
      ensures !Slides.HeroInView(hero, innerHeight) || !(Slides.ForwardKey(key) || Slides.BackwardKey(key)) ==>
        unchanged(this, active, exiting)
      ensures Slides.HeroInView(hero, innerHeight) && Slides.ForwardKey(key) ==>
        MovedTo(Slides.Next(old(currentIndex), total), measured) && timer == Autoplay.Start(old(timer))
      ensures Slides.HeroInView(hero, innerHeight) && Slides.BackwardKey(key) ==>
        MovedTo(Slides.Prev(old(currentIndex), total), measured) && timer == Autoplay.Start(old(timer))
    {
      if !Slides.HeroInView(hero, innerHeight) {
        return;
      }
      if key == "ArrowRight" || key == "ArrowDown" {
        NextClick(measured);
      } else if key == "ArrowLeft" || key == "ArrowUp" {
        PrevClick(measured);
      }
    }

    /** The autoplay interval fires (only while it is live). */
    method AutoplayTick(measured: nat)
      requires Valid() && Autoplay.Truthy(timer.handle)
      modifies this, active, exiting
      ensures Valid() && MovedTo(Slides.Next(old(currentIndex), total), measured) && timer == old(timer)
    {
      NextSlide(measured);
    }

    /**
     * The `k`-th pending 1000ms cleanup fires and removes `is-exiting` from the slide it
     * captured, whatever that slide's state is by then.
     */
    method ExitCleanup(k: nat)
      requires Valid() && k < |pendingExits|
      modifies this, exiting
      ensures Valid()
      ensures exiting[..] == old(exiting[..])[old(pendingExits[k]) := false]
      ensures pendingExits == old(pendingExits[..k] + pendingExits[k + 1..])
      ensures currentIndex == old(currentIndex) && timer == old(timer) && progressHeight == old(progressHeight)
    {
      var slide := pendingExits[k];
      exiting[slide] := false;
      pendingExits := pendingExits[..k] + pendingExits[k + 1..];
      forall s | 0 <= s < total && exiting[s] ensures s in pendingExits {
        var j :| 0 <= j < |old(pendingExits)| && old(pendingExits)[j] == s;
        assert j != k;
        if j < k {
          assert pendingExits[j] == s;
        } else {
          assert pendingExits[j - 1] == s;
        }
      }
    }
  }
}
