/**
 * Clamp-policy card carousels: a horizontal track of `totalCards` cards, of which a window of
 * `visible` cards is shown starting at `currentIndex`. The index never leaves `[0, maxIndex]`,
 * arrows and swipes step by one card without wrapping, and (on the pages that have it) an
 * autoplay tick steps forward and jumps back to the first window at the end.
 *
 * The four copies of the carousel differ only in constants, collected in `Config`.
 */
module Carousel {
  import opened Wrappers
  import Autoplay
  import Slides

  /** Smallest horizontal travel, in px, that counts as a swipe. */
  const SwipeThreshold := 50
  /** Width of the progress bar at the first window, in px. */
  const MinBarWidth: real := 60.0
  /** Window size assumed when the track holds no card. */
  const DefaultVisible := 3

  /**
   * The constants of one copy: the metrics returned when the track has no card, whether the
   * page runs autoplay, and whether a missing progress bar disables the whole carousel.
   */
  datatype Config = Config(defaultCardWidth: nat, defaultGap: nat, autoplay: bool, needsProgressBar: bool)

  /**
   * What the browser measures when a handler runs: the viewport (`track.parentElement.offsetWidth`),
   * the first card's `offsetWidth`, `parseInt(getComputedStyle(track).gap)` (None for NaN) and
   * the width of the progress bar's track.
   */
  datatype Layout = Layout(viewport: nat, cardWidth: nat, cssGap: Option<nat>, barTrackWidth: nat)

  /** The record `getCardMetrics` returns. */
  datatype Metrics = Metrics(cardWidth: nat, gap: nat, visible: nat)

  /**
   * `Math.max(1, Math.floor((viewport + gap) / (cardW + gap)))`: the largest number of cards,
   * with the gaps between them, that fit into the viewport, but never less than one.
   */
  function FitCount(viewport: nat, cardWidth: nat, gap: nat): (v: nat)
    requires cardWidth + gap > 0
    ensures v >= 1
    ensures v * cardWidth + (v - 1) * gap <= viewport || (v == 1 && cardWidth > viewport)
    ensures (v + 1) * cardWidth + v * gap > viewport
  {
    var q := (viewport + gap) / (cardWidth + gap);
    FitBounds(viewport, cardWidth, gap, q);
    if q > 1 then q else 1
  }

  lemma FitBounds(viewport: nat, cardWidth: nat, gap: nat, q: nat)
    requires cardWidth + gap > 0 && q == (viewport + gap) / (cardWidth + gap)
    ensures q >= 1 ==> q * cardWidth + (q - 1) * gap <= viewport
    ensures q >= 1 ==> (q + 1) * cardWidth + q * gap > viewport
    ensures q == 0 ==> cardWidth > viewport
  {
    var b := cardWidth + gap;
    assert q * b <= viewport + gap < q * b + b;
    assert q * b == q * cardWidth + q * gap;
    assert (q + 1) * cardWidth + q * gap == q * b + b - gap;
  }

  /**
   * `getCardMetrics`: without a card, the page's defaults and three visible cards; otherwise the
   * measured card width, the CSS gap (`parseInt(gap) || default`: NaN and 0 fall back to the
   * default) and the fit count. Either way the gap is positive and at least one card is visible.
   */
  function CardMetrics(totalCards: nat, layout: Layout, config: Config): (m: Metrics)
    requires config.defaultGap > 0
    ensures m.visible >= 1 && m.gap > 0
    ensures totalCards == 0 ==> m == Metrics(config.defaultCardWidth, config.defaultGap, DefaultVisible)
    ensures totalCards > 0 ==> m.cardWidth == layout.cardWidth
    ensures totalCards > 0 && layout.cssGap.Some? && layout.cssGap.value > 0 ==> m.gap == layout.cssGap.value
    ensures totalCards > 0 && (layout.cssGap.None? || layout.cssGap.value == 0) ==> m.gap == config.defaultGap
  {
    if totalCards == 0 then
      Metrics(config.defaultCardWidth, config.defaultGap, DefaultVisible)
    else
      var gap := if layout.cssGap.Some? && layout.cssGap.value != 0 then layout.cssGap.value else config.defaultGap;
      Metrics(layout.cardWidth, gap, FitCount(layout.viewport, layout.cardWidth, gap))
  }

  /**
   * `Math.max(0, totalCards - visible)`: the last window that still ends on a card. With no
   * more cards than fit, the only window starts at 0.
   */
  function MaxIndex(totalCards: nat, visible: nat): (mx: nat)
    ensures totalCards <= visible ==> mx == 0
    ensures totalCards > visible ==> mx + visible == totalCards
  {
    if totalCards - visible > 0 then totalCards - visible else 0
  }

  /** Every window up to `MaxIndex` is filled with cards, unless all cards fit at once. */
  lemma WindowsStayOnCards(i: nat, totalCards: nat, visible: nat)
    requires i <= MaxIndex(totalCards, visible)
    ensures i + visible <= totalCards || (i == 0 && totalCards <= visible)
  {
  }

  /**
   * `Math.max(Math.min(i, maxIndex), 0)`: the value in `[0, maxIndex]` nearest to `i`.
   */
  function Clamp(i: int, maxIndex: nat): (r: nat)
    ensures r <= maxIndex
    ensures 0 <= i <= maxIndex ==> r == i
    ensures i > maxIndex ==> r == maxIndex
    ensures i < 0 ==> r == 0
  {
    var upper := if i < maxIndex then i else maxIndex;
    if upper > 0 then upper else 0
  }

  function Distance(a: int, b: int): nat {
    if a < b then b - a else a - b
  }

  /** No index inside the bounds is closer to `i` than its clamped value. */
  lemma ClampIsNearest(i: int, maxIndex: nat, j: int)
    requires 0 <= j <= maxIndex
    ensures Distance(Clamp(i, maxIndex), i) <= Distance(j, i)
  {
  }

  /** Clamping twice is clamping once. */
  lemma ClampIdempotent(i: int, maxIndex: nat)
    ensures Clamp(Clamp(i, maxIndex), maxIndex) == Clamp(i, maxIndex)
  {
  }

  /**
   * The touchend decision once `|diff| > 50`: a leftward swipe (`diff > 0`) moves one card
   * forward and a rightward one moves one card back, each only if that stays inside the bounds.
   */
  function SwipeStep(i: nat, diff: int, maxIndex: nat): (r: nat)
    ensures i <= maxIndex ==> r <= maxIndex
    ensures Distance(r, i) <= 1
    ensures r > i ==> diff > 0 && i < maxIndex
    ensures r < i ==> diff < 0 && i > 0
    ensures diff > 0 && i < maxIndex ==> r == i + 1
    ensures diff < 0 && i > 0 ==> r == i - 1
  {
    if diff > 0 && i < maxIndex then i + 1
    else if diff < 0 && i > 0 then i - 1
    else i
  }

  /** The carousel autoplay tick: forward one card, or back to the first window from the last. */
  function AutoplayStep(i: nat, maxIndex: nat): (r: nat)
    ensures r <= maxIndex
  {
    if i < maxIndex then i + 1 else 0
  }

  /** Inside the bounds, an autoplay tick is the wrap policy over the `maxIndex + 1` windows. */
  lemma AutoplayStepWraps(i: nat, maxIndex: nat)
    requires i <= maxIndex
    ensures AutoplayStep(i, maxIndex) == Slides.Next(i, maxIndex + 1)
  {
  }

  /** Index after `k` autoplay ticks under a fixed layout, starting at `i`. */
  function AutoplayRun(i: nat, maxIndex: nat, k: nat): (r: nat)
    ensures k > 0 ==> r <= maxIndex
  {
    if k == 0 then i else AutoplayStep(AutoplayRun(i, maxIndex, k - 1), maxIndex)
  }

  /** From the first window, `k` ticks show window `k mod (maxIndex + 1)`: autoplay visits every window in turn. */
  lemma {:induction false} AutoplayRunFromFirst(maxIndex: nat, k: nat)
    ensures AutoplayRun(0, maxIndex, k) == Slides.Advance(0, maxIndex + 1, k)
    ensures AutoplayRun(0, maxIndex, k) == k % (maxIndex + 1)
  {
    if k > 0 {
      AutoplayRunFromFirst(maxIndex, k - 1);
      AutoplayStepWraps(AutoplayRun(0, maxIndex, k - 1), maxIndex);
    }
    Slides.AdvanceFromFirst(maxIndex + 1, k);
  }

  /**
   * `maxIndex > 0 ? currentIndex / maxIndex : 0`: how far through the windows the index is.
   */
  function Progress(i: nat, maxIndex: int): (p: real)
    ensures i <= maxIndex ==> 0.0 <= p <= 1.0
    ensures maxIndex <= 0 ==> p == 0.0
    ensures maxIndex > 0 ==> (p == 0.0 <==> i == 0)
    ensures maxIndex > 0 ==> (p == 1.0 <==> i == maxIndex)
  {
    if maxIndex > 0 then
      ProgressFacts(i, maxIndex);
      i as real / maxIndex as real
    else 0.0
  }

  lemma ProgressFacts(i: nat, maxIndex: int)
    requires maxIndex > 0
    ensures (i as real / maxIndex as real) * maxIndex as real == i as real
    ensures i <= maxIndex ==> i as real / maxIndex as real <= 1.0
    ensures i as real / maxIndex as real >= 0.0
  {
  }

  /** `minWidth + progress * (maxWidth - minWidth)`: 60px at the start, the full track at the end. */
  function BarWidth(p: real, trackWidth: nat): (w: real)
    requires 0.0 <= p <= 1.0
    ensures trackWidth as real >= MinBarWidth ==> MinBarWidth <= w <= trackWidth as real
    ensures p == 0.0 ==> w == MinBarWidth
    ensures p == 1.0 ==> w == trackWidth as real
  {
    var span := trackWidth as real - MinBarWidth;
    BarWidthBounds(p, span);
    MinBarWidth + p * span
  }

  lemma BarWidthBounds(p: real, span: real)
    requires 0.0 <= p <= 1.0
    ensures span >= 0.0 ==> 0.0 <= p * span <= span
    ensures p == 0.0 ==> p * span == 0.0
    ensures p == 1.0 ==> p * span == span
  {
    if span >= 0.0 {
      assert (1.0 - p) * span >= 0.0;
    }
  }

  /** A farther index never draws a shorter bar. */
  lemma BarWidthMonotone(i: nat, j: nat, maxIndex: nat, trackWidth: nat)
    requires i <= j <= maxIndex && trackWidth as real >= MinBarWidth
    ensures BarWidth(Progress(i, maxIndex), trackWidth) <= BarWidth(Progress(j, maxIndex), trackWidth)
  {
    if maxIndex > 0 {
      var pi, pj := Progress(i, maxIndex), Progress(j, maxIndex);
      var m := maxIndex as real;
      assert pi * m == i as real && pj * m == j as real by { ProgressFacts(i, maxIndex); ProgressFacts(j, maxIndex); }
      assert pi <= pj;
      var span := trackWidth as real - MinBarWidth;
      assert pi * span <= pj * span by {
        assert (pj - pi) * span >= 0.0;
      }
    }
  }

  /**
   * One carousel instance (`initCarousel`, `initCompaniesCarousel`, `initBizImpactCarousel`):
   * the closed-over `currentIndex` and `autoplayTimer`, the arrows' `is-disabled` classes, the
   * track's translation and the progress bar's width.
   */
  class CardCarousel {
    const config: Config
    const totalCards: nat
    const hasProgressBar: bool
    var currentIndex: nat
    /** The track is drawn at `translateX(-offset px)`. */
    var offset: nat
    var prevDisabled: bool
    var nextDisabled: bool
    /** `progressBar.style.width`, in px. */
    var barWidth: real
    var timer: Autoplay.Timer
    var touchStartX: int
    /** The bound the last `updateCarousel` computed. */
    ghost var maxIndex: nat

    /** What holds between any two statements: the configuration and the timer are sound. */
    ghost predicate Wellformed()
      reads this
    {
      && config.defaultGap > 0
      && (config.needsProgressBar ==> hasProgressBar)
      && Autoplay.Valid(timer)
      && (!config.autoplay ==> timer == Autoplay.Idle())
    }

    /** What holds between events: the index is in bounds and the arrows reflect it. */
    ghost predicate Valid()
      reads this
    {
      && Wellformed()
      && currentIndex <= maxIndex
      && prevDisabled == (currentIndex == 0)
      && nextDisabled == (currentIndex >= maxIndex)
    }

    /** `Math.max(0, totalCards - visible)` for the metrics measured under `layout`. */
    function Bound(layout: Layout): nat
      reads this
      requires config.defaultGap > 0
    {
      MaxIndex(totalCards, CardMetrics(totalCards, layout, config).visible)
    }

    /** Everything `updateCarousel` draws agrees with the current index under `layout`. */
    ghost predicate Shows(layout: Layout)
      reads this
      requires config.defaultGap > 0
    {
      var m := CardMetrics(totalCards, layout, config);
      var mx := Bound(layout);
      && maxIndex == mx
      && currentIndex <= mx
      && offset == currentIndex * (m.cardWidth + m.gap)
      && prevDisabled == (currentIndex == 0)
      && nextDisabled == (currentIndex >= mx)
      && (hasProgressBar ==> barWidth == BarWidth(Progress(currentIndex, mx), layout.barTrackWidth))
    }

    /** The view fields, which only `updateCarousel` writes, are as before. */
    twostate predicate ViewUnchanged()
      reads this
    {
      && currentIndex == old(currentIndex) && offset == old(offset) && maxIndex == old(maxIndex)
      && prevDisabled == old(prevDisabled) && nextDisabled == old(nextDisabled)
      && barWidth == old(barWidth)
    }

    /** Initialisation: draw the first window, then start autoplay where the page has it. */
    constructor (config: Config, totalCards: nat, hasProgressBar: bool, layout: Layout)
      requires config.defaultGap > 0 && (config.needsProgressBar ==> hasProgressBar)
      ensures Valid() && Shows(layout) && currentIndex == 0
      ensures this.config == config && this.totalCards == totalCards && this.hasProgressBar == hasProgressBar
      ensures timer == if config.autoplay then Autoplay.Start(Autoplay.Idle()) else Autoplay.Idle()
      ensures touchStartX == 0
    {
      this.config := config;
      this.totalCards := totalCards;
      this.hasProgressBar := hasProgressBar;
      currentIndex, offset, maxIndex := 0, 0, 0;
      prevDisabled, nextDisabled := true, true;
      barWidth := MinBarWidth;
      timer := Autoplay.Idle();
      touchStartX := 0;
      new;
      UpdateCarousel(layout);
      if config.autoplay {
        StartAutoplay();
      }
    }

    /** `updateCarousel`, also what the debounced resize handler runs. */
    method UpdateCarousel(layout: Layout)
      requires Wellformed()
      modifies this
      ensures Valid() && Shows(layout)
      ensures currentIndex == Clamp(old(currentIndex), Bound(layout))
      ensures !hasProgressBar ==> barWidth == old(barWidth)
      ensures timer == old(timer) && touchStartX == old(touchStartX)
    {
      var m := CardMetrics(totalCards, layout, config);
      var mx := MaxIndex(totalCards, m.visible);
      var i: int := currentIndex;
      i := if i < mx then i else mx;
      i := if i > 0 then i else 0;
      currentIndex := i;
      offset := currentIndex * (m.cardWidth + m.gap);
      prevDisabled := currentIndex == 0;
      nextDisabled := currentIndex >= mx;
      if hasProgressBar {
        barWidth := BarWidth(Progress(currentIndex, mx), layout.barTrackWidth);
      }
      maxIndex := mx;
    }

    /** `startAutoplay` (also on mouseleave and after a swipe). */
    method StartAutoplay()
      requires Wellformed() && config.autoplay
      modifies this
      ensures Wellformed() && ViewUnchanged() && touchStartX == old(touchStartX)
      ensures timer == Autoplay.Start(old(timer))
    {
      StopAutoplay();
      Autoplay.StopIdempotent(old(timer));
      var id := timer.issued + 1;
      timer := Autoplay.Timer(Some(id), timer.live + {id}, id);
    }

    /** `stopAutoplay` (also on mouseenter and touchstart). */
    method StopAutoplay()
      requires Wellformed() && config.autoplay
      modifies this
      ensures Wellformed() && ViewUnchanged() && touchStartX == old(touchStartX)
      ensures timer == Autoplay.Stop(old(timer))
    {
      if Autoplay.Truthy(timer.handle) {
        timer := Autoplay.Timer(None, timer.live - {timer.handle.value}, timer.issued);
      }
    }

    /** `resetAutoplay`: stop, then start; the same as a start. */
    method ResetAutoplay()
      requires Wellformed() && config.autoplay
      modifies this
      ensures Wellformed() && ViewUnchanged() && touchStartX == old(touchStartX)
      ensures timer == Autoplay.Start(old(timer))
    {
      StopAutoplay();
      StartAutoplay();
      Autoplay.ResetIsStart(old(timer));
    }

    /** The interval callback: one card forward, or back to the first window at the end. */
    method AutoplayTick(layout: Layout)
      requires Valid() && Autoplay.Truthy(timer.handle)
      modifies this
      ensures Valid() && Shows(layout)
      ensures currentIndex == AutoplayStep(old(currentIndex), Bound(layout))
      ensures timer == old(timer) && touchStartX == old(touchStartX)
    {
      var m := CardMetrics(totalCards, layout, config);
      var mx := MaxIndex(totalCards, m.visible);
      if currentIndex < mx {
        currentIndex := currentIndex + 1;
      } else {
        currentIndex := 0;
      }
      UpdateCarousel(layout);
    }

    /** Prev arrow: one card back unless at the first window; autoplay restarts where present. */
    method PrevClick(layout: Layout)
      requires Valid()
      modifies this
      ensures Valid() && touchStartX == old(touchStartX)
      ensures old(currentIndex) == 0 ==> ViewUnchanged() && timer == old(timer)
      ensures old(currentIndex) > 0 ==>
        && Shows(layout)
        && currentIndex == Clamp(old(currentIndex) - 1, Bound(layout))
        && timer == if config.autoplay then Autoplay.Start(old(timer)) else old(timer)
    {
      if currentIndex > 0 {
        currentIndex := currentIndex - 1;
        UpdateCarousel(layout);
        if config.autoplay {
          ResetAutoplay();
        }
      }
    }

    /** Next arrow: one card forward only while below the bound measured now. */
    method NextClick(layout: Layout)
      requires Valid()
      modifies this
      ensures Valid() && touchStartX == old(touchStartX)
      ensures old(currentIndex) >= Bound(layout) ==> ViewUnchanged() && timer == old(timer)
      ensures old(currentIndex) < Bound(layout) ==>
        && Shows(layout)
        && currentIndex == old(currentIndex) + 1
        && timer == if config.autoplay then Autoplay.Start(old(timer)) else old(timer)
    {
      var m := CardMetrics(totalCards, layout, config);
      var mx := MaxIndex(totalCards, m.visible);
      if currentIndex < mx {
        currentIndex := currentIndex + 1;
        UpdateCarousel(layout);
        if config.autoplay {
          ResetAutoplay();
        }
      }
    }

    /** `touchstart`: remember where the finger went down; autoplay pauses where present. */
    method TouchStart(screenX: int)
      requires Valid()
      modifies this
      ensures Valid() && ViewUnchanged() && touchStartX == screenX
      ensures timer == if config.autoplay then Autoplay.Stop(old(timer)) else old(timer)
    {
      touchStartX := screenX;
      if config.autoplay {
        StopAutoplay();
      }
    }

    /** `touchend`: a swipe of more than 50px steps by at most one card; autoplay resumes where present. */
    method TouchEnd(screenX: int, layout: Layout)
      requires Valid()
      modifies this
      ensures Valid() && touchStartX == old(touchStartX)
      ensures Distance(old(touchStartX), screenX) <= SwipeThreshold ==> ViewUnchanged()
      ensures Distance(old(touchStartX), screenX) > SwipeThreshold ==>
        && Shows(layout)
        && currentIndex == Clamp(SwipeStep(old(currentIndex), old(touchStartX) - screenX, Bound(layout)), Bound(layout))
      ensures timer == if config.autoplay then Autoplay.Start(old(timer)) else old(timer)
    {
      var diff := touchStartX - screenX;
      if (if diff < 0 then -diff else diff) > SwipeThreshold {
        var m := CardMetrics(totalCards, layout, config);
        var mx := MaxIndex(totalCards, m.visible);
        if diff > 0 && currentIndex < mx {
          currentIndex := currentIndex + 1;
        } else if diff < 0 && currentIndex > 0 {
          currentIndex := currentIndex - 1;
        }
        UpdateCarousel(layout);
      }
      if config.autoplay {
        StartAutoplay();
      }
    }
  }
}
