/**
 * Wrap-policy index arithmetic of the hero sliders: `next = (i + 1) % n` and
 * `prev = (i - 1 + n) % n` over `n` slides.
 */
module Slides {
  import opened Wrappers

  /** `nextSlide`: one step forward, from the last slide back to the first. */
  function Next(i: nat, n: nat): (r: nat)
    requires i < n
    ensures r < n
    ensures i + 1 < n ==> r == i + 1
    ensures i == n - 1 ==> r == 0
  {
    (i + 1) % n
  }

  /** `prevSlide`: one step back, from the first slide to the last. */
  function Prev(i: nat, n: nat): (r: nat)
    requires i < n
    ensures r < n
    ensures i > 0 ==> r == i - 1
    ensures i == 0 ==> r == n - 1
  {
    (i - 1 + n) % n
  }

  /** Prev undoes Next and Next undoes Prev. */
  lemma PrevNextInverse(i: nat, n: nat)
    requires i < n
    ensures Prev(Next(i, n), n) == i
    ensures Next(Prev(i, n), n) == i
  {
  }

  /** With a single slide both steps land on the current slide, so `goToSlide` ignores them. */
  lemma SingleSlideSteps()
    ensures Next(0, 1) == 0 && Prev(0, 1) == 0
  {
  }

  /** Position after `k` consecutive autoplay ticks or Next presses, starting from `i`. */
  function Advance(i: nat, n: nat, k: nat): (r: nat)
    requires i < n
    ensures r < n
  {
    if k == 0 then i else Next(Advance(i, n, k - 1), n)
  }

  /** Starting from the first slide, `k` steps forward land on slide `k mod n`. */
  lemma {:induction false} AdvanceFromFirst(n: nat, k: nat)
    requires n > 0
    ensures Advance(0, n, k) == k % n
  {
    if k == 0 {
      ModUnique(0, n, 0, 0);
    } else {
      AdvanceFromFirst(n, k - 1);
      ModStep(k - 1, n);
    }
  }

  /** One more step moves the remainder to its wrap-around successor. */
  lemma ModStep(a: nat, n: nat)
    requires n > 0
    ensures (a + 1) % n == Next(a % n, n)
  {
    var d, p := a / n, a % n;
    assert a == d * n + p;
    if p + 1 < n {
      ModUnique(a + 1, n, d, p + 1);
    } else {
      assert (d + 1) * n == d * n + n;
      ModUnique(a + 1, n, d + 1, 0);
    }
  }

  /** After `n` steps forward every slide has been shown and the slider is back where it began. */
  lemma {:induction false} AdvanceFullCycle(i: nat, n: nat)
    requires i < n
    ensures Advance(i, n, n) == i
  {
    AdvanceShift(i, n, n);
    AdvanceFromFirst(n, i + n);
    ModUnique(i + n, n, 1, i);
  }

  /** Advancing from `i` is advancing from the first slide, `i` steps later. */
  lemma {:induction false} AdvanceShift(i: nat, n: nat, k: nat)
    requires i < n
    ensures Advance(i, n, k) == Advance(0, n, i + k)
  {
    if k == 0 {
      AdvanceFromFirst(n, i);
      ModUnique(i, n, 0, i);
    } else {
      AdvanceShift(i, n, k - 1);
      assert Advance(i, n, k) == Next(Advance(0, n, i + k - 1), n);
    }
  }

  /** Euclidean division is unique: `a = d * n + m` with `0 <= m < n` fixes `a % n`. */
  lemma ModUnique(a: nat, n: nat, d: nat, m: nat)
    requires n > 0 && m < n && a == d * n + m
    ensures a % n == m
  {
    var q, r := a / n, a % n;
    assert a == q * n + r;
    if q > d {
      MulDifference(q, d, n);
    } else if q < d {
      MulDifference(d, q, n);
    }
  }

  lemma {:induction false} MulDifference(x: nat, y: nat, n: nat)
    requires x > y
    ensures x * n >= y * n + n
  {
    if x > y + 1 {
      MulDifference(x - 1, y, n);
      assert x * n == (x - 1) * n + n;
    } else {
      assert x * n == y * n + n;
    }
  }

  /** A page element's position from `getBoundingClientRect()`. */
  datatype Rect = Rect(top: int, bottom: int)

  /**
   * The arrow-key guard of both hero sliders: no `#hero` element, or a hero entirely above
   * (`bottom < 0`) or below (`top > innerHeight`) the viewport, ignores the key.
   */
  predicate HeroInView(hero: Option<Rect>, innerHeight: int) {
    match hero
    case None => false
    case Some(rect) => !(rect.bottom < 0 || rect.top > innerHeight)
  }

  /** Row `y` of the page lies both on the element (edges included) and in the window (edges included). */
  predicate SharedRow(rect: Rect, innerHeight: int, y: int) {
    rect.top <= y <= rect.bottom && 0 <= y <= innerHeight
  }

  /**
   * What the guard means: a missing hero never passes, and a present one passes exactly when it
   * and the window have a row in common, counting the edges.
   */
  lemma HeroInViewIffSharedRow(hero: Option<Rect>, innerHeight: int)
    requires hero.Some? ==> hero.value.top <= hero.value.bottom
    requires innerHeight >= 0
    ensures hero.None? ==> !HeroInView(hero, innerHeight)
    ensures hero.Some? ==> (HeroInView(hero, innerHeight) <==> exists y :: SharedRow(hero.value, innerHeight, y))
  {
    if hero.Some? {
      var rect := hero.value;
      if HeroInView(hero, innerHeight) {
        var y := if rect.top < 0 then 0 else rect.top;
        assert SharedRow(rect, innerHeight, y);
      }
      if exists y :: SharedRow(rect, innerHeight, y) {
        var y :| SharedRow(rect, innerHeight, y);
        assert rect.bottom >= y >= 0 && rect.top <= y <= innerHeight;
      }
    }
  }

  /** The hero sliders step forward on ArrowRight and ArrowDown, never on a backward key ... */
  predicate ForwardKey(key: string): (b: bool)
    ensures b ==> key != "ArrowLeft" && key != "ArrowUp"
  {
    key == "ArrowRight" || key == "ArrowDown"
  }

  /** ... and back on ArrowLeft and ArrowUp, never on a forward key. */
  predicate BackwardKey(key: string): (b: bool)
    ensures b ==> key != "ArrowRight" && key != "ArrowDown"
  {
    key == "ArrowLeft" || key == "ArrowUp"
  }

  /**
   * The four arrow keys split into the two sets: each arrow key steps one way and no other
   * key steps at all.
   */
  lemma ArrowKeysSplit(key: string)
    ensures !(ForwardKey(key) && BackwardKey(key))
    ensures ForwardKey(key) || BackwardKey(key) <==> key in {"ArrowRight", "ArrowDown", "ArrowLeft", "ArrowUp"}
  {
  }
}
