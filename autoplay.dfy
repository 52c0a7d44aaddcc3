/**
 * The autoplay pattern every slider and carousel repeats:
 *
 *   startAutoplay(): stopAutoplay(); autoplayTimer = setInterval(tick, delay)
 *   stopAutoplay():  if (autoplayTimer) { clearInterval(autoplayTimer); autoplayTimer = null }
 *
 * The interval delay is real time and is not modelled; a tick is an explicit event of the
 * component that owns the timer.
 */
module Autoplay {
  import opened Wrappers

  /**
   * A component's `autoplayTimer` variable together with the part of the browser's interval
   * table it is responsible for: `live` holds the ids of the intervals still scheduled to fire,
   * and `issued` is the last id handed out (browsers return positive ids and never reuse them).
   */
  datatype Timer = Timer(handle: Option<nat>, live: set<nat>, issued: nat)

  /** The component's timer before anything is scheduled: no handle and no live interval. */
  function Idle(): Timer {
    Timer(None, {}, 0)
  }

  /** JavaScript truthiness of the handle in `if (autoplayTimer)`: null and 0 are falsy. */
  predicate Truthy(handle: Option<nat>) {
    handle.Some? && handle.value != 0
  }

  /** The only live interval, if any, is the one the handle names. */
  ghost predicate Valid(t: Timer) {
    && t.live == (if t.handle.Some? then {t.handle.value} else {})
    && (forall h | h in t.live :: 0 < h <= t.issued)
  }

  /** `stopAutoplay`: afterwards nothing of this component is scheduled and the handle is null. */
  function Stop(t: Timer): (r: Timer)
    requires Valid(t)
    ensures Valid(r) && r.handle == None && r.live == {}
    ensures r.issued == t.issued
  {
    if Truthy(t.handle) then Timer(None, t.live - {t.handle.value}, t.issued) else t
  }

  /**
   * `startAutoplay`: the previous interval is cleared before the new one is scheduled, so exactly
   * one interval is live afterwards and it is a fresh one.
   */
  function Start(t: Timer): (r: Timer)
    requires Valid(t)
    ensures Valid(r) && r.handle.Some? && r.live == {r.handle.value}
    ensures r.handle.value !in t.live && r.issued > t.issued
  {
    var s := Stop(t);
    Timer(Some(s.issued + 1), s.live + {s.issued + 1}, s.issued + 1)
  }

  /** A valid timer never has two intervals live. */
  lemma AtMostOneLive(t: Timer)
    requires Valid(t)
    ensures |t.live| <= 1
  {
  }

  /** Stopping twice is the same as stopping once. */
  lemma StopIdempotent(t: Timer)
    requires Valid(t)
    ensures Stop(Stop(t)) == Stop(t)
  {
  }

  /** Two starts in a row leave one interval, not two (no double-firing). */
  lemma StartTwiceLeavesOne(t: Timer)
    requires Valid(t)
    ensures |Start(Start(t)).live| == 1
    ensures Start(t).handle.value !in Start(Start(t)).live
  {
  }

  /** `resetAutoplay` (stop, then start) is indistinguishable from a plain start. */
  lemma ResetIsStart(t: Timer)
    requires Valid(t)
    ensures Start(Stop(t)) == Start(t)
  {
  }
}
