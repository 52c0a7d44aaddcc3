/**
 * The "operating system" tab switcher (`initTabs`, identical in home-alt.js and home.js):
 * activating tab `i` makes tab `i` and panel `i` the only active ones, marks tab `i` as
 * `aria-selected`, and moves the sliding indicator under it.
 */
module Tabs {
  import Flags

  /** Each tab's share of the tab bar, in percent (`100 / tabs.length`). */
  function IndicatorWidth(count: nat): (w: real)
    requires count > 0
    ensures 0.0 < w <= 100.0
    ensures w * count as real == 100.0
  {
    100.0 / count as real
  }

  /** `index * tabWidth`: the indicator's left edge, in percent; it never runs past the bar. */
  function IndicatorLeft(index: nat, count: nat): (left: real)
    requires index < count
    ensures 0.0 <= left && left + IndicatorWidth(count) <= 100.0
  {
    var w := IndicatorWidth(count);
    assert index as real * w + w == (index + 1) as real * w;
    assert (index + 1) as real * w <= count as real * w;
    index as real * w
  }

  class TabSwitcher {
    /** `is-active` per tab. */
    const tabActive: array<bool>
    /** `aria-selected` per tab. */
    const tabSelected: array<bool>
    /** `is-active` per panel; the markup may hold a different number of panels than tabs. */
    const panelActive: array<bool>
    /** Whether `#tabIndicator` exists. */
    const hasIndicator: bool
    var activeIndex: nat
    /** The indicator's `left` and `width`, in percent. */
    var indicatorLeft: real
    var indicatorWidth: real

    ghost predicate Valid()
      reads this
    {
      && tabActive.Length > 0 && panelActive.Length > 0
      && tabSelected.Length == tabActive.Length
      && tabActive != tabSelected && tabActive != panelActive && tabSelected != panelActive
      && activeIndex < tabActive.Length
    }

    /** All classes and attributes agree with `activeIndex`. */
    ghost predicate Settled()
      reads this, tabActive, tabSelected, panelActive
      requires Valid()
    {
      && tabActive[..] == Flags.Only(tabActive.Length, activeIndex)
      && tabSelected[..] == Flags.Only(tabActive.Length, activeIndex)
      && panelActive[..] == Flags.Only(panelActive.Length, activeIndex)
      && (hasIndicator ==>
            indicatorLeft == IndicatorLeft(activeIndex, tabActive.Length) &&
            indicatorWidth == IndicatorWidth(tabActive.Length))
    }

    /**
     * The early return of `activateTab`: the tab is already the active one and its panel is
     * shown. With no panel at that index, `panels[index].classList` throws, which ends the click
     * handler before it changes anything.
     */
    predicate Skips(index: nat)
      reads this, panelActive
    {
      index == activeIndex && (index >= panelActive.Length || panelActive[index])
    }

    /**
     * `initTabs` on the markup's initial classes, ending with `activateTab(0)`. If the markup
     * already shows panel 0, that call returns early and the markup's classes stay as they are.
     */
    constructor (tabs: seq<bool>, selected: seq<bool>, panels: seq<bool>, hasIndicator: bool)
      requires |tabs| > 0 && |panels| > 0 && |selected| == |tabs|
      ensures Valid() && activeIndex == 0 && this.hasIndicator == hasIndicator
      ensures fresh(tabActive) && fresh(tabSelected) && fresh(panelActive)
      ensures panels[0] ==> tabActive[..] == tabs && tabSelected[..] == selected && panelActive[..] == panels
      ensures !panels[0] ==> Settled()
    {
      tabActive := new bool[|tabs|](i requires 0 <= i < |tabs| => tabs[i]);
      tabSelected := new bool[|selected|](i requires 0 <= i < |selected| => selected[i]);
      panelActive := new bool[|panels|](i requires 0 <= i < |panels| => panels[i]);
      this.hasIndicator := hasIndicator;
      activeIndex := 0;
      indicatorLeft, indicatorWidth := 0.0, 0.0;
      new;
      ActivateTab(0);
    }

    /** `activateTab(index)`, run by a click on tab `index`. */
    method ActivateTab(index: nat)
      requires Valid() && index < tabActive.Length
      modifies this, tabActive, tabSelected, panelActive
      ensures Valid()
      ensures old(Skips(index)) ==>
        unchanged(this, tabActive, tabSelected, panelActive)
      ensures !old(Skips(index)) ==>
        && activeIndex == index && Settled()
        && Flags.Count(tabActive[..]) == 1
        && Flags.Count(panelActive[..]) == (if index < panelActive.Length then 1 else 0)
      ensures old(Settled()) ==> Settled()
    {
      if index == activeIndex && (index >= panelActive.Length || panelActive[index]) {
        return;
      }
      activeIndex := index;

      MarkTab(index);

      if hasIndicator {
        indicatorLeft := IndicatorLeft(index, tabActive.Length);
        indicatorWidth := IndicatorWidth(tabActive.Length);
      }

      Flags.MarkOnly(panelActive, index);
      Flags.CountOnly(tabActive.Length, index);
      Flags.CountOnly(panelActive.Length, index);
    }

    /** The `tabs.forEach` loop: `is-active` and `aria-selected` on tab `index` only. */
    method MarkTab(index: nat)
      requires Valid()
      modifies tabActive, tabSelected
      ensures tabActive[..] == Flags.Only(tabActive.Length, index)
      ensures tabSelected[..] == Flags.Only(tabActive.Length, index)
    {
      var i := 0;
      while i < tabActive.Length
        invariant 0 <= i <= tabActive.Length
        invariant forall j :: 0 <= j < i ==> tabActive[j] == (j == index) && tabSelected[j] == (j == index)
      {
        tabActive[i] := i == index;
        tabSelected[i] := i == index;
        i := i + 1;
      }
    }
  }
}
