/**
 * main.js, `initActiveNav`: the navigation entry for the page being shown is highlighted,
 * derived from the last segment of the URL path.
 */
module ActiveNav {
  import opened Wrappers
  import Flags

  /** `path.split('/').pop()`: the text after the last '/', or the whole path if it has none. */
  function LastSegment(path: string): (seg: string)
    ensures '/' !in seg
    ensures |seg| <= |path| && seg == path[|path| - |seg|..]
    ensures |seg| < |path| ==> path[|path| - |seg| - 1] == '/'
  {
    if path == [] then ""
    else if path[|path| - 1] == '/' then ""
    else LastSegment(path[..|path| - 1]) + [path[|path| - 1]]
  }

  /** Appending a file name to a directory path makes that name the last segment. */
  lemma {:induction false} LastSegmentOfJoin(dir: string, name: string)
    requires '/' !in name
    ensures LastSegment(dir + "/" + name) == name
  {
    if name != [] {
      var n := |name|;
      assert (dir + "/" + name)[..|dir + "/" + name| - 1] == dir + "/" + name[..n - 1];
      LastSegmentOfJoin(dir, name[..n - 1]);
      assert name == name[..n - 1] + [name[n - 1]];
    }
  }

  /** The page a bare directory path stands for. */
  function Index(): (page: string)
    ensures '/' !in page && page != ""
  {
    "index.html"
  }

  /** The current page: the last path segment, with an empty one (a path ending in '/') meaning the index page. */
  function CurrentPage(path: string): (page: string)
    ensures '/' !in page && page != ""
    ensures LastSegment(path) != "" ==> page == LastSegment(path)
    ensures LastSegment(path) == "" ==> page == Index() && page == "index.html"
  {
    var seg := LastSegment(path);
    if seg == "" then Index() else seg
  }

  /** The pages of the "Our impact" family. */
  const ImpactPages: seq<string> := ["our-impact.html", "our-impact-v2.html", "our-impact-v3.html"]
  /** The pages reached through the solutions dropdown. */
  const SolutionPages: seq<string> := ["power-one.html", "portfolio-solutions.html", "private-equity.html"]
  /** Pages whose own link is highlighted when its href is exactly the page. */
  const ExactPages: seq<string> := ["index.html", "about.html", "careers.html"]

  /** `s.includes(sub)`, by scanning. */
  predicate Contains(s: string, sub: string)
    decreases |s|
  {
    |sub| <= |s| && (s[..|sub|] == sub || Contains(s[1..], sub))
  }

  /** `sub` occurs in `s` starting at position `i`. */
  ghost predicate OccursAt(s: string, sub: string, i: int) {
    0 <= i && i + |sub| <= |s| && s[i..i + |sub|] == sub
  }

  /** The scan finds exactly the positions at which `sub` occurs. */
  lemma {:induction false} ContainsIff(s: string, sub: string)
    ensures Contains(s, sub) <==> exists i :: OccursAt(s, sub, i)
    decreases |s|
  {
    if |sub| <= |s| && s[..|sub|] != sub {
      ContainsIff(s[1..], sub);
      if exists i :: OccursAt(s, sub, i) {
        var i :| OccursAt(s, sub, i);
        assert i != 0;
        assert OccursAt(s[1..], sub, i - 1) by {
          assert s[1..][i - 1..i - 1 + |sub|] == s[i..i + |sub|];
        }
      }
      if Contains(s[1..], sub) {
        var i :| OccursAt(s[1..], sub, i);
        assert OccursAt(s, sub, i + 1) by {
          assert s[1..][i..i + |sub|] == s[i + 1..i + 1 + |sub|];
        }
      }
    } else if |sub| <= |s| {
      assert OccursAt(s, sub, 0);
    } else {
      assert forall i :: !OccursAt(s, sub, i);
    }
  }

  /**
   * Whether the nav link with attribute `href` is highlighted on `page`: links without an href
   * never are; the index, about and careers pages highlight the link pointing at themselves, and
   * every impact page highlights each link whose href mentions "impact".
   */
  predicate LinkMarked(page: string, href: Option<string>) {
    match href
    case None => false
    case Some(h) =>
      || (page == "index.html" && h == "index.html")
      || (page in ImpactPages && Contains(h, "impact"))
      || (page == "about.html" && h == "about.html")
      || (page == "careers.html" && h == "careers.html")
  }

  /** Outside the impact family every highlighted link points at the page itself. */
  lemma MarkedLinksPointHere(page: string, href: Option<string>)
    requires page !in ImpactPages && LinkMarked(page, href)
    ensures href == Some(page) && page in ExactPages
  {
  }

  /** The index, about and careers pages highlight exactly the links whose href is the page itself. */
  lemma ExactPagesMarkOwnLink(page: string, href: Option<string>)
    requires page in ExactPages
    ensures LinkMarked(page, href) <==> href == Some(page)
  {
  }

  /** On an impact page a link is highlighted exactly when "impact" occurs somewhere in its href. */
  lemma ImpactPagesMarkImpactLinks(page: string, h: string)
    requires page in ImpactPages
    ensures LinkMarked(page, Some(h)) <==> exists i :: OccursAt(h, "impact", i)
  {
    ContainsIff(h, "impact");
  }

  /** Any other page (a solutions page, say) highlights no link at all. */
  lemma OtherPagesMarkNoLink(page: string, href: Option<string>)
    requires page !in ImpactPages && page !in ExactPages
    ensures !LinkMarked(page, href)
  {
  }

  /** ASCII `toLowerCase`. */
  function Lower(s: string): string {
    seq(|s|, i requires 0 <= i < |s| => if 'A' <= s[i] <= 'Z' then (s[i] - 'A' + 'a') as char else s[i])
  }

  /** Lower-casing leaves no capital letter, keeps every other character, and is idempotent. */
  lemma LowerProperties(s: string)
    ensures |Lower(s)| == |s|
    ensures forall i :: 0 <= i < |s| ==> !('A' <= Lower(s)[i] <= 'Z')
    ensures forall i :: 0 <= i < |s| && !('A' <= s[i] <= 'Z') ==> Lower(s)[i] == s[i]
    ensures Lower(Lower(s)) == Lower(s)
  {
  }

  /** Lower-casing commutes with taking a slice. */
  lemma LowerSlice(s: string, i: nat, j: nat)
    requires i <= j <= |s|
    ensures Lower(s)[i..j] == Lower(s[i..j])
  {
  }

  /** A dropdown trigger is highlighted on a solutions page when its label mentions "solution" in any case. */
  predicate TriggerMarked(page: string, text: string) {
    page in SolutionPages && Contains(Lower(text), "solution")
  }

  /**
   * The trigger match ignores case: on a solutions page, a label in which some eight letters
   * lower-case to "solution" ("Solutions", "SOLUTION", ...) is highlighted.
   */
  lemma TriggerMarkedAnyCase(page: string, text: string, i: nat)
    requires page in SolutionPages && i + 8 <= |text| && Lower(text[i..i + 8]) == "solution"
    ensures TriggerMarked(page, text)
  {
    LowerSlice(text, i, i + 8);
    assert OccursAt(Lower(text), "solution", i);
    ContainsIff(Lower(text), "solution");
  }

  /**
   * `initActiveNav` over the page's `.navbar__link` elements (`linkInNav`: inside `.navbar__nav`;
   * `linkHref`: their href attribute), its direct `.navbar__item` children and its dropdown
   * triggers: first every link and item loses `is-active`, then the matching nav links gain it,
   * and on a solutions page the matching triggers gain it too (without being cleared first).
   */
  method InitActiveNav(path: string, linkActive: array<bool>, linkInNav: seq<bool>, linkHref: seq<Option<string>>,
                       itemActive: array<bool>, triggerActive: array<bool>, triggerLabel: seq<string>)
    requires |linkInNav| == linkActive.Length && |linkHref| == linkActive.Length
    requires |triggerLabel| == triggerActive.Length
    requires linkActive != itemActive && linkActive != triggerActive && itemActive != triggerActive
    modifies linkActive, itemActive, triggerActive
    ensures forall j :: 0 <= j < linkActive.Length ==>
      linkActive[j] == (linkInNav[j] && LinkMarked(CurrentPage(path), linkHref[j]))
    ensures itemActive[..] == Flags.Cleared(itemActive.Length)
    ensures forall j :: 0 <= j < triggerActive.Length ==>
      triggerActive[j] == (old(triggerActive[j]) || TriggerMarked(CurrentPage(path), triggerLabel[j]))
  {
    var page := CurrentPage(path);
    Flags.ClearAll(itemActive);
    Flags.ClearAll(linkActive);
    MarkLinks(page, linkActive, linkInNav, linkHref);
    if page in SolutionPages {
      MarkTriggers(page, triggerActive, triggerLabel);
    }
  }

  /** The `.navbar__nav .navbar__link` loop: cleared links gain `is-active` where they match. */
  method MarkLinks(page: string, linkActive: array<bool>, linkInNav: seq<bool>, linkHref: seq<Option<string>>)
    requires |linkInNav| == linkActive.Length && |linkHref| == linkActive.Length
    requires linkActive[..] == Flags.Cleared(linkActive.Length)
    modifies linkActive
    ensures forall j :: 0 <= j < linkActive.Length ==> linkActive[j] == (linkInNav[j] && LinkMarked(page, linkHref[j]))
  {
    var i := 0;
    while i < linkActive.Length
      invariant 0 <= i <= linkActive.Length
      invariant forall j :: 0 <= j < i ==> linkActive[j] == (linkInNav[j] && LinkMarked(page, linkHref[j]))
      invariant forall j :: i <= j < linkActive.Length ==> !linkActive[j]
    {
      if linkInNav[i] && LinkMarked(page, linkHref[i]) {
        linkActive[i] := true;
      }
      i := i + 1;
    }
  }

  /** The dropdown-trigger loop of a solutions page: matching triggers gain `is-active`, the others keep theirs. */
  method MarkTriggers(page: string, triggerActive: array<bool>, triggerLabel: seq<string>)
    requires |triggerLabel| == triggerActive.Length && page in SolutionPages
    modifies triggerActive
    ensures forall j :: 0 <= j < triggerActive.Length ==>
      triggerActive[j] == (old(triggerActive[j]) || TriggerMarked(page, triggerLabel[j]))
  {
    var t := 0;
    while t < triggerActive.Length
      invariant 0 <= t <= triggerActive.Length
      invariant forall j :: 0 <= j < t ==> triggerActive[j] == (old(triggerActive[j]) || TriggerMarked(page, triggerLabel[j]))
      invariant forall j :: t <= j < triggerActive.Length ==> triggerActive[j] == old(triggerActive[j])
    {
      if Contains(Lower(triggerLabel[t]), "solution") {
        triggerActive[t] := true;
      }
      t := t + 1;
    }
  }
}
