/**
 * A CSS class (or a boolean ARIA attribute) carried by the elements of a fixed NodeList is
 * modelled as one boolean per element. This module defines the flag patterns the page scripts
 * produce and the `forEach` loops that produce them.
 */
module Flags {

  /** Element `k` carries the flag and no other does; a `k` outside `[0, n)` marks none. */
  function Only(n: nat, k: int): seq<bool> {
    seq(n, i => i == k)
  }

  /** No element carries the flag. */
  function Cleared(n: nat): seq<bool> {
    seq(n, i => false)
  }

  /** Number of elements that carry the flag. */
  function Count(s: seq<bool>): nat {
    if s == [] then 0 else Count(s[..|s| - 1]) + (if s[|s| - 1] then 1 else 0)
  }

  ghost predicate AtMostOne(s: seq<bool>) {
    forall i, j :: 0 <= i < |s| && 0 <= j < |s| && s[i] && s[j] ==> i == j
  }

  /** `Only` marks exactly one element when `k` is in range, and none otherwise. */
  lemma {:induction false} CountOnly(n: nat, k: int)
    ensures Count(Only(n, k)) == if 0 <= k < n then 1 else 0
  {
    if n > 0 {
      assert Only(n, k)[..n - 1] == Only(n - 1, k);
      CountOnly(n - 1, k);
    }
  }

  /** A cleared vector carries the flag nowhere. */
  lemma {:induction false} CountCleared(n: nat)
    ensures Count(Cleared(n)) == 0
  {
    if n > 0 {
      assert Cleared(n)[..n - 1] == Cleared(n - 1);
      CountCleared(n - 1);
    }
  }

  /** "At most one element carries the flag" is the same as a count of at most one. */
  lemma {:induction false} AtMostOneIffCount(s: seq<bool>)
    ensures AtMostOne(s) <==> Count(s) <= 1
  {
    if s != [] {
      var t := s[..|s| - 1];
      AtMostOneIffCount(t);
      if s[|s| - 1] {
        CountZeroIffCleared(t);
        if AtMostOne(s) {
          assert forall i :: 0 <= i < |t| ==> !t[i] by {
            assert s[|s| - 1];
          }
          assert t == Cleared(|t|);
        }
        if Count(s) <= 1 {
          assert t == Cleared(|t|);
        }
      } else {
        assert AtMostOne(s) <==> AtMostOne(t) by {
          assert forall i :: 0 <= i < |t| ==> s[i] == t[i];
        }
      }
    }
  }

  /** The count is zero exactly when the vector is cleared. */
  lemma {:induction false} CountZeroIffCleared(s: seq<bool>)
    ensures Count(s) == 0 <==> s == Cleared(|s|)
  {
    if s != [] {
      var t := s[..|s| - 1];
      CountZeroIffCleared(t);
      if s == Cleared(|s|) {
        assert t == Cleared(|t|);
      }
      if Count(s) == 0 {
        assert t == Cleared(|t|);
        assert s == t + [s[|s| - 1]];
      }
    }
  }

  /** `Only` satisfies the "at most one" invariant. */
  lemma OnlyAtMostOne(n: nat, k: int)
    ensures AtMostOne(Only(n, k)) && AtMostOne(Cleared(n))
  {
  }

  /** A toggle pass over the elements: element `k` gets the class and every other element loses it. */
  method MarkOnly(a: array<bool>, k: int)
    modifies a
    ensures a[..] == Only(a.Length, k)
  {
    var i := 0;
    while i < a.Length
      invariant 0 <= i <= a.Length
      invariant forall j :: 0 <= j < i ==> a[j] == (j == k)
    {
      a[i] := i == k;
      i := i + 1;
    }
  }

  /** A remove pass over every element carrying the class: afterwards none carries it. */
  method ClearAll(a: array<bool>)
    modifies a
    ensures a[..] == Cleared(a.Length)
  {
    var i := 0;
    while i < a.Length
      invariant 0 <= i <= a.Length
      invariant forall j :: 0 <= j < i ==> !a[j]
    {
      a[i] := false;
      i := i + 1;
    }
  }

  /** Removes the flag from the elements selected by `within` (a query scoped to a container). */
  method ClearWithin(a: array<bool>, within: seq<bool>)
    requires |within| == a.Length
    modifies a
    ensures forall j :: 0 <= j < a.Length ==> a[j] == (old(a[j]) && !within[j])
  {
    var i := 0;
    while i < a.Length
      invariant 0 <= i <= a.Length
      invariant forall j :: 0 <= j < i ==> a[j] == (old(a[j]) && !within[j])
      invariant forall j :: i <= j < a.Length ==> a[j] == old(a[j])
    {
      if within[i] {
        a[i] := false;
      }
      i := i + 1;
    }
  }
}
