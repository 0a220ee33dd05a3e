/** What it means for a sequence to be the elements of another that satisfy a condition, in order. */
module Filters {

  /** How many elements satisfy `p`. */
  function Rank<T>(s: seq<T>, p: T -> bool): nat {
    if s == [] then 0 else Rank(s[..|s| - 1], p) + if p(s[|s| - 1]) then 1 else 0
  }

  /** Every element that satisfies `p` stands in `out` behind those that satisfy it before, and `out` holds
      nothing else. */
  ghost predicate IsFilter<T>(s: seq<T>, p: T -> bool, out: seq<T>) {
    && |out| == Rank(s, p)
    && forall i | 0 <= i < |s| && p(s[i]) :: Rank(s[..i], p) < |out| && out[Rank(s[..i], p)] == s[i]
  }

  lemma FilterNone<T>(p: T -> bool)
    ensures IsFilter([], p, [])
  {
  }

  lemma FilterSnoc<T>(s: seq<T>, x: T, p: T -> bool, out: seq<T>)
    requires IsFilter(s, p, out)
    ensures p(x) ==> IsFilter(s + [x], p, out + [x])
    ensures !p(x) ==> IsFilter(s + [x], p, out)
  {
    var t := s + [x];
    assert t[..|s|] == s;
    forall i | 0 <= i < |s| ensures t[i] == s[i] && t[..i] == s[..i] {
    }
  }

  lemma {:induction false} RankHit<T>(s: seq<T>, p: T -> bool, k: nat) returns (i: nat)
    requires k < Rank(s, p)
    ensures i < |s| && p(s[i]) && Rank(s[..i], p) == k
  {
    var n := |s| - 1;
    if k < Rank(s[..n], p) {
      i := RankHit(s[..n], p, k);
      assert s[..n][..i] == s[..i];
    } else {
      i := n;
    }
  }

  /** The description leaves no choice. */
  lemma FilterIsUnique<T>(s: seq<T>, p: T -> bool, a: seq<T>, b: seq<T>)
    requires IsFilter(s, p, a) && IsFilter(s, p, b)
    ensures a == b
  {
    forall k | 0 <= k < |a| ensures a[k] == b[k] {
      var i := RankHit(s, p, k);
    }
  }
}
