/** Supermajorities (src/lib.rs): more than two thirds of a group. */
module Quorum {

  function Supermajority(n: nat): nat {
    1 + n * 2 / 3
  }

  lemma UnionSize<T>(a: set<T>, b: set<T>)
    ensures |a + b| + |a * b| == |a| + |b|
  {
  }

  lemma SubsetSize<T>(a: set<T>, b: set<T>)
    requires a <= b
    ensures |a| <= |b|
    ensures |a| == |b| ==> a == b
  {
    assert b == a + (b - a);
    if |a| == |b| {
      assert |b - a| == 0;
    }
  }

  /** Any two supermajorities of a group share more than a third of it. */
  lemma SupermajoritiesOverlap<T>(group: set<T>, a: set<T>, b: set<T>)
    requires a <= group && b <= group
    requires |a| >= Supermajority(|group|) && |b| >= Supermajority(|group|)
    ensures 3 * |a * b| > |group|
  {
    UnionSize(a, b);
    SubsetSize(a + b, group);
  }

  /** A supermajority is more than two thirds and is the least such number. */
  lemma SupermajorityIsLeast(n: nat)
    ensures 3 * Supermajority(n) > 2 * n
    ensures 3 * (Supermajority(n) - 1) <= 2 * n
    ensures n > 0 ==> Supermajority(n) <= n
  {
  }
}
