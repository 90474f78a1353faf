/** Names and prefixes of the address space: a name is a bit string of fixed length, a prefix is a
    bit string of at most that length and stands for all the names that start with it.
 */
module Prefixes {

  const NAME_BITS: nat := 256

  type Prefix = p: seq<bool> | |p| <= NAME_BITS

  type Name = n: seq<bool> | |n| == NAME_BITS witness seq(NAME_BITS, _ => false)

  const EMPTY: Prefix := []

  predicate Matches(p: Prefix, n: Name) {
    p <= n
  }

  /** `q` is a proper extension of `p`. */
  predicate Extends(q: Prefix, p: Prefix) {
    p < q
  }

  predicate Compatible(p: Prefix, q: Prefix) {
    p <= q || q <= p
  }

  function Popped(p: Prefix): Prefix {
    if p == [] then p else p[..|p| - 1]
  }

  function Pushed(p: Prefix, bit: bool): Prefix
    requires |p| < NAME_BITS
  {
    p + [bit]
  }

  function Sibling(p: Prefix): Prefix {
    if p == [] then p else p[..|p| - 1] + [!p[|p| - 1]]
  }

  /** The names under `p` are all under some member of `s`, decided by descending the bit tree. */
  predicate IsCoveredBy(p: Prefix, s: set<Prefix>)
    decreases NAME_BITS - |p|
  {
    || (exists q :: q in s && q <= p)
    || (&& |p| < NAME_BITS
        && IsCoveredBy(Pushed(p, false), s)
        && IsCoveredBy(Pushed(p, true), s))
  }

  /** Some member of `s` matches `n`. */
  ghost predicate MatchedBy(n: Name, s: set<Prefix>) {
    exists q :: q in s && Matches(q, n)
  }

  /** The meaning of `IsCoveredBy`. */
  ghost predicate Covers(s: set<Prefix>, p: Prefix) {
    forall n: Name :: Matches(p, n) ==> MatchedBy(n, s)
  }

  /** Some name under a prefix: the prefix itself padded with zero bits. */
  function NameUnder(p: Prefix): (n: Name)
    ensures Matches(p, n)
  {
    p + seq(NAME_BITS - |p|, _ => false)
  }

  lemma MatchingPrefixesAreCompatible(p: Prefix, q: Prefix, n: Name)
    requires Matches(p, n) && Matches(q, n)
    ensures Compatible(p, q)
    ensures |p| <= |q| ==> p <= q
    ensures |p| < |q| ==> Extends(q, p)
  {
    if |p| <= |q| {
      assert p == n[..|p|] && q == n[..|q|];
      assert p == q[..|p|];
    } else {
      assert p == n[..|p|] && q == n[..|q|];
      assert q == p[..|q|];
    }
  }

  lemma {:induction false} IsCoveredByMeansCovers(p: Prefix, s: set<Prefix>)
    ensures IsCoveredBy(p, s) <==> Covers(s, p)
    decreases NAME_BITS - |p|
  {
    if exists q :: q in s && q <= p {
      var q :| q in s && q <= p;
      forall n: Name | Matches(p, n) ensures MatchedBy(n, s) {
        assert Matches(q, n);
      }
    } else if |p| == NAME_BITS {
      var n: Name := p;
      assert Matches(p, n);
    } else {
      IsCoveredByMeansCovers(Pushed(p, false), s);
      IsCoveredByMeansCovers(Pushed(p, true), s);
      CoversByHalves(s, p);
    }
  }

  /** The names under a prefix are those under its two one-bit extensions. */
  lemma CoversByHalves(s: set<Prefix>, p: Prefix)
    requires |p| < NAME_BITS
    ensures Covers(s, p) <==> Covers(s, Pushed(p, false)) && Covers(s, Pushed(p, true))
  {
    forall n: Name
      ensures Matches(p, n) <==> Matches(Pushed(p, false), n) || Matches(Pushed(p, true), n)
    {
      if Matches(p, n) {
        assert Pushed(p, n[|p|]) == n[..|p| + 1];
      }
    }
  }

  lemma CoversMonotone(s: set<Prefix>, t: set<Prefix>, p: Prefix)
    requires s <= t
    ensures Covers(s, p) ==> Covers(t, p)
  {
  }

  lemma NothingCoveredByNone(p: Prefix)
    ensures !Covers({}, p)
  {
    assert !MatchedBy(NameUnder(p), {});
  }
}
