/** How many elders the network has, estimated from the sections we know (src/network/mod.rs). The
    estimate divides the known elders by the share of the address space that the known prefixes
    take up; 64-bit floats are modelled as reals.
 */
module ElderCounts {
  import opened Prefixes

  datatype Known = Known(prefix: Prefix, elderCount: nat)

  datatype Counts = Counts(known: nat, total: int, exact: bool)

  function Exp2(n: nat): (r: real)
    ensures r >= 1.0
  {
    if n == 0 then 1.0 else 2.0 * Exp2(n - 1)
  }

  function Share(p: Prefix): real {
    1.0 / Exp2(|p|)
  }

  function Fraction(sections: seq<Known>): real {
    if sections == [] then 0.0
    else Fraction(sections[..|sections| - 1]) + Share(sections[|sections| - 1].prefix)
  }

  function KnownElders(sections: seq<Known>): nat {
    if sections == [] then 0
    else KnownElders(sections[..|sections| - 1]) + sections[|sections| - 1].elderCount
  }

  function PrefixesOf(sections: seq<Known>): set<Prefix> {
    set section | section in sections :: section.prefix
  }

  function Ceil(x: real): int {
    if x.Floor as real == x then x.Floor else x.Floor + 1
  }

  /** All known elders but one, scaled by the fraction, are fewer than the known elders. */
  predicate FractionAllows(known: nat, fraction: real) {
    (known as real - 1.0) * fraction < known as real
  }

  function Estimate(known: nat, fraction: real): int
    requires fraction > 0.0
  {
    Ceil(known as real / fraction)
  }

  /** `sections` is our section followed by the others. */
  function NetworkElderCounts(sections: seq<Known>): Counts
    requires sections != []
  {
    FractionIsPositive(sections);
    var known := KnownElders(sections);
    Counts(known, Estimate(known, Fraction(sections)), IsCoveredBy(EMPTY, PrefixesOf(sections)))
  }

  ghost predicate PairwiseIncompatible(sections: seq<Known>) {
    forall i, j :: 0 <= i < j < |sections| ==> !Compatible(sections[i].prefix, sections[j].prefix)
  }

  ghost predicate DistinctPrefixes(sections: seq<Known>) {
    forall i, j :: 0 <= i < j < |sections| ==> sections[i].prefix != sections[j].prefix
  }

  /** The share of all members of `s` at or below `p`, added up along the bit tree. */
  ghost function TotalShare(p: Prefix, s: set<Prefix>): real
    decreases NAME_BITS - |p|
  {
    (if p in s then Share(p) else 0.0)
    + if |p| == NAME_BITS then 0.0 else TotalShare(Pushed(p, false), s) + TotalShare(Pushed(p, true), s)
  }

  /** No two members of `s` at or below `p` overlap. */
  ghost predicate ApartBelow(p: Prefix, s: set<Prefix>) {
    forall q, r :: q in s && r in s && p <= q && p <= r && q != r ==> !Compatible(q, r)
  }

  lemma ShareOfHalves(p: Prefix, bit: bool)
    requires |p| < NAME_BITS
    ensures Share(p) == 2.0 * Share(Pushed(p, bit))
    ensures Share(p) > 0.0
  {
  }

  lemma SharePositive(p: Prefix)
    ensures 0.0 < Share(p)
  {
  }

  lemma {:induction false} FractionIsPositive(sections: seq<Known>)
    ensures Fraction(sections) >= 0.0
    ensures sections != [] ==> Fraction(sections) > 0.0
  {
    if sections != [] {
      FractionIsPositive(sections[..|sections| - 1]);
      SharePositive(sections[|sections| - 1].prefix);
    }
  }

  /** What is at or below `p` is `p` or below exactly one of its two halves. */
  lemma BelowIsInHalf(p: Prefix, q: Prefix)
    requires |p| < NAME_BITS
    ensures p <= q <==> q == p || Pushed(p, false) <= q || Pushed(p, true) <= q
    ensures !(Pushed(p, false) <= q && Pushed(p, true) <= q)
    ensures q == p ==> !(Pushed(p, false) <= q) && !(Pushed(p, true) <= q)
  {
    if p <= q && q != p {
      assert |p| < |q|;
      assert Pushed(p, q[|p|]) == q[..|p| + 1];
    }
    forall bit: bool | Pushed(p, bit) <= q ensures p <= q && q[|p|] == bit {
      assert p == Pushed(p, bit)[..|p|] == q[..|p|];
    }
  }

  lemma NothingBelowNames(p: Prefix, q: Prefix)
    requires |p| == NAME_BITS
    ensures p <= q <==> q == p
  {
  }

  lemma {:induction false} TotalShareSign(p: Prefix, s: set<Prefix>)
    ensures TotalShare(p, s) >= 0.0
    ensures TotalShare(p, s) == 0.0 <==> forall q :: q in s ==> !(p <= q)
    decreases NAME_BITS - |p|
  {
    SharePositive(p);
    if |p| < NAME_BITS {
      TotalShareSign(Pushed(p, false), s);
      TotalShareSign(Pushed(p, true), s);
      forall q | q in s
        ensures p <= q <==> q == p || Pushed(p, false) <= q || Pushed(p, true) <= q
      {
        BelowIsInHalf(p, q);
      }
    } else {
      assert forall q :: q in s ==> (p <= q <==> q == p);
    }
    if p in s {
      assert p <= p;
    }
  }

  /** A further prefix adds its share at every point above it and nothing elsewhere. */
  lemma {:induction false} TotalShareAdds(p: Prefix, s: set<Prefix>, q: Prefix)
    requires q !in s
    ensures TotalShare(p, s + {q}) == TotalShare(p, s) + if p <= q then Share(q) else 0.0
    decreases NAME_BITS - |p|
  {
    if |p| < NAME_BITS {
      BelowIsInHalf(p, q);
      TotalShareAdds(Pushed(p, false), s, q);
      TotalShareAdds(Pushed(p, true), s, q);
    } else {
      NothingBelowNames(p, q);
    }
  }

  lemma ApartByHalves(p: Prefix, s: set<Prefix>)
    requires p !in s && |p| < NAME_BITS
    ensures ApartBelow(p, s) <==> ApartBelow(Pushed(p, false), s) && ApartBelow(Pushed(p, true), s)
  {
    forall q | q in s ensures p <= q <==> Pushed(p, false) <= q || Pushed(p, true) <= q {
      BelowIsInHalf(p, q);
    }
    forall q, r | Pushed(p, false) <= q && Pushed(p, true) <= r ensures !Compatible(q, r) {
      assert q[|p|] != r[|p|];
    }
  }

  /** Below `p`, prefixes that cover it take up at least its share, prefixes that do not overlap at
      most its share, and either take up just its share exactly when they do both. */
  lemma {:induction false} ShareLaw(p: Prefix, s: set<Prefix>)
    requires forall q :: q in s ==> !Extends(p, q)
    ensures IsCoveredBy(p, s) ==>
              TotalShare(p, s) >= Share(p) && (TotalShare(p, s) == Share(p) <==> ApartBelow(p, s))
    ensures ApartBelow(p, s) ==>
              TotalShare(p, s) <= Share(p) && (TotalShare(p, s) == Share(p) <==> IsCoveredBy(p, s))
    decreases NAME_BITS - |p|
  {
    SharePositive(p);
    if p in s {
      ShareOfMember(p, s);
    } else {
      forall q | q in s ensures !(q <= p) {
        assert q != p;
      }
      if |p| < NAME_BITS {
        ShareOfHalves(p, false);
        ShareOfHalves(p, true);
        ApartByHalves(p, s);
        forall bit: bool, q | q in s ensures !Extends(Pushed(p, bit), q) {
          if |q| <= |p| {
            assert Pushed(p, bit)[..|q|] == p[..|q|];
          }
        }
        ShareLaw(Pushed(p, false), s);
        ShareLaw(Pushed(p, true), s);
      }
    }
  }

  lemma ShareOfMember(p: Prefix, s: set<Prefix>)
    requires p in s
    ensures IsCoveredBy(p, s) && TotalShare(p, s) >= Share(p)
    ensures TotalShare(p, s) == Share(p) <==> ApartBelow(p, s)
  {
    assert p <= p;
    if |p| < NAME_BITS {
      TotalShareSign(Pushed(p, false), s);
      TotalShareSign(Pushed(p, true), s);
      forall q | q in s ensures q != p && p <= q <==> Pushed(p, false) <= q || Pushed(p, true) <= q {
        BelowIsInHalf(p, q);
      }
      if q :| q in s && q != p && p <= q {
        assert Compatible(p, q);
      } else {
        assert ApartBelow(p, s);
      }
    }
  }

  lemma {:induction false} FractionIsTotalShare(sections: seq<Known>)
    requires DistinctPrefixes(sections)
    ensures Fraction(sections) == TotalShare(EMPTY, PrefixesOf(sections))
  {
    if sections == [] {
      TotalShareSign(EMPTY, PrefixesOf(sections));
    } else {
      var front, last := sections[..|sections| - 1], sections[|sections| - 1];
      FractionIsTotalShare(front);
      LastIsNew(sections);
      TotalShareAdds(EMPTY, PrefixesOf(front), last.prefix);
    }
  }

  lemma LastIsNew(sections: seq<Known>)
    requires sections != [] && DistinctPrefixes(sections)
    ensures var front, last := sections[..|sections| - 1], sections[|sections| - 1];
            PrefixesOf(sections) == PrefixesOf(front) + {last.prefix} && last.prefix !in PrefixesOf(front)
  {
    assert sections == sections[..|sections| - 1] + [sections[|sections| - 1]];
  }

  lemma PairsAreMembers(sections: seq<Known>)
    requires DistinctPrefixes(sections)
    ensures PairwiseIncompatible(sections) <==> ApartBelow(EMPTY, PrefixesOf(sections))
  {
    if ApartBelow(EMPTY, PrefixesOf(sections)) {
      forall i, j | 0 <= i < j < |sections| ensures !Compatible(sections[i].prefix, sections[j].prefix) {
        assert sections[i] in sections && sections[j] in sections;
        assert sections[i].prefix in PrefixesOf(sections) && sections[j].prefix in PrefixesOf(sections);
      }
    }
  }

  /** Different prefixes that cover the address space have fractions adding up to at least 1, different
      prefixes that do not overlap to at most 1, and either to just 1 exactly when they do both. */
  lemma KraftLaw(sections: seq<Known>)
    requires DistinctPrefixes(sections)
    ensures IsCoveredBy(EMPTY, PrefixesOf(sections)) ==>
              Fraction(sections) >= 1.0 && (Fraction(sections) == 1.0 <==> PairwiseIncompatible(sections))
    ensures PairwiseIncompatible(sections) ==>
              Fraction(sections) <= 1.0 && (Fraction(sections) == 1.0 <==> IsCoveredBy(EMPTY, PrefixesOf(sections)))
  {
    FractionIsTotalShare(sections);
    PairsAreMembers(sections);
    ShareLaw(EMPTY, PrefixesOf(sections));
    ShareOfEmpty();
  }

  lemma ShareOfEmpty()
    ensures Share(EMPTY) == 1.0
  {
  }

  lemma QuotientBound(known: real, fraction: real)
    requires 0.0 < fraction <= 1.0 && known >= 0.0
    ensures known / fraction >= known
    ensures known / fraction == known <==> fraction == 1.0 || known == 0.0
  {
  }

  /** The estimate is at least what we know exactly when the known elders but one, scaled by the
      fraction, are fewer than the known elders. */
  lemma EstimateIsEnoughIff(sections: seq<Known>)
    requires sections != []
    ensures var counts := NetworkElderCounts(sections);
            counts.total >= counts.known <==> FractionAllows(counts.known, Fraction(sections))
  {
    FractionIsPositive(sections);
    var known, fraction := KnownElders(sections), Fraction(sections);
    assert NetworkElderCounts(sections).total == Estimate(known, fraction);
    EstimateReaches(known, fraction);
  }

  lemma EstimateReaches(known: nat, fraction: real)
    requires fraction > 0.0
    ensures Estimate(known, fraction) >= known <==> FractionAllows(known, fraction)
  {
    CeilReaches(known as real / fraction, known);
    QuotientExceeds(known as real, fraction, known as real - 1.0);
  }

  lemma CeilReaches(x: real, n: int)
    ensures Ceil(x) >= n <==> x > n as real - 1.0
  {
  }

  lemma QuotientExceeds(x: real, y: real, z: real)
    requires y > 0.0
    ensures x / y > z <==> z * y < x
  {
    var quotient := x / y;
    assert quotient * y == x;
    assert (quotient - z) * y == x - z * y;
    SignOfProduct(quotient - z, y);
  }

  lemma SignOfProduct(a: real, b: real)
    requires b > 0.0
    ensures a * b > 0.0 <==> a > 0.0
  {
  }

  /** For sections that do not overlap the estimate is never below what we know, and it is what we know
      exactly when the known sections are the whole network or have no elders. */
  lemma EstimateIsSound(sections: seq<Known>)
    requires sections != [] && PairwiseIncompatible(sections)
    ensures var counts := NetworkElderCounts(sections);
            && counts.total >= counts.known
            && (counts.total == counts.known <==> counts.exact || counts.known == 0)
  {
    FractionIsPositive(sections);
    assert DistinctPrefixes(sections) by {
      assert forall p: Prefix :: Compatible(p, p);
    }
    KraftLaw(sections);
    QuotientBound(KnownElders(sections) as real, Fraction(sections));
  }

  lemma CoveredWithout(root: Prefix, s: set<Prefix>, p: Prefix, q: Prefix)
    requires p in s && Extends(q, p) && IsCoveredBy(root, s)
    ensures IsCoveredBy(root, s - {q})
  {
    IsCoveredByMeansCovers(root, s);
    IsCoveredByMeansCovers(root, s - {q});
    forall n: Name | Matches(root, n) ensures MatchedBy(n, s - {q}) {
      var r :| r in s && Matches(r, n);
      assert r == q ==> Matches(p, n) && p in s - {q};
      assert r != q ==> r in s - {q};
    }
  }

  /** Prefixes that cover `root` take up its share and, besides, that of one below another. */
  lemma WithoutOverlapped(root: Prefix, s: set<Prefix>, p: Prefix, q: Prefix)
    requires p in s && q in s && Extends(q, p) && root <= q && IsCoveredBy(root, s)
    requires forall r :: r in s ==> !Extends(root, r)
    ensures TotalShare(root, s) >= Share(root) + Share(q)
  {
    CoveredWithout(root, s, p, q);
    ShareLaw(root, s - {q});
    TotalShareAdds(root, s - {q}, q);
    assert s - {q} + {q} == s;
  }

  /** With a section known beside one above it, and the address space covered, the count claims to be
      exact; yet the estimate is below what we know as soon as we know more elders than there are
      prefixes as long as the lower one. */
  lemma OverlapUnderestimates(sections: seq<Known>, i: nat, j: nat)
    requires DistinctPrefixes(sections) && i < |sections| && j < |sections|
    requires Extends(sections[i].prefix, sections[j].prefix) && IsCoveredBy(EMPTY, PrefixesOf(sections))
    requires KnownElders(sections) as real >= 1.0 + Exp2(|sections[i].prefix|)
    ensures var counts := NetworkElderCounts(sections);
            counts.exact && counts.total < counts.known
  {
    OverlapShare(sections, i, j);
    TooManyKnown(KnownElders(sections), Fraction(sections), |sections[i].prefix|);
    EstimateIsEnoughIff(sections);
  }

  lemma OverlapShare(sections: seq<Known>, i: nat, j: nat)
    requires DistinctPrefixes(sections) && i < |sections| && j < |sections|
    requires Extends(sections[i].prefix, sections[j].prefix) && IsCoveredBy(EMPTY, PrefixesOf(sections))
    ensures Fraction(sections) >= 1.0 + 1.0 / Exp2(|sections[i].prefix|)
  {
    assert sections[i] in sections && sections[j] in sections;
    WithoutOverlapped(EMPTY, PrefixesOf(sections), sections[j].prefix, sections[i].prefix);
    ShareOfEmpty();
    FractionIsTotalShare(sections);
  }

  lemma TooManyKnown(known: nat, fraction: real, bits: nat)
    requires known as real >= 1.0 + Exp2(bits) && fraction >= 1.0 + 1.0 / Exp2(bits)
    ensures !FractionAllows(known, fraction)
  {
    LargeEnough(known as real, fraction, Exp2(bits));
  }

  lemma LargeEnough(known: real, fraction: real, e: real)
    requires e >= 1.0 && known >= 1.0 + e && fraction >= 1.0 + 1.0 / e
    ensures (known - 1.0) * fraction >= known
  {
    var x, y := known - 1.0, fraction - 1.0;
    assert e * (1.0 / e) == 1.0;
    assert 1.0 / e > 0.0;
    ProductOfBounds(x, e, y);
    ProductOfBounds(y, 1.0 / e, e);
    assert x * fraction == x + x * y;
  }

  lemma ProductOfBounds(a: real, b: real, c: real)
    requires a >= b && c >= 0.0
    ensures a * c >= b * c
  {
  }
}
