/** When a section splits and who its next elders are (src/section/mod.rs). A section is seen here
    through its prefix, the names of its current elders and a listing of its members.
 */
module Promotion {
  import opened Wrappers
  import opened Prefixes
  import opened Messaging
  import opened Quorum
  import opened Sequences
  import opened Sorting
  import opened SectionPeersModel
  import opened ElderSelection

  function Addresses(infos: seq<SignedMember>): map<Name, Addr> {
    if infos == [] then map[]
    else
      var last := infos[|infos| - 1];
      Addresses(infos[..|infos| - 1])[NameOf(last) := last.value.peer.addr]
  }

  function Names(infos: seq<SignedMember>): set<Name> {
    set info | info in infos :: NameOf(info)
  }

  /** How many mature joined members have `bit` as the bit of their name at `index`. */
  function MatureOnSide(listing: seq<SignedMember>, index: nat, bit: bool): nat
    requires index < NAME_BITS
  {
    if listing == [] then 0
    else
      var last := listing[|listing| - 1];
      MatureOnSide(listing[..|listing| - 1], index, bit)
      + if last.value.state == Joined && IsMature(last.value) && NameOf(last)[index] == bit then 1 else 0
  }

  function HalfCandidates(listing: seq<SignedMember>, elders: set<Name>, prefix: Prefix): ElderCandidates {
    ElderCandidates(Addresses(Best(ELDER_SIZE, elders, MatchingPool(listing, prefix))), prefix)
  }

  /** The candidates of both halves, ours first, if both halves are large enough. */
  function TrySplit(prefix: Prefix, elders: set<Name>, listing: seq<SignedMember>, ourName: Name)
    : Option<(ElderCandidates, ElderCandidates)>
  {
    if |prefix| == NAME_BITS then None
    else
      var bit := ourName[|prefix|];
      if || MatureOnSide(listing, |prefix|, bit) < RECOMMENDED_SECTION_SIZE
         || MatureOnSide(listing, |prefix|, !bit) < RECOMMENDED_SECTION_SIZE then None
      else
        Some((HalfCandidates(listing, elders, Pushed(prefix, bit)),
              HalfCandidates(listing, elders, Pushed(prefix, !bit))))
  }

  function PromoteAndDemote(prefix: Prefix, elders: set<Name>, listing: seq<SignedMember>, ourName: Name)
    : seq<ElderCandidates>
  {
    match TrySplit(prefix, elders, listing, ourName)
    case Some((ours, other)) => [ours, other]
    case None =>
      var expected := Best(ELDER_SIZE, elders, ActivePool(listing, elders));
      if Names(expected) == elders then []
      else if |Names(expected)| < Supermajority(|elders|) then []
      else [ElderCandidates(Addresses(expected), prefix)]
  }

  lemma {:induction false} AddressesOfNames(infos: seq<SignedMember>)
    ensures Addresses(infos).Keys == Names(infos)
  {
    if infos != [] {
      AddressesOfNames(infos[..|infos| - 1]);
      SplitLast(infos);
      assert Names(infos) == Names(infos[..|infos| - 1]) + {NameOf(infos[|infos| - 1])};
    }
  }

  lemma {:induction false} AddressesOfDistinct(infos: seq<SignedMember>)
    requires DistinctNames(infos)
    ensures |Addresses(infos)| == |infos|
  {
    if infos != [] {
      var front, last := infos[..|infos| - 1], infos[|infos| - 1];
      AddressesOfDistinct(front);
      AddressesOfNames(front);
      assert NameOf(last) !in Names(front);
    }
  }

  /** Once chosen, candidates stay preferred: being elders can only help them against those left
      out, in the state and age order they already won. */
  lemma ChosenStayAhead(x: SignedMember, y: SignedMember, before: set<Name>, after: set<Name>)
    requires NoneLeft([x, y]) && NotAfter(x, y, before)
    requires IsElder(x, after) && !IsElder(y, after)
    ensures !NotAfter(y, x, after)
  {
  }

  /** Choosing again from a pool that still holds the chosen and nothing new chooses the same. */
  lemma ChoosingAgain(pool: seq<SignedMember>, again: seq<SignedMember>, elders: set<Name>)
    requires NoneLeft(pool) && DistinctNames(pool) && NoneLeft(again) && DistinctNames(again)
    requires ToSet(again) <= ToSet(pool)
    requires ToSet(Best(ELDER_SIZE, elders, pool)) <= ToSet(again)
    ensures var chosen := Best(ELDER_SIZE, elders, pool);
            ToSet(Best(ELDER_SIZE, Names(chosen), again)) == ToSet(chosen)
  {
    var chosen := Best(ELDER_SIZE, elders, pool);
    var after := Names(chosen);
    BestIsTop(ELDER_SIZE, elders, pool);
    BestIsTop(ELDER_SIZE, after, again);
    assert |ToSet(chosen)| == Min(ELDER_SIZE, |ToSet(again)|) by {
      SubsetSize(ToSet(again), ToSet(pool));
      SubsetSize(ToSet(chosen), ToSet(again));
    }
    var le := InOrder(after);
    forall x, y | x in ToSet(chosen) && y in ToSet(again) - ToSet(chosen) ensures !le(y, x) {
      assert InOrder(elders)(x, y);
      assert IsElder(x, after);
      NotChosenNotNamed(pool, chosen, y);
      ChosenStayAhead(x, y, elders, after);
    }
    StrictTopIsOnlyTop(ToSet(chosen), ToSet(Best(ELDER_SIZE, after, again)), ToSet(again), ELDER_SIZE, le);
  }

  lemma NotChosenNotNamed(pool: seq<SignedMember>, chosen: seq<SignedMember>, y: SignedMember)
    requires DistinctNames(pool) && ToSet(chosen) <= ToSet(pool) && y in pool && y !in chosen
    ensures NameOf(y) !in Names(chosen)
  {
    forall x | x in chosen ensures NameOf(x) != NameOf(y) {
      assert x in ToSet(chosen);
      assert x in pool;
    }
  }

  /** Making the chosen the elders drops only relocating members that were not chosen. */
  lemma PoolAfterPromotion(listing: seq<SignedMember>, elders: set<Name>)
    requires DistinctNames(listing)
    ensures var pool := ActivePool(listing, elders);
            var chosen := Best(ELDER_SIZE, elders, pool);
            var again := ActivePool(listing, Names(chosen));
            && NoneLeft(pool) && DistinctNames(pool) && NoneLeft(again) && DistinctNames(again)
            && ToSet(chosen) <= ToSet(again) <= ToSet(pool)
  {
    var pool := ActivePool(listing, elders);
    var chosen := Best(ELDER_SIZE, elders, pool);
    var again := ActivePool(listing, Names(chosen));
    PoolsHoldNoneWhoLeft(listing, elders, []);
    PoolsHoldNoneWhoLeft(listing, Names(chosen), []);
    FilterKeepsDistinct(listing, ActiveAndReachable(elders));
    FilterKeepsDistinct(listing, ActiveAndReachable(Names(chosen)));
    BestIsTop(ELDER_SIZE, elders, pool);
    forall x | x in chosen ensures x in again {
      assert x in ToSet(chosen);
      assert x in pool;
    }
    forall y | y in again ensures y in pool {
      if y.value.state.Relocated? {
        var x :| x in chosen && NameOf(x) == NameOf(y);
        assert x in ToSet(chosen);
        assert x in pool && x in listing;
      }
    }
  }

  lemma SameSetSameNames(xs: seq<SignedMember>, ys: seq<SignedMember>)
    requires ToSet(xs) == ToSet(ys)
    ensures Names(xs) == Names(ys)
  {
    assert forall x :: x in xs <==> x in ToSet(xs);
    assert forall y :: y in ys <==> y in ToSet(ys);
  }

  /** Whether a section splits does not depend on who asks. */
  lemma SplitIsCommonKnowledge(prefix: Prefix, elders: set<Name>, listing: seq<SignedMember>, name: Name, other: Name)
    ensures var a, b := TrySplit(prefix, elders, listing, name), TrySplit(prefix, elders, listing, other);
            || a == b
            || (a.Some? && b.Some? && a.value == (b.value.1, b.value.0))
  {
  }

  /** Promotion settles: when one set of candidates is proposed and becomes the authority with the
      same members, nobody proposes anything next. */
  lemma PromotionSettles(prefix: Prefix, elders: set<Name>, listing: seq<SignedMember>, name: Name, other: Name)
    requires DistinctNames(listing)
    requires |PromoteAndDemote(prefix, elders, listing, name)| == 1
    ensures var candidates := PromoteAndDemote(prefix, elders, listing, name)[0];
            && candidates.prefix == prefix && candidates.elders.Keys != elders
            && |candidates.elders.Keys| >= Supermajority(|elders|)
            && PromoteAndDemote(prefix, candidates.elders.Keys, listing, other) == []
  {
    var chosen := Best(ELDER_SIZE, elders, ActivePool(listing, elders));
    AddressesOfNames(chosen);
    PoolAfterPromotion(listing, elders);
    ChoosingAgain(ActivePool(listing, elders), ActivePool(listing, Names(chosen)), elders);
    SameSetSameNames(Best(ELDER_SIZE, Names(chosen), ActivePool(listing, Names(chosen))), chosen);
    SplitIsCommonKnowledge(prefix, elders, listing, name, other);
  }

  function Under(prefix: Prefix): SignedMember -> bool {
    (info: SignedMember) => Matches(prefix, NameOf(info))
  }

  /** The members a half keeps after the split. */
  function Half(listing: seq<SignedMember>, prefix: Prefix): seq<SignedMember> {
    Filter(listing, Under(prefix))
  }

  lemma PoolAfterSplit(listing: seq<SignedMember>, elders: set<Name>, prefix: Prefix)
    requires DistinctNames(listing)
    ensures var pool := MatchingPool(listing, prefix);
            var chosen := Best(ELDER_SIZE, elders, pool);
            var again := ActivePool(Half(listing, prefix), Names(chosen));
            && NoneLeft(pool) && DistinctNames(pool) && NoneLeft(again) && DistinctNames(again)
            && ToSet(again) == ToSet(pool) && ToSet(chosen) <= ToSet(pool)
  {
    var pool := MatchingPool(listing, prefix);
    var chosen := Best(ELDER_SIZE, elders, pool);
    var again := ActivePool(Half(listing, prefix), Names(chosen));
    PoolsHoldNoneWhoLeft(listing, elders, prefix);
    PoolsHoldNoneWhoLeft(Half(listing, prefix), Names(chosen), prefix);
    FilterKeepsDistinct(listing, JoinedUnder(prefix));
    FilterKeepsDistinct(listing, Under(prefix));
    FilterKeepsDistinct(Half(listing, prefix), ActiveAndReachable(Names(chosen)));
    BestIsTop(ELDER_SIZE, elders, pool);
    forall x | x in chosen ensures x in listing && x.value.state == Joined {
      assert x in ToSet(chosen);
      assert x in pool;
    }
    forall y | y in again ensures y in pool {
      assert y in listing;
      assert y.value.state == Joined;
    }
    assert forall y :: y in pool ==> y in Half(listing, prefix);
    assert forall y :: y in pool ==> y in again;
  }

  /** A split settles: each half, with the members it keeps and the elders proposed for it, proposes
      nothing next unless it can split again. */
  lemma SplitSettles(prefix: Prefix, elders: set<Name>, listing: seq<SignedMember>, name: Name, half: nat, other: Name)
    requires DistinctNames(listing) && half < 2
    requires TrySplit(prefix, elders, listing, name).Some?
    ensures |PromoteAndDemote(prefix, elders, listing, name)| == 2
    ensures var candidates := PromoteAndDemote(prefix, elders, listing, name)[half];
            var kept := Half(listing, candidates.prefix);
            TrySplit(candidates.prefix, candidates.elders.Keys, kept, other).None? ==>
            PromoteAndDemote(candidates.prefix, candidates.elders.Keys, kept, other) == []
  {
    var candidates := PromoteAndDemote(prefix, elders, listing, name)[half];
    var pool := MatchingPool(listing, candidates.prefix);
    var chosen := Best(ELDER_SIZE, elders, pool);
    var again := ActivePool(Half(listing, candidates.prefix), Names(chosen));
    AddressesOfNames(chosen);
    PoolAfterSplit(listing, elders, candidates.prefix);
    ChoosingAgain(pool, again, elders);
    SameSetSameNames(Best(ELDER_SIZE, Names(chosen), again), chosen);
  }

  lemma {:induction false} SideFitsPool(listing: seq<SignedMember>, prefix: Prefix, bit: bool)
    requires |prefix| < NAME_BITS
    requires forall info :: info in listing ==>
               Matches(prefix, NameOf(info)) && (info.value.state == Joined ==> info.value.peer.reachable)
    ensures MatureOnSide(listing, |prefix|, bit) <= |MatchingPool(listing, Pushed(prefix, bit))|
  {
    if listing != [] {
      var last := listing[|listing| - 1];
      SideFitsPool(listing[..|listing| - 1], prefix, bit);
      assert last in listing;
      if NameOf(last)[|prefix|] == bit {
        assert Pushed(prefix, bit) == NameOf(last)[..|prefix| + 1];
      }
    }
  }

  /** Every member of the section computes the same split: from any two names and any two listings
      the same pair of halves results, up to which half comes first. */
  lemma SplitAgreement(prefix: Prefix, elders: set<Name>, xs: seq<SignedMember>, ys: seq<SignedMember>, name: Name, other: Name)
    requires multiset(xs) == multiset(ys) && DistinctSignatures(xs)
    ensures var a, b := TrySplit(prefix, elders, xs, name), TrySplit(prefix, elders, ys, other);
            || a == b
            || (a.Some? && b.Some? && a.value == (b.value.1, b.value.0))
  {
    if |prefix| < NAME_BITS {
      forall bit: bool
        ensures MatureOnSide(xs, |prefix|, bit) == MatureOnSide(ys, |prefix|, bit)
        ensures HalfCandidates(xs, elders, Pushed(prefix, bit)) == HalfCandidates(ys, elders, Pushed(prefix, bit))
      {
        SideIgnoresOrder(xs, ys, |prefix|, bit);
        HalfIgnoresOrder(xs, ys, elders, Pushed(prefix, bit));
      }
    }
  }

  lemma HalfIgnoresOrder(xs: seq<SignedMember>, ys: seq<SignedMember>, elders: set<Name>, prefix: Prefix)
    requires multiset(xs) == multiset(ys) && DistinctSignatures(xs)
    ensures HalfCandidates(xs, elders, prefix) == HalfCandidates(ys, elders, prefix)
  {
    PoolsHoldNoneWhoLeft(xs, elders, prefix);
    FilterKeepsSignatures(xs, JoinedUnder(prefix));
    FilterIgnoresOrder(xs, ys, JoinedUnder(prefix));
    BestIgnoresListingOrder(ELDER_SIZE, elders, MatchingPool(xs, prefix), MatchingPool(ys, prefix));
  }

  lemma {:induction false} FilterKeepsSignatures(infos: seq<SignedMember>, keep: SignedMember -> bool)
    requires DistinctSignatures(infos)
    ensures DistinctSignatures(Filter(infos, keep))
  {
    if infos != [] {
      var front, last := infos[..|infos| - 1], infos[|infos| - 1];
      FilterKeepsSignatures(front, keep);
      forall i | 0 <= i < |Filter(front, keep)|
        ensures Filter(front, keep)[i].signed.signature.bytes != last.signed.signature.bytes
      {
        assert Filter(front, keep)[i] in front;
      }
    }
  }

  function OnSide(index: nat, bit: bool): SignedMember -> bool
    requires index < NAME_BITS
  {
    (info: SignedMember) => info.value.state == Joined && Age(info.value.peer) > 4 && NameOf(info)[index] == bit
  }

  lemma {:induction false} SideIsFilter(listing: seq<SignedMember>, index: nat, bit: bool)
    requires index < NAME_BITS
    ensures MatureOnSide(listing, index, bit) == |Filter(listing, OnSide(index, bit))|
  {
    if listing != [] {
      SideIsFilter(listing[..|listing| - 1], index, bit);
    }
  }

  /** A section splits exactly when it has a bit left and enough mature joined members on both sides. */
  lemma SplitsIff(prefix: Prefix, elders: set<Name>, listing: seq<SignedMember>, name: Name)
    ensures TrySplit(prefix, elders, listing, name).Some? <==>
            && |prefix| < NAME_BITS
            && forall bit: bool :: |Filter(listing, OnSide(|prefix|, bit))| >= 14
  {
    if |prefix| < NAME_BITS {
      SideIsFilter(listing, |prefix|, false);
      SideIsFilter(listing, |prefix|, true);
    }
  }

  lemma SideIgnoresOrder(xs: seq<SignedMember>, ys: seq<SignedMember>, index: nat, bit: bool)
    requires index < NAME_BITS && multiset(xs) == multiset(ys)
    ensures MatureOnSide(xs, index, bit) == MatureOnSide(ys, index, bit)
  {
    SideIsFilter(xs, index, bit);
    SideIsFilter(ys, index, bit);
    FilterIgnoresOrder(xs, ys, OnSide(index, bit));
    DistinctByMultiset(Filter(xs, OnSide(index, bit)), Filter(ys, OnSide(index, bit)));
  }

  /** The two halves are siblings right below our prefix, ours is the one our name is under, and no
      member is an elder of both. */
  lemma SplitHalvesAreSound(prefix: Prefix, elders: set<Name>, listing: seq<SignedMember>, name: Name)
    requires DistinctNames(listing) && Matches(prefix, name)
    requires TrySplit(prefix, elders, listing, name).Some?
    ensures var (ours, other) := TrySplit(prefix, elders, listing, name).value;
            && Popped(ours.prefix) == prefix && Sibling(ours.prefix) == other.prefix
            && Matches(ours.prefix, name)
            && (forall elder :: elder in ours.elders ==> Matches(ours.prefix, elder))
            && (forall elder :: elder in other.elders ==> Matches(other.prefix, elder))
            && ours.elders.Keys !! other.elders.Keys
  {
    var (ours, other) := TrySplit(prefix, elders, listing, name).value;
    var bit := name[|prefix|];
    assert Pushed(prefix, bit) == name[..|prefix| + 1];
    HalfEldersMatch(listing, elders, ours.prefix);
    HalfEldersMatch(listing, elders, other.prefix);
    forall elder | elder in ours.elders ensures elder !in other.elders {
      assert elder[|prefix|] == bit;
      assert !Matches(other.prefix, elder) by {
        assert other.prefix[|prefix|] == !bit;
      }
    }
  }

  /** With every member under our prefix and the joined ones reachable, each half gets exactly
      seven elders. */
  lemma SplitHalvesAreFull(prefix: Prefix, elders: set<Name>, listing: seq<SignedMember>, name: Name)
    requires DistinctNames(listing) && TrySplit(prefix, elders, listing, name).Some?
    requires forall info :: info in listing ==>
               Matches(prefix, NameOf(info)) && (info.value.state == Joined ==> info.value.peer.reachable)
    ensures var (ours, other) := TrySplit(prefix, elders, listing, name).value;
            |ours.elders| == 7 && |other.elders| == 7
  {
    var (ours, other) := TrySplit(prefix, elders, listing, name).value;
    HalfEldersMatch(listing, elders, ours.prefix);
    HalfEldersMatch(listing, elders, other.prefix);
    SideFitsPool(listing, prefix, name[|prefix|]);
    SideFitsPool(listing, prefix, !name[|prefix|]);
  }

  lemma HalfEldersMatch(listing: seq<SignedMember>, elders: set<Name>, prefix: Prefix)
    requires DistinctNames(listing)
    ensures var half := HalfCandidates(listing, elders, prefix);
            && (forall elder :: elder in half.elders ==> Matches(prefix, elder))
            && |half.elders| == Min(ELDER_SIZE, |MatchingPool(listing, prefix)|)
  {
    var pool := MatchingPool(listing, prefix);
    var best := Best(ELDER_SIZE, elders, pool);
    PoolsHoldNoneWhoLeft(listing, elders, prefix);
    FilterKeepsDistinct(listing, JoinedUnder(prefix));
    BestIsTop(ELDER_SIZE, elders, pool);
    AddressesOfNames(best);
    AddressesOfDistinct(best);
    forall info | info in best ensures Matches(prefix, NameOf(info)) {
      assert info in ToSet(best);
      assert info in pool;
    }
  }

  // Who is proposed.

  /** Those who can be elders of the whole section: reachable, and joined or relocating elders. */
  ghost function Eligible(listing: seq<SignedMember>, elders: set<Name>): set<SignedMember> {
    set info | info in listing && info.value.peer.reachable
               && (info.value.state == Joined || (info.value.state.Relocated? && NameOf(info) in elders))
  }

  /** Those who can be elders of one half: reachable, joined and under its prefix. */
  ghost function EligibleUnder(listing: seq<SignedMember>, prefix: Prefix): set<SignedMember> {
    set info | info in listing && info.value.peer.reachable && info.value.state == Joined && prefix <= NameOf(info)
  }

  ghost function NamesOf(infos: set<SignedMember>): set<Name> {
    set info | info in infos :: NameOf(info)
  }

  /** The candidates are the chosen, with their addresses, for `prefix`. */
  ghost predicate Proposes(candidates: ElderCandidates, chosen: set<SignedMember>, prefix: Prefix) {
    && candidates.prefix == prefix && candidates.elders.Keys == NamesOf(chosen)
    && forall info :: info in chosen ==> NameOf(info) in candidates.elders && candidates.elders[NameOf(info)] == info.value.peer.addr
  }

  lemma {:induction false} AddressesAreTheirs(infos: seq<SignedMember>, info: SignedMember)
    requires DistinctNames(infos) && info in infos
    ensures NameOf(info) in Addresses(infos) && Addresses(infos)[NameOf(info)] == info.value.peer.addr
  {
    var front, last := infos[..|infos| - 1], infos[|infos| - 1];
    if info != last {
      assert info in front;
      AddressesAreTheirs(front, info);
    }
  }

  lemma BestIsProposed(elders: set<Name>, pool: seq<SignedMember>, prefix: Prefix)
    requires NoneLeft(pool) && DistinctNames(pool)
    ensures var best := Best(ELDER_SIZE, elders, pool);
            && IsTop(ToSet(best), ToSet(pool), ELDER_SIZE, InOrder(elders))
            && Proposes(ElderCandidates(Addresses(best), prefix), ToSet(best), prefix)
            && Names(best) == NamesOf(ToSet(best))
  {
    var best := Best(ELDER_SIZE, elders, pool);
    BestIsTop(ELDER_SIZE, elders, pool);
    AddressesOfNames(best);
    forall info | info in ToSet(best)
      ensures NameOf(info) in Addresses(best) && Addresses(best)[NameOf(info)] == info.value.peer.addr
    {
      AddressesAreTheirs(best, info);
    }
  }

  /** Without a split, the best are proposed unless they are the elders already or too few. */
  lemma PromotionDecides(prefix: Prefix, elders: set<Name>, listing: seq<SignedMember>, name: Name)
    requires TrySplit(prefix, elders, listing, name).None?
    ensures var best := Best(ELDER_SIZE, elders, ActivePool(listing, elders));
            PromoteAndDemote(prefix, elders, listing, name) ==
            if Names(best) != elders && |Names(best)| >= Supermajority(|elders|)
            then [ElderCandidates(Addresses(best), prefix)] else []
  {
  }

  /** When no split is due, some top of those eligible is proposed, with their addresses, exactly when they
      are not the current elders and not fewer than a supermajority of them; otherwise nothing is. */
  lemma PromotesIff(prefix: Prefix, elders: set<Name>, listing: seq<SignedMember>, name: Name)
    returns (chosen: set<SignedMember>)
    requires DistinctNames(listing) && TrySplit(prefix, elders, listing, name).None?
    ensures IsTop(chosen, Eligible(listing, elders), ELDER_SIZE, InOrder(elders))
    ensures var proposed := PromoteAndDemote(prefix, elders, listing, name);
            if NamesOf(chosen) != elders && |NamesOf(chosen)| >= Supermajority(|elders|)
            then |proposed| == 1 && Proposes(proposed[0], chosen, prefix)
            else proposed == []
  {
    var pool := ActivePool(listing, elders);
    PoolsHoldNoneWhoLeft(listing, elders, []);
    FilterKeepsDistinct(listing, ActiveAndReachable(elders));
    assert ToSet(pool) == Eligible(listing, elders);
    BestIsProposed(elders, pool, prefix);
    PromotionDecides(prefix, elders, listing, name);
    chosen := ToSet(Best(ELDER_SIZE, elders, pool));
  }

  /** With different signatures that top is the only one. */
  lemma PromotesTheTop(prefix: Prefix, elders: set<Name>, listing: seq<SignedMember>, name: Name, top: set<SignedMember>)
    requires DistinctNames(listing) && DistinctSignatures(listing) && TrySplit(prefix, elders, listing, name).None?
    requires IsTop(top, Eligible(listing, elders), ELDER_SIZE, InOrder(elders))
    ensures var proposed := PromoteAndDemote(prefix, elders, listing, name);
            if NamesOf(top) != elders && |NamesOf(top)| >= Supermajority(|elders|)
            then |proposed| == 1 && Proposes(proposed[0], top, prefix)
            else proposed == []
  {
    var chosen := PromotesIff(prefix, elders, listing, name);
    EligibleAreOrdered(listing, elders);
    TopIsUnique(chosen, top, Eligible(listing, elders), ELDER_SIZE, InOrder(elders));
  }

  lemma EligibleAreOrdered(listing: seq<SignedMember>, elders: set<Name>)
    requires DistinctSignatures(listing)
    ensures Antisymmetric(Eligible(listing, elders), InOrder(elders))
  {
    var pool := ActivePool(listing, elders);
    PoolsHoldNoneWhoLeft(listing, elders, []);
    FilterKeepsSignatures(listing, ActiveAndReachable(elders));
    assert ToSet(pool) == Eligible(listing, elders);
    InOrderIsTotal(pool, elders);
  }

  /** Up to seven eligible members are all proposed. */
  lemma FewAreAllProposed(prefix: Prefix, elders: set<Name>, listing: seq<SignedMember>, name: Name)
    requires DistinctNames(listing) && TrySplit(prefix, elders, listing, name).None?
    requires |Eligible(listing, elders)| <= ELDER_SIZE && NamesOf(Eligible(listing, elders)) != elders
    requires |NamesOf(Eligible(listing, elders))| >= Supermajority(|elders|)
    ensures var proposed := PromoteAndDemote(prefix, elders, listing, name);
            |proposed| == 1 && Proposes(proposed[0], Eligible(listing, elders), prefix)
  {
    var chosen := PromotesIff(prefix, elders, listing, name);
    SubsetSize(chosen, Eligible(listing, elders));
  }

  /** When a split is due, each half is proposed some top of those eligible for it, with their addresses,
      our own half first. */
  lemma SplitProposesTops(prefix: Prefix, elders: set<Name>, listing: seq<SignedMember>, name: Name)
    returns (ours: set<SignedMember>, others: set<SignedMember>)
    requires DistinctNames(listing) && TrySplit(prefix, elders, listing, name).Some?
    ensures var p, q := Pushed(prefix, name[|prefix|]), Pushed(prefix, !name[|prefix|]);
            && IsTop(ours, EligibleUnder(listing, p), ELDER_SIZE, InOrder(elders))
            && IsTop(others, EligibleUnder(listing, q), ELDER_SIZE, InOrder(elders))
            && var proposed := PromoteAndDemote(prefix, elders, listing, name);
               |proposed| == 2 && Proposes(proposed[0], ours, p) && Proposes(proposed[1], others, q)
  {
    ours := HalfProposesTop(listing, elders, Pushed(prefix, name[|prefix|]));
    others := HalfProposesTop(listing, elders, Pushed(prefix, !name[|prefix|]));
  }

  lemma HalfProposesTop(listing: seq<SignedMember>, elders: set<Name>, prefix: Prefix) returns (chosen: set<SignedMember>)
    requires DistinctNames(listing)
    ensures IsTop(chosen, EligibleUnder(listing, prefix), ELDER_SIZE, InOrder(elders))
    ensures Proposes(HalfCandidates(listing, elders, prefix), chosen, prefix)
  {
    var pool := MatchingPool(listing, prefix);
    PoolsHoldNoneWhoLeft(listing, elders, prefix);
    FilterKeepsDistinct(listing, JoinedUnder(prefix));
    assert ToSet(pool) == EligibleUnder(listing, prefix);
    BestIsProposed(elders, pool, prefix);
    chosen := ToSet(Best(ELDER_SIZE, elders, pool));
  }
}
