/** Which members become elders: the candidate order and the choice of the best
    (src/section/section_peers.rs).
 */
module ElderSelection {
  import opened Prefixes
  import opened Messaging
  import opened Sequences
  import opened Sorting
  import opened SectionPeersModel

  datatype Ordering = Less | Equal | Greater {
    function Then(next: Ordering): Ordering {
      if Equal? then next else this
    }
  }

  function CompareNat(a: nat, b: nat): Ordering {
    if a < b then Less else if a == b then Equal else Greater
  }

  /** The one comparing `Less` wins. */
  function CompareState(l: MembershipState, r: MembershipState): Ordering {
    match (l, r)
    case (Joined, Joined) => Equal
    case (Relocated(_), Relocated(_)) => Equal
    case (Joined, Relocated(_)) => Less
    case (_, Left) => Less
    case (Relocated(_), Joined) => Greater
    case (Left, _) => Greater
  }

  predicate IsElder(info: SignedMember, elders: set<Name>) {
    NameOf(info) in elders
  }

  function CompareElder(l: bool, r: bool): Ordering {
    match (l, r)
    case (true, false) => Less
    case (false, true) => Greater
    case _ => Equal
  }

  /** Membership state, then age, then current elders, then the signature. */
  function Compare(l: SignedMember, r: SignedMember, elders: set<Name>): Ordering {
    CompareState(l.value.state, r.value.state)
    .Then(CompareNat(Age(r.value.peer), Age(l.value.peer)))
    .Then(CompareElder(IsElder(l, elders), IsElder(r, elders)))
    .Then(CompareNat(l.signed.signature.bytes, r.signed.signature.bytes))
  }

  predicate NotAfter(l: SignedMember, r: SignedMember, elders: set<Name>) {
    Compare(l, r, elders) != Greater
  }

  /** Joined, or a current elder who is being relocated. */
  predicate IsActive(info: SignedMember, elders: set<Name>) {
    match info.value.state
    case Joined => true
    case Relocated(_) => IsElder(info, elders)
    case Left => false
  }

  /** `Compare` as the relation to sort by. */
  function InOrder(elders: set<Name>): (SignedMember, SignedMember) -> bool {
    (l: SignedMember, r: SignedMember) => NotAfter(l, r, elders)
  }

  /** The first `size` candidates in order. */
  function Best(size: nat, elders: set<Name>, infos: seq<SignedMember>): seq<SignedMember> {
    Take(Sort(infos, InOrder(elders)), size)
  }

  function ActiveAndReachable(elders: set<Name>): SignedMember -> bool {
    (info: SignedMember) => IsActive(info, elders) && info.value.peer.reachable
  }

  function JoinedUnder(prefix: Prefix): SignedMember -> bool {
    (info: SignedMember) =>
      info.value.state == Joined && Matches(prefix, NameOf(info)) && info.value.peer.reachable
  }

  /** The candidates of a whole section. */
  function ActivePool(listing: seq<SignedMember>, elders: set<Name>): seq<SignedMember> {
    Filter(listing, ActiveAndReachable(elders))
  }

  /** The candidates of one half of a split. */
  function MatchingPool(listing: seq<SignedMember>, prefix: Prefix): seq<SignedMember> {
    Filter(listing, JoinedUnder(prefix))
  }

  ghost predicate NoneLeft(infos: seq<SignedMember>) {
    forall info :: info in infos ==> info.value.state != Left
  }

  /** No name occurs twice, as in a listing of a map keyed by names. */
  ghost predicate DistinctNames(infos: seq<SignedMember>) {
    forall i, j :: 0 <= i < j < |infos| ==> NameOf(infos[i]) != NameOf(infos[j])
  }

  ghost predicate DistinctSignatures(infos: seq<SignedMember>) {
    forall i, j :: 0 <= i < j < |infos| ==> infos[i].signed.signature.bytes != infos[j].signed.signature.bytes
  }

  /** Without members who left, the comparison is a total preorder, and only equal signatures tie. */
  lemma CompareIsTotalPreorder(x: SignedMember, y: SignedMember, z: SignedMember, elders: set<Name>)
    requires NoneLeft([x, y, z])
    ensures Compare(x, x, elders) == Equal
    ensures Compare(x, y, elders) == Less <==> Compare(y, x, elders) == Greater
    ensures Compare(x, y, elders) == Equal <==> Compare(y, x, elders) == Equal
    ensures NotAfter(x, y, elders) && NotAfter(y, z, elders) ==> NotAfter(x, z, elders)
    ensures Compare(x, y, elders) == Equal ==> x.signed.signature.bytes == y.signed.signature.bytes
  {
  }

  /** Two members who left each compare `Less` than the other, so the comparison orders no pool that
      contains them. */
  lemma LeftMembersAreNotOrdered(x: SignedMember, y: SignedMember, elders: set<Name>)
    requires x.value.state == Left && y.value.state == Left
    ensures Compare(x, y, elders) == Less && Compare(y, x, elders) == Less
  {
  }

  /** No member who left ever reaches the comparison. */
  lemma PoolsHoldNoneWhoLeft(listing: seq<SignedMember>, elders: set<Name>, prefix: Prefix)
    ensures NoneLeft(ActivePool(listing, elders)) && NoneLeft(MatchingPool(listing, prefix))
  {
  }

  lemma InOrderIsTotal(infos: seq<SignedMember>, elders: set<Name>)
    requires NoneLeft(infos)
    ensures TotalPreorder(ToSet(infos), InOrder(elders))
    ensures DistinctSignatures(infos) ==> Antisymmetric(ToSet(infos), InOrder(elders))
  {
    var pool, le := ToSet(infos), InOrder(elders);
    forall x, y | x in pool && y in pool
      ensures le(x, y) || le(y, x)
      ensures DistinctSignatures(infos) && le(x, y) && le(y, x) ==> x == y
    {
      CompareIsTotalPreorder(x, y, y, elders);
    }
    forall x, y, z | x in pool && y in pool && z in pool && le(x, y) && le(y, z) ensures le(x, z) {
      CompareIsTotalPreorder(x, y, z, elders);
    }
  }

  /** The chosen candidates are the top of the pool. */
  lemma BestIsTop(size: nat, elders: set<Name>, infos: seq<SignedMember>)
    requires NoneLeft(infos) && DistinctNames(infos)
    ensures IsTop(ToSet(Best(size, elders, infos)), ToSet(infos), size, InOrder(elders))
    ensures |Best(size, elders, infos)| == Min(size, |infos|)
    ensures DistinctNames(Best(size, elders, infos))
  {
    InOrderIsTotal(infos, elders);
    TakeSortedIsTop(infos, size, InOrder(elders));
    var best := Best(size, elders, infos);
    forall i, j | 0 <= i < j < |best| ensures NameOf(best[i]) != NameOf(best[j]) {
      assert best[i] in ToSet(best) && best[j] in ToSet(best) && best[i] != best[j];
    }
  }

  /** The same candidates are chosen whatever order they are listed in. */
  lemma BestIgnoresListingOrder(size: nat, elders: set<Name>, xs: seq<SignedMember>, ys: seq<SignedMember>)
    requires NoneLeft(xs) && DistinctSignatures(xs) && multiset(xs) == multiset(ys)
    ensures Best(size, elders, xs) == Best(size, elders, ys)
  {
    InOrderIsTotal(xs, elders);
    SortIgnoresListingOrder(xs, ys, InOrder(elders));
  }

  /** A relocating elder is chosen only when every reachable joined member is. */
  lemma RelocatingElderIsLastResort(size: nat, elders: set<Name>, listing: seq<SignedMember>, x: SignedMember, y: SignedMember)
    requires DistinctNames(listing)
    requires x in Best(size, elders, ActivePool(listing, elders)) && x.value.state.Relocated?
    requires y in listing && y.value.state == Joined && y.value.peer.reachable
    ensures y in Best(size, elders, ActivePool(listing, elders))
  {
    var pool := ActivePool(listing, elders);
    PoolsHoldNoneWhoLeft(listing, elders, []);
    FilterKeepsDistinct(listing, ActiveAndReachable(elders));
    BestIsTop(size, elders, pool);
    assert y in ToSet(pool) && x in ToSet(Best(size, elders, pool));
    assert !InOrder(elders)(x, y);
  }

  /** Nobody is chosen over a candidate in a better state, over an older one in the same state, or,
      not being an elder, over an elder of the same state and age; the smaller signature decides the rest. */
  lemma OlderThenElderFirst(size: nat, elders: set<Name>, infos: seq<SignedMember>, x: SignedMember, y: SignedMember)
    requires NoneLeft(infos) && DistinctNames(infos)
    requires x in Best(size, elders, infos) && y in infos && y !in Best(size, elders, infos)
    ensures Rank(x) <= Rank(y)
    ensures Rank(x) == Rank(y) ==> Age(x.value.peer) >= Age(y.value.peer)
    ensures Rank(x) == Rank(y) && Age(x.value.peer) == Age(y.value.peer) && IsElder(y, elders) ==> IsElder(x, elders)
    ensures Rank(x) == Rank(y) && Age(x.value.peer) == Age(y.value.peer) && (IsElder(x, elders) <==> IsElder(y, elders)) ==>
              x.signed.signature.bytes <= y.signed.signature.bytes
  {
    BestIsTop(size, elders, infos);
    assert x in ToSet(Best(size, elders, infos)) && y in ToSet(infos) - ToSet(Best(size, elders, infos));
    assert x in infos && InOrder(elders)(x, y);
  }

  lemma {:induction false} FilterKeepsDistinct(infos: seq<SignedMember>, keep: SignedMember -> bool)
    requires DistinctNames(infos)
    ensures DistinctNames(Filter(infos, keep))
  {
    if infos != [] {
      var front, last := infos[..|infos| - 1], infos[|infos| - 1];
      FilterKeepsDistinct(front, keep);
      forall i | 0 <= i < |Filter(front, keep)| ensures NameOf(Filter(front, keep)[i]) != NameOf(last) {
        assert Filter(front, keep)[i] in front;
      }
    }
  }
}
