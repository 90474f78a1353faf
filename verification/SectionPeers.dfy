/** The members of our section and the transitions their states may take
    (src/section/section_peers.rs).
 */
module SectionPeersModel {
  import opened Prefixes
  import opened Messaging

  type Members = map<Name, SignedMember>

  function NameOf(info: SignedMember): Name {
    info.value.peer.name
  }

  /** The only transitions an update may make. */
  predicate Advances(current: NodeState, next: NodeState) {
    match (current.state, next.state)
    case (Joined, Joined) => Age(next.peer) > Age(current.peer)
    case (Joined, Left) => true
    case (Joined, Relocated(_)) => true
    case (Relocated(_), Left) => true
    case _ => false
  }

  function Updated(members: Members, info: SignedMember): Members {
    if NameOf(info) !in members || Advances(members[NameOf(info)].value, info.value)
    then members[NameOf(info) := info]
    else members
  }

  function PrunedNotMatching(members: Members, prefix: Prefix): Members {
    map name | name in members && Matches(prefix, name) :: members[name]
  }

  /** The members after a sequence of updates. */
  function Applied(members: Members, infos: seq<SignedMember>): Members {
    if infos == [] then members
    else Updated(Applied(members, infos[..|infos| - 1]), infos[|infos| - 1])
  }

  class SectionPeers {
    var members: Members

    constructor ()
      ensures members == map[]
    {
      members := map[];
    }

    method Update(info: SignedMember) returns (changed: bool)
      modifies this
      ensures members == Updated(old(members), info)
      ensures Keyed(old(members)) ==> changed == (Rank(info) > RankAt(old(members), NameOf(info)))
    {
      var name := NameOf(info);
      if name !in members {
        members := members[name := info];
        return true;
      }
      if !Advances(members[name].value, info.value) {
        return false;
      }
      members := members[name := info];
      return true;
    }

    method PruneNotMatching(prefix: Prefix)
      modifies this
      ensures members == PrunedNotMatching(old(members), prefix)
    {
      members := map name | name in members && Matches(prefix, name) :: members[name];
    }
  }

  /** Every member is stored under its own name. */
  ghost predicate Keyed(members: Members) {
    forall name :: name in members ==> NameOf(members[name]) == name
  }

  /** Joined, then relocated, then left. */
  function Rank(info: SignedMember): nat {
    match info.value.state
    case Joined => 0
    case Relocated(_) => 1
    case Left => 2
  }

  /** The rank of a name, -1 for a name that is not there. */
  function RankAt(members: Members, name: Name): int {
    if name in members then Rank(members[name]) else -1
  }

  /** The highest rank offered for a name, -1 if none was. */
  function OfferedRank(infos: seq<SignedMember>, name: Name): int {
    if infos == [] then -1
    else
      var rest := OfferedRank(infos[..|infos| - 1], name);
      var last := infos[|infos| - 1];
      if NameOf(last) == name && Rank(last) > rest then Rank(last) else rest
  }

  function Max(a: int, b: int): int {
    if a < b then b else a
  }

  /** Age is a function of the name, so a member never changes from joined to joined-and-older: an
      update goes through exactly when it raises the rank. */
  lemma UpdateRaisesRank(members: Members, info: SignedMember)
    requires Keyed(members)
    ensures Updated(members, info) ==
            if Rank(info) > RankAt(members, NameOf(info)) then members[NameOf(info) := info] else members
    ensures NameOf(info) in members && members[NameOf(info)].value.state == Joined && info.value.state == Joined
            ==> !Advances(members[NameOf(info)].value, info.value)
  {
  }

  /** The rank of every name is the highest ever offered, in whatever order and however often. */
  lemma {:induction false} RankIsHighestOffered(members: Members, infos: seq<SignedMember>, name: Name)
    requires Keyed(members)
    ensures Keyed(Applied(members, infos))
    ensures RankAt(Applied(members, infos), name) == Max(RankAt(members, name), OfferedRank(infos, name))
  {
    if infos != [] {
      RankIsHighestOffered(members, infos[..|infos| - 1], name);
    }
  }

  /** What is stored was either there before or offered. */
  lemma {:induction false} StoredWasOffered(members: Members, infos: seq<SignedMember>, name: Name)
    requires name in Applied(members, infos)
    ensures (name in members && Applied(members, infos)[name] == members[name]) || Applied(members, infos)[name] in infos
  {
    if infos != [] {
      var before := Applied(members, infos[..|infos| - 1]);
      if name in before {
        StoredWasOffered(members, infos[..|infos| - 1], name);
      }
    }
  }

  /** No two different entries carry the same name and the same rank. */
  ghost predicate Consistent(known: set<SignedMember>) {
    forall a, b :: a in known && b in known && NameOf(a) == NameOf(b) && Rank(a) == Rank(b) ==> a == b
  }

  ghost function Known(members: Members, infos: seq<SignedMember>): set<SignedMember> {
    (set name | name in members :: members[name]) + (set info | info in infos)
  }

  lemma {:induction false} OfferedRankIsAttained(infos: seq<SignedMember>, name: Name, bound: int)
    ensures OfferedRank(infos, name) <= bound <==>
            -1 <= bound && forall info :: info in infos && NameOf(info) == name ==> Rank(info) <= bound
  {
    if infos != [] {
      var rest := infos[..|infos| - 1];
      OfferedRankIsAttained(rest, name, bound);
      assert infos == rest + [infos[|infos| - 1]];
    }
  }

  lemma OfferedRankIgnoresOrder(xs: seq<SignedMember>, ys: seq<SignedMember>, name: Name)
    requires forall info :: info in xs <==> info in ys
    ensures OfferedRank(xs, name) == OfferedRank(ys, name)
  {
    OfferedRankIsAttained(xs, name, OfferedRank(ys, name));
    OfferedRankIsAttained(ys, name, OfferedRank(xs, name));
    OfferedRankIsAttained(ys, name, OfferedRank(ys, name));
    OfferedRankIsAttained(xs, name, OfferedRank(xs, name));
  }

  /** Two sets of members agree on a name once their ranks do and entries are consistent. */
  lemma SameRankSameEntry(a: Members, b: Members, known: set<SignedMember>, name: Name)
    requires Keyed(a) && Keyed(b) && Consistent(known)
    requires name in a ==> a[name] in known
    requires name in b ==> b[name] in known
    requires RankAt(a, name) == RankAt(b, name)
    ensures name in a <==> name in b
    ensures name in a ==> a[name] == b[name]
  {
  }

  /** Order and duplication do not matter: two nodes that saw the same updates hold the same members. */
  lemma UpdatesConverge(members: Members, xs: seq<SignedMember>, ys: seq<SignedMember>)
    requires Keyed(members) && Consistent(Known(members, xs))
    requires forall info :: info in xs <==> info in ys
    ensures Applied(members, xs) == Applied(members, ys)
  {
    var a, b, known := Applied(members, xs), Applied(members, ys), Known(members, xs);
    forall name: Name
      ensures name in a <==> name in b
      ensures name in a ==> a[name] == b[name]
    {
      RankIsHighestOffered(members, xs, name);
      RankIsHighestOffered(members, ys, name);
      OfferedRankIgnoresOrder(xs, ys, name);
      if name in a { StoredWasOffered(members, xs, name); }
      if name in b { StoredWasOffered(members, ys, name); }
      SameRankSameEntry(a, b, known, name);
    }
  }
}
