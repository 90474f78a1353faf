/** Our section: its key chain, its authority and its members, and how each of them changes
    (src/section/mod.rs).
 */
module SectionModel {
  import opened Wrappers
  import opened Prefixes
  import opened Messaging
  import opened SectionPeersModel
  import opened Sequences

  datatype SectionState = SectionState(chain: Chain, auth: SignedAuth, members: Members)

  /** A section as another node sends it, its members in the order they are iterated. */
  datatype Snapshot = Snapshot(chain: Chain, auth: SignedAuth, infos: seq<SignedMember>)

  function PrefixOf(section: SectionState): Prefix {
    section.auth.value.prefix
  }

  function VerifiesWith(chain: Chain): SignedMember -> bool {
    (info: SignedMember) => MemberVerifies(info, chain)
  }

  /** The infos that verify against the chain, in order. */
  function Verified(infos: seq<SignedMember>, chain: Chain): seq<SignedMember> {
    Filter(infos, VerifiesWith(chain))
  }

  function MemberUpdated(section: SectionState, info: SignedMember): SectionState {
    if MemberVerifies(info, section.chain)
    then section.(members := Updated(section.members, info))
    else section
  }

  /** The section after merging `other`, or `None` if `other` is rejected. */
  function Merged(rules: ChainRules, section: SectionState, other: Snapshot): Option<SectionState> {
    if !AuthVerifies(other.auth) || other.auth.signed.publicKey != other.chain.last then None
    else
      var merged := rules.merge(section.chain, other.chain);
      if merged.None? then None
      else
        var auth := if other.auth.signed.publicKey == merged.value.last then other.auth else section.auth;
        var members := Applied(section.members, Verified(other.infos, merged.value));
        Some(SectionState(merged.value, auth, PrunedNotMatching(members, auth.value.prefix)))
  }

  /** The section after an agreement on new elders, or `None` if the agreement is rejected. */
  function EldersUpdated(rules: ChainRules, section: SectionState, auth: SignedAuth, keySigned: Signed)
    : Option<SectionState>
  {
    if !(PrefixOf(section) <= auth.value.prefix) || !AuthVerifies(auth) then None
    else
      var inserted := ChainInserted(rules, section.chain, auth.signed.publicKey, keySigned);
      if inserted.None? then None
      else
        var next := if auth.signed.publicKey == inserted.value.last then auth else section.auth;
        Some(SectionState(inserted.value, next, PrunedNotMatching(section.members, next.value.prefix)))
  }

  class Section {
    var chain: Chain
    var auth: SignedAuth
    const peers: SectionPeers

    ghost function State(): SectionState
      reads this, peers
    {
      SectionState(chain, auth, peers.members)
    }

    /** Fails if the authority is not signed with the last key of the chain. */
    static method New(chain: Chain, auth: SignedAuth) returns (section: Option<Section>)
      ensures section.Some? <==> auth.signed.publicKey == chain.last
      ensures section.Some? ==> section.value.State() == SectionState(chain, auth, map[])
      ensures section.Some? ==> fresh(section.value) && fresh(section.value.peers)
    {
      if auth.signed.publicKey != chain.last {
        return None;
      }
      var created := new Section.With(chain, auth);
      return Some(created);
    }

    constructor With(chain: Chain, auth: SignedAuth)
      ensures State() == SectionState(chain, auth, map[]) && fresh(peers)
    {
      this.chain, this.auth := chain, auth;
      peers := new SectionPeers();
    }

    method UpdateMember(info: SignedMember) returns (changed: bool)
      modifies peers
      ensures State() == MemberUpdated(old(State()), info)
      ensures Keyed(old(peers.members)) ==>
                changed == (MemberVerifies(info, chain) && Rank(info) > RankAt(old(peers.members), NameOf(info)))
    {
      if !MemberVerifies(info, chain) {
        return false;
      }
      changed := peers.Update(info);
    }

    method Merge(rules: ChainRules, other: Snapshot) returns (ok: bool)
      modifies this, peers
      ensures ok == Merged(rules, old(State()), other).Some?
      ensures State() == if ok then Merged(rules, old(State()), other).value else old(State())
    {
      if !AuthVerifies(other.auth) {
        return false;
      }
      if other.auth.signed.publicKey != other.chain.last {
        return false;
      }
      var merged := rules.merge(chain, other.chain);
      if merged.None? {
        return false;
      }
      chain := merged.value;
      if other.auth.signed.publicKey == chain.last {
        auth := other.auth;
      }
      ghost var before := peers.members;
      for i := 0 to |other.infos|
        invariant chain == merged.value
        invariant auth == if other.auth.signed.publicKey == chain.last then other.auth else old(auth)
        invariant peers.members == Applied(before, Verified(other.infos[..i], chain))
      {
        VerifiedThenUpdate(before, other.infos, i, chain);
        var _ := UpdateMember(other.infos[i]);
      }
      assert other.infos[..|other.infos|] == other.infos;
      peers.PruneNotMatching(auth.value.prefix);
      return true;
    }

    method UpdateElders(rules: ChainRules, newAuth: SignedAuth, keySigned: Signed) returns (ok: bool)
      modifies this, peers
      ensures ok == EldersUpdated(rules, old(State()), newAuth, keySigned).Some?
      ensures State() == if ok then EldersUpdated(rules, old(State()), newAuth, keySigned).value else old(State())
    {
      if newAuth.value.prefix != auth.value.prefix && !Extends(newAuth.value.prefix, auth.value.prefix) {
        return false;
      }
      if !AuthVerifies(newAuth) {
        return false;
      }
      var inserted := ChainInserted(rules, chain, newAuth.signed.publicKey, keySigned);
      if inserted.None? {
        return false;
      }
      chain := inserted.value;
      if newAuth.signed.publicKey == chain.last {
        auth := newAuth;
      }
      peers.PruneNotMatching(auth.value.prefix);
      return true;
    }
  }

  lemma VerifiedThenUpdate(members: Members, infos: seq<SignedMember>, i: nat, chain: Chain)
    requires i < |infos|
    ensures var before := Applied(members, Verified(infos[..i], chain));
            Applied(members, Verified(infos[..i + 1], chain)) ==
            if MemberVerifies(infos[i], chain) then Updated(before, infos[i]) else before
  {
    FilterStep(infos, i, VerifiesWith(chain));
    var front := Verified(infos[..i], chain);
    assert (front + [infos[i]])[..|front|] == front;
  }
}
