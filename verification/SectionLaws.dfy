/** What every section keeps, and why two sections that exchange their states agree. */
module SectionLaws {
  import opened Prefixes
  import opened Messaging
  import opened SectionPeersModel
  import opened SectionModel
  import opened Runs

  ghost predicate AuthoritySigned(section: SectionState) {
    && ValidChain(section.chain)
    && Verifies(section.auth.signed, AuthMessage(section.auth.value))
    && section.auth.signed.publicKey == section.chain.last
  }

  ghost predicate MembersSigned(section: SectionState) {
    && Keyed(section.members)
    && forall name :: name in section.members ==>
         var member := section.members[name];
         member.signed.publicKey in section.chain.keys && Verifies(member.signed, MemberMessage(member.value))
  }

  ghost predicate MembersMatch(section: SectionState) {
    forall name :: name in section.members ==> Matches(PrefixOf(section), name)
  }

  ghost predicate WellFormed(section: SectionState) {
    AuthoritySigned(section) && MembersSigned(section) && MembersMatch(section)
  }

  /** `snapshot` is `section` with its members listed in some order. */
  ghost predicate IsSnapshotOf(snapshot: Snapshot, section: SectionState) {
    && snapshot.chain == section.chain && snapshot.auth == section.auth
    && (forall info :: info in snapshot.infos ==> NameOf(info) in section.members && section.members[NameOf(info)] == info)
    && (forall name :: name in section.members ==> section.members[name] in snapshot.infos)
  }

  datatype Event =
    | MergeEvent(other: Snapshot)
    | EldersEvent(auth: SignedAuth, keySigned: Signed)
    | MemberEvent(info: SignedMember)

  function Step(rules: ChainRules, section: SectionState, event: Event): SectionState {
    match event
    case MergeEvent(other) =>
      (match Merged(rules, section, other) case Some(next) => next case None => section)
    case EldersEvent(auth, keySigned) =>
      (match EldersUpdated(rules, section, auth, keySigned) case Some(next) => next case None => section)
    case MemberEvent(info) => MemberUpdated(section, info)
  }

  function Stepper(rules: ChainRules): (SectionState, Event) -> SectionState {
    (section: SectionState, event: Event) => Step(rules, section, event)
  }

  lemma AppliedStaysSigned(members: Members, infos: seq<SignedMember>, chain: Chain)
    requires Keyed(members)
    requires forall name :: name in members ==> MemberVerifies(members[name], chain)
    ensures Keyed(Applied(members, Verified(infos, chain)))
    ensures forall name :: name in Applied(members, Verified(infos, chain)) ==>
              MemberVerifies(Applied(members, Verified(infos, chain))[name], chain)
  {
    var after := Applied(members, Verified(infos, chain));
    RankIsHighestOffered(members, Verified(infos, chain), seq(NAME_BITS, _ => false));
    forall name | name in after ensures MemberVerifies(after[name], chain) {
      StoredWasOffered(members, Verified(infos, chain), name);
    }
  }

  lemma MergeKeepsWellFormed(rules: ChainRules, section: SectionState, other: Snapshot)
    requires Lawful(rules) && AuthoritySigned(section) && MembersSigned(section) && ValidChain(other.chain)
    requires Merged(rules, section, other).Some?
    ensures WellFormed(Merged(rules, section, other).value)
  {
    var chain := rules.merge(section.chain, other.chain).value;
    assert LawfulMerge(rules, section.chain, other.chain);
    AppliedStaysSigned(section.members, other.infos, chain);
  }

  lemma UpdateEldersKeepsWellFormed(rules: ChainRules, section: SectionState, auth: SignedAuth, keySigned: Signed)
    requires Lawful(rules) && AuthoritySigned(section) && MembersSigned(section)
    requires EldersUpdated(rules, section, auth, keySigned).Some?
    ensures WellFormed(EldersUpdated(rules, section, auth, keySigned).value)
    ensures PrefixOf(section) <= PrefixOf(EldersUpdated(rules, section, auth, keySigned).value)
  {
    assert LawfulInsert(rules, section.chain, keySigned.publicKey, auth.signed.publicKey);
  }

  ghost predicate ProperlySigned(section: SectionState) {
    AuthoritySigned(section) && MembersSigned(section)
  }

  /** The chain of a merged section holds its own last key. */
  ghost predicate MergeIsValid(section: SectionState, event: Event) {
    event.MergeEvent? ==> ValidChain(event.other.chain)
  }

  lemma StepKeepsSigned(rules: ChainRules, section: SectionState, event: Event)
    requires Lawful(rules) && ProperlySigned(section) && MergeIsValid(section, event)
    ensures ProperlySigned(Step(rules, section, event))
  {
    match event
    case MergeEvent(other) =>
      if Merged(rules, section, other).Some? { MergeKeepsWellFormed(rules, section, other); }
    case EldersEvent(auth, keySigned) =>
      if EldersUpdated(rules, section, auth, keySigned).Some? {
        UpdateEldersKeepsWellFormed(rules, section, auth, keySigned);
      }
    case MemberEvent(info) =>
  }

  /** A member update that verifies is for a name under our prefix. */
  ghost predicate NameFits(section: SectionState, event: Event) {
    event.MemberEvent? ==>
      Matches(PrefixOf(section), NameOf(event.info)) || !MemberVerifies(event.info, section.chain)
  }

  /** Updating a member does not look at our prefix: it keeps the section well-formed exactly when the
      name is under the prefix or the update is rejected. */
  lemma MemberUpdateKeepsWellFormedIff(section: SectionState, info: SignedMember)
    requires WellFormed(section)
    ensures WellFormed(MemberUpdated(section, info)) <==>
            Matches(PrefixOf(section), NameOf(info)) || !MemberVerifies(info, section.chain)
  {
    if !Matches(PrefixOf(section), NameOf(info)) && MemberVerifies(info, section.chain) {
      assert NameOf(info) in MemberUpdated(section, info).members;
    }
  }

  lemma StepKeepsMatchIff(rules: ChainRules, section: SectionState, event: Event)
    requires Lawful(rules) && WellFormed(section) && MergeIsValid(section, event)
    ensures MembersMatch(Step(rules, section, event)) <==> NameFits(section, event)
  {
    StepKeepsSigned(rules, section, event);
    if event.MemberEvent? {
      MemberUpdateKeepsWellFormedIff(section, event.info);
    }
  }

  /** Over any run the authority stays signed by the last key of the chain and every member by a key of
      the chain; and every member's name stays under our prefix exactly when every verified member
      update is for a name under it. */
  lemma RunsKeepWellFormed(rules: ChainRules, section: SectionState, events: seq<Event>)
    requires Lawful(rules) && WellFormed(section) && EveryStep(Stepper(rules), section, events, MergeIsValid)
    ensures Throughout(Stepper(rules), section, events, ProperlySigned)
    ensures Throughout(Stepper(rules), section, events, MembersMatch) <==>
            EveryStep(Stepper(rules), section, events, NameFits)
  {
    forall now, event | ProperlySigned(now) && MergeIsValid(now, event)
      ensures ProperlySigned(Stepper(rules)(now, event))
      ensures MembersMatch(now) ==> (MembersMatch(Stepper(rules)(now, event)) <==> NameFits(now, event))
    {
      StepKeepsSigned(rules, now, event);
      if MembersMatch(now) {
        StepKeepsMatchIff(rules, now, event);
      }
    }
    KeptThroughout(Stepper(rules), section, events, ProperlySigned, MergeIsValid);
    HeldThroughoutIff(Stepper(rules), section, events, ProperlySigned, MergeIsValid, MembersMatch, NameFits);
  }

  lemma SnapshotOffersItsRanks(snapshot: Snapshot, section: SectionState, chain: Chain, name: Name)
    requires IsSnapshotOf(snapshot, section) && MembersSigned(section) && section.chain.keys <= chain.keys
    ensures OfferedRank(Verified(snapshot.infos, chain), name) == RankAt(section.members, name)
  {
    var infos := Verified(snapshot.infos, chain);
    OfferedRankIsAttained(infos, name, RankAt(section.members, name));
    OfferedRankIsAttained(infos, name, OfferedRank(infos, name));
    if name in section.members {
      assert section.members[name] in infos;
    }
  }

  /** The rank of each member after a merge is the higher of the two sides' ranks. */
  lemma MergedRank(rules: ChainRules, a: SectionState, b: SectionState, snapshot: Snapshot, name: Name)
    requires Lawful(rules) && WellFormed(a) && WellFormed(b) && IsSnapshotOf(snapshot, b)
    requires Merged(rules, a, snapshot).Some?
    ensures var merged := Merged(rules, a, snapshot).value;
            RankAt(merged.members, name) ==
            if Matches(PrefixOf(merged), name) then Max(RankAt(a.members, name), RankAt(b.members, name)) else -1
  {
    var chain := rules.merge(a.chain, b.chain).value;
    assert LawfulMerge(rules, a.chain, b.chain);
    SnapshotOffersItsRanks(snapshot, b, chain, name);
    RankIsHighestOffered(a.members, Verified(snapshot.infos, chain), name);
  }

  lemma MergedEntryIsKnown(rules: ChainRules, a: SectionState, b: SectionState, snapshot: Snapshot, name: Name)
    requires Lawful(rules) && WellFormed(a) && WellFormed(b) && IsSnapshotOf(snapshot, b)
    requires Merged(rules, a, snapshot).Some? && name in Merged(rules, a, snapshot).value.members
    ensures Merged(rules, a, snapshot).value.members[name] in a.members.Values + b.members.Values
  {
    var chain := rules.merge(a.chain, b.chain).value;
    var infos := Verified(snapshot.infos, chain);
    StoredWasOffered(a.members, infos, name);
    var stored := Applied(a.members, infos)[name];
    if stored in infos {
      assert b.members[NameOf(stored)] == stored;
    }
  }

  /** Two nodes that merge each other's sections agree on whether the merge succeeds, and then end
      with the same chain, the same authority and the same rank for every member; with consistent
      entries they end in the same state altogether. */
  lemma SectionsConverge(rules: ChainRules, a: SectionState, b: SectionState, fromA: Snapshot, fromB: Snapshot)
    requires Lawful(rules) && WellFormed(a) && WellFormed(b)
    requires IsSnapshotOf(fromA, a) && IsSnapshotOf(fromB, b)
    requires a.auth.signed.publicKey == b.auth.signed.publicKey ==> a.auth == b.auth
    ensures Merged(rules, a, fromB).Some? <==> Merged(rules, b, fromA).Some?
    ensures Merged(rules, a, fromB).Some? ==>
              var x, y := Merged(rules, a, fromB).value, Merged(rules, b, fromA).value;
              && WellFormed(x) && WellFormed(y)
              && x.chain == y.chain && x.auth == y.auth
              && (forall name :: RankAt(x.members, name) == RankAt(y.members, name))
              && (Consistent(a.members.Values + b.members.Values) ==> x == y)
  {
    assert LawfulMerge(rules, a.chain, b.chain);
    if Merged(rules, a, fromB).Some? {
      var x, y := Merged(rules, a, fromB).value, Merged(rules, b, fromA).value;
      MergeKeepsWellFormed(rules, a, fromB);
      MergeKeepsWellFormed(rules, b, fromA);
      forall name: Name ensures RankAt(x.members, name) == RankAt(y.members, name) {
        MergedRank(rules, a, b, fromB, name);
        MergedRank(rules, b, a, fromA, name);
      }
      if Consistent(a.members.Values + b.members.Values) {
        MembersAgree(rules, a, b, fromA, fromB);
      }
    }
  }

  lemma MembersAgree(rules: ChainRules, a: SectionState, b: SectionState, fromA: Snapshot, fromB: Snapshot)
    requires Lawful(rules) && WellFormed(a) && WellFormed(b)
    requires IsSnapshotOf(fromA, a) && IsSnapshotOf(fromB, b)
    requires Merged(rules, a, fromB).Some? && Merged(rules, b, fromA).Some?
    requires WellFormed(Merged(rules, a, fromB).value) && WellFormed(Merged(rules, b, fromA).value)
    requires Consistent(a.members.Values + b.members.Values)
    requires forall name :: RankAt(Merged(rules, a, fromB).value.members, name) ==
                            RankAt(Merged(rules, b, fromA).value.members, name)
    ensures Merged(rules, a, fromB).value.members == Merged(rules, b, fromA).value.members
  {
    var x, y := Merged(rules, a, fromB).value.members, Merged(rules, b, fromA).value.members;
    forall name: Name
      ensures name in x <==> name in y
      ensures name in x ==> x[name] == y[name]
    {
      if name in x { MergedEntryIsKnown(rules, a, b, fromB, name); }
      if name in y { MergedEntryIsKnown(rules, b, a, fromA, name); }
      SameRankSameEntry(x, y, a.members.Values + b.members.Values, name);
    }
  }

  // What is accepted, and who stays.

  /** New elders are accepted exactly when they are for our prefix or one below it, their authority
      verifies, and a key of our chain signed their key. */
  lemma EldersAcceptedIff(rules: ChainRules, section: SectionState, auth: SignedAuth, keySigned: Signed)
    ensures EldersUpdated(rules, section, auth, keySigned).Some? <==>
            && (auth.value.prefix == PrefixOf(section) || Extends(auth.value.prefix, PrefixOf(section)))
            && Verifies(auth.signed, AuthMessage(auth.value))
            && keySigned.publicKey in section.chain.keys && Verifies(keySigned, KeyMessage(auth.signed.publicKey))
  {
  }

  /** Another section is accepted exactly when its authority verifies and is signed with its last key, and
      the chains can be merged. */
  lemma MergeAcceptedIff(rules: ChainRules, section: SectionState, other: Snapshot)
    ensures Merged(rules, section, other).Some? <==>
            && Verifies(other.auth.signed, AuthMessage(other.auth.value))
            && other.auth.signed.publicKey == other.chain.last
            && rules.merge(section.chain, other.chain).Some?
  {
  }

  /** New elders for our section lose exactly the members outside the prefix and change none of the others;
      and their key joins the chain. */
  lemma MembersSurviveElders(
      rules: ChainRules, section: SectionState, auth: SignedAuth, keySigned: Signed, name: Name)
    requires EldersUpdated(rules, section, auth, keySigned).Some?
    ensures var after := EldersUpdated(rules, section, auth, keySigned).value;
            && (name in after.members <==> name in section.members && Matches(PrefixOf(after), name))
            && (name in after.members ==> after.members[name] == section.members[name])
            && (Lawful(rules) && ValidChain(section.chain) ==>
                  after.chain.keys == section.chain.keys + {auth.signed.publicKey})
  {
    if Lawful(rules) && ValidChain(section.chain) {
      assert LawfulInsert(rules, section.chain, keySigned.publicKey, auth.signed.publicKey);
    }
  }

  /** The name is under the prefix the step leads to. */
  ghost function StaysUnder(rules: ChainRules, name: Name): (SectionState, Event) -> bool {
    (section: SectionState, event: Event) => Matches(PrefixOf(Step(rules, section, event)), name)
  }

  ghost function RankedAtLeast(name: Name, rank: int): SectionState -> bool {
    (section: SectionState) => Keyed(section.members) && RankAt(section.members, name) >= rank
  }

  lemma StepKeepsRank(rules: ChainRules, section: SectionState, event: Event, name: Name)
    requires Keyed(section.members) && Matches(PrefixOf(Step(rules, section, event)), name)
    ensures Keyed(Step(rules, section, event).members)
    ensures RankAt(Step(rules, section, event).members, name) >= RankAt(section.members, name)
  {
    match event
    case MergeEvent(other) =>
      if Merged(rules, section, other).Some? {
        RankIsHighestOffered(section.members, Verified(other.infos, rules.merge(section.chain, other.chain).value), name);
      }
    case EldersEvent(auth, keySigned) =>
      if EldersUpdated(rules, section, auth, keySigned).Some? {
        MembersSurviveElders(rules, section, auth, keySigned, name);
      }
    case MemberEvent(info) => UpdateRaisesRank(section.members, info);
  }

  /** Over any run of merges, new elders and member updates the rank of a name never drops while the name
      stays under our prefix. */
  lemma RanksNeverDrop(rules: ChainRules, section: SectionState, events: seq<Event>, name: Name)
    requires Keyed(section.members) && EveryStep(Stepper(rules), section, events, StaysUnder(rules, name))
    ensures Throughout(Stepper(rules), section, events, RankedAtLeast(name, RankAt(section.members, name)))
  {
    var rank := RankAt(section.members, name);
    forall now, event | RankedAtLeast(name, rank)(now) && StaysUnder(rules, name)(now, event)
      ensures RankedAtLeast(name, rank)(Stepper(rules)(now, event))
    {
      StepKeepsRank(rules, now, event, name);
    }
    KeptThroughout(Stepper(rules), section, events, RankedAtLeast(name, rank), StaysUnder(rules, name));
  }
}
