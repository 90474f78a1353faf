/** What an agreement on our elders is going to do, told from the state and the batch before it takes
    effect and whatever way the chain resolves forks.
 */
module OurEldersAhead {
  import opened Wrappers
  import opened Prefixes
  import opened PrefixMaps
  import opened Messaging
  import opened SectionModel
  import opened NetworkModel
  import opened SplitBarrierModel
  import opened OurElders
  import opened OurEldersLaws
  import opened Runs

  /** The entry is for our side: it may update our section. */
  predicate IsOurs(core: CoreState, e: Entry) {
    Matches(EntryPrefix(e), core.name) && OurPrefix(core) <= EntryPrefix(e)
  }

  /** The entry verifies and our last key signed its key, which is new to us. */
  predicate SignedByLast(chain: Chain, e: Entry) {
    && AuthVerifies(e.auth)
    && e.keySigned.publicKey == chain.last
    && Verifies(e.keySigned, KeyMessage(e.auth.signed.publicKey))
    && e.auth.signed.publicKey !in chain.keys
  }

  predicate IsSound(core: CoreState, e: Entry) {
    VerifiedBy(AsOther(e), core.section.chain)
  }

  function KeysOf(batch: seq<Entry>): set<Key> {
    set e | e in batch :: e.auth.signed.publicKey
  }

  /** No key of our chain nor one the batch brings makes the entry verify. */
  predicate IsUnsound(core: CoreState, batch: seq<Entry>, e: Entry) {
    || !AuthVerifies(e.auth)
    || !Verifies(e.keySigned, KeyMessage(e.auth.signed.publicKey))
    || e.keySigned.publicKey !in core.section.chain.keys + KeysOf(batch)
  }

  /** An entry that updates our section. */
  predicate Takes(core: CoreState, e: Entry) {
    IsOurs(core, e) && IsSound(core, e)
  }

  /** An entry that enters the network. */
  predicate Lands(core: CoreState, e: Entry) {
    !Matches(EntryPrefix(e), core.name) && IsSound(core, e) && Descendants(core.sections.Keys, EntryPrefix(e)) == {}
  }

  /** How the chain resolves forks does not matter: our last key signed what is for our side, unless it
      does not verify at all, and the forks of our side agree on whether we are an elder. */
  ghost predicate RegularBatch(core: CoreState, batch: seq<Entry>) {
    && (forall e :: e in batch ==>
          IsUnsound(core, batch, e) || (IsSound(core, e) && (IsOurs(core, e) ==> SignedByLast(core.section.chain, e))))
    && (forall e, f :: e in batch && f in batch && Takes(core, e) && Takes(core, f) ==>
          (core.name in e.auth.value.elders <==> core.name in f.auth.value.elders))
  }

  ghost predicate Regular(core: CoreState, entry: Entry) {
    RegularBatch(core, Batch(core, entry))
  }

  /** The first entry that updates our section. */
  function Taking(core: CoreState, batch: seq<Entry>): Option<Entry> {
    if batch == [] then None
    else match Taking(core, batch[..|batch| - 1])
      case Some(e) => Some(e)
      case None => if Takes(core, batch[|batch| - 1]) then Some(batch[|batch| - 1]) else None
  }

  function PrefixAhead(core: CoreState, entry: Entry): Prefix {
    match Taking(core, Batch(core, entry))
    case Some(e) => EntryPrefix(e)
    case None => OurPrefix(core)
  }

  predicate ElderAhead(core: CoreState, entry: Entry) {
    match Taking(core, Batch(core, entry))
    case Some(e) => core.name in e.auth.value.elders
    case None => ElderNow(core.name, core.section)
  }

  predicate DemotedAhead(core: CoreState, entry: Entry) {
    ElderNow(core.name, core.section) && !ElderAhead(core, entry)
  }

  /** The sections that enter the network. */
  function LandingAhead(core: CoreState, entry: Entry): set<Prefix> {
    set e | e in Batch(core, entry) && Lands(core, e) :: EntryPrefix(e)
  }

  /** The address space is going to be covered. */
  ghost predicate CoveredAhead(core: CoreState, entry: Entry) {
    if DemotedAhead(core, entry) then PrefixAhead(core, entry) == EMPTY
    else Covers({PrefixAhead(core, entry)} + core.sections.Keys + LandingAhead(core, entry), EMPTY)
  }

  /** A covered address space is going to stay so: the prefix stays; or on the way to the new one the
      other half of each skipped level is known, and the sibling enters the network, because some
      entry for it verifies and nothing below it is known, or is known already. */
  ghost predicate SafeAhead(core: CoreState, entry: Entry) {
    var p, a := OurPrefix(core), PrefixAhead(core, entry);
    if DemotedAhead(core, entry) then a == EMPTY
    else
      || a == p
      || (&& (forall k :: |p| < k < |a| ==> Covers(core.sections.Keys, Sibling(a[..k])))
          && (Sibling(a) in LandingAhead(core, entry) || Covers(core.sections.Keys, Sibling(a))))
  }

  // The batch, one entry at a time.

  lemma {:induction false} TakingIsTaken(core: CoreState, batch: seq<Entry>)
    ensures Taking(core, batch).Some? <==> exists e :: e in batch && Takes(core, e)
    ensures Taking(core, batch).Some? ==> Taking(core, batch).value in batch && Takes(core, Taking(core, batch).value)
  {
    if batch != [] {
      var front, last := batch[..|batch| - 1], batch[|batch| - 1];
      TakingIsTaken(core, front);
      assert batch == front + [last];
    }
  }

  /** No entry of the batch is for a section below another one's. */
  ghost predicate Level(batch: seq<Entry>) {
    forall e, f :: e in batch && f in batch ==> !Extends(EntryPrefix(e), EntryPrefix(f))
  }

  lemma BatchIsLevel(core: CoreState, entry: Entry)
    ensures Level(Batch(core, entry))
  {
    if Extends(EntryPrefix(entry), OurPrefix(core)) {
      SplitNeedsBothSides(core.cached, OurPrefix(core), entry);
      forall e | e in Batch(core, entry) ensures |EntryPrefix(e)| == |EntryPrefix(entry)| {
      }
    }
  }

  lemma OursHaveOnePrefix(core: CoreState, batch: seq<Entry>, e: Entry, f: Entry)
    requires Level(batch) && e in batch && f in batch && IsOurs(core, e) && IsOurs(core, f)
    ensures EntryPrefix(e) == EntryPrefix(f)
  {
    MatchingPrefixesAreCompatible(EntryPrefix(e), EntryPrefix(f), core.name);
    MatchingPrefixesAreCompatible(EntryPrefix(f), EntryPrefix(e), core.name);
    assert !Extends(EntryPrefix(e), EntryPrefix(f)) && !Extends(EntryPrefix(f), EntryPrefix(e));
  }

  /** Our section after the first entries of the batch: as before until one takes; then its last key is
      new, and its authority is that of some entry that took. */
  ghost predicate SectionMidway(core: CoreState, batch: seq<Entry>, count: nat, section: SectionState)
    requires count <= |batch|
  {
    && ValidChain(section.chain)
    && core.section.chain.keys <= section.chain.keys <= core.section.chain.keys + KeysOf(batch)
    && if Taking(core, batch[..count]).None? then section == core.section
       else
         && section.chain.last !in core.section.chain.keys
         && exists e :: e in batch && Takes(core, e) && section.auth == e.auth
  }

  /** An entry verifies at its turn exactly when it verified before the batch. */
  lemma SoundAtItsTurn(core: CoreState, batch: seq<Entry>, e: Entry, chain: Chain)
    requires RegularBatch(core, batch) && e in batch
    requires core.section.chain.keys <= chain.keys <= core.section.chain.keys + KeysOf(batch)
    ensures VerifiedBy(AsOther(e), chain) <==> IsSound(core, e)
  {
  }

  lemma TakingStep(core: CoreState, batch: seq<Entry>, count: nat)
    requires count < |batch|
    ensures Taking(core, batch[..count + 1]) ==
            if Taking(core, batch[..count]).Some? then Taking(core, batch[..count])
            else if Takes(core, batch[count]) then Some(batch[count]) else None
  {
    assert batch[..count + 1][..count] == batch[..count];
  }

  lemma TakenByOurs(rules: ChainRules, core: CoreState, batch: seq<Entry>, count: nat, now: CoreState)
    requires Lawful(rules) && ValidChain(core.section.chain) && RegularBatch(core, batch) && Level(batch)
    requires count < |batch| && now.name == core.name && SectionMidway(core, batch, count, now.section)
    requires Takes(core, batch[count])
    ensures SectionMidway(core, batch, count + 1, AppliedOne(rules, now, batch[count]).section)
  {
    var e := batch[count];
    TakingStep(core, batch, count);
    assert e in batch;
    assert LawfulInsert(rules, now.section.chain, core.section.chain.last, e.auth.signed.publicKey);
    if Taking(core, batch[..count]).Some? {
      var f :| f in batch && Takes(core, f) && now.section.auth == f.auth;
      OursHaveOnePrefix(core, batch, e, f);
    }
  }

  lemma NotTaken(rules: ChainRules, core: CoreState, batch: seq<Entry>, count: nat, now: CoreState)
    requires RegularBatch(core, batch) && Level(batch)
    requires count < |batch| && now.name == core.name && SectionMidway(core, batch, count, now.section)
    requires !Takes(core, batch[count])
    ensures AppliedOne(rules, now, batch[count]).section == now.section
    ensures SectionMidway(core, batch, count + 1, now.section)
  {
    var e := batch[count];
    TakingStep(core, batch, count);
    assert e in batch;
    if Matches(EntryPrefix(e), core.name) {
      if IsOurs(core, e) {
        SoundAtItsTurn(core, batch, e, now.section.chain);
      } else {
        assert OurPrefix(core) <= OurPrefix(now);
      }
    }
  }

  lemma SectionStep(rules: ChainRules, core: CoreState, batch: seq<Entry>, count: nat, now: CoreState)
    requires Lawful(rules) && ValidChain(core.section.chain) && RegularBatch(core, batch) && Level(batch)
    requires count < |batch| && now.name == core.name && SectionMidway(core, batch, count, now.section)
    ensures var after := AppliedOne(rules, now, batch[count]);
            after.name == core.name && SectionMidway(core, batch, count + 1, after.section)
  {
    if Takes(core, batch[count]) {
      TakenByOurs(rules, core, batch, count, now);
    } else {
      NotTaken(rules, core, batch, count, now);
    }
  }

  function Applier(rules: ChainRules): (CoreState, Entry) -> CoreState {
    (core: CoreState, e: Entry) => AppliedOne(rules, core, e)
  }

  lemma {:induction false} AppliedIsAfter(rules: ChainRules, core: CoreState, batch: seq<Entry>)
    ensures AppliedAll(rules, core, batch) == After(Applier(rules), core, batch)
  {
    if batch != [] {
      AppliedIsAfter(rules, core, batch[..|batch| - 1]);
    }
  }

  lemma SectionAhead(rules: ChainRules, core: CoreState, batch: seq<Entry>, count: nat)
    requires Lawful(rules) && ValidChain(core.section.chain) && RegularBatch(core, batch) && Level(batch)
    requires count <= |batch|
    ensures var now := AppliedAll(rules, core, batch[..count]);
            now.name == core.name && SectionMidway(core, batch, count, now.section)
  {
    var inv := (i: nat, now: CoreState) =>
      i <= |batch| && now.name == core.name && SectionMidway(core, batch, i, now.section);
    assert batch[..0] == [];
    forall i: nat, now | i < |batch| && inv(i, now) ensures inv(i + 1, Applier(rules)(now, batch[i])) {
      SectionStep(rules, core, batch, i, now);
    }
    KeptAtEach(Applier(rules), core, batch, inv, count);
    AppliedIsAfter(rules, core, batch[..count]);
  }

  lemma KeysMidway(rules: ChainRules, core: CoreState, batch: seq<Entry>, count: nat)
    requires Lawful(rules) && ValidChain(core.section.chain) && RegularBatch(core, batch) && Level(batch)
    requires count <= |batch|
    ensures var now := AppliedAll(rules, core, batch[..count]);
            && now.name == core.name
            && core.section.chain.keys <= now.section.chain.keys <= core.section.chain.keys + KeysOf(batch)
  {
    SectionAhead(rules, core, batch, count);
  }

  lemma InsertKeepsDescendants<T>(m: map<Prefix, T>, q: Prefix, value: T, b: Prefix)
    requires !Extends(q, b)
    ensures Descendants(Inserted(m, q, value).Keys, b) == Descendants(m.Keys, b)
  {
    forall r | r in Descendants(m.Keys, b) ensures !Extends(q, r) {
    }
  }

  /** Some entry of the batch lands where `n` is. */
  ghost predicate LandsAt(core: CoreState, batch: seq<Entry>, n: Name) {
    exists e :: e in batch && Lands(core, e) && Matches(EntryPrefix(e), n)
  }

  ghost predicate SectionsMidway(core: CoreState, batch: seq<Entry>, count: nat, sections: Sections, n: Name)
    requires count <= |batch|
  {
    && (forall e :: e in batch ==> Descendants(sections.Keys, EntryPrefix(e)) == Descendants(core.sections.Keys, EntryPrefix(e)))
    && (MatchedBy(n, sections.Keys) <==> MatchedBy(n, core.sections.Keys) || LandsAt(core, batch[..count], n))
  }

  lemma LandsAtStep(core: CoreState, batch: seq<Entry>, count: nat, n: Name)
    requires count < |batch|
    ensures LandsAt(core, batch[..count + 1], n) <==>
            LandsAt(core, batch[..count], n) || (Lands(core, batch[count]) && Matches(EntryPrefix(batch[count]), n))
  {
    assert batch[..count + 1] == batch[..count] + [batch[count]];
  }

  lemma SectionsStep(rules: ChainRules, core: CoreState, batch: seq<Entry>, count: nat, now: CoreState, n: Name)
    requires RegularBatch(core, batch) && Level(batch) && count < |batch| && now.name == core.name
    requires core.section.chain.keys <= now.section.chain.keys <= core.section.chain.keys + KeysOf(batch)
    requires SectionsMidway(core, batch, count, now.sections, n)
    ensures SectionsMidway(core, batch, count + 1, AppliedOne(rules, now, batch[count]).sections, n)
  {
    var e := batch[count];
    assert e in batch;
    LandsAtStep(core, batch, count, n);
    SoundAtItsTurn(core, batch, e, now.section.chain);
    if !Matches(EntryPrefix(e), core.name) && IsSound(core, e) {
      MatchedAfterInsert(now.sections, EntryPrefix(e), AsOther(e), n);
      forall f | f in batch
        ensures Descendants(Inserted(now.sections, EntryPrefix(e), AsOther(e)).Keys, EntryPrefix(f)) ==
                Descendants(core.sections.Keys, EntryPrefix(f))
      {
        InsertKeepsDescendants(now.sections, EntryPrefix(e), AsOther(e), EntryPrefix(f));
      }
    }
  }

  lemma SectionsAhead(rules: ChainRules, core: CoreState, batch: seq<Entry>, n: Name)
    requires Lawful(rules) && ValidChain(core.section.chain) && RegularBatch(core, batch) && Level(batch)
    ensures SectionsMidway(core, batch, |batch|, AppliedAll(rules, core, batch).sections, n)
  {
    var inv := (i: nat, now: CoreState) =>
      && i <= |batch| && now.name == core.name && SectionMidway(core, batch, i, now.section)
      && SectionsMidway(core, batch, i, now.sections, n);
    assert batch[..0] == [] && batch[..|batch|] == batch;
    forall i: nat, now | i < |batch| && inv(i, now) ensures inv(i + 1, Applier(rules)(now, batch[i])) {
      SectionStep(rules, core, batch, i, now);
      SectionsStep(rules, core, batch, i, now, n);
    }
    KeptAtEach(Applier(rules), core, batch, inv, |batch|);
    AppliedIsAfter(rules, core, batch);
  }

  // The whole agreement.

  lemma AfterBatchIsApplied(rules: ChainRules, core: CoreState, entry: Entry)
    ensures AfterBatch(rules, core, entry).section == AppliedAll(rules, core, Batch(core, entry)).section
    ensures AfterBatch(rules, core, entry).sections == AppliedAll(rules, core, Batch(core, entry)).sections
    ensures AfterBatch(rules, core, entry).name == AppliedAll(rules, core, Batch(core, entry)).name
  {
    SameEffect(rules, core, BeforeBatch(core, entry).cached, Batch(core, entry));
  }

  lemma SectionAheadIsRight(rules: ChainRules, core: CoreState, entry: Entry)
    requires Lawful(rules) && ValidChain(core.section.chain) && Regular(core, entry)
    ensures var after := AfterBatch(rules, core, entry);
            && after.name == core.name && ValidChain(after.section.chain)
            && OurPrefix(after) == PrefixAhead(core, entry)
            && (ElderNow(after.name, after.section) <==> ElderAhead(core, entry))
            && (Taking(core, Batch(core, entry)).Some? <==> after.section.chain.last != core.section.chain.last)
  {
    var batch := Batch(core, entry);
    AfterBatchIsApplied(rules, core, entry);
    assert batch[..|batch|] == batch;
    BatchIsLevel(core, entry);
    SectionAhead(rules, core, batch, |batch|);
    TakingIsTaken(core, batch);
    if Taking(core, batch).Some? {
      var section := AppliedAll(rules, core, batch).section;
      var e :| e in batch && Takes(core, e) && section.auth == e.auth;
      OursHaveOnePrefix(core, batch, e, Taking(core, batch).value);
    }
  }

  /** The told prefix, demotion and elders come true. */
  lemma AheadIsRight(rules: ChainRules, core: CoreState, entry: Entry)
    requires Lawful(rules) && ValidChain(core.section.chain) && Regular(core, entry)
    ensures NextPrefix(rules, core, entry) == PrefixAhead(core, entry)
    ensures IsDemoted(rules, core, entry) <==> DemotedAhead(core, entry)
    ensures var after := Handled(rules, core, entry);
            ValidChain(after.section.chain) && (ElderNow(after.name, after.section) <==> ElderAhead(core, entry))
  {
    SectionAheadIsRight(rules, core, entry);
  }

  lemma MatchedAhead(rules: ChainRules, core: CoreState, entry: Entry, n: Name)
    requires Lawful(rules) && ValidChain(core.section.chain) && Regular(core, entry)
    ensures MatchedBy(n, AfterBatch(rules, core, entry).sections.Keys) <==>
            MatchedBy(n, core.sections.Keys + LandingAhead(core, entry))
  {
    var batch := Batch(core, entry);
    AfterBatchIsApplied(rules, core, entry);
    assert batch[..|batch|] == batch;
    BatchIsLevel(core, entry);
    SectionsAhead(rules, core, batch, n);
    LandingIsLandsAt(core, entry, n);
  }

  lemma LandingIsLandsAt(core: CoreState, entry: Entry, n: Name)
    ensures MatchedBy(n, core.sections.Keys + LandingAhead(core, entry)) <==>
            MatchedBy(n, core.sections.Keys) || LandsAt(core, Batch(core, entry), n)
  {
    var keys, landing := core.sections.Keys, LandingAhead(core, entry);
    if q :| q in keys && Matches(q, n) {
      assert q in keys + landing;
    }
    if e :| e in Batch(core, entry) && Lands(core, e) && Matches(EntryPrefix(e), n) {
      assert EntryPrefix(e) in keys + landing;
    }
  }

  lemma SameMatchesSameCoverage(a: Prefix, s: set<Prefix>, t: set<Prefix>)
    requires forall n: Name :: MatchedBy(n, s) <==> MatchedBy(n, t)
    ensures Covers({a} + s, EMPTY) <==> Covers({a} + t, EMPTY)
  {
    forall n: Name ensures MatchedBy(n, {a} + s) <==> MatchedBy(n, {a} + t) {
      WithOneMore(a, s, n);
      WithOneMore(a, t, n);
    }
  }

  lemma WithOneMore(a: Prefix, s: set<Prefix>, n: Name)
    ensures MatchedBy(n, {a} + s) <==> Matches(a, n) || MatchedBy(n, s)
  {
    if Matches(a, n) {
      assert a in {a} + s;
    }
    if q :| q in s && Matches(q, n) {
      assert q in {a} + s;
    }
  }

  /** Whatever is known before, the address space is covered afterwards exactly when it was told to be. */
  lemma CoveredAheadIsRight(rules: ChainRules, core: CoreState, entry: Entry)
    requires Lawful(rules) && ValidChain(core.section.chain) && Regular(core, entry)
    ensures Coverage(Handled(rules, core, entry)) <==> CoveredAhead(core, entry)
  {
    AheadIsRight(rules, core, entry);
    if IsDemoted(rules, core, entry) {
      DemotionCoverage(rules, core, entry);
    } else {
      var a, after := PrefixAhead(core, entry), AfterBatch(rules, core, entry).sections.Keys;
      var told := core.sections.Keys + LandingAhead(core, entry);
      forall n: Name ensures MatchedBy(n, after) <==> MatchedBy(n, told) {
        MatchedAhead(rules, core, entry, n);
      }
      SameMatchesSameCoverage(a, after, told);
      assert {a} + core.sections.Keys + LandingAhead(core, entry) == {a} + told;
    }
  }

  lemma LandsIffTold(rules: ChainRules, core: CoreState, entry: Entry, b: Prefix)
    requires Lawful(rules) && ValidChain(core.section.chain) && Regular(core, entry) && !Matches(b, core.name)
    ensures OtherSideLands(rules, core, Batch(core, entry), b) <==> b in LandingAhead(core, entry)
  {
    var batch := Batch(core, entry);
    BatchIsLevel(core, entry);
    forall i | 0 <= i < |batch|
      ensures VerifiedBy(AsOther(batch[i]), AppliedAll(rules, core, batch[..i]).section.chain) <==> IsSound(core, batch[i])
    {
      assert batch[i] in batch;
      KeysMidway(rules, core, batch, i);
      SoundAtItsTurn(core, batch, batch[i], AppliedAll(rules, core, batch[..i]).section.chain);
    }
    if b in LandingAhead(core, entry) {
      var e :| e in batch && Lands(core, e) && EntryPrefix(e) == b;
      var i :| 0 <= i < |batch| && batch[i] == e;
    }
  }

  /** From a covered address space, the path to the new prefix decides. */
  lemma SafeAheadIsRight(rules: ChainRules, core: CoreState, entry: Entry)
    requires Lawful(rules) && ValidChain(core.section.chain) && Regular(core, entry)
    requires AtHome(core) && Coverage(core)
    ensures Coverage(Handled(rules, core, entry)) <==> SafeAhead(core, entry)
  {
    AheadIsRight(rules, core, entry);
    CoverageStep(rules, core, entry);
    var a := PrefixAhead(core, entry);
    if a != OurPrefix(core) {
      PrefixChangeIsSplit(rules, core, entry);
      SiblingOfOursIsElsewhere(a, core.name);
      LandsIffTold(rules, core, entry, Sibling(a));
    }
  }

  /** A split of which our last key signed every entry, however many there are for each side, and which
      demotes nobody: the address space stays covered exactly when each skipped level's other half is
      known and no section below the sibling is known unless the known ones cover it. */
  lemma SignedSplitIsSafeIff(rules: ChainRules, core: CoreState, entry: Entry, ours: Entry)
    requires Lawful(rules) && ValidChain(core.section.chain) && AtHome(core) && Coverage(core)
    requires Extends(EntryPrefix(entry), OurPrefix(core))
    requires ours in Batch(core, entry) && Matches(EntryPrefix(ours), core.name)
    requires forall e :: e in Batch(core, entry) ==> SignedByLast(core.section.chain, e)
    requires forall e :: e in Batch(core, entry) && Matches(EntryPrefix(e), core.name) ==> core.name in e.auth.value.elders
    ensures var p, a, keys := OurPrefix(core), EntryPrefix(ours), core.sections.Keys;
            Coverage(Handled(rules, core, entry)) <==>
            && (forall k :: |p| < k < |a| ==> Covers(keys, Sibling(a[..k])))
            && (Descendants(keys, Sibling(a)) == {} || Covers(keys, Sibling(a)))
  {
    SignedSplitAhead(core, entry, ours);
    SafeAheadIsRight(rules, core, entry);
  }

  lemma SignedSplitAhead(core: CoreState, entry: Entry, ours: Entry)
    requires AtHome(core) && ValidChain(core.section.chain) && Extends(EntryPrefix(entry), OurPrefix(core))
    requires ours in Batch(core, entry) && Matches(EntryPrefix(ours), core.name)
    requires forall e :: e in Batch(core, entry) ==> SignedByLast(core.section.chain, e)
    requires forall e :: e in Batch(core, entry) && Matches(EntryPrefix(e), core.name) ==> core.name in e.auth.value.elders
    ensures Regular(core, entry) && !DemotedAhead(core, entry)
    ensures PrefixAhead(core, entry) == EntryPrefix(ours) != OurPrefix(core)
    ensures Sibling(EntryPrefix(ours)) in LandingAhead(core, entry) <==>
            Descendants(core.sections.Keys, Sibling(EntryPrefix(ours))) == {}
  {
    var batch := Batch(core, entry);
    SignedSplitSides(core, entry, ours);
    TakingIsTaken(core, batch);
    BatchIsLevel(core, entry);
    assert Takes(core, ours);
    OursHaveOnePrefix(core, batch, ours, Taking(core, batch).value);
    SiblingOfOursIsElsewhere(EntryPrefix(ours), core.name);
  }

  /** Both sides are in the batch, below our prefix. */
  lemma SignedSplitSides(core: CoreState, entry: Entry, ours: Entry)
    requires AtHome(core) && ValidChain(core.section.chain) && Extends(EntryPrefix(entry), OurPrefix(core))
    requires ours in Batch(core, entry) && Matches(EntryPrefix(ours), core.name)
    requires forall e :: e in Batch(core, entry) ==> SignedByLast(core.section.chain, e)
    ensures Extends(EntryPrefix(ours), OurPrefix(core))
    ensures exists other :: other in Batch(core, entry) && EntryPrefix(other) == Sibling(EntryPrefix(ours)) && IsSound(core, other)
  {
    var batch, q := Batch(core, entry), EntryPrefix(entry);
    SplitNeedsBothSides(core.cached, OurPrefix(core), entry);
    SiblingIsInvolution(q);
    MatchingPrefixesAreCompatible(OurPrefix(core), EntryPrefix(ours), core.name);
    assert |EntryPrefix(ours)| == |q|;
    assert batch[0] in batch && batch[|batch| - 1] in batch;
    var other := if EntryPrefix(ours) == q then batch[0] else entry;
    assert other in batch && EntryPrefix(other) == Sibling(EntryPrefix(ours)) && IsSound(core, other);
  }
}
