/** Whole runs of agreements on our elders, and when the address space stays covered over them. */
module OurEldersRuns {
  import opened Prefixes
  import opened Messaging
  import opened NetworkModel
  import opened SplitBarrierModel
  import opened OurElders
  import opened OurEldersLaws
  import opened OurEldersAhead
  import opened Runs

  function Handler(rules: ChainRules): (CoreState, Entry) -> CoreState {
    (core: CoreState, entry: Entry) => Handled(rules, core, entry)
  }

  function Run(rules: ChainRules, core: CoreState, entries: seq<Entry>): CoreState {
    After(Handler(rules), core, entries)
  }

  /** A node of the first section: the empty prefix, no other section, nothing held back. */
  ghost predicate IsGenesis(core: CoreState) {
    OurPrefix(core) == EMPTY && core.sections == map[] && core.cached == [] && ValidChain(core.section.chain)
  }

  lemma GenesisCovers(core: CoreState)
    requires IsGenesis(core)
    ensures AtHome(core) && Coverage(core)
  {
    assert {OurPrefix(core)} + core.sections.Keys == {EMPTY};
    CoveredByOneAlone(EMPTY);
  }

  function AnyStep(): (CoreState, Entry) -> bool {
    (core: CoreState, entry: Entry) => true
  }

  lemma {:induction false} AnyRun(rules: ChainRules, core: CoreState, entries: seq<Entry>)
    ensures EveryStep(Handler(rules), core, entries, AnyStep())
  {
    if entries != [] {
      AnyRun(rules, core, entries[..|entries| - 1]);
    }
  }

  lemma StepsKeepHome(rules: ChainRules)
    ensures Keeps(Handler(rules), AtHome, AnyStep())
  {
    forall core, entry | AtHome(core) ensures AtHome(Handler(rules)(core, entry)) {
      HandledIsAtHome(rules, core, entry);
    }
  }

  lemma RunIsAtHome(rules: ChainRules, core: CoreState, entries: seq<Entry>)
    requires AtHome(core)
    ensures AtHome(Run(rules, core, entries))
  {
    AnyRun(rules, core, entries);
    StepsKeepHome(rules);
    KeptThroughout(Handler(rules), core, entries, AtHome, AnyStep());
  }

  ghost function SafeStep(rules: ChainRules): (CoreState, Entry) -> bool {
    (core: CoreState, entry: Entry) => StepIsSafe(rules, core, entry)
  }

  /** From genesis the whole address space is covered throughout a run exactly when every step of it is
      safe. */
  lemma CoverageOverRuns(rules: ChainRules, core: CoreState, entries: seq<Entry>)
    requires IsGenesis(core)
    ensures Throughout(Handler(rules), core, entries, Coverage) <==>
            EveryStep(Handler(rules), core, entries, SafeStep(rules))
  {
    GenesisCovers(core);
    AnyRun(rules, core, entries);
    StepsKeepHome(rules);
    forall now, entry | AtHome(now) && Coverage(now)
      ensures Coverage(Handler(rules)(now, entry)) <==> SafeStep(rules)(now, entry)
    {
      CoverageStep(rules, now, entry);
    }
    HeldThroughoutIff(Handler(rules), core, entries, AtHome, AnyStep(), Coverage, SafeStep(rules));
  }

  // Who vouches for what a node knows.

  /** Keys of our chain vouch for every section we know. */
  ghost predicate KnownAreVouched(core: CoreState) {
    ValidChain(core.section.chain) && AllVouched(core.sections, core.section.chain.keys)
  }

  lemma EntryKeepsVouched(rules: ChainRules, core: CoreState, e: Entry)
    requires Lawful(rules) && KnownAreVouched(core)
    ensures KnownAreVouched(AppliedOne(rules, core, e))
  {
    if Matches(EntryPrefix(e), core.name) {
      assert LawfulInsert(rules, core.section.chain, e.keySigned.publicKey, e.auth.signed.publicKey);
    } else {
      var after := AppliedOne(rules, core, e).sections;
      forall p | p in after ensures SectionPrefix(after[p]) == p && VouchedFor(after[p], core.section.chain.keys) {
        NewIsVouched(core.sections, AsOther(e), core.section.chain, p);
      }
    }
  }

  lemma {:induction false} BatchKeepsVouched(rules: ChainRules, core: CoreState, batch: seq<Entry>)
    requires Lawful(rules) && KnownAreVouched(core)
    ensures KnownAreVouched(AppliedAll(rules, core, batch))
  {
    if batch != [] {
      BatchKeepsVouched(rules, core, batch[..|batch| - 1]);
      EntryKeepsVouched(rules, AppliedAll(rules, core, batch[..|batch| - 1]), batch[|batch| - 1]);
    }
  }

  /** Over any run from genesis, whatever is agreed, a key of our chain vouches for every section we know. */
  lemma KnownAreVouchedThroughout(rules: ChainRules, core: CoreState, entries: seq<Entry>)
    requires Lawful(rules) && IsGenesis(core)
    ensures Throughout(Handler(rules), core, entries, KnownAreVouched)
  {
    AnyRun(rules, core, entries);
    forall now, entry | KnownAreVouched(now) ensures KnownAreVouched(Handler(rules)(now, entry)) {
      BatchKeepsVouched(rules, BeforeBatch(now, entry), Batch(now, entry));
    }
    KeptThroughout(Handler(rules), core, entries, KnownAreVouched, AnyStep());
  }

  // Runs in which forks do not matter: the conditions are told before each step, and not by the rules
  // for forks.

  ghost predicate WellPlaced(core: CoreState) {
    AtHome(core) && ValidChain(core.section.chain)
  }

  lemma RegularStepsKeepPlace(rules: ChainRules)
    requires Lawful(rules)
    ensures Keeps(Handler(rules), WellPlaced, Regular)
  {
    forall core, entry | WellPlaced(core) && Regular(core, entry) ensures WellPlaced(Handler(rules)(core, entry)) {
      HandledIsAtHome(rules, core, entry);
      AheadIsRight(rules, core, entry);
    }
  }

  /** Where forks do not matter, the address space is covered throughout exactly when before every step
      it could be told that it would be. */
  lemma CoverageOverRegularRuns(rules: ChainRules, core: CoreState, entries: seq<Entry>)
    requires Lawful(rules) && IsGenesis(core) && EveryStep(Handler(rules), core, entries, Regular)
    ensures Throughout(Handler(rules), core, entries, Coverage) <==>
            EveryStep(Handler(rules), core, entries, SafeAhead)
  {
    GenesisCovers(core);
    RegularStepsKeepPlace(rules);
    forall now, entry | WellPlaced(now) && Regular(now, entry) && Coverage(now)
      ensures Coverage(Handler(rules)(now, entry)) <==> SafeAhead(now, entry)
    {
      SafeAheadIsRight(rules, now, entry);
    }
    HeldThroughoutIff(Handler(rules), core, entries, WellPlaced, Regular, Coverage, SafeAhead);
  }

  predicate IsElder(core: CoreState) {
    ElderNow(core.name, core.section)
  }

  /** If the node is an elder, the address space is covered. */
  ghost predicate CoveredAsElder(core: CoreState) {
    IsElder(core) ==> Coverage(core)
  }

  ghost predicate CoveredAsElderAhead(core: CoreState, entry: Entry) {
    ElderAhead(core, entry) ==> CoveredAhead(core, entry)
  }

  /** A node is never an elder without the address space being covered exactly when before every step
      that leaves it an elder it could be told that it would be; demotions and promotions included. */
  lemma ElderCoverageOverRuns(rules: ChainRules, core: CoreState, entries: seq<Entry>)
    requires Lawful(rules) && IsGenesis(core) && EveryStep(Handler(rules), core, entries, Regular)
    ensures Throughout(Handler(rules), core, entries, CoveredAsElder) <==>
            EveryStep(Handler(rules), core, entries, CoveredAsElderAhead)
  {
    GenesisCovers(core);
    RegularStepsKeepPlace(rules);
    forall now, entry | WellPlaced(now) && Regular(now, entry)
      ensures CoveredAsElder(Handler(rules)(now, entry)) <==> CoveredAsElderAhead(now, entry)
    {
      AheadIsRight(rules, now, entry);
      CoveredAheadIsRight(rules, now, entry);
    }
    HeldThroughoutIff(Handler(rules), core, entries, WellPlaced, Regular, CoveredAsElder, CoveredAsElderAhead);
  }

  ghost predicate ElderInPlace(core: CoreState) {
    WellPlaced(core) && IsElder(core)
  }

  ghost predicate RegularAndKept(core: CoreState, entry: Entry) {
    Regular(core, entry) && !DemotedAhead(core, entry)
  }

  /** Without demotions an elder's address space is covered throughout exactly when every split leaves no
      gap on the way to the new prefix. */
  lemma ElderCoverageWithoutDemotion(rules: ChainRules, core: CoreState, entries: seq<Entry>)
    requires Lawful(rules) && IsGenesis(core) && IsElder(core)
    requires EveryStep(Handler(rules), core, entries, RegularAndKept)
    ensures Throughout(Handler(rules), core, entries, CoveredAsElder) <==>
            EveryStep(Handler(rules), core, entries, SafeAhead)
  {
    GenesisCovers(core);
    forall now, entry | ElderInPlace(now) && RegularAndKept(now, entry)
      ensures ElderInPlace(Handler(rules)(now, entry))
      ensures CoveredAsElder(now) ==> (CoveredAsElder(Handler(rules)(now, entry)) <==> SafeAhead(now, entry))
    {
      HandledIsAtHome(rules, now, entry);
      AheadIsRight(rules, now, entry);
      if Coverage(now) {
        SafeAheadIsRight(rules, now, entry);
      }
    }
    HeldThroughoutIff(Handler(rules), core, entries, ElderInPlace, RegularAndKept, CoveredAsElder, SafeAhead);
  }
}
