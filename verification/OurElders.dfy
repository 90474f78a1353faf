/** How agreements on our elders change what a node knows of its own section and of the others
    (src/routing/core/messaging/handling/agreement.rs).
 */
module OurElders {
  import opened Wrappers
  import opened Prefixes
  import opened Messaging
  import opened SectionModel
  import opened NetworkModel
  import opened SplitBarrierModel

  datatype CoreState = CoreState(name: Name, section: SectionState, sections: Sections, cached: seq<Entry>)

  function OurPrefix(core: CoreState): Prefix {
    PrefixOf(core.section)
  }

  function AsOther(entry: Entry): OtherSection {
    OtherSection(entry.auth, Some(entry.keySigned))
  }

  predicate ElderNow(name: Name, section: SectionState) {
    name in section.auth.value.elders
  }

  /** One released agreement: for our side it updates our section, for the other side the network. */
  function AppliedOne(rules: ChainRules, core: CoreState, entry: Entry): CoreState {
    if Matches(EntryPrefix(entry), core.name) then
      match EldersUpdated(rules, core.section, entry.auth, entry.keySigned)
      case Some(section) => core.(section := section)
      case None => core
    else
      core.(sections := SectionUpdated(core.sections, AsOther(entry), core.section.chain))
  }

  function AppliedAll(rules: ChainRules, core: CoreState, entries: seq<Entry>): CoreState {
    if entries == [] then core
    else AppliedOne(rules, AppliedAll(rules, core, entries[..|entries| - 1]), entries[|entries| - 1])
  }

  lemma AppliedStep(rules: ChainRules, core: CoreState, entries: seq<Entry>, i: nat)
    requires i < |entries|
    ensures AppliedAll(rules, core, entries[..i + 1]) ==
            AppliedOne(rules, AppliedAll(rules, core, entries[..i]), entries[i])
  {
    assert entries[..i + 1][..i] == entries[..i];
  }

  /** A node that stops being an elder forgets the network. */
  function Demoted(before: CoreState, after: CoreState): CoreState {
    if && after.section.chain.last != before.section.chain.last
       && ElderNow(before.name, before.section) && !ElderNow(after.name, after.section)
    then after.(sections := map[])
    else after
  }

  /** The agreements that take effect when `entry` is agreed. */
  function Batch(core: CoreState, entry: Entry): seq<Entry> {
    Released(core.cached, OurPrefix(core), entry)
  }

  /** The state after the agreements took effect, before a demoted node forgets the network. */
  function AfterBatch(rules: ChainRules, core: CoreState, entry: Entry): CoreState {
    AppliedAll(rules, core.(cached := Kept(core.cached, OurPrefix(core), entry)), Batch(core, entry))
  }

  function Handled(rules: ChainRules, core: CoreState, entry: Entry): CoreState {
    if Batch(core, entry) == [] then AfterBatch(rules, core, entry)
    else Demoted(core, AfterBatch(rules, core, entry))
  }

  class Core {
    const name: Name
    const section: Section
    var network: Network
    const barrier: SplitBarrier

    constructor (name: Name, section: Section)
      ensures this.name == name && this.section == section
      ensures State() == CoreState(name, section.State(), map[], [])
      ensures fresh(network) && fresh(network.sections) && fresh(barrier)
    {
      this.name, this.section := name, section;
      network := new Network();
      barrier := new SplitBarrier();
    }

    ghost function State(): CoreState
      reads this, section, section.peers, network, network.sections, barrier
    {
      CoreState(name, section.State(), network.sections.entries, barrier.cached)
    }

    method HandleOurEldersAgreement(rules: ChainRules, entry: Entry)
      modifies this, section, section.peers, network.sections, barrier
      ensures State() == Handled(rules, old(State()), entry)
    {
      ghost var before := State();
      var wasElder, lastKey := name in section.auth.value.elders, section.chain.last;
      var updates := barrier.Process(section.auth.value.prefix, entry);
      if updates == [] {
        return;
      }
      ghost var start := State();
      for i := 0 to |updates|
        invariant network == old(network)
        invariant State() == AppliedAll(rules, start, updates[..i])
      {
        AppliedStep(rules, start, updates, i);
        if Matches(EntryPrefix(updates[i]), name) {
          var _ := section.UpdateElders(rules, updates[i].auth, updates[i].keySigned);
        } else {
          var _ := network.UpdateSection(updates[i].auth, Some(updates[i].keySigned), section.chain);
        }
      }
      assert updates[..|updates|] == updates;
      if section.chain.last != lastKey && wasElder && name !in section.auth.value.elders {
        network := new Network();
      }
    }
  }
}
