/** Runs in which an elder's known sections do not cover the address space, or its count of elders is
    wrong.
 */
module OurEldersGaps {
  import opened Prefixes
  import opened PrefixMaps
  import opened Messaging
  import opened SectionModel
  import opened NetworkModel
  import opened SplitBarrierModel
  import opened OurElders
  import opened OurEldersLaws
  import opened OurEldersAhead
  import opened OurEldersRuns
  import opened ForkFreeRuns
  import opened Runs
  import opened ElderCounts

  /** The first side of a split waits. */
  lemma FirstSideWaits(rules: ChainRules, core: CoreState, entry: Entry)
    requires core.cached == [] && Extends(EntryPrefix(entry), OurPrefix(core))
    ensures Handled(rules, core, entry) == core.(cached := [entry])
  {
  }

  lemma BatchOfPair(core: CoreState, ours: Entry, other: Entry)
    requires core.cached == [other] && EntryPrefix(other) == Sibling(EntryPrefix(ours))
    requires Extends(EntryPrefix(ours), OurPrefix(core))
    ensures Batch(core, ours) == [other, ours] && BeforeBatch(core, ours).cached == []
  {
    var b := EntryPrefix(other);
    assert [other][..0] == [] && With([other][..0], b) == [] && Without([other][..0], b) == [];
    assert With([other], b) == [other] && Without([other], b) == [];
  }

  lemma RunOfTwo(rules: ChainRules, core: CoreState, a: Entry, b: Entry)
    ensures Run(rules, core, [a, b]) == Handled(rules, Handled(rules, core, a), b)
  {
    AfterTwo(Handler(rules), core, a, b);
  }

  /** Both sides of a split arrive one after the other, and the node stays an elder. */
  lemma SplitArrives(rules: ChainRules, core: CoreState, ours: Entry, other: Entry)
    requires Lawful(rules) && ValidChain(core.section.chain) && core.cached == []
    requires BothSides(core, ours, other) && Extends(EntryPrefix(ours), OurPrefix(core))
    requires core.name in ours.auth.value.elders
    ensures var after := Run(rules, core, [other, ours]);
            && after.section.auth == ours.auth && ValidChain(after.section.chain) && after.name == core.name
            && after.section.chain.keys == core.section.chain.keys + {ours.auth.signed.publicKey}
            && after.section.chain.last == ours.auth.signed.publicKey
            && after.sections == Inserted(core.sections, EntryPrefix(other), AsOther(other))
            && after.cached == [] && IsElder(after)
  {
    var held := core.(cached := [other]);
    RunOfTwo(rules, core, other, ours);
    SiblingOfExtension(Popped(EntryPrefix(ours)), EntryPrefix(ours));
    FirstSideWaits(rules, core, other);
    BatchOfPair(held, ours, other);
    SidesTakeEffect(rules, BeforeBatch(held, ours), ours, other, [other, ours]);
    SameEffect(rules, held, [], [other, ours]);
  }

  /** A split by two levels or more at once leaves the other half of a skipped level unknown. */
  lemma SkippedLevelLeavesGap(rules: ChainRules, core: CoreState, ours: Entry, other: Entry)
    requires Lawful(rules) && IsGenesis(core) && IsElder(core)
    requires BothSides(core, ours, other) && |EntryPrefix(ours)| >= 2 && core.name in ours.auth.value.elders
    ensures var after := Run(rules, core, [other, ours]);
            IsElder(after) && !Coverage(after)
  {
    var a, b := EntryPrefix(ours), EntryPrefix(other);
    SplitArrives(rules, core, ours, other);
    var after := Run(rules, core, [other, ours]);
    assert after.sections.Keys == {b} by {
      assert Inserted(core.sections, b, AsOther(other)).Keys == {b};
    }
    var n := NameUnder(Sibling(a[..1]));
    assert n[0] != a[0] && a[0] == b[0];
    assert Matches(EMPTY, n) && !MatchedBy(n, {a} + {b});
  }

  lemma OneBelowDoesNotCover(d: Prefix, b: Prefix)
    requires Extends(d, b)
    ensures !Covers({d}, b)
  {
    var n := NameUnder(Sibling(d));
    assert Sibling(d)[|d| - 1] != d[|d| - 1];
    assert !Matches(d, n);
    assert b <= Popped(d);
    assert Matches(b, n) && !MatchedBy(n, {d});
  }

  /** Two sections below our future sibling are agreed first, and only one of them verifies. */
  ghost predicate HalfKnown(core: CoreState, below: Entry, beside: Entry, b: Prefix) {
    && Extends(EntryPrefix(below), b) && EntryPrefix(beside) == Sibling(EntryPrefix(below))
    && VerifiedBy(AsOther(below), core.section.chain) && !VerifiedBy(AsOther(beside), core.section.chain)
  }

  lemma HalfIsLearned(rules: ChainRules, core: CoreState, below: Entry, beside: Entry, b: Prefix)
    requires core.cached == [] && core.sections == map[] && OurPrefix(core) == EMPTY
    requires b != [] && !Matches(b, core.name) && HalfKnown(core, below, beside, b)
    ensures var after := Run(rules, core, [beside, below]);
            after == core.(sections := map[EntryPrefix(below) := AsOther(below)])
  {
    var held, d := core.(cached := [beside]), EntryPrefix(below);
    RunOfTwo(rules, core, beside, below);
    SiblingOfExtension(Popped(d), d);
    assert b <= Popped(d) <= Sibling(d);
    NotUnderEither(b, d, core.name);
    FirstSideWaits(rules, core, beside);
    BatchOfPair(held, below, beside);
    var start, batch := BeforeBatch(held, below), [beside, below];
    assert batch[..1] == [beside] && batch[..1][..0] == [];
    assert AppliedAll(rules, start, batch[..1]) == AppliedOne(rules, start, beside) == start;
    assert Inserted(core.sections, d, AsOther(below)) == map[d := AsOther(below)];
  }

  lemma NotUnderEither(b: Prefix, d: Prefix, n: Name)
    requires !Matches(b, n) && b <= d
    ensures !Matches(d, n) && (b <= Sibling(d) ==> !Matches(Sibling(d), n))
  {
  }

  /** A sibling refused because one section below it is already known leaves the rest of it unknown. */
  lemma RefusedSiblingLeavesGap(rules: ChainRules, core: CoreState, below: Entry, beside: Entry, ours: Entry, other: Entry)
    requires Lawful(rules) && IsGenesis(core) && IsElder(core)
    requires BothSides(core, ours, other) && core.name in ours.auth.value.elders
    requires HalfKnown(core, below, beside, EntryPrefix(other))
    ensures var after := Run(rules, core, [beside, below] + [other, ours]);
            IsElder(after) && !Coverage(after)
  {
    var a, b, d := EntryPrefix(ours), EntryPrefix(other), EntryPrefix(below);
    SiblingOfOursIsElsewhere(a, core.name);
    HalfIsLearned(rules, core, below, beside, b);
    var learned := core.(sections := map[d := AsOther(below)]);
    AfterAppend(Handler(rules), core, [beside, below], [other, ours]);
    SplitArrives(rules, learned, ours, other);
    assert d in Descendants(learned.sections.Keys, b);
    SiblingIsInvolution(a);
    OneBelowDoesNotCover(d, b);
    var n: Name :| Matches(b, n) && !MatchedBy(n, {d});
    assert !Matches(a, n) by {
      if Matches(a, n) {
        MatchingPrefixesAreCompatible(a, b, n);
        assert false;
      }
    }
    assert !Matches(d, n) by {
      assert d in {d};
    }
    assert Matches(EMPTY, n) && !MatchedBy(n, {a} + {d});
  }

  // A demoted node that is promoted again.

  /** New elders for our section, signed by our last key. */
  ghost predicate Renews(core: CoreState, entry: Entry) {
    EntryPrefix(entry) == OurPrefix(core) && SignedByLast(core.section.chain, entry)
  }

  lemma OneEntryTakesEffect(rules: ChainRules, core: CoreState, entry: Entry)
    requires !Extends(EntryPrefix(entry), OurPrefix(core))
    ensures Batch(core, entry) == [entry]
    ensures AfterBatch(rules, core, entry) == AppliedOne(rules, BeforeBatch(core, entry), entry)
  {
    assert AppliedAll(rules, BeforeBatch(core, entry), [entry][..0]) == BeforeBatch(core, entry);
  }

  lemma RenewalTakes(rules: ChainRules, core: CoreState, entry: Entry)
    requires Lawful(rules) && ValidChain(core.section.chain) && AtHome(core) && Renews(core, entry)
    ensures var after := Handled(rules, core, entry);
            && after.name == core.name && after.section.auth == entry.auth && ValidChain(after.section.chain)
            && after.sections == if IsElder(core) && core.name !in entry.auth.value.elders then map[] else core.sections
  {
    OneEntryTakesEffect(rules, core, entry);
    assert LawfulInsert(rules, core.section.chain, core.section.chain.last, entry.auth.signed.publicKey);
  }

  /** However a run got there: an elder below the empty prefix who is demoted and promoted again is an
      elder who knows no other section. */
  lemma RepromotedElderHasGap(rules: ChainRules, core: CoreState, entries: seq<Entry>, down: Entry, up: Entry)
    requires Lawful(rules) && IsGenesis(core)
    requires var before := Run(rules, core, entries);
             && ValidChain(before.section.chain) && IsElder(before) && OurPrefix(before) != EMPTY
             && Renews(before, down) && before.name !in down.auth.value.elders
             && Renews(Handled(rules, before, down), up) && before.name in up.auth.value.elders
    ensures var after := Run(rules, core, entries + [down, up]);
            IsElder(after) && after.sections == map[] && !Coverage(after)
  {
    var before := Run(rules, core, entries);
    AfterAppend(Handler(rules), core, entries, [down, up]);
    RunOfTwo(rules, before, down, up);
    GenesisCovers(core);
    RunIsAtHome(rules, core, entries);
    RenewalTakes(rules, before, down);
    var between := Handled(rules, before, down);
    RenewalTakes(rules, between, up);
    var after := Handled(rules, between, up);
    CoveredByOneAlone(OurPrefix(after));
    assert {OurPrefix(after)} + after.sections.Keys == {OurPrefix(after)};
  }

  // Each of these happens to every first node, whatever the rules for forks.

  /** Elders `elders` for `prefix` under a new key that `signer` signed. */
  function SignedEntry(prefix: Prefix, elders: map<Name, Addr>, key: Key, signer: Key): Entry {
    var auth := SectionAuth(prefix, key, elders);
    Entry(SignedAuth(auth, Signed(key, Signature(0, key, AuthMessage(auth)))),
          Signed(signer, Signature(0, signer, KeyMessage(key))))
  }

  /** The only node of a new network. */
  function FirstNode(name: Name): CoreState {
    CoreState(name, SectionState(Chain({0}, 0), SignedEntry(EMPTY, map[name := 0], 0, 0).auth, map[]), map[], [])
  }

  lemma FirstNodeIsGenesis(name: Name)
    ensures IsGenesis(FirstNode(name)) && IsElder(FirstNode(name))
  {
  }

  lemma FirstSplit(name: Name, a: Prefix, ours: Entry, other: Entry)
    requires a != [] && Matches(a, name)
    requires ours == SignedEntry(a, map[name := 0], 1, 0) && other == SignedEntry(Sibling(a), map[], 2, 0)
    ensures BothSides(FirstNode(name), ours, other) && name in ours.auth.value.elders
  {
  }

  lemma SkippedLevelHappens(rules: ChainRules, name: Name) returns (entries: seq<Entry>)
    requires Lawful(rules)
    ensures var after := Run(rules, FirstNode(name), entries); IsElder(after) && !Coverage(after)
  {
    var a := name[..2];
    var ours, other := SignedEntry(a, map[name := 0], 1, 0), SignedEntry(Sibling(a), map[], 2, 0);
    FirstNodeIsGenesis(name);
    FirstSplit(name, a, ours, other);
    SkippedLevelLeavesGap(rules, FirstNode(name), ours, other);
    entries := [other, ours];
  }

  lemma RefusedSiblingHappens(rules: ChainRules, name: Name) returns (entries: seq<Entry>)
    requires Lawful(rules)
    ensures var after := Run(rules, FirstNode(name), entries); IsElder(after) && !Coverage(after)
  {
    var a := name[..1];
    var ours, other := SignedEntry(a, map[name := 0], 1, 0), SignedEntry(Sibling(a), map[], 2, 0);
    var below, beside := SignedEntry(Pushed(Sibling(a), false), map[], 3, 0), SignedEntry(Pushed(Sibling(a), true), map[], 4, 9);
    FirstNodeIsGenesis(name);
    FirstSplit(name, a, ours, other);
    assert EntryPrefix(beside) == Sibling(EntryPrefix(below));
    RefusedSiblingLeavesGap(rules, FirstNode(name), below, beside, ours, other);
    entries := [beside, below] + [other, ours];
  }

  lemma RepromotionHappens(rules: ChainRules, name: Name) returns (entries: seq<Entry>)
    requires Lawful(rules)
    ensures var after := Run(rules, FirstNode(name), entries); IsElder(after) && !Coverage(after)
  {
    var a := name[..1];
    var ours, other := SignedEntry(a, map[name := 0], 1, 0), SignedEntry(Sibling(a), map[], 2, 0);
    var down, up := SignedEntry(a, map[], 3, 1), SignedEntry(a, map[name := 0], 4, 3);
    FirstNodeIsGenesis(name);
    FirstSplit(name, a, ours, other);
    SplitArrives(rules, FirstNode(name), ours, other);
    var before := Run(rules, FirstNode(name), [other, ours]);
    assert Renews(before, down);
    RenewalChain(rules, before, down);
    RepromotedElderHasGap(rules, FirstNode(name), [other, ours], down, up);
    entries := [other, ours] + [down, up];
  }

  lemma RenewalChain(rules: ChainRules, core: CoreState, entry: Entry)
    requires Lawful(rules) && ValidChain(core.section.chain) && AtHome(core) && Renews(core, entry)
    ensures var after, key := Handled(rules, core, entry).section, entry.auth.signed.publicKey;
            after.chain == Chain(core.section.chain.keys + {key}, key) && after.auth == entry.auth
  {
    OneEntryTakesEffect(rules, core, entry);
    assert LawfulInsert(rules, core.section.chain, core.section.chain.last, entry.auth.signed.publicKey);
  }

  // A neighbour's split of which one half is known.

  lemma InsertBelowOne<T>(p: Prefix, x: T, q: Prefix, y: T)
    requires Extends(q, p)
    ensures Inserted(map[p := x], q, y) == map[p := x, q := y]
  {
    var m := map[p := x];
    assert Descendants(m.Keys + {q}, p) == {q};
    OneBelowDoesNotCover(q, p);
    IsCoveredByMeansCovers(p, {q});
    assert Redundant(m.Keys + {q}, q) == {};
  }

  lemma NeighbourIsElsewhere(a: Prefix, b: Prefix, q: Prefix, n: Name)
    requires a != [] && Matches(a, n) && b == Sibling(a) && Extends(q, b)
    ensures !Extends(q, a) && !Matches(q, n)
  {
    SiblingOfOursIsElsewhere(a, n);
    NotUnderEither(b, q, n);
    assert q[|b| - 1] == b[|b| - 1] != a[|b| - 1];
  }

  /** A section below our sibling is agreed while the sibling is known. */
  lemma HalfOfNeighbour(rules: ChainRules, core: CoreState, b: Prefix, half: Entry)
    requires AtHome(core) && OurPrefix(core) != [] && b == Sibling(OurPrefix(core)) && core.sections.Keys == {b}
    requires Extends(EntryPrefix(half), b) && VerifiedBy(AsOther(half), core.section.chain)
    ensures var after := Handled(rules, core, half);
            after.section == core.section && after.sections == core.sections[EntryPrefix(half) := AsOther(half)]
  {
    var q := EntryPrefix(half);
    NeighbourIsElsewhere(OurPrefix(core), b, q, core.name);
    OneEntryTakesEffect(rules, core, half);
    assert core.sections == map[b := core.sections[b]];
    InsertBelowOne(b, core.sections[b], q, AsOther(half));
  }

  /** Once the first split is done, a neighbour's split of which one half is known makes the count claim
      to be exact while the estimate is below it, as soon as there are more elders than prefixes as
      long as that half's. */
  lemma HalfLearnedSplitUnderestimates(
      rules: ChainRules, core: CoreState, ours: Entry, other: Entry, half: Entry, listing: seq<Known>)
    requires Lawful(rules) && IsGenesis(core) && IsElder(core)
    requires BothSides(core, ours, other) && |EntryPrefix(ours)| == 1 && core.name in ours.auth.value.elders
    requires Extends(EntryPrefix(half), EntryPrefix(other)) && VerifiedBy(AsOther(half), core.section.chain)
    requires ListsKnown(Run(rules, core, [other, ours] + [half]), listing)
    requires KnownElders(listing) as real >= 1.0 + Exp2(|EntryPrefix(half)|)
    ensures var counts := NetworkElderCounts(listing);
            counts.exact && counts.total < counts.known
  {
    HalfLearned(rules, core, ours, other, half);
    ListedOverlap(Run(rules, core, [other, ours] + [half]), listing, EntryPrefix(other), EntryPrefix(half));
  }

  lemma HalfLearned(rules: ChainRules, core: CoreState, ours: Entry, other: Entry, half: Entry)
    requires Lawful(rules) && IsGenesis(core)
    requires BothSides(core, ours, other) && core.name in ours.auth.value.elders
    requires Extends(EntryPrefix(half), EntryPrefix(other)) && VerifiedBy(AsOther(half), core.section.chain)
    ensures var after := Run(rules, core, [other, ours] + [half]);
            && after.section.auth == ours.auth
            && after.sections == map[EntryPrefix(other) := AsOther(other), EntryPrefix(half) := AsOther(half)]
  {
    var b := EntryPrefix(other);
    SplitArrives(rules, core, ours, other);
    assert Inserted(core.sections, b, AsOther(other)) == map[b := AsOther(other)];
    AfterAppend(Handler(rules), core, [other, ours], [half]);
    var split := Run(rules, core, [other, ours]);
    assert After(Handler(rules), split, [half]) == Handled(rules, split, half) by {
      assert [half][..0] == [];
    }
    HalfOfNeighbour(rules, split, b, half);
  }

  lemma ListedOverlap(core: CoreState, listing: seq<Known>, b: Prefix, q: Prefix)
    requires ListsKnown(core, listing) && |OurPrefix(core)| == 1 && b == Sibling(OurPrefix(core))
    requires core.sections.Keys == {b, q} && Extends(q, b)
    requires KnownElders(listing) as real >= 1.0 + Exp2(|q|)
    ensures var counts := NetworkElderCounts(listing);
            counts.exact && counts.total < counts.known
  {
    var a := OurPrefix(core);
    ListedPrefixes(core, listing);
    CoveredByBoth(a, b, PrefixesOf(listing));
    SiblingIsInvolution(a);
    assert b in core.sections && q in core.sections && a !in core.sections;
    var i :| 1 <= i < |listing| && listing[i].prefix == q;
    var j :| 1 <= j < |listing| && listing[j].prefix == b;
    OverlapUnderestimates(listing, i, j);
  }

  /** This, too, happens to every first node. */
  lemma HalfLearnedSplitHappens(rules: ChainRules, name: Name, crowd: map<Name, Addr>)
    returns (entries: seq<Entry>, listing: seq<Known>)
    requires Lawful(rules) && |crowd| >= 4
    ensures ListsKnown(Run(rules, FirstNode(name), entries), listing)
    ensures var counts := NetworkElderCounts(listing);
            counts.exact && counts.total < counts.known
  {
    var a := name[..1];
    var ours, other := SignedEntry(a, map[name := 0], 1, 0), SignedEntry(Sibling(a), crowd, 2, 0);
    var half := SignedEntry(Pushed(Sibling(a), true), map[], 3, 0);
    entries := [other, ours] + [half];
    listing := [Known(a, 1), Known(Sibling(a), |crowd|), Known(EntryPrefix(half), 0)];
    FirstNodeIsGenesis(name);
    HalfLearned(rules, FirstNode(name), ours, other, half);
    ThreeKnown(Known(a, 1), Known(Sibling(a), |crowd|), Known(EntryPrefix(half), 0));
    assert Exp2(2) == 4.0;
    var after := Run(rules, FirstNode(name), entries);
    assert ListsKnown(after, listing) by {
      assert listing[1].prefix == Sibling(a) && listing[2].prefix == EntryPrefix(half);
    }
    ListedOverlap(after, listing, Sibling(a), EntryPrefix(half));
  }

  lemma ThreeKnown(a: Known, b: Known, c: Known)
    ensures KnownElders([a, b, c]) == a.elderCount + b.elderCount + c.elderCount
  {
    assert [a, b, c][..2] == [a, b] && [a, b][..1] == [a] && [a][..0] == [];
    assert KnownElders([a]) == a.elderCount;
  }

  lemma CoveredByBoth(a: Prefix, b: Prefix, s: set<Prefix>)
    requires |a| == 1 && b == Sibling(a) && a in s && b in s
    ensures IsCoveredBy(EMPTY, s)
  {
    IsCoveredByMeansCovers(EMPTY, s);
    forall n: Name ensures MatchedBy(n, s) {
      OneOfBothIsOurs(EMPTY, a, n);
    }
  }
}
