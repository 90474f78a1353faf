/** Runs of agreements on our elders without forks: what a node knows exactly. */
module ForkFreeRuns {
  import opened Prefixes
  import opened PrefixMaps
  import opened Messaging
  import opened NetworkModel
  import opened SplitBarrierModel
  import opened OurElders
  import opened OurEldersLaws
  import opened OurEldersAhead
  import opened OurEldersRuns
  import opened Runs
  import opened ElderCounts

  // A split whose two sides are properly signed takes effect on both.

  ghost predicate BothSides(core: CoreState, ours: Entry, other: Entry) {
    && EntryPrefix(ours) != [] && Matches(EntryPrefix(ours), core.name)
    && EntryPrefix(other) == Sibling(EntryPrefix(ours))
    && SignedByLast(core.section.chain, ours) && SignedByLast(core.section.chain, other)
  }

  lemma SidesTakeEffect(rules: ChainRules, core: CoreState, ours: Entry, other: Entry, batch: seq<Entry>)
    requires Lawful(rules) && ValidChain(core.section.chain) && BothSides(core, ours, other)
    requires OurPrefix(core) <= EntryPrefix(ours) && (batch == [ours, other] || batch == [other, ours])
    ensures var after := AppliedAll(rules, core, batch);
            && after.section.auth == ours.auth && ValidChain(after.section.chain)
            && after.section.chain.keys == core.section.chain.keys + {ours.auth.signed.publicKey}
            && after.section.chain.last == ours.auth.signed.publicKey
            && after.sections == Inserted(core.sections, EntryPrefix(other), AsOther(other))
  {
    SiblingOfOursIsElsewhere(EntryPrefix(ours), core.name);
    assert LawfulInsert(rules, core.section.chain, core.section.chain.last, ours.auth.signed.publicKey);
    assert batch[..1] == [batch[0]] && batch[..1][..0] == [];
    assert AppliedAll(rules, core, batch[..1]) == AppliedOne(rules, core, batch[0]);
  }

  // Runs without forks.

  /** The other halves of all the splits on the way from the empty prefix to `p`. */
  function OffPath(p: Prefix): set<Prefix> {
    if p == [] then {} else OffPath(Popped(p)) + {Sibling(p)}
  }

  /** An agreement without forks: the node is not demoted; a split that takes effect is one level
      deep, has one entry for each side, and both are signed by our last key; and any other section
      it introduces is the other half of a split on the way to our prefix. */
  ghost predicate ForkFree(rules: ChainRules, core: CoreState, entry: Entry) {
    var p, q, batch := OurPrefix(core), EntryPrefix(entry), Batch(core, entry);
    && !IsDemoted(rules, core, entry)
    && (Extends(q, p) && batch != [] ==>
          Popped(q) == p && |batch| == 2 && forall e :: e in batch ==> SignedByLast(core.section.chain, e))
    && (!Extends(q, p) && !Matches(q, core.name) && VerifiedBy(AsOther(entry), core.section.chain) ==> Popped(q) <= p)
  }

  /** The node knows its own section and exactly the other half of every split so far. */
  ghost predicate KnowsPath(core: CoreState) {
    AtHome(core) && ValidChain(core.section.chain) && core.sections.Keys == OffPath(OurPrefix(core))
  }

  lemma OffPathApart(p: Prefix, i: nat, j: nat)
    requires 1 <= i < j <= |p|
    ensures !Compatible(Sibling(p[..i]), Sibling(p[..j]))
  {
    assert Sibling(p[..i])[i - 1] == !p[i - 1];
    assert Sibling(p[..j])[i - 1] == p[..j][i - 1] == p[i - 1];
  }

  lemma {:induction false} OffPathIndex(p: Prefix, q: Prefix) returns (k: nat)
    requires q in OffPath(p)
    ensures 1 <= k <= |p| && q == Sibling(p[..k])
    decreases |p|
  {
    if q == Sibling(p) {
      k := |p|;
      assert p[..k] == p;
    } else {
      k := OffPathIndex(Popped(p), q);
      assert Popped(p)[..k] == p[..k];
    }
  }

  lemma {:induction false} OffPathHas(p: Prefix, k: nat)
    requires 1 <= k <= |p|
    ensures Sibling(p[..k]) in OffPath(p)
    decreases |p|
  {
    if k == |p| {
      assert p[..k] == p;
    } else {
      OffPathHas(Popped(p), k);
      assert Popped(p)[..k] == p[..k];
    }
  }

  /** No two prefixes off the path overlap. */
  lemma OffPathPair(p: Prefix, q: Prefix, r: Prefix)
    requires q in OffPath(p) && r in OffPath(p) && q != r
    ensures !Compatible(q, r)
  {
    var i := OffPathIndex(p, q);
    var j := OffPathIndex(p, r);
    OffPathApart(p, if i < j then i else j, if i < j then j else i);
  }

  /** Nor does one of them overlap the path or anything below it. */
  lemma OffPathBelow(p: Prefix, q: Prefix, r: Prefix)
    requires q in OffPath(p) && p <= r
    ensures !Compatible(q, r)
  {
  }

  lemma InsertApart<T>(m: map<Prefix, T>, q: Prefix, value: T)
    requires forall k :: k in m.Keys && k != q ==> !Compatible(k, q)
    ensures Inserted(m, q, value) == m[q := value]
  {
  }

  lemma SiblingOfExtension(p: Prefix, a: Prefix)
    requires a != [] && Popped(a) == p
    ensures p <= Sibling(a) && |Sibling(a)| == |p| + 1
  {
  }

  /** A prefix off our name whose parent is on the path to `p` and which does not go below `p`. */
  lemma OnlySiblingsHang(p: Prefix, q: Prefix, n: Name)
    requires Matches(p, n) && !Matches(q, n) && q != [] && Popped(q) <= p && !Extends(q, p)
    ensures q in OffPath(p)
  {
    var k := |q|;
    assert Popped(q) == p[..k - 1];
    assert |p| < k ==> Popped(q) == p;
    assert k <= |p|;
    assert p[..k] == p[..k - 1] + [p[k - 1]];
    assert q == q[..k - 1] + [q[k - 1]];
    assert p[..k] == n[..k];
    assert q[k - 1] != p[k - 1];
    assert q == Sibling(p[..k]) by {
      assert p[..k][..k - 1] == p[..k - 1];
    }
    OffPathHas(p, k);
  }

  lemma OneOfBothIsOurs(p: Prefix, q: Prefix, n: Name)
    requires Matches(p, n) && q != [] && Popped(q) == p
    ensures Matches(q, n) || Matches(Sibling(q), n)
  {
    var k := |p|;
    assert q == q[..k] + [q[k]] && q[..k] == p;
    assert n[..k + 1] == n[..k] + [n[k]] && n[..k] == p;
    if q[k] == n[k] {
      assert q == n[..k + 1];
    } else {
      assert Sibling(q) == n[..k + 1];
    }
  }

  /** A split by one level takes effect on both sides. */
  lemma ForkFreeSides(rules: ChainRules, core: CoreState, entry: Entry) returns (ours: Entry, other: Entry)
    requires Lawful(rules) && KnowsPath(core) && ForkFree(rules, core, entry)
    requires Extends(EntryPrefix(entry), OurPrefix(core)) && Batch(core, entry) != []
    ensures Popped(EntryPrefix(ours)) == OurPrefix(core) && EntryPrefix(ours) != []
    ensures var after := AfterBatch(rules, core, entry);
            && OurPrefix(after) == EntryPrefix(ours) && ValidChain(after.section.chain)
            && after.sections == Inserted(core.sections, Sibling(EntryPrefix(ours)), AsOther(other))
  {
    var p, q, batch := OurPrefix(core), EntryPrefix(entry), Batch(core, entry);
    SplitNeedsBothSides(core.cached, p, entry);
    assert batch == [batch[0], entry];
    assert batch[0] in batch && entry in batch;
    SiblingIsInvolution(q);
    OneOfBothIsOurs(p, q, core.name);
    if Matches(q, core.name) {
      ours, other := entry, batch[0];
    } else {
      ours, other := batch[0], entry;
    }
    SidesTakeEffect(rules, BeforeBatch(core, entry), ours, other, batch);
  }

  /** Learning the sibling one level further down extends the path. */
  lemma PathGrows<T>(m: map<Prefix, T>, a: Prefix, value: T)
    requires a != [] && m.Keys == OffPath(Popped(a))
    ensures Inserted(m, Sibling(a), value).Keys == OffPath(a)
  {
    SiblingOfExtension(Popped(a), a);
    forall k | k in m.Keys ensures !Compatible(k, Sibling(a)) {
      OffPathBelow(Popped(a), k, Sibling(a));
    }
    InsertApart(m, Sibling(a), value);
  }

  lemma ForkFreeSplit(rules: ChainRules, core: CoreState, entry: Entry)
    requires Lawful(rules) && KnowsPath(core) && ForkFree(rules, core, entry)
    requires Extends(EntryPrefix(entry), OurPrefix(core)) && Batch(core, entry) != []
    ensures var after := AfterBatch(rules, core, entry);
            ValidChain(after.section.chain) && after.sections.Keys == OffPath(OurPrefix(after))
  {
    var ours, other := ForkFreeSides(rules, core, entry);
    PathGrows(core.sections, EntryPrefix(ours), AsOther(other));
  }

  lemma ForkFreeUpdate(rules: ChainRules, core: CoreState, entry: Entry)
    requires Lawful(rules) && KnowsPath(core) && ForkFree(rules, core, entry)
    requires !Extends(EntryPrefix(entry), OurPrefix(core))
    ensures var after := AfterBatch(rules, core, entry);
            ValidChain(after.section.chain) && after.sections.Keys == OffPath(OurPrefix(after))
  {
    var p, q := OurPrefix(core), EntryPrefix(entry);
    var start := BeforeBatch(core, entry);
    assert Batch(core, entry) == [entry];
    assert AppliedAll(rules, start, [entry][..0]) == start;
    assert AfterBatch(rules, core, entry) == AppliedOne(rules, start, entry);
    if Matches(q, core.name) {
      assert p <= q ==> q == p;
      assert LawfulInsert(rules, core.section.chain, entry.keySigned.publicKey, entry.auth.signed.publicKey);
    } else if VerifiedBy(AsOther(entry), core.section.chain) {
      OnlySiblingsHang(p, q, core.name);
      forall k | k in core.sections.Keys && k != q ensures !Compatible(k, q) {
        OffPathPair(p, k, q);
      }
      InsertApart(core.sections, q, AsOther(entry));
    }
  }

  lemma ForkFreeStep(rules: ChainRules, core: CoreState, entry: Entry)
    requires Lawful(rules) && KnowsPath(core) && ForkFree(rules, core, entry)
    ensures KnowsPath(Handled(rules, core, entry))
  {
    AfterBatchPrefix(rules, core, entry);
    if !Extends(EntryPrefix(entry), OurPrefix(core)) {
      ForkFreeUpdate(rules, core, entry);
    } else if Batch(core, entry) != [] {
      ForkFreeSplit(rules, core, entry);
    }
  }

  lemma KnowsPathCovers(core: CoreState)
    requires KnowsPath(core)
    ensures Coverage(core)
  {
    var p := OurPrefix(core);
    forall n: Name | Matches(EMPTY, n) ensures MatchedBy(n, {p} + OffPath(p)) {
      if Matches(p, n) {
        assert p in {p} + OffPath(p);
      } else {
        var k := LeavesPathAt(EMPTY, p, n);
        OffPathHas(p, k);
        assert Sibling(p[..k]) in {p} + OffPath(p);
      }
    }
  }

  ghost predicate Antichain(s: set<Prefix>) {
    forall p, q :: p in s && q in s && p != q ==> !Compatible(p, q)
  }

  lemma KnowsPathIsAntichain(core: CoreState)
    requires KnowsPath(core)
    ensures Antichain({OurPrefix(core)} + core.sections.Keys)
  {
    var p := OurPrefix(core);
    forall q, r | q in {p} + OffPath(p) && r in {p} + OffPath(p) && q != r ensures !Compatible(q, r) {
      if q == p {
        OffPathBelow(p, r, q);
      } else if r == p {
        OffPathBelow(p, q, r);
      } else {
        OffPathPair(p, q, r);
      }
    }
  }

  ghost function ForkFreeWith(rules: ChainRules): (CoreState, Entry) -> bool {
    (core: CoreState, entry: Entry) => ForkFree(rules, core, entry)
  }

  ghost predicate ForkFreeRun(rules: ChainRules, core: CoreState, entries: seq<Entry>) {
    EveryStep(Handler(rules), core, entries, ForkFreeWith(rules))
  }

  /** In a run without forks from genesis a node always knows exactly the other half of every split
      that led to its prefix; so the known prefixes cover the address space and no two of them
      overlap. */
  lemma ForkFreeRunsKnowThePath(rules: ChainRules, core: CoreState, entries: seq<Entry>)
    requires Lawful(rules) && IsGenesis(core) && ForkFreeRun(rules, core, entries)
    ensures Throughout(Handler(rules), core, entries, KnowsPath)
    ensures var after := Run(rules, core, entries);
            && KnowsPath(after) && Coverage(after)
            && Antichain({OurPrefix(after)} + after.sections.Keys)
  {
    assert OffPath(EMPTY) == {};
    forall now, entry | KnowsPath(now) && ForkFree(rules, now, entry) ensures KnowsPath(Handler(rules)(now, entry)) {
      ForkFreeStep(rules, now, entry);
    }
    KeptThroughout(Handler(rules), core, entries, KnowsPath, ForkFreeWith(rules));
    var after := Run(rules, core, entries);
    KnowsPathCovers(after);
    KnowsPathIsAntichain(after);
  }

  /** `listing` is our section followed by the known ones in some order, with their numbers of elders. */
  ghost predicate ListsKnown(core: CoreState, listing: seq<Known>) {
    && listing != [] && listing[0] == Known(OurPrefix(core), |core.section.auth.value.elders|)
    && (forall i :: 1 <= i < |listing| ==>
          && listing[i].prefix in core.sections
          && listing[i].elderCount == |core.sections[listing[i].prefix].auth.value.elders|)
    && (forall p :: p in core.sections ==> exists i :: 1 <= i < |listing| && listing[i].prefix == p)
    && (forall i, j :: 1 <= i < j < |listing| ==> listing[i].prefix != listing[j].prefix)
  }

  lemma ListedPrefixes(core: CoreState, listing: seq<Known>)
    requires ListsKnown(core, listing)
    ensures PrefixesOf(listing) == {OurPrefix(core)} + core.sections.Keys
    ensures OurPrefix(core) !in core.sections ==> DistinctPrefixes(listing)
  {
    forall p | p in {OurPrefix(core)} + core.sections.Keys ensures p in PrefixesOf(listing) {
      if p == OurPrefix(core) {
        assert listing[0] in listing;
      } else {
        var i :| 1 <= i < |listing| && listing[i].prefix == p;
        assert listing[i] in listing;
      }
    }
    forall p | p in PrefixesOf(listing) ensures p in {OurPrefix(core)} + core.sections.Keys {
      var i :| 0 <= i < |listing| && listing[i].prefix == p;
    }
  }

  /** So in a run without forks the count of elders, ours and those of the authorities we know, is exact. */
  lemma ForkFreeCountsAreExact(rules: ChainRules, core: CoreState, entries: seq<Entry>, listing: seq<Known>)
    requires Lawful(rules) && IsGenesis(core) && ForkFreeRun(rules, core, entries)
    requires ListsKnown(Run(rules, core, entries), listing)
    ensures var counts := NetworkElderCounts(listing);
            counts.exact && counts.total == counts.known
  {
    var after := Run(rules, core, entries);
    ForkFreeRunsKnowThePath(rules, core, entries);
    if OurPrefix(after) in OffPath(OurPrefix(after)) {
      OffPathBelow(OurPrefix(after), OurPrefix(after), OurPrefix(after));
      assert false;
    }
    ListedPrefixes(after, listing);
    forall i, j | 0 <= i < j < |listing| ensures !Compatible(listing[i].prefix, listing[j].prefix) {
      assert listing[i] in listing && listing[j] in listing;
      assert listing[i].prefix in PrefixesOf(listing) && listing[j].prefix in PrefixesOf(listing);
    }
    IsCoveredByMeansCovers(EMPTY, PrefixesOf(listing));
    EstimateIsSound(listing);
  }
}
