/** Whether our prefix and the known sections still cover the whole address space after agreements
    on our elders, and what exactly a node knows in runs without forks.
 */
module OurEldersLaws {
  import opened Prefixes
  import opened PrefixMaps
  import opened PrefixMapLaws
  import opened Messaging
  import opened NetworkModel
  import opened SplitBarrierModel
  import opened OurElders

  ghost predicate Coverage(core: CoreState) {
    Covers({OurPrefix(core)} + core.sections.Keys, EMPTY)
  }

  ghost predicate AtHome(core: CoreState) {
    Matches(OurPrefix(core), core.name)
  }

  /** Our prefix once the batch took effect. */
  function NextPrefix(rules: ChainRules, core: CoreState, entry: Entry): Prefix {
    OurPrefix(AfterBatch(rules, core, entry))
  }

  predicate IsDemoted(rules: ChainRules, core: CoreState, entry: Entry) {
    var after := AfterBatch(rules, core, entry);
    && Batch(core, entry) != []
    && after.section.chain.last != core.section.chain.last
    && ElderNow(core.name, core.section) && !ElderNow(after.name, after.section)
  }

  /** Some entry of the batch for the other side `b` passes its signature checks when its turn
      comes, and the network knows nothing more specific than `b` that would refuse it. */
  ghost predicate OtherSideLands(rules: ChainRules, core: CoreState, batch: seq<Entry>, b: Prefix) {
    && Descendants(core.sections.Keys, b) == {}
    && exists i :: 0 <= i < |batch| && EntryPrefix(batch[i]) == b
                   && VerifiedBy(AsOther(batch[i]), AppliedAll(rules, core, batch[..i]).section.chain)
  }

  /** What has to hold for a split from our prefix to `a` to leave no gap: the other half of every
      level the split skips is already known, and the sibling either lands or is already known. */
  ghost predicate SplitLeavesNoGap(rules: ChainRules, core: CoreState, batch: seq<Entry>, a: Prefix) {
    && (forall k :: |OurPrefix(core)| < k < |a| ==> Covers(core.sections.Keys, Sibling(a[..k])))
    && (OtherSideLands(rules, core, batch, Sibling(a)) || Covers(core.sections.Keys, Sibling(a)))
  }

  /** The exact condition for one agreement to keep the address space covered: a node that gets
      demoted has the empty prefix, and otherwise the prefix stays or the split leaves no gap. */
  ghost predicate StepIsSafe(rules: ChainRules, core: CoreState, entry: Entry) {
    if IsDemoted(rules, core, entry) then NextPrefix(rules, core, entry) == EMPTY
    else NextPrefix(rules, core, entry) == OurPrefix(core)
         || SplitLeavesNoGap(rules, core, Batch(core, entry), NextPrefix(rules, core, entry))
  }

  /** Every entry of the batch is for `a`, which our name is under, or for its sibling. */
  ghost predicate TwoSided(core: CoreState, batch: seq<Entry>, a: Prefix) {
    && a != [] && Matches(a, core.name)
    && forall e :: e in batch ==> EntryPrefix(e) == a || EntryPrefix(e) == Sibling(a)
  }

  // The network through one insert and through a batch.

  lemma MatchedAfterInsert<T>(m: map<Prefix, T>, p: Prefix, value: T, n: Name)
    ensures MatchedBy(n, Inserted(m, p, value).Keys) <==>
            MatchedBy(n, m.Keys) || (Descendants(m.Keys, p) == {} && Matches(p, n))
  {
    if Descendants(m.Keys, p) == {} {
      InsertedIsAccepted(m, p, value);
      LongestMatchAfterInsert(m.Keys, p, Inserted(m, p, value).Keys, n);
      if MatchedBy(n, m.Keys) {
        MatchesNeverShrink(m, p, value, n);
      }
    }
  }

  lemma InsertKeepsOwnDescendants<T>(m: map<Prefix, T>, p: Prefix, value: T)
    ensures Descendants(Inserted(m, p, value).Keys, p) == Descendants(m.Keys, p)
  {
  }

  lemma SiblingOfOursIsElsewhere(a: Prefix, n: Name)
    requires a != [] && Matches(a, n)
    ensures !Matches(Sibling(a), n)
  {
    assert Sibling(a)[|a| - 1] != n[|a| - 1];
  }

  ghost predicate LandedBy(rules: ChainRules, core: CoreState, batch: seq<Entry>, b: Prefix, count: nat)
    requires count <= |batch|
  {
    exists i :: 0 <= i < count && EntryPrefix(batch[i]) == b
                && VerifiedBy(AsOther(batch[i]), AppliedAll(rules, core, batch[..i]).section.chain)
  }

  lemma LandedStep(rules: ChainRules, core: CoreState, batch: seq<Entry>, b: Prefix, count: nat)
    requires 0 < count <= |batch|
    ensures LandedBy(rules, core, batch, b, count) <==>
            || LandedBy(rules, core, batch, b, count - 1)
            || (&& EntryPrefix(batch[count - 1]) == b
                && VerifiedBy(AsOther(batch[count - 1]), AppliedAll(rules, core, batch[..count - 1]).section.chain))
  {
  }

  lemma OneMatches(rules: ChainRules, core: CoreState, entry: Entry, a: Prefix, n: Name)
    requires a != [] && Matches(a, core.name) && (EntryPrefix(entry) == a || EntryPrefix(entry) == Sibling(a))
    ensures var after, b := AppliedOne(rules, core, entry), Sibling(a);
            && after.name == core.name
            && Descendants(after.sections.Keys, b) == Descendants(core.sections.Keys, b)
            && (MatchedBy(n, after.sections.Keys) <==>
                || MatchedBy(n, core.sections.Keys)
                || (&& EntryPrefix(entry) == b && VerifiedBy(AsOther(entry), core.section.chain)
                    && Descendants(core.sections.Keys, b) == {} && Matches(b, n)))
  {
    SiblingIsInvolution(a);
    SiblingOfOursIsElsewhere(a, core.name);
    MatchedAfterInsert(core.sections, Sibling(a), AsOther(entry), n);
    InsertKeepsOwnDescendants(core.sections, Sibling(a), AsOther(entry));
  }

  /** After a two-sided batch the network matches what it matched before and, if it landed, the
      other side. */
  lemma {:induction false} BatchMatches(rules: ChainRules, core: CoreState, batch: seq<Entry>, a: Prefix, count: nat, n: Name)
    requires TwoSided(core, batch, a) && count <= |batch|
    ensures var after := AppliedAll(rules, core, batch[..count]);
            && after.name == core.name
            && Descendants(after.sections.Keys, Sibling(a)) == Descendants(core.sections.Keys, Sibling(a))
            && (MatchedBy(n, after.sections.Keys) <==>
                || MatchedBy(n, core.sections.Keys)
                || (&& Descendants(core.sections.Keys, Sibling(a)) == {}
                    && LandedBy(rules, core, batch, Sibling(a), count)
                    && Matches(Sibling(a), n)))
    decreases count
  {
    if count > 0 {
      assert batch[..count][..count - 1] == batch[..count - 1];
      BatchMatches(rules, core, batch, a, count - 1, n);
      LandedStep(rules, core, batch, Sibling(a), count);
      assert batch[count - 1] in batch;
      OneMatches(rules, AppliedAll(rules, core, batch[..count - 1]), batch[count - 1], a, n);
    }
  }

  /** The prefix after a batch is the one before or the one our entries bring. */
  lemma {:induction false} BatchPrefix(rules: ChainRules, core: CoreState, batch: seq<Entry>, count: nat)
    requires count <= |batch| && AtHome(core)
    ensures var after := AppliedAll(rules, core, batch[..count]);
            && AtHome(after) && after.name == core.name
            && (|| OurPrefix(after) == OurPrefix(core)
                || exists e :: e in batch && EntryPrefix(e) == OurPrefix(after) && Extends(OurPrefix(after), OurPrefix(core)))
    decreases count
  {
    if count > 0 {
      assert batch[..count][..count - 1] == batch[..count - 1];
      BatchPrefix(rules, core, batch, count - 1);
      assert batch[count - 1] in batch;
    }
  }

  /** The network never loses a match through a batch. */
  lemma {:induction false} BatchKeepsMatches(rules: ChainRules, core: CoreState, batch: seq<Entry>, count: nat, n: Name)
    requires count <= |batch| && MatchedBy(n, core.sections.Keys)
    ensures MatchedBy(n, AppliedAll(rules, core, batch[..count]).sections.Keys)
    decreases count
  {
    if count > 0 {
      assert batch[..count][..count - 1] == batch[..count - 1];
      BatchKeepsMatches(rules, core, batch, count - 1, n);
      var before := AppliedAll(rules, core, batch[..count - 1]);
      MatchedAfterInsert(before.sections, EntryPrefix(batch[count - 1]), AsOther(batch[count - 1]), n);
    }
  }

  // What lies between our prefix and a longer one.

  /** A name under `p` but not under its extension `a` leaves the path to `a` at some level. */
  lemma LeavesPathAt(p: Prefix, a: Prefix, n: Name) returns (k: nat)
    requires p <= a && Matches(p, n) && !Matches(a, n)
    ensures |p| < k <= |a| && Matches(Sibling(a[..k]), n)
  {
    k := |p|;
    while k < |a| && a[k] == n[k]
      invariant |p| <= k <= |a| && a[..k] == n[..k]
    {
      assert a[..k + 1] == a[..k] + [a[k]] && n[..k + 1] == n[..k] + [n[k]];
      k := k + 1;
    }
    assert k < |a|;
    k := k + 1;
    assert Sibling(a[..k]) == a[..k - 1] + [!a[k - 1]] by {
      assert a[..k][..k - 1] == a[..k - 1];
    }
    assert n[..k] == n[..k - 1] + [n[k - 1]];
  }

  lemma OffPathIsUnder(p: Prefix, a: Prefix, k: nat, n: Name)
    requires p <= a && |p| < k <= |a| && Matches(Sibling(a[..k]), n)
    ensures Matches(p, n) && !Matches(a, n)
    ensures k < |a| ==> !Matches(Sibling(a), n)
  {
    assert Sibling(a[..k])[..k - 1] == a[..k - 1];
    assert n[..k - 1] == a[..k - 1];
    assert n[k - 1] == Sibling(a[..k])[k - 1] == !a[k - 1];
    assert p == a[..|p|] == n[..|p|];
    if k < |a| {
      assert Sibling(a)[k - 1] == a[k - 1];
    }
  }

  /** Our prefix moving from `p` to its extension `a` leaves no gap exactly when every side branch on
      the way is matched by the network. */
  lemma PathCondition(p: Prefix, a: Prefix, keys: set<Prefix>, after: set<Prefix>)
    requires p <= a && Covers({p} + keys, EMPTY)
    requires forall n: Name :: MatchedBy(n, keys) ==> MatchedBy(n, after)
    ensures Covers({a} + after, EMPTY) <==> forall k :: |p| < k <= |a| ==> Covers(after, Sibling(a[..k]))
  {
    if Covers({a} + after, EMPTY) {
      forall k | |p| < k <= |a| ensures Covers(after, Sibling(a[..k])) {
        forall n: Name | Matches(Sibling(a[..k]), n) ensures MatchedBy(n, after) {
          OffPathIsUnder(p, a, k, n);
          assert Matches(EMPTY, n);
          assert MatchedBy(n, {a} + after);
        }
      }
    }
    if forall k :: |p| < k <= |a| ==> Covers(after, Sibling(a[..k])) {
      forall n: Name | Matches(EMPTY, n) ensures MatchedBy(n, {a} + after) {
        assert MatchedBy(n, {p} + keys);
        if MatchedBy(n, keys) {
          assert MatchedBy(n, after);
          var q :| q in after && Matches(q, n);
          assert q in {a} + after;
        } else if Matches(a, n) {
          assert a in {a} + after;
        } else {
          var k := LeavesPathAt(p, a, n);
          assert Covers(after, Sibling(a[..k]));
          var q :| q in after && Matches(q, n);
          assert q in {a} + after;
        }
      }
    }
  }

  lemma TwoSidedBatchMatches(rules: ChainRules, core: CoreState, batch: seq<Entry>, a: Prefix)
    requires TwoSided(core, batch, a)
    ensures var after := AppliedAll(rules, core, batch).sections.Keys;
            forall n: Name :: MatchedBy(n, after) <==>
              MatchedBy(n, core.sections.Keys) || (OtherSideLands(rules, core, batch, Sibling(a)) && Matches(Sibling(a), n))
  {
    assert batch[..|batch|] == batch;
    forall n: Name
      ensures MatchedBy(n, AppliedAll(rules, core, batch).sections.Keys) <==>
              MatchedBy(n, core.sections.Keys) || (OtherSideLands(rules, core, batch, Sibling(a)) && Matches(Sibling(a), n))
    {
      BatchMatches(rules, core, batch, a, |batch|, n);
    }
  }

  /** The other side landing matters to its own level only. */
  lemma LandingMattersHere(p: Prefix, a: Prefix, keys: set<Prefix>, after: set<Prefix>, lands: bool)
    requires p < a
    requires forall n: Name :: MatchedBy(n, after) <==> MatchedBy(n, keys) || (lands && Matches(Sibling(a), n))
    ensures (forall k :: |p| < k <= |a| ==> Covers(after, Sibling(a[..k]))) <==>
            (forall k :: |p| < k < |a| ==> Covers(keys, Sibling(a[..k]))) && (lands || Covers(keys, Sibling(a)))
  {
    forall k | |p| < k < |a| ensures Covers(after, Sibling(a[..k])) <==> Covers(keys, Sibling(a[..k])) {
      forall n: Name | Matches(Sibling(a[..k]), n) ensures !Matches(Sibling(a), n) {
        OffPathIsUnder(p, a, k, n);
      }
    }
    assert a[..|a|] == a;
    LandsOrCovered(keys, after, Sibling(a), lands);
  }

  /** A split that takes effect leaves no gap exactly when `SplitLeavesNoGap` says so. */
  lemma SplitCondition(rules: ChainRules, core: CoreState, batch: seq<Entry>, a: Prefix)
    requires AtHome(core) && Coverage(core) && TwoSided(core, batch, a)
    requires Extends(a, OurPrefix(core))
    ensures Covers({a} + AppliedAll(rules, core, batch).sections.Keys, EMPTY) <==> SplitLeavesNoGap(rules, core, batch, a)
  {
    var p, after := OurPrefix(core), AppliedAll(rules, core, batch).sections.Keys;
    TwoSidedBatchMatches(rules, core, batch, a);
    PathCondition(p, a, core.sections.Keys, after);
    LandingMattersHere(p, a, core.sections.Keys, after, OtherSideLands(rules, core, batch, Sibling(a)));
  }

  lemma LandsOrCovered(keys: set<Prefix>, after: set<Prefix>, b: Prefix, lands: bool)
    requires forall n: Name :: MatchedBy(n, after) <==> MatchedBy(n, keys) || (lands && Matches(b, n))
    ensures Covers(after, b) <==> lands || Covers(keys, b)
  {
  }

  /** The agreements applied in one go, and the state they are applied to. */
  function BeforeBatch(core: CoreState, entry: Entry): CoreState {
    core.(cached := Kept(core.cached, OurPrefix(core), entry))
  }

  lemma AfterBatchPrefix(rules: ChainRules, core: CoreState, entry: Entry)
    requires AtHome(core)
    ensures var after := AfterBatch(rules, core, entry);
            && AtHome(after) && after.name == core.name
            && (|| OurPrefix(after) == OurPrefix(core)
                || exists e :: e in Batch(core, entry) && EntryPrefix(e) == OurPrefix(after)
                               && Extends(OurPrefix(after), OurPrefix(core)))
  {
    var batch := Batch(core, entry);
    assert batch[..|batch|] == batch;
    BatchPrefix(rules, BeforeBatch(core, entry), batch, |batch|);
  }

  lemma HandledIsAtHome(rules: ChainRules, core: CoreState, entry: Entry)
    requires AtHome(core)
    ensures AtHome(Handled(rules, core, entry))
  {
    AfterBatchPrefix(rules, core, entry);
  }

  /** A batch with an entry below our prefix is the two sides of one split. */
  lemma SplitBatchIsTwoSided(core: CoreState, entry: Entry, e: Entry)
    requires e in Batch(core, entry) && Extends(EntryPrefix(e), OurPrefix(core)) && Matches(EntryPrefix(e), core.name)
    ensures TwoSided(core, Batch(core, entry), EntryPrefix(e))
  {
    var batch, q := Batch(core, entry), EntryPrefix(entry);
    assert Extends(q, OurPrefix(core)) by {
      assert !Extends(q, OurPrefix(core)) ==> batch == [entry];
    }
    SplitNeedsBothSides(core.cached, OurPrefix(core), entry);
    SiblingIsInvolution(q);
    forall f | f in batch ensures EntryPrefix(f) == q || EntryPrefix(f) == Sibling(q) {
      var i :| 0 <= i < |batch| && batch[i] == f;
    }
  }

  /** Our prefix changes only through a two-sided batch. */
  lemma PrefixChangeIsSplit(rules: ChainRules, core: CoreState, entry: Entry)
    requires AtHome(core) && NextPrefix(rules, core, entry) != OurPrefix(core)
    ensures Extends(NextPrefix(rules, core, entry), OurPrefix(core))
    ensures TwoSided(core, Batch(core, entry), NextPrefix(rules, core, entry))
  {
    AfterBatchPrefix(rules, core, entry);
    var a := NextPrefix(rules, core, entry);
    var e :| e in Batch(core, entry) && EntryPrefix(e) == a && Extends(a, OurPrefix(core));
    SplitBatchIsTwoSided(core, entry, e);
  }

  lemma DemotionCoverage(rules: ChainRules, core: CoreState, entry: Entry)
    requires IsDemoted(rules, core, entry)
    ensures Coverage(Handled(rules, core, entry)) <==> NextPrefix(rules, core, entry) == EMPTY
  {
    var p := NextPrefix(rules, core, entry);
    assert {p} + Handled(rules, core, entry).sections.Keys == {p};
    CoveredByOneAlone(p);
  }

  lemma SamePrefixCoverage(rules: ChainRules, core: CoreState, entry: Entry)
    requires AtHome(core) && Coverage(core) && NextPrefix(rules, core, entry) == OurPrefix(core)
    ensures Coverage(AfterBatch(rules, core, entry))
  {
    var batch, after := Batch(core, entry), AfterBatch(rules, core, entry).sections.Keys;
    assert batch[..|batch|] == batch;
    forall n: Name | MatchedBy(n, core.sections.Keys) ensures MatchedBy(n, after) {
      BatchKeepsMatches(rules, BeforeBatch(core, entry), batch, |batch|, n);
    }
    PathCondition(OurPrefix(core), OurPrefix(core), core.sections.Keys, after);
  }

  lemma SplitCoverage(rules: ChainRules, core: CoreState, entry: Entry)
    requires AtHome(core) && Coverage(core) && NextPrefix(rules, core, entry) != OurPrefix(core)
    ensures Coverage(AfterBatch(rules, core, entry)) <==>
            SplitLeavesNoGap(rules, core, Batch(core, entry), NextPrefix(rules, core, entry))
  {
    PrefixChangeIsSplit(rules, core, entry);
    SplitCondition(rules, BeforeBatch(core, entry), Batch(core, entry), NextPrefix(rules, core, entry));
    CachedDoesNotMatter(rules, core, BeforeBatch(core, entry).cached, Batch(core, entry), NextPrefix(rules, core, entry));
  }

  /** One agreement keeps the address space covered exactly when the step is safe. */
  lemma CoverageStep(rules: ChainRules, core: CoreState, entry: Entry)
    requires AtHome(core) && Coverage(core)
    ensures Coverage(Handled(rules, core, entry)) <==> StepIsSafe(rules, core, entry)
  {
    if IsDemoted(rules, core, entry) {
      DemotionCoverage(rules, core, entry);
    } else if NextPrefix(rules, core, entry) == OurPrefix(core) {
      SamePrefixCoverage(rules, core, entry);
    } else {
      SplitCoverage(rules, core, entry);
    }
  }

  lemma CoveredByOneAlone(p: Prefix)
    ensures Covers({p}, EMPTY) <==> p == EMPTY
  {
    if p != EMPTY {
      var n := NameUnder(Sibling(p));
      assert Sibling(p)[|p| - 1] != p[|p| - 1];
      assert !Matches(p, n);
      assert Matches(EMPTY, n) && !MatchedBy(n, {p});
    } else {
      assert p in {p};
    }
  }

  lemma {:induction false} SameEffect(rules: ChainRules, core: CoreState, cached: seq<Entry>, batch: seq<Entry>)
    ensures AppliedAll(rules, core.(cached := cached), batch) == AppliedAll(rules, core, batch).(cached := cached)
  {
    if batch != [] {
      SameEffect(rules, core, cached, batch[..|batch| - 1]);
    }
  }

  lemma CachedDoesNotMatter(rules: ChainRules, core: CoreState, cached: seq<Entry>, batch: seq<Entry>, a: Prefix)
    requires a != []
    ensures SplitLeavesNoGap(rules, core.(cached := cached), batch, a) <==> SplitLeavesNoGap(rules, core, batch, a)
  {
    forall i | 0 <= i < |batch|
      ensures AppliedAll(rules, core.(cached := cached), batch[..i]).section == AppliedAll(rules, core, batch[..i]).section
    {
      SameEffect(rules, core, cached, batch[..i]);
    }
  }
}
