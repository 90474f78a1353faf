/** Holds back one side of a split until the other side is agreed too
    (src/routing/split_barrier.rs).
 */
module SplitBarrierModel {
  import opened Prefixes
  import opened Messaging
  import opened Sequences

  datatype Entry = Entry(auth: SignedAuth, keySigned: Signed)

  function EntryPrefix(entry: Entry): Prefix {
    entry.auth.value.prefix
  }

  function HasPrefix(p: Prefix): Entry -> bool {
    (entry: Entry) => EntryPrefix(entry) == p
  }

  /** The cached entries with the given prefix, in order. */
  function With(entries: seq<Entry>, p: Prefix): seq<Entry> {
    Filter(entries, HasPrefix(p))
  }

  /** The cached entries with any other prefix, in order. */
  function Without(entries: seq<Entry>, p: Prefix): seq<Entry> {
    Filter(entries, Not(HasPrefix(p)))
  }

  /** What processing an entry releases, and what it leaves cached. */
  function Released(cached: seq<Entry>, ourPrefix: Prefix, entry: Entry): seq<Entry> {
    var siblings := With(cached, Sibling(EntryPrefix(entry)));
    if !Extends(EntryPrefix(entry), ourPrefix) then [entry]
    else if siblings == [] then []
    else siblings + [entry]
  }

  function Kept(cached: seq<Entry>, ourPrefix: Prefix, entry: Entry): seq<Entry> {
    var rest := Without(cached, Sibling(EntryPrefix(entry)));
    if !Extends(EntryPrefix(entry), ourPrefix) then cached
    else if With(cached, Sibling(EntryPrefix(entry))) == [] then rest + [entry]
    else rest
  }

  class SplitBarrier {
    var cached: seq<Entry>

    constructor ()
      ensures cached == []
    {
      cached := [];
    }

    method Process(ourPrefix: Prefix, entry: Entry) returns (released: seq<Entry>)
      modifies this
      ensures released == Released(old(cached), ourPrefix, entry)
      ensures cached == Kept(old(cached), ourPrefix, entry)
    {
      if !Extends(EntryPrefix(entry), ourPrefix) {
        return [entry];
      }
      var give, keep := [], [];
      for i := 0 to |cached|
        invariant cached == old(cached)
        invariant give == With(cached[..i], Sibling(EntryPrefix(entry)))
        invariant keep == Without(cached[..i], Sibling(EntryPrefix(entry)))
      {
        FilterStep(cached, i, HasPrefix(Sibling(EntryPrefix(entry))));
        FilterStep(cached, i, Not(HasPrefix(Sibling(EntryPrefix(entry)))));
        if EntryPrefix(cached[i]) == Sibling(EntryPrefix(entry)) {
          give := give + [cached[i]];
        } else {
          keep := keep + [cached[i]];
        }
      }
      assert cached[..|cached|] == cached;
      cached := keep;
      if give == [] {
        cached := cached + [entry];
        return [];
      }
      return give + [entry];
    }
  }

  /** No two cached entries are the two sides of one split. */
  ghost predicate NoSiblings(cached: seq<Entry>) {
    && (forall e :: e in cached ==> EntryPrefix(e) != [])
    && forall e, f :: e in cached && f in cached ==> EntryPrefix(e) != Sibling(EntryPrefix(f))
  }

  lemma SiblingIsInvolution(p: Prefix)
    ensures Sibling(Sibling(p)) == p
    ensures p != [] ==> Sibling(p) != p && !Compatible(p, Sibling(p))
  {
    if p != [] {
      assert Sibling(p)[..|p| - 1] == p[..|p| - 1];
      assert p == p[..|p| - 1] + [p[|p| - 1]];
      assert Sibling(p)[|p| - 1] != p[|p| - 1];
    }
  }

  /** Every entry that goes in is either released or still cached, once. */
  lemma BarrierConserves(cached: seq<Entry>, ourPrefix: Prefix, entry: Entry)
    ensures multiset(Released(cached, ourPrefix, entry)) + multiset(Kept(cached, ourPrefix, entry)) ==
            multiset(cached) + multiset{entry}
  {
    FilterPartitions(cached, HasPrefix(Sibling(EntryPrefix(entry))));
  }

  lemma BarrierKeepsNoSiblings(cached: seq<Entry>, ourPrefix: Prefix, entry: Entry)
    requires NoSiblings(cached)
    ensures NoSiblings(Kept(cached, ourPrefix, entry))
  {
    if Extends(EntryPrefix(entry), ourPrefix) {
      var rest := Without(cached, Sibling(EntryPrefix(entry)));
      forall e | e in rest
        ensures EntryPrefix(e) != Sibling(EntryPrefix(entry)) && EntryPrefix(entry) != Sibling(EntryPrefix(e))
      {
        SiblingIsInvolution(EntryPrefix(e));
      }
      SiblingIsInvolution(EntryPrefix(entry));
    }
  }

  /** A split comes out only with both sides: the entry just agreed last, and before it at least one
      entry of the other side and nothing else. */
  lemma SplitNeedsBothSides(cached: seq<Entry>, ourPrefix: Prefix, entry: Entry)
    requires Extends(EntryPrefix(entry), ourPrefix)
    ensures var released := Released(cached, ourPrefix, entry);
            released != [] ==>
              && |released| >= 2 && released[|released| - 1] == entry
              && forall i :: 0 <= i < |released| - 1 ==> EntryPrefix(released[i]) == Sibling(EntryPrefix(entry))
    ensures Released(cached, ourPrefix, entry) == [] <==>
            forall e :: e in cached ==> EntryPrefix(e) != Sibling(EntryPrefix(entry))
  {
    var siblings := With(cached, Sibling(EntryPrefix(entry)));
    if siblings != [] {
      assert siblings[0] in cached;
      assert forall i :: 0 <= i < |siblings| ==> siblings[i] in siblings;
    }
  }

  /** An agreement reaching the barrier while our prefix is `ourPrefix`. */
  datatype Arrival = Arrival(ourPrefix: Prefix, entry: Entry)

  function KeptAfter(arrivals: seq<Arrival>): seq<Entry> {
    if arrivals == [] then []
    else
      var last := arrivals[|arrivals| - 1];
      Kept(KeptAfter(arrivals[..|arrivals| - 1]), last.ourPrefix, last.entry)
  }

  function ReleasedBy(arrivals: seq<Arrival>): seq<Entry> {
    if arrivals == [] then []
    else
      var front, last := arrivals[..|arrivals| - 1], arrivals[|arrivals| - 1];
      ReleasedBy(front) + Released(KeptAfter(front), last.ourPrefix, last.entry)
  }

  function EntriesOf(arrivals: seq<Arrival>): seq<Entry> {
    if arrivals == [] then [] else EntriesOf(arrivals[..|arrivals| - 1]) + [arrivals[|arrivals| - 1].entry]
  }

  /** Over any run, while our prefix moves as it may, no entry is lost or duplicated. */
  lemma {:induction false} BarrierConservesOverRuns(arrivals: seq<Arrival>)
    ensures multiset(ReleasedBy(arrivals)) + multiset(KeptAfter(arrivals)) == multiset(EntriesOf(arrivals))
  {
    if arrivals != [] {
      var front, last := arrivals[..|arrivals| - 1], arrivals[|arrivals| - 1];
      BarrierConservesOverRuns(front);
      var before := KeptAfter(front);
      BarrierConserves(before, last.ourPrefix, last.entry);
      ConservedByOneMore(ReleasedBy(front), before, Released(before, last.ourPrefix, last.entry),
                         KeptAfter(arrivals), EntriesOf(front), last.entry);
    }
  }

  lemma ConservedByOneMore(released: seq<Entry>, kept: seq<Entry>, more: seq<Entry>, after: seq<Entry>, entries: seq<Entry>, entry: Entry)
    requires multiset(released) + multiset(kept) == multiset(entries)
    requires multiset(more) + multiset(after) == multiset(kept) + multiset{entry}
    ensures multiset(released + more) + multiset(after) == multiset(entries + [entry])
  {
    calc {
      multiset(released + more) + multiset(after);
      multiset(released) + (multiset(more) + multiset(after));
      multiset(released) + (multiset(kept) + multiset{entry});
      (multiset(released) + multiset(kept)) + multiset{entry};
      multiset(entries + [entry]);
    }
  }

  /** Over any run the two sides of a split are never both held back. */
  lemma {:induction false} NoSiblingsOverRuns(arrivals: seq<Arrival>)
    ensures NoSiblings(KeptAfter(arrivals))
  {
    if arrivals != [] {
      var front, last := arrivals[..|arrivals| - 1], arrivals[|arrivals| - 1];
      NoSiblingsOverRuns(front);
      BarrierKeepsNoSiblings(KeptAfter(front), last.ourPrefix, last.entry);
    }
  }
}
