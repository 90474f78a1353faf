/** What we know of the other sections of the network (src/network/mod.rs). */
module NetworkModel {
  import opened Wrappers
  import opened Prefixes
  import opened PrefixMaps
  import opened PrefixMapLaws
  import opened Messaging

  datatype OtherSection = OtherSection(auth: SignedAuth, keySigned: Option<Signed>)

  type Sections = map<Prefix, OtherSection>

  function SectionPrefix(info: OtherSection): Prefix {
    info.auth.value.prefix
  }

  /** Either a key of our chain signed the section's own key, or it signed the authority itself. */
  predicate VerifiedBy(info: OtherSection, chain: Chain) {
    match info.keySigned
    case Some(keySigned) =>
      && keySigned.publicKey in chain.keys
      && Verifies(keySigned, KeyMessage(info.auth.signed.publicKey))
      && AuthVerifies(info.auth)
    case None => info.auth.signed.publicKey in chain.keys && AuthVerifies(info.auth)
  }

  function SectionUpdated(sections: Sections, info: OtherSection, chain: Chain): Sections {
    if VerifiedBy(info, chain) then Inserted(sections, SectionPrefix(info), info) else sections
  }

  /** The sections after merging in the entries of another network, in the order they come. */
  function SectionsMerged(sections: Sections, entries: seq<OtherSection>, chain: Chain): Sections {
    if entries == [] then sections
    else SectionUpdated(SectionsMerged(sections, entries[..|entries| - 1], chain), entries[|entries| - 1], chain)
  }

  /** The authorities alone, without the signatures that introduced their keys. */
  function Authorities(sections: Sections): map<Prefix, SignedAuth> {
    map p | p in sections :: sections[p].auth
  }

  class Network {
    const sections: PrefixMap<OtherSection>

    constructor ()
      ensures sections.entries == map[] && fresh(sections)
    {
      sections := new PrefixMap();
    }

    method Merge(entries: seq<OtherSection>, chain: Chain)
      modifies sections
      ensures sections.entries == SectionsMerged(old(sections.entries), entries, chain)
    {
      for i := 0 to |entries|
        invariant sections.entries == SectionsMerged(old(sections.entries), entries[..i], chain)
      {
        assert entries[..i + 1][..i] == entries[..i];
        if VerifiedBy(entries[i], chain) {
          var _ := sections.Insert(SectionPrefix(entries[i]), entries[i]);
        }
      }
      assert entries[..|entries|] == entries;
    }

    /** Returns whether the authorities we know changed. */
    method UpdateSection(auth: SignedAuth, keySigned: Option<Signed>, chain: Chain) returns (changed: bool)
      modifies sections
      ensures sections.entries == SectionUpdated(old(sections.entries), OtherSection(auth, keySigned), chain)
      ensures Irreducible(old(sections.entries).Keys) ==>
                changed == (Authorities(sections.entries) != Authorities(old(sections.entries)))
    {
      var info := OtherSection(auth, keySigned);
      if !VerifiedBy(info, chain) {
        return false;
      }
      ghost var before := sections.entries;
      var previous := sections.Insert(SectionPrefix(info), info);
      if Irreducible(before.Keys) { AuthoritiesChange(before, info); }
      if previous.Some? && previous.value.auth == auth {
        return false;
      }
      return true;
    }
  }

  lemma ReinsertedKeys<T>(m: map<Prefix, T>, p: Prefix, value: T)
    requires Irreducible(m.Keys) && p in m && Descendants(m.Keys, p) == {}
    ensures Inserted(m, p, value) == m[p := value]
  {
    assert m.Keys + {p} == m.Keys;
    forall q | q in m.Keys ensures !IsCoveredBy(q, Descendants(m.Keys, q)) {
      IsCoveredByMeansCovers(q, Descendants(m.Keys, q));
    }
    assert Redundant(m.Keys, p) == {};
  }

  lemma AuthoritiesChange(sections: Sections, info: OtherSection)
    requires Irreducible(sections.Keys)
    ensures var p := SectionPrefix(info);
            Authorities(Inserted(sections, p, info)) == Authorities(sections) <==>
            Descendants(sections.Keys, p) != {} || (p in sections && sections[p].auth == info.auth)
  {
    var p := SectionPrefix(info);
    if Descendants(sections.Keys, p) == {} {
      if p in sections {
        ReinsertedKeys(sections, p, info);
        assert Authorities(Inserted(sections, p, info))[p] == info.auth;
      } else {
        assert p in Authorities(Inserted(sections, p, info));
      }
    }
  }

  /** Inserting `info` once more would change nothing. */
  ghost predicate Settled(sections: Sections, info: OtherSection) {
    var p := SectionPrefix(info);
    Descendants(sections.Keys, p) != {} || (p in sections && sections[p] == info)
  }

  lemma SettledInsertIsNoop(sections: Sections, info: OtherSection)
    requires Irreducible(sections.Keys) && Settled(sections, info)
    ensures Inserted(sections, SectionPrefix(info), info) == sections
  {
    if Descendants(sections.Keys, SectionPrefix(info)) == {} {
      ReinsertedKeys(sections, SectionPrefix(info), info);
    }
  }

  lemma DescendantsSurvive<T>(m: map<Prefix, T>, q: Prefix, value: T, p: Prefix)
    requires Descendants(m.Keys, p) != {}
    ensures Descendants(Inserted(m, q, value).Keys, p) != {}
  {
    var d :| d in Descendants(m.Keys, p);
    MatchesNeverShrink(m, q, value, NameUnder(d));
    var r := LongestMatch(m.Keys, NameUnder(d)).value;
    MatchingPrefixesAreCompatible(d, r, NameUnder(d));
    assert LongestMatch(Inserted(m, q, value).Keys, NameUnder(d)).value in Descendants(Inserted(m, q, value).Keys, p);
  }

  /** What is settled stays settled when other sections are inserted. */
  lemma SettledStays(sections: Sections, info: OtherSection, next: OtherSection)
    requires Settled(sections, info)
    requires next == info || SectionPrefix(next) != SectionPrefix(info)
    ensures Settled(Inserted(sections, SectionPrefix(next), next), info)
  {
    var p, q := SectionPrefix(info), SectionPrefix(next);
    var after := Inserted(sections, q, next);
    if Descendants(sections.Keys, p) != {} {
      DescendantsSurvive(sections, q, next, p);
    } else if Descendants(sections.Keys, q) == {} && q != p && p !in after {
      var all := sections.Keys + {q};
      assert sections[q := next].Keys == all;
      assert p in Redundant(all, q) && q in after;
      assert q in Descendants(after.Keys, p);
    }
  }

  ghost predicate UniquePrefixes(entries: seq<OtherSection>) {
    forall i, j :: 0 <= i < j < |entries| ==> SectionPrefix(entries[i]) != SectionPrefix(entries[j])
  }

  lemma {:induction false} MergeSettles(sections: Sections, entries: seq<OtherSection>, chain: Chain, i: nat)
    requires Irreducible(sections.Keys) && UniquePrefixes(entries) && i < |entries| && VerifiedBy(entries[i], chain)
    ensures Settled(SectionsMerged(sections, entries, chain), entries[i])
  {
    var front, last := entries[..|entries| - 1], entries[|entries| - 1];
    var before := SectionsMerged(sections, front, chain);
    if i < |front| {
      MergeSettles(sections, front, chain, i);
      if VerifiedBy(last, chain) {
        SettledStays(before, entries[i], last);
      }
    } else if Descendants(before.Keys, SectionPrefix(last)) == {} {
      assert SectionPrefix(last) in Inserted(before, SectionPrefix(last), last);
    }
  }

  lemma {:induction false} MergeKeepsIrreducible(sections: Sections, entries: seq<OtherSection>, chain: Chain)
    requires Irreducible(sections.Keys)
    ensures Irreducible(SectionsMerged(sections, entries, chain).Keys)
  {
    if entries != [] {
      var last := entries[|entries| - 1];
      MergeKeepsIrreducible(sections, entries[..|entries| - 1], chain);
      InsertKeepsIrreducible(SectionsMerged(sections, entries[..|entries| - 1], chain), SectionPrefix(last), last);
    }
  }

  /** Merging the same network again changes nothing, in whatever order its sections come the second
      time and even if only some of them do. */
  lemma {:induction false} MergeIsIdempotent(sections: Sections, entries: seq<OtherSection>, again: seq<OtherSection>, chain: Chain)
    requires Irreducible(sections.Keys) && UniquePrefixes(entries)
    requires forall info :: info in again ==> info in entries
    ensures var merged := SectionsMerged(sections, entries, chain);
            SectionsMerged(merged, again, chain) == merged
    decreases |again|
  {
    if again != [] {
      var merged, last := SectionsMerged(sections, entries, chain), again[|again| - 1];
      MergeIsIdempotent(sections, entries, again[..|again| - 1], chain);
      MergeKeepsIrreducible(sections, entries, chain);
      if VerifiedBy(last, chain) {
        assert last in again;
        var i :| 0 <= i < |entries| && entries[i] == last;
        MergeSettles(sections, entries, chain, i);
        SettledInsertIsNoop(merged, last);
      }
    }
  }

  /** Merging is not commutative: two networks that know different authorities for one prefix end
      with whatever they merged last. */
  lemma MergeIsNotCommutative(a: OtherSection, b: OtherSection, chain: Chain)
    requires SectionPrefix(a) == SectionPrefix(b) && a != b
    requires VerifiedBy(a, chain) && VerifiedBy(b, chain)
    ensures SectionsMerged(SectionsMerged(map[], [a], chain), [b], chain) !=
            SectionsMerged(SectionsMerged(map[], [b], chain), [a], chain)
  {
  }

  // Who vouches for a section.

  /** The key that vouches for a section: the one that introduced its key or, without one, its own. */
  function Voucher(info: OtherSection): Key {
    match info.keySigned
    case Some(keySigned) => keySigned.publicKey
    case None => info.auth.signed.publicKey
  }

  /** The section's own key signed its authority, whoever introduced that key did sign it, and a key of the
      chain vouches for it. */
  predicate VouchedFor(info: OtherSection, keys: set<Key>) {
    && Verifies(info.auth.signed, AuthMessage(info.auth.value))
    && (info.keySigned.Some? ==> Verifies(info.keySigned.value, KeyMessage(info.auth.signed.publicKey)))
    && Voucher(info) in keys
  }

  /** The sections are stored under their own prefixes and keys of the chain vouch for all of them. */
  ghost predicate AllVouched(sections: Sections, keys: set<Key>) {
    forall p :: p in sections ==> SectionPrefix(sections[p]) == p && VouchedFor(sections[p], keys)
  }

  /** An update stores a section exactly when a key of the chain vouches for it, nothing below it is known,
      or it was stored already. */
  lemma UpdateStoresIff(sections: Sections, info: OtherSection, chain: Chain)
    requires Irreducible(sections.Keys)
    ensures var p, after := SectionPrefix(info), SectionUpdated(sections, info, chain);
            p in after && after[p] == info <==>
            || (p in sections && sections[p] == info)
            || (VouchedFor(info, chain.keys) && Descendants(sections.Keys, p) == {})
  {
    var p := SectionPrefix(info);
    if Descendants(sections.Keys, p) == {} && p in sections && sections[p] == info {
      ReinsertedKeys(sections, p, info);
    }
  }

  /** What an update stores anew is vouched for. */
  lemma NewIsVouched(sections: Sections, info: OtherSection, chain: Chain, p: Prefix)
    requires p in SectionUpdated(sections, info, chain)
    ensures var after := SectionUpdated(sections, info, chain);
            (p in sections && after[p] == sections[p]) || (after[p] == info && SectionPrefix(info) == p && VouchedFor(info, chain.keys))
  {
  }

  /** What a merge stores anew came with the merge and is vouched for. */
  lemma {:induction false} MergedIsVouched(sections: Sections, entries: seq<OtherSection>, chain: Chain, p: Prefix)
    requires p in SectionsMerged(sections, entries, chain)
    ensures var after := SectionsMerged(sections, entries, chain);
            || (p in sections && after[p] == sections[p])
            || (after[p] in entries && SectionPrefix(after[p]) == p && VouchedFor(after[p], chain.keys))
  {
    if entries != [] {
      var front, last := entries[..|entries| - 1], entries[|entries| - 1];
      var before := SectionsMerged(sections, front, chain);
      NewIsVouched(before, last, chain, p);
      if p in before {
        MergedIsVouched(sections, front, chain, p);
      }
    }
  }

  /** So merging keeps it that keys of the chain vouch for every known section, also as the chain grows. */
  lemma MergeKeepsVouched(sections: Sections, entries: seq<OtherSection>, keys: set<Key>, chain: Chain)
    requires AllVouched(sections, keys) && keys <= chain.keys
    ensures AllVouched(SectionsMerged(sections, entries, chain), chain.keys)
  {
    var after := SectionsMerged(sections, entries, chain);
    forall p | p in after ensures SectionPrefix(after[p]) == p && VouchedFor(after[p], chain.keys) {
      MergedIsVouched(sections, entries, chain, p);
    }
  }
}
