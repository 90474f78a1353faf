/** What holds of every prefix map that any sequence of inserts can build. */
module PrefixMapLaws {
  import opened Wrappers
  import opened Prefixes
  import opened PrefixMaps

  datatype Put<T> = Put(prefix: Prefix, value: T)

  /** The map after a sequence of inserts into the empty one. */
  function Run<T>(puts: seq<Put<T>>): map<Prefix, T> {
    if puts == [] then map[]
    else var last := puts[|puts| - 1]; Inserted(Run(puts[..|puts| - 1]), last.prefix, last.value)
  }

  function RunUnpruned<T>(puts: seq<Put<T>>): map<Prefix, T> {
    if puts == [] then map[]
    else var last := puts[|puts| - 1];
         InsertedUnpruned(RunUnpruned(puts[..|puts| - 1]), last.prefix, last.value)
  }

  lemma LongestMatchIsUnique(keys: set<Prefix>, n: Name, q: Prefix)
    requires IsLongestMatch(keys, n, q)
    ensures LongestMatch(keys, n) == Some(q)
  {
    var r := LongestMatch(keys, n).value;
    assert r == n[..|r|] && q == n[..|q|];
  }

  /** The keys after an accepted insert. */
  ghost predicate AcceptedKeys(keys: set<Prefix>, p: Prefix, after: set<Prefix>) {
    && Descendants(keys, p) == {}
    && p in after && after <= keys + {p}
    && forall q :: q in keys + {p} - after ==> IsCoveredBy(q, Descendants(keys + {p}, q))
  }

  /** An accepted insert makes `p` the longest match of every name under it and leaves the longest
      match of every other name alone, whatever it prunes. */
  lemma LongestMatchAfterInsert(keys: set<Prefix>, p: Prefix, after: set<Prefix>, n: Name)
    requires AcceptedKeys(keys, p, after)
    ensures LongestMatch(after, n) == if Matches(p, n) then Some(p) else LongestMatch(keys, n)
  {
    if Matches(p, n) {
      forall r | r in after && Matches(r, n) ensures |r| <= |p| {
        MatchingPrefixesAreCompatible(p, r, n);
        assert r !in Descendants(keys, p);
      }
      LongestMatchIsUnique(after, n, p);
    } else if MatchedBy(n, keys) {
      var q := LongestMatch(keys, n).value;
      var r := LongerMatchSurvives(keys + {p}, keys + {p} - after, q, n);
      assert r == q;
      LongestMatchIsUnique(after, n, q);
    } else {
      assert forall q :: q in after && q != p ==> q in keys;
    }
  }

  lemma InsertedIsAccepted<T>(m: map<Prefix, T>, p: Prefix, value: T)
    requires Descendants(m.Keys, p) == {}
    ensures AcceptedKeys(m.Keys, p, Inserted(m, p, value).Keys)
    ensures AcceptedKeys(m.Keys, p, InsertedUnpruned(m, p, value).Keys)
  {
  }

  /** The answer to every lookup after an insert: names under the inserted prefix get the new entry
      unless something more specific was known, and no other answer changes. */
  lemma LookupAfterInsert<T>(m: map<Prefix, T>, p: Prefix, value: T, n: Name)
    ensures GetMatching(Inserted(m, p, value), n) ==
            if Descendants(m.Keys, p) == {} && Matches(p, n) then Some(value) else GetMatching(m, n)
  {
    if Descendants(m.Keys, p) == {} {
      InsertedIsAccepted(m, p, value);
      LongestMatchAfterInsert(m.Keys, p, Inserted(m, p, value).Keys, n);
    }
  }

  /** Whether an insert is refused can be read off the longest matches alone. */
  lemma RefusedIffLongerMatch(keys: set<Prefix>, p: Prefix)
    ensures Descendants(keys, p) != {} <==>
            exists n: Name :: Matches(p, n) && LongestMatch(keys, n).Some? && |LongestMatch(keys, n).value| > |p|
  {
    if Descendants(keys, p) != {} {
      var q :| q in Descendants(keys, p);
      var n := NameUnder(q);
      assert Matches(p, n) && |LongestMatch(keys, n).value| >= |q|;
    }
    if n: Name :| Matches(p, n) && LongestMatch(keys, n).Some? && |LongestMatch(keys, n).value| > |p| {
      MatchingPrefixesAreCompatible(p, LongestMatch(keys, n).value, n);
      assert LongestMatch(keys, n).value in Descendants(keys, p);
    }
  }

  ghost predicate SameLookups<T(!new)>(m: map<Prefix, T>, u: map<Prefix, T>) {
    forall n: Name :: LongestMatch(m.Keys, n) == LongestMatch(u.Keys, n) && GetMatching(m, n) == GetMatching(u, n)
  }

  lemma SameLookupsAfterInsert<T(!new)>(m: map<Prefix, T>, u: map<Prefix, T>, p: Prefix, value: T)
    requires SameLookups(m, u)
    ensures SameLookups(Inserted(m, p, value), InsertedUnpruned(u, p, value))
  {
    RefusedIffLongerMatch(m.Keys, p);
    RefusedIffLongerMatch(u.Keys, p);
    assert Descendants(m.Keys, p) == {} <==> Descendants(u.Keys, p) == {};
    if Descendants(m.Keys, p) == {} {
      InsertedIsAccepted(m, p, value);
      InsertedIsAccepted(u, p, value);
      forall n: Name
        ensures LongestMatch(Inserted(m, p, value).Keys, n) == LongestMatch(InsertedUnpruned(u, p, value).Keys, n)
        ensures GetMatching(Inserted(m, p, value), n) == GetMatching(InsertedUnpruned(u, p, value), n)
      {
        assert GetMatching(m, n) == GetMatching(u, n);
        LongestMatchAfterInsert(m.Keys, p, Inserted(m, p, value).Keys, n);
        LongestMatchAfterInsert(u.Keys, p, InsertedUnpruned(u, p, value).Keys, n);
      }
    }
  }

  /** Pruning cannot be observed: after any inserts, every name is looked up as if nothing had ever
      been pruned. */
  lemma {:induction false} PruningIsInvisible<T(!new)>(puts: seq<Put<T>>)
    ensures SameLookups(Run(puts), RunUnpruned(puts))
  {
    if puts != [] {
      var last := puts[|puts| - 1];
      PruningIsInvisible(puts[..|puts| - 1]);
      SameLookupsAfterInsert(Run(puts[..|puts| - 1]), RunUnpruned(puts[..|puts| - 1]), last.prefix, last.value);
    }
  }

  /** A match is never lost and never becomes less specific. */
  lemma MatchesNeverShrink<T>(m: map<Prefix, T>, p: Prefix, value: T, n: Name)
    requires MatchedBy(n, m.Keys)
    ensures MatchedBy(n, Inserted(m, p, value).Keys)
    ensures LongestMatch(m.Keys, n).value <= LongestMatch(Inserted(m, p, value).Keys, n).value
  {
    if Descendants(m.Keys, p) == {} {
      InsertedIsAccepted(m, p, value);
      LongestMatchAfterInsert(m.Keys, p, Inserted(m, p, value).Keys, n);
      if Matches(p, n) {
        var q := LongestMatch(m.Keys, n).value;
        MatchingPrefixesAreCompatible(p, q, n);
        assert q !in Descendants(m.Keys, p);
      }
    }
  }

  lemma InsertKeepsIrreducible<T>(m: map<Prefix, T>, p: Prefix, value: T)
    requires Irreducible(m.Keys)
    ensures Irreducible(Inserted(m, p, value).Keys)
  {
    if Descendants(m.Keys, p) == {} {
      var all := m.Keys + {p};
      var after := Inserted(m, p, value).Keys;
      assert m[p := value].Keys == all;
      forall q | q in after ensures !Covers(Descendants(after, q), q) {
        assert Descendants(after, q) <= Descendants(all, q);
        CoversMonotone(Descendants(after, q), Descendants(all, q), q);
        if Extends(p, q) {
          assert q !in Redundant(all, p);
          IsCoveredByMeansCovers(q, Descendants(all, q));
        } else if q == p {
          assert Descendants(all, q) == {};
          NothingCoveredByNone(q);
        } else {
          assert Descendants(all, q) == Descendants(m.Keys, q);
        }
      }
    }
  }

  /** No reachable map stores an entry that its own descendants cover. */
  lemma {:induction false} ReachableIsIrreducible<T>(puts: seq<Put<T>>)
    ensures Irreducible(Run(puts).Keys)
  {
    if puts != [] {
      ReachableIsIrreducible(puts[..|puts| - 1]);
      InsertKeepsIrreducible(Run(puts[..|puts| - 1]), puts[|puts| - 1].prefix, puts[|puts| - 1].value);
    }
  }

  /** Walking up from a prefix finds the longest stored prefix of it. */
  lemma {:induction false} WalkFindsLongest<T>(m: map<Prefix, T>, p: Prefix)
    ensures EqualOrAncestor(m, p).None? <==> forall q :: q in m.Keys ==> !(q <= p)
    ensures EqualOrAncestor(m, p).Some? ==>
              exists q :: q in m.Keys && q <= p && EqualOrAncestor(m, p) == Some(m[q])
                          && forall r :: r in m.Keys && r <= p ==> |r| <= |q|
    decreases |p|
  {
    if p in m {
      assert p <= p;
    } else if p != [] {
      WalkFindsLongest(m, Popped(p));
      forall q | q in m.Keys ensures q <= p <==> q <= Popped(p) {
        assert q != p;
      }
    }
  }

  /** The two lookups agree: filtering for the longest match is walking up from the whole name. */
  lemma MatchingIsWalkUp<T>(m: map<Prefix, T>, n: Name)
    ensures GetMatching(m, n) == EqualOrAncestor(m, n)
  {
    WalkFindsLongest(m, n);
    if EqualOrAncestor(m, n).Some? {
      var q :| q in m.Keys && q <= n && EqualOrAncestor(m, n) == Some(m[q])
               && forall r :: r in m.Keys && r <= n ==> |r| <= |q|;
      assert forall r :: r in m.Keys && Matches(r, n) ==> r <= n;
      assert Matches(q, n);
      LongestMatchIsUnique(m.Keys, n, q);
    } else {
      assert forall q :: q in m.Keys ==> !Matches(q, n);
    }
  }
}
