/** A map keyed by prefixes that refuses an entry once something more specific is known and drops
    an entry once its descendants cover it (src/network/prefix_map.rs).
 */
module PrefixMaps {
  import opened Wrappers
  import opened Prefixes

  function Descendants(keys: set<Prefix>, p: Prefix): set<Prefix> {
    set q | q in keys && Extends(q, p)
  }

  /** The members of `keys` properly above `p` that their own descendants in `keys` cover. */
  function Redundant(keys: set<Prefix>, p: Prefix): set<Prefix> {
    set q | q in keys && Extends(p, q) && IsCoveredBy(q, Descendants(keys, q))
  }

  /** What `PrefixMap.Insert` makes of the entries. */
  function Inserted<T>(m: map<Prefix, T>, p: Prefix, value: T): map<Prefix, T> {
    if Descendants(m.Keys, p) != {} then m
    else m[p := value] - Redundant(m.Keys + {p}, p)
  }

  /** The same operation in a map that never prunes: the reference `Inserted` is compared with. */
  function InsertedUnpruned<T>(m: map<Prefix, T>, p: Prefix, value: T): map<Prefix, T> {
    if Descendants(m.Keys, p) != {} then m else m[p := value]
  }

  ghost predicate IsLongestMatch(keys: set<Prefix>, n: Name, q: Prefix) {
    && q in keys && Matches(q, n)
    && forall r :: r in keys && Matches(r, n) ==> |r| <= |q|
  }

  /** The longest prefix in `keys` that matches `n`. */
  ghost function LongestMatch(keys: set<Prefix>, n: Name): (q: Option<Prefix>)
    ensures q.None? <==> !MatchedBy(n, keys)
    ensures q.Some? ==> IsLongestMatch(keys, n, q.value)
  {
    if MatchedBy(n, keys) then
      LongestMatchExists(keys, n);
      var q :| IsLongestMatch(keys, n, q);
      Some(q)
    else None
  }

  ghost function GetMatching<T>(m: map<Prefix, T>, n: Name): Option<T> {
    var q := LongestMatch(m.Keys, n);
    if q.Some? then Some(m[q.value]) else None
  }

  /** The entry at `p` or at the closest ancestor of `p` that has one. */
  function EqualOrAncestor<T>(m: map<Prefix, T>, p: Prefix): Option<T>
    decreases |p|
  {
    if p in m then Some(m[p])
    else if p == [] then None
    else EqualOrAncestor(m, Popped(p))
  }

  /** No entry is covered by its own descendants. */
  ghost predicate Irreducible(keys: set<Prefix>) {
    forall q :: q in keys ==> !Covers(Descendants(keys, q), q)
  }

  class PrefixMap<T(==)> {
    var entries: map<Prefix, T>

    constructor ()
      ensures entries == map[]
    {
      entries := map[];
    }

    method Insert(p: Prefix, value: T) returns (previous: Option<T>)
      modifies this
      ensures entries == Inserted(old(entries), p, value)
      ensures previous ==
              if Descendants(old(entries).Keys, p) != {} then Some(value)
              else if p in old(entries) then Some(old(entries)[p])
              else None
    {
      if Descendants(entries.Keys, p) != {} {
        return Some(value);
      }
      previous := if p in entries then Some(entries[p]) else None;
      entries := entries[p := value];
      assert entries.Keys == old(entries).Keys + {p};
      Prune(Popped(p));
      NothingRedundantFrom(old(entries).Keys + {p}, p);
    }

    /** Walks from `start` up to the empty prefix, dropping what its descendants cover. */
    method Prune(start: Prefix)
      modifies this
      ensures entries == old(entries) - RedundantFrom(old(entries).Keys, start, 0)
    {
      var prefix := start;
      ghost var keys := entries.Keys;
      assert RedundantFrom(keys, start, |start| + 1) == {};
      while true
        invariant prefix <= start
        invariant entries == old(entries) - RedundantFrom(keys, start, |prefix| + 1)
        decreases |prefix|
      {
        RemovingRedundantKeepsCoverage(keys, RedundantFrom(keys, start, |prefix| + 1), prefix);
        RedundantFromStep(keys, start, prefix);
        if IsCoveredBy(prefix, Descendants(entries.Keys, prefix)) {
          entries := entries - {prefix};
        }
        if prefix == [] {
          break;
        }
        prefix := Popped(prefix);
      }
    }

    method GetEqualOrAncestor(p: Prefix) returns (found: Option<T>)
      ensures found == EqualOrAncestor(entries, p)
    {
      var prefix := p;
      while true
        invariant EqualOrAncestor(entries, prefix) == EqualOrAncestor(entries, p)
        decreases |prefix|
      {
        if prefix in entries {
          return Some(entries[prefix]);
        }
        if prefix == [] {
          return None;
        }
        prefix := Popped(prefix);
      }
    }
  }

  /** The members of `keys` at or above `start`, of length at least `low`, that are redundant. */
  function RedundantFrom(keys: set<Prefix>, start: Prefix, low: nat): set<Prefix> {
    set q | q in keys && q <= start && low <= |q| && IsCoveredBy(q, Descendants(keys, q))
  }

  lemma RedundantFromStep(keys: set<Prefix>, start: Prefix, prefix: Prefix)
    requires prefix <= start
    ensures RedundantFrom(keys, start, |prefix|) ==
            RedundantFrom(keys, start, |prefix| + 1)
            + if prefix in keys && IsCoveredBy(prefix, Descendants(keys, prefix)) then {prefix} else {}
  {
    forall q | q in keys && q <= start && |q| == |prefix| ensures q == prefix {
      assert q == start[..|q|] == prefix;
    }
  }

  /** Pruning above `p` from its parent removes exactly what is redundant properly above `p`. */
  lemma NothingRedundantFrom(keys: set<Prefix>, p: Prefix)
    requires Descendants(keys, p) == {}
    ensures RedundantFrom(keys, Popped(p), 0) == Redundant(keys, p)
  {
    if p == [] {
      assert !IsCoveredBy(p, {}) by {
        IsCoveredByMeansCovers(p, {});
        NothingCoveredByNone(p);
      }
      assert forall q :: q in RedundantFrom(keys, Popped(p), 0) ==> q == [];
    } else {
      forall q: Prefix ensures q <= Popped(p) <==> Extends(p, q) {
      }
    }
  }

  lemma LongestMatchExists(keys: set<Prefix>, n: Name)
    requires MatchedBy(n, keys)
    ensures exists q :: IsLongestMatch(keys, n, q)
  {
    var q :| q in keys && Matches(q, n);
    LongestMatchFrom(keys, n, q);
  }

  lemma {:induction false} LongestMatchFrom(keys: set<Prefix>, n: Name, q: Prefix)
    requires q in keys && Matches(q, n)
    ensures exists r :: IsLongestMatch(keys, n, r)
    decreases NAME_BITS - |q|
  {
    if r :| r in keys && Matches(r, n) && |r| > |q| {
      LongestMatchFrom(keys, n, r);
    } else {
      assert IsLongestMatch(keys, n, q);
    }
  }

  /** If every key of `removed` is covered by its descendants in `keys`, then whatever matched `n`
      still has something at least as long that matches after the removal. */
  lemma {:induction false} LongerMatchSurvives(keys: set<Prefix>, removed: set<Prefix>, q: Prefix, n: Name)
    returns (r: Prefix)
    requires forall x :: x in removed ==> IsCoveredBy(x, Descendants(keys, x))
    requires q in keys && Matches(q, n)
    ensures r in keys - removed && q <= r && Matches(r, n)
    decreases NAME_BITS - |q|
  {
    if q in removed {
      IsCoveredByMeansCovers(q, Descendants(keys, q));
      assert MatchedBy(n, Descendants(keys, q));
      var x :| x in Descendants(keys, q) && Matches(x, n);
      r := LongerMatchSurvives(keys, removed, x, n);
    } else {
      r := q;
    }
  }

  lemma RemovingRedundantKeepsCoverage(keys: set<Prefix>, removed: set<Prefix>, p: Prefix)
    requires forall x :: x in removed ==> IsCoveredBy(x, Descendants(keys, x))
    ensures IsCoveredBy(p, Descendants(keys - removed, p)) <==> IsCoveredBy(p, Descendants(keys, p))
  {
    IsCoveredByMeansCovers(p, Descendants(keys, p));
    IsCoveredByMeansCovers(p, Descendants(keys - removed, p));
    forall n: Name
      ensures MatchedBy(n, Descendants(keys - removed, p)) <==> MatchedBy(n, Descendants(keys, p))
    {
      if MatchedBy(n, Descendants(keys, p)) {
        var q :| q in Descendants(keys, p) && Matches(q, n);
        var r := LongerMatchSurvives(keys, removed, q, n);
        assert r in Descendants(keys - removed, p);
      }
      if MatchedBy(n, Descendants(keys - removed, p)) {
        var q :| q in Descendants(keys - removed, p) && Matches(q, n);
        assert q in Descendants(keys, p);
      }
    }
  }
}
