/** Stable sorting by a comparison and taking the first few: what the candidate choice and the cache
    eviction share. `le(x, y)` says that `x` need not come after `y`.
 */
module Sorting {
  import opened Quorum

  function Place<T>(sorted: seq<T>, x: T, le: (T, T) -> bool): seq<T> {
    if sorted == [] || le(sorted[|sorted| - 1], x) then sorted + [x]
    else Place(sorted[..|sorted| - 1], x, le) + [sorted[|sorted| - 1]]
  }

  /** A stable insertion sort. */
  function Sort<T>(xs: seq<T>, le: (T, T) -> bool): seq<T> {
    if xs == [] then [] else Place(Sort(xs[..|xs| - 1], le), xs[|xs| - 1], le)
  }

  function Take<T>(xs: seq<T>, size: nat): seq<T> {
    if size < |xs| then xs[..size] else xs
  }

  function Min(a: nat, b: nat): nat {
    if a < b then a else b
  }

  ghost function ToSet<T>(xs: seq<T>): set<T> {
    set x | x in xs
  }

  ghost predicate Distinct<T>(xs: seq<T>) {
    forall i, j :: 0 <= i < j < |xs| ==> xs[i] != xs[j]
  }

  ghost predicate IsSorted<T>(xs: seq<T>, le: (T, T) -> bool) {
    forall i, j :: 0 <= i < j < |xs| ==> le(xs[i], xs[j])
  }

  ghost predicate TotalPreorder<T>(pool: set<T>, le: (T, T) -> bool) {
    && (forall x, y :: x in pool && y in pool ==> le(x, y) || le(y, x))
    && (forall x, y, z :: x in pool && y in pool && z in pool && le(x, y) && le(y, z) ==> le(x, z))
  }

  ghost predicate Antisymmetric<T>(pool: set<T>, le: (T, T) -> bool) {
    forall x, y :: x in pool && y in pool && le(x, y) && le(y, x) ==> x == y
  }

  /** `chosen` is as many of `pool` as `size` allows, none of them behind one left out. */
  ghost predicate IsTop<T>(chosen: set<T>, pool: set<T>, size: nat, le: (T, T) -> bool) {
    && chosen <= pool && |chosen| == Min(size, |pool|)
    && forall x, y :: x in chosen && y in pool - chosen ==> le(x, y)
  }

  lemma SplitLast<T>(xs: seq<T>)
    requires xs != []
    ensures xs == xs[..|xs| - 1] + [xs[|xs| - 1]]
    ensures ToSet(xs) == ToSet(xs[..|xs| - 1]) + {xs[|xs| - 1]}
    ensures multiset(xs) == multiset(xs[..|xs| - 1]) + multiset{xs[|xs| - 1]}
  {
  }

  lemma {:induction false} PlaceKeeps<T>(sorted: seq<T>, x: T, le: (T, T) -> bool)
    ensures multiset(Place(sorted, x, le)) == multiset(sorted) + multiset{x}
    ensures ToSet(Place(sorted, x, le)) == ToSet(sorted) + {x}
  {
    if sorted != [] && !le(sorted[|sorted| - 1], x) {
      SplitLast(sorted);
      PlaceKeeps(sorted[..|sorted| - 1], x, le);
      SplitLast(Place(sorted, x, le));
    } else {
      SplitLast(sorted + [x]);
    }
  }

  lemma {:induction false} PlaceSorts<T>(sorted: seq<T>, x: T, pool: set<T>, le: (T, T) -> bool)
    requires TotalPreorder(pool, le) && ToSet(sorted) <= pool && x in pool && IsSorted(sorted, le)
    ensures IsSorted(Place(sorted, x, le), le)
  {
    if sorted != [] {
      var front, last := sorted[..|sorted| - 1], sorted[|sorted| - 1];
      SplitLast(sorted);
      if le(last, x) {
        forall i | 0 <= i < |sorted| ensures le(sorted[i], x) {
          assert sorted[i] in ToSet(sorted);
        }
      } else {
        PlaceSorts(front, x, pool, le);
        PlaceKeeps(front, x, le);
        var placed := Place(front, x, le);
        forall i | 0 <= i < |placed| ensures le(placed[i], last) {
          assert placed[i] in ToSet(placed);
        }
      }
    }
  }

  lemma {:induction false} SortSorts<T>(xs: seq<T>, pool: set<T>, le: (T, T) -> bool)
    requires TotalPreorder(pool, le) && ToSet(xs) <= pool
    ensures multiset(Sort(xs, le)) == multiset(xs)
    ensures ToSet(Sort(xs, le)) == ToSet(xs)
    ensures IsSorted(Sort(xs, le), le)
  {
    if xs != [] {
      var front, last := xs[..|xs| - 1], xs[|xs| - 1];
      SplitLast(xs);
      SortSorts(front, pool, le);
      PlaceKeeps(Sort(front, le), last, le);
      PlaceSorts(Sort(front, le), last, pool, le);
    }
  }

  lemma {:induction false} DistinctIffOnceEach<T>(xs: seq<T>)
    ensures Distinct(xs) <==> forall x :: x in xs ==> multiset(xs)[x] == 1
  {
    if xs != [] {
      var front, last := xs[..|xs| - 1], xs[|xs| - 1];
      SplitLast(xs);
      DistinctIffOnceEach(front);
      assert forall i :: 0 <= i < |front| ==> front[i] == xs[i];
      if last in front {
        assert multiset(xs)[last] >= 2;
      } else {
        assert forall x :: x in front ==> multiset(xs)[x] == multiset(front)[x];
      }
    }
  }

  lemma {:induction false} DistinctIffCount<T>(xs: seq<T>)
    ensures Distinct(xs) <==> |ToSet(xs)| == |xs|
    ensures |ToSet(xs)| <= |xs|
  {
    if xs != [] {
      var front, last := xs[..|xs| - 1], xs[|xs| - 1];
      SplitLast(xs);
      DistinctIffCount(front);
      assert forall i :: 0 <= i < |front| ==> front[i] == xs[i];
      if last in front {
        assert ToSet(xs) == ToSet(front);
      } else {
        assert |ToSet(xs)| == |ToSet(front)| + 1;
      }
    }
  }

  lemma DistinctByMultiset<T>(xs: seq<T>, ys: seq<T>)
    requires multiset(xs) == multiset(ys)
    ensures |xs| == |ys| && ToSet(xs) == ToSet(ys)
    ensures Distinct(xs) <==> Distinct(ys)
  {
    assert |multiset(xs)| == |multiset(ys)|;
    forall x ensures x in xs <==> x in ys {
      assert x in multiset(xs) <==> x in multiset(ys);
    }
    DistinctIffOnceEach(xs);
    DistinctIffOnceEach(ys);
  }

  /** Sorting and taking the first `size` chooses the top of the pool. */
  lemma TakeSortedIsTop<T>(xs: seq<T>, size: nat, le: (T, T) -> bool)
    requires TotalPreorder(ToSet(xs), le) && Distinct(xs)
    ensures IsTop(ToSet(Take(Sort(xs, le), size)), ToSet(xs), size, le)
    ensures |Take(Sort(xs, le), size)| == Min(size, |xs|)
    ensures Distinct(Take(Sort(xs, le), size))
  {
    var sorted, best := Sort(xs, le), Take(Sort(xs, le), size);
    SortSorts(xs, ToSet(xs), le);
    DistinctByMultiset(xs, sorted);
    DistinctIffCount(xs);
    DistinctIffCount(best);
    forall x, y | x in ToSet(best) && y in ToSet(xs) - ToSet(best) ensures le(x, y) {
      var i :| 0 <= i < |best| && best[i] == x;
      assert y in ToSet(sorted);
      var j :| 0 <= j < |sorted| && sorted[j] == y;
      assert forall k :: 0 <= k < |best| ==> best[k] in ToSet(best) && sorted[k] == best[k];
    }
  }

  /** With no ties there is one sorted order, so the listing order does not matter. */
  lemma SortIgnoresListingOrder<T>(xs: seq<T>, ys: seq<T>, le: (T, T) -> bool)
    requires TotalPreorder(ToSet(xs), le) && Antisymmetric(ToSet(xs), le) && multiset(xs) == multiset(ys)
    ensures Sort(xs, le) == Sort(ys, le)
  {
    DistinctByMultiset(xs, ys);
    SortSorts(xs, ToSet(xs), le);
    SortSorts(ys, ToSet(xs), le);
    SortedIsUnique(Sort(xs, le), Sort(ys, le), ToSet(xs), le);
  }

  lemma {:induction false} SortedIsUnique<T>(a: seq<T>, b: seq<T>, pool: set<T>, le: (T, T) -> bool)
    requires multiset(a) == multiset(b) && ToSet(a) <= pool
    requires TotalPreorder(pool, le) && Antisymmetric(pool, le) && IsSorted(a, le) && IsSorted(b, le)
    ensures a == b
  {
    DistinctByMultiset(a, b);
    if a != [] {
      SplitLast(a);
      SplitLast(b);
      LastIsGreatest(a, b[|b| - 1], pool, le);
      LastIsGreatest(b, a[|a| - 1], pool, le);
      assert multiset(a[..|a| - 1]) == multiset(a) - multiset{a[|a| - 1]};
      assert multiset(b[..|b| - 1]) == multiset(b) - multiset{a[|a| - 1]};
      SortedIsUnique(a[..|a| - 1], b[..|b| - 1], pool, le);
    }
  }

  lemma LastIsGreatest<T>(a: seq<T>, x: T, pool: set<T>, le: (T, T) -> bool)
    requires x in ToSet(a) && ToSet(a) <= pool && TotalPreorder(pool, le) && IsSorted(a, le)
    ensures le(x, a[|a| - 1])
  {
  }

  /** A choice that strictly beats everything left out is the only top. */
  lemma StrictTopIsOnlyTop<T>(best: set<T>, other: set<T>, pool: set<T>, size: nat, le: (T, T) -> bool)
    requires best <= pool && |best| == Min(size, |pool|)
    requires forall x, y :: x in best && y in pool - best ==> !le(y, x)
    requires IsTop(other, pool, size, le)
    ensures best == other
  {
    if other <= best {
      SubsetSize(other, best);
    } else {
      var y :| y in other && y !in best;
      forall x | x in best ensures x in other {
        assert y in pool - best && (x !in other ==> x in pool - other);
      }
      SubsetSize(best, other);
    }
  }

  /** Elements that all tie keep the order they came in. */
  lemma {:induction false} SortOfTies<T>(xs: seq<T>, le: (T, T) -> bool)
    requires forall x, y :: x in xs && y in xs ==> le(x, y)
    ensures Sort(xs, le) == xs
  {
    if xs != [] {
      var front, last := xs[..|xs| - 1], xs[|xs| - 1];
      SplitLast(xs);
      SortOfTies(front, le);
      assert front != [] ==> front[|front| - 1] in front;
    }
  }

  /** With no ties there is one top. */
  lemma TopIsUnique<T>(a: set<T>, b: set<T>, pool: set<T>, size: nat, le: (T, T) -> bool)
    requires IsTop(a, pool, size, le) && IsTop(b, pool, size, le) && Antisymmetric(pool, le)
    ensures a == b
  {
    if a <= b {
      SubsetSize(a, b);
    } else {
      var x :| x in a && x !in b;
      assert x in pool - b;
      forall y | y in b ensures y in a {
        assert y in a || y in pool - a;
      }
      SubsetSize(b, a);
    }
  }
}
