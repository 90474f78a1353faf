/** Filtering sequences, and what it keeps. */
module Sequences {

  /** The elements that `keep` holds of, in order. */
  function Filter<T>(xs: seq<T>, keep: T -> bool): (kept: seq<T>)
    ensures forall x :: x in kept ==> x in xs && keep(x)
    ensures forall x :: x in xs && keep(x) ==> x in kept
  {
    if xs == [] then []
    else
      var front, last := xs[..|xs| - 1], xs[|xs| - 1];
      assert xs == front + [last];
      if keep(last) then Filter(front, keep) + [last] else Filter(front, keep)
  }

  function Not<T>(keep: T -> bool): T -> bool {
    (x: T) => !keep(x)
  }

  /** Filtering one element at a time, from the front. */
  lemma FilterStep<T>(xs: seq<T>, i: nat, keep: T -> bool)
    requires i < |xs|
    ensures Filter(xs[..i + 1], keep) == if keep(xs[i]) then Filter(xs[..i], keep) + [xs[i]] else Filter(xs[..i], keep)
  {
    assert xs[..i + 1][..i] == xs[..i];
  }

  /** Moving the front of a partly rotated sequence to its back. */
  lemma Rotation<T>(xs: seq<T>, i: nat, back: seq<T>)
    requires i < |xs|
    ensures (xs[i..] + back)[0] == xs[i]
    ensures (xs[i..] + back)[1..] == xs[i + 1..] + back
    ensures (xs[i..] + back)[1..] + [xs[i]] == xs[i + 1..] + (back + [xs[i]])
  {
  }

  lemma {:induction false} FilterCounts<T>(xs: seq<T>, keep: T -> bool, x: T)
    ensures multiset(Filter(xs, keep))[x] == if keep(x) then multiset(xs)[x] else 0
  {
    if xs != [] {
      FilterCounts(xs[..|xs| - 1], keep, x);
      assert xs == xs[..|xs| - 1] + [xs[|xs| - 1]];
    }
  }

  /** What is kept and what is left out make up the whole. */
  lemma {:induction false} FilterPartitions<T>(xs: seq<T>, keep: T -> bool)
    ensures multiset(Filter(xs, keep)) + multiset(Filter(xs, Not(keep))) == multiset(xs)
  {
    if xs != [] {
      var front, last := xs[..|xs| - 1], xs[|xs| - 1];
      assert xs == front + [last];
      FilterPartitions(front, keep);
      OneMoreOnEitherSide(front, Filter(front, keep), Filter(front, Not(keep)), last);
    }
  }

  lemma OneMoreOnEitherSide<T>(all: seq<T>, a: seq<T>, b: seq<T>, x: T)
    requires multiset(a) + multiset(b) == multiset(all)
    ensures multiset(a + [x]) + multiset(b) == multiset(all + [x]) == multiset(a) + multiset(b + [x])
  {
  }

  lemma FilterIgnoresOrder<T(!new)>(xs: seq<T>, ys: seq<T>, keep: T -> bool)
    requires multiset(xs) == multiset(ys)
    ensures multiset(Filter(xs, keep)) == multiset(Filter(ys, keep))
  {
    forall x ensures multiset(Filter(xs, keep))[x] == multiset(Filter(ys, keep))[x] {
      FilterCounts(xs, keep, x);
      FilterCounts(ys, keep, x);
    }
  }

  lemma {:induction false} FilterIsShorter<T>(xs: seq<T>, keep: T -> bool)
    ensures |Filter(xs, keep)| <= |xs|
  {
    if xs != [] {
      FilterIsShorter(xs[..|xs| - 1], keep);
    }
  }

  /** `a` is `b` with some elements left out. */
  ghost predicate IsSubsequence<T>(a: seq<T>, b: seq<T>) {
    || a == []
    || (b != [] && a[|a| - 1] == b[|b| - 1] && IsSubsequence(a[..|a| - 1], b[..|b| - 1]))
    || (b != [] && IsSubsequence(a, b[..|b| - 1]))
  }

  lemma {:induction false} SubsequenceOfItself<T>(a: seq<T>)
    ensures IsSubsequence(a, a)
  {
    if a != [] {
      SubsequenceOfItself(a[..|a| - 1]);
    }
  }

  lemma {:induction false} SubsequenceTransitive<T>(a: seq<T>, b: seq<T>, c: seq<T>)
    requires IsSubsequence(a, b) && IsSubsequence(b, c)
    ensures IsSubsequence(a, c)
    decreases |c|
  {
    if a != [] {
      if b[|b| - 1] == c[|c| - 1] && IsSubsequence(b[..|b| - 1], c[..|c| - 1]) {
        if a[|a| - 1] == b[|b| - 1] && IsSubsequence(a[..|a| - 1], b[..|b| - 1]) {
          SubsequenceTransitive(a[..|a| - 1], b[..|b| - 1], c[..|c| - 1]);
        } else {
          SubsequenceTransitive(a, b[..|b| - 1], c[..|c| - 1]);
        }
      } else {
        SubsequenceTransitive(a, b, c[..|c| - 1]);
      }
    }
  }

  lemma SubsequenceGrows<T>(a: seq<T>, b: seq<T>, x: T)
    requires IsSubsequence(a, b)
    ensures IsSubsequence(a, b + [x]) && IsSubsequence(a + [x], b + [x])
  {
  }

  lemma {:induction false} DropFirstIsSubsequence<T>(a: seq<T>)
    requires a != []
    ensures IsSubsequence(a[1..], a)
  {
    if |a| > 1 {
      var front, last := a[..|a| - 1], a[|a| - 1];
      DropFirstIsSubsequence(front);
      SubsequenceGrows(front[1..], front, last);
      assert a == front + [last] && a[1..] == front[1..] + [last];
    }
  }

  lemma {:induction false} FilterIsSubsequence<T>(xs: seq<T>, keep: T -> bool)
    ensures IsSubsequence(Filter(xs, keep), xs)
  {
    if xs != [] {
      var front, last := xs[..|xs| - 1], xs[|xs| - 1];
      assert xs == front + [last];
      FilterIsSubsequence(front, keep);
      SubsequenceGrows(Filter(front, keep), front, last);
    }
  }

  lemma {:induction false} SubsequenceAfter<T>(front: seq<T>, a: seq<T>, b: seq<T>)
    requires IsSubsequence(a, b)
    ensures IsSubsequence(front + a, front + b)
    decreases |b|
  {
    if b == [] {
      SubsequenceOfItself(front + a);
    } else {
      var rest, last := b[..|b| - 1], b[|b| - 1];
      assert front + b == (front + rest) + [last];
      if a != [] && a[|a| - 1] == last && IsSubsequence(a[..|a| - 1], rest) {
        SubsequenceAfter(front, a[..|a| - 1], rest);
        SubsequenceGrows(front + a[..|a| - 1], front + rest, last);
        assert front + a == (front + a[..|a| - 1]) + [last];
      } else {
        SubsequenceAfter(front, a, rest);
        SubsequenceGrows(front + a, front + rest, last);
      }
    }
  }

  lemma {:induction false} BackIsSubsequence<T>(front: seq<T>, a: seq<T>)
    ensures IsSubsequence(a, front + a)
  {
    if a != [] {
      BackIsSubsequence(front, a[..|a| - 1]);
      SubsequenceGrows(a[..|a| - 1], front + a[..|a| - 1], a[|a| - 1]);
      assert a == a[..|a| - 1] + [a[|a| - 1]] && front + a == (front + a[..|a| - 1]) + [a[|a| - 1]];
    }
  }
}
