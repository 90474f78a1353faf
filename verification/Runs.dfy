/** Runs of a state machine: what holds after every event, and what every step meets. */
module Runs {

  function After<S, E>(step: (S, E) -> S, start: S, events: seq<E>): S {
    if events == [] then start
    else step(After(step, start, events[..|events| - 1]), events[|events| - 1])
  }

  /** `holds` at the start and after every event. */
  predicate Throughout<S, E>(step: (S, E) -> S, start: S, events: seq<E>, holds: S -> bool) {
    && holds(After(step, start, events))
    && (events == [] || Throughout(step, start, events[..|events| - 1], holds))
  }

  /** Every event meets `ok` in the state it comes in. */
  predicate EveryStep<S, E>(step: (S, E) -> S, start: S, events: seq<E>, ok: (S, E) -> bool) {
    || events == []
    || (&& EveryStep(step, start, events[..|events| - 1], ok)
        && ok(After(step, start, events[..|events| - 1]), events[|events| - 1]))
  }

  /** A step that meets `ok` keeps `inv`. */
  ghost predicate Keeps<S(!new), E(!new)>(step: (S, E) -> S, inv: S -> bool, ok: (S, E) -> bool) {
    forall s, e :: inv(s) && ok(s, e) ==> inv(step(s, e))
  }

  lemma {:induction false} KeptThroughout<S(!new), E(!new)>(
      step: (S, E) -> S, start: S, events: seq<E>, inv: S -> bool, ok: (S, E) -> bool)
    requires inv(start) && Keeps(step, inv, ok) && EveryStep(step, start, events, ok)
    ensures Throughout(step, start, events, inv)
  {
    if events != [] {
      KeptThroughout(step, start, events[..|events| - 1], inv, ok);
    }
  }

  /** Under `inv`, a step that meets `ok` keeps `holds` exactly when it is `safe`. */
  ghost predicate KeepsIff<S(!new), E(!new)>(
      step: (S, E) -> S, inv: S -> bool, ok: (S, E) -> bool, holds: S -> bool, safe: (S, E) -> bool)
  {
    forall s, e :: inv(s) && ok(s, e) && holds(s) ==> (holds(step(s, e)) <==> safe(s, e))
  }

  /** What every step keeps exactly when it is safe holds throughout exactly when all steps are safe. */
  lemma {:induction false} HeldThroughoutIff<S(!new), E(!new)>(
      step: (S, E) -> S, start: S, events: seq<E>,
      inv: S -> bool, ok: (S, E) -> bool, holds: S -> bool, safe: (S, E) -> bool)
    requires inv(start) && Keeps(step, inv, ok) && EveryStep(step, start, events, ok)
    requires holds(start) && KeepsIff(step, inv, ok, holds, safe)
    ensures Throughout(step, start, events, holds) <==> EveryStep(step, start, events, safe)
  {
    if events != [] {
      HeldThroughoutIff(step, start, events[..|events| - 1], inv, ok, holds, safe);
      KeptThroughout(step, start, events[..|events| - 1], inv, ok);
    }
  }

  /** What the event at each position keeps holds after the first `count` events. */
  lemma {:induction false} KeptAtEach<S(!new), E>(
      step: (S, E) -> S, start: S, events: seq<E>, inv: (nat, S) -> bool, count: nat)
    requires count <= |events| && inv(0, start)
    requires forall i: nat, s :: i < |events| && inv(i, s) ==> inv(i + 1, step(s, events[i]))
    ensures inv(count, After(step, start, events[..count]))
    decreases count
  {
    if count == 0 {
      assert events[..0] == [];
    } else {
      KeptAtEach(step, start, events, inv, count - 1);
      assert events[..count][..count - 1] == events[..count - 1];
    }
  }

  lemma {:induction false} AfterAppend<S, E>(step: (S, E) -> S, start: S, xs: seq<E>, ys: seq<E>)
    ensures After(step, start, xs + ys) == After(step, After(step, start, xs), ys)
  {
    if ys == [] {
      assert xs + ys == xs;
    } else {
      AfterAppend(step, start, xs, ys[..|ys| - 1]);
      assert (xs + ys)[..|xs + ys| - 1] == xs + ys[..|ys| - 1];
    }
  }

  lemma AfterTwo<S, E>(step: (S, E) -> S, start: S, a: E, b: E)
    ensures After(step, start, [a, b]) == step(step(start, a), b)
  {
    assert [a, b][..1] == [a] && [a][..0] == [];
    assert After(step, start, [a]) == step(start, a);
  }
}
