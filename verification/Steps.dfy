/** Runs of a machine that answers each step with a new state and some commands. */
module Steps {

  datatype Result<S, C> = Result(state: S, commands: seq<C>)

  function StepAll<S, A, C>(step: (S, A) -> Result<S, C>, s: S, acts: seq<A>): Result<S, C> {
    if acts == [] then Result(s, [])
    else
      var front := StepAll(step, s, acts[..|acts| - 1]);
      var last := step(front.state, acts[|acts| - 1]);
      Result(last.state, front.commands + last.commands)
  }

  lemma StepThen<S, A, C>(step: (S, A) -> Result<S, C>, s: S, acts: seq<A>, act: A)
    ensures var front := StepAll(step, s, acts);
            var last := step(front.state, act);
            StepAll(step, s, acts + [act]) == Result(last.state, front.commands + last.commands)
  {
  }

  lemma StepOnce<S, A, C>(step: (S, A) -> Result<S, C>, s: S, act: A)
    ensures StepAll(step, s, [act]) == step(s, act)
  {
  }

  lemma {:induction false} StepAppend<S, A, C>(step: (S, A) -> Result<S, C>, s: S, xs: seq<A>, ys: seq<A>)
    ensures var first := StepAll(step, s, xs);
            var second := StepAll(step, first.state, ys);
            StepAll(step, s, xs + ys) == Result(second.state, first.commands + second.commands)
  {
    if ys == [] {
      assert xs + ys == xs;
    } else {
      var front, last := ys[..|ys| - 1], ys[|ys| - 1];
      StepAppend(step, s, xs, front);
      assert xs + ys == (xs + front) + [last];
      StepThen(step, s, xs + front, last);
    }
  }

  function Mapped<A, B>(f: B -> A, bs: seq<B>): seq<A> {
    if bs == [] then [] else Mapped(f, bs[..|bs| - 1]) + [f(bs[|bs| - 1])]
  }

  /** A machine that steps on `f(b)` as another steps on `b` runs as the other does. */
  lemma {:induction false} StepMapped<S(!new), A, B(!new), C>(
      step: (S, A) -> Result<S, C>, other: (S, B) -> Result<S, C>, f: B -> A, s: S, bs: seq<B>)
    requires forall t, b :: step(t, f(b)) == other(t, b)
    ensures StepAll(step, s, Mapped(f, bs)) == StepAll(other, s, bs)
  {
    if bs != [] {
      var front, last := bs[..|bs| - 1], bs[|bs| - 1];
      StepMapped(step, other, f, s, front);
      StepThen(step, s, Mapped(f, front), f(last));
    }
  }
}
