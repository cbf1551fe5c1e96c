/** Several steps of a machine in a row, by one mover that nobody disturbs. */
module Steps {
  import opened Prelude

  /** The state after these actions, if each of them can be taken. */
  function Alone<S, A>(step: (S, A) -> Option<S>, s: S, actions: seq<A>): Option<S>
    decreases |actions|
  {
    if actions == [] then Some(s)
    else
      var next := step(s, actions[0]);
      if next.None? then None else Alone(step, next.value, actions[1..])
  }

  lemma AloneOne<S, A>(step: (S, A) -> Option<S>, s: S, a: A)
    ensures Alone(step, s, [a]) == step(s, a)
  {
    if step(s, a).Some? {
      assert [a][1..] == [];
      assert Alone(step, step(s, a).value, []) == step(s, a);
    }
  }

  lemma {:induction false} AloneThen<S, A>(step: (S, A) -> Option<S>, s: S, first: seq<A>, second: seq<A>)
    requires Alone(step, s, first).Some?
    ensures Alone(step, s, first + second) == Alone(step, Alone(step, s, first).value, second)
    decreases |first|
  {
    if first == [] {
      assert first + second == second;
    } else {
      AloneThen(step, step(s, first[0]).value, first[1..], second);
      assert (first + second)[1..] == first[1..] + second;
    }
  }

  /** One more action at the end. */
  lemma AloneMore<S, A>(step: (S, A) -> Option<S>, s: S, actions: seq<A>, a: A)
    requires Alone(step, s, actions).Some?
    ensures Alone(step, s, actions + [a]) == step(Alone(step, s, actions).value, a)
  {
    AloneThen(step, s, actions, [a]);
    AloneOne(step, Alone(step, s, actions).value, a);
  }
}
