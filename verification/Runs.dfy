/** What the runs of a step machine have in common. */
module Runs {
  import opened Results

  /** From s, `run` takes the first event and then the others. */
  predicate TakesFirst<S(==), E(==)>(step: (S, E) -> Option<S>, run: (S, seq<E>) -> Option<S>, s: S, events: seq<E>) {
    run(s, events) == if events == [] then Some(s)
                      else match step(s, events[0]) case None => None case Some(next) => run(next, events[1..])
  }

  ghost predicate IsRun<S(!new), E(!new)>(step: (S, E) -> Option<S>, run: (S, seq<E>) -> Option<S>) {
    forall s, events :: TakesFirst(step, run, s, events)
  }

  /** A run of a + b is a run of b from where a run of a ends. */
  lemma {:induction false} Append<S(!new), E(!new)>(step: (S, E) -> Option<S>, run: (S, seq<E>) -> Option<S>, s: S,
                                                    a: seq<E>, b: seq<E>)
    requires IsRun(step, run) && run(s, a).Some?
    ensures run(s, a + b) == run(run(s, a).value, b)
    decreases |a|
  {
    assert TakesFirst(step, run, s, a) && TakesFirst(step, run, s, a + b);
    if a == [] {
      assert a + b == b;
    } else {
      assert (a + b)[0] == a[0] && (a + b)[1..] == a[1..] + b;
      Append(step, run, step(s, a[0]).value, a[1..], b);
    }
  }
}
