/** Series of changes to a state, and series in general. */
module Series {

  /** The state after a series of changes. */
  function Fold<S, C>(step: (S, C) -> S, s: S, changes: seq<C>): S {
    if changes == [] then s else step(Fold(step, s, changes[..|changes|-1]), changes[|changes|-1])
  }

  lemma {:induction false} FoldAppend<S, C>(step: (S, C) -> S, s: S, a: seq<C>, b: seq<C>)
    ensures Fold(step, s, a + b) == Fold(step, Fold(step, s, a), b)
  {
    if b == [] {
      assert a + b == a;
    } else {
      assert (a + b)[..|a + b| - 1] == a + b[..|b|-1];
      FoldAppend(step, s, a, b[..|b|-1]);
    }
  }

  lemma Regroup<T>(a: seq<T>, b: seq<T>, c: seq<T>)
    ensures (a + b) + c == a + (b + c)
  {
  }
}
