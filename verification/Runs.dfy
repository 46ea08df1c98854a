/** A state machine taking one event after the other. */
module Runs {
  function Fold<S, E>(next: (S, E) -> S, s: S, run: seq<E>): S
    decreases |run|
  {
    if run == [] then s else Fold(next, next(s, run[0]), run[1..])
  }

  lemma {:induction false} FoldAppend<S, E>(next: (S, E) -> S, s: S, a: seq<E>, b: seq<E>)
    ensures Fold(next, s, a + b) == Fold(next, Fold(next, s, a), b)
    decreases |a|
  {
    if a == [] {
      assert a + b == b;
    } else {
      assert (a + b)[0] == a[0] && (a + b)[1..] == a[1..] + b;
      FoldAppend(next, next(s, a[0]), a[1..], b);
    }
  }

  lemma FoldTwo<S, E>(next: (S, E) -> S, s: S, e1: E, e2: E)
    ensures Fold(next, s, [e1, e2]) == next(next(s, e1), e2)
  {
    assert [e1, e2][1..] == [e2] && [e2][1..] == [];
    assert Fold(next, next(s, e1), [e2]) == next(next(s, e1), e2);
  }

  lemma FoldThree<S, E>(next: (S, E) -> S, s: S, e1: E, e2: E, e3: E)
    ensures Fold(next, s, [e1, e2, e3]) == next(next(next(s, e1), e2), e3)
  {
    assert [e1, e2, e3][1..] == [e2, e3];
    FoldTwo(next, next(s, e1), e2, e3);
  }

  lemma FoldFour<S, E>(next: (S, E) -> S, s: S, e1: E, e2: E, e3: E, e4: E)
    ensures Fold(next, s, [e1, e2, e3, e4]) == next(next(next(next(s, e1), e2), e3), e4)
  {
    assert [e1, e2, e3, e4][1..] == [e2, e3, e4];
    FoldThree(next, next(s, e1), e2, e3, e4);
  }
}
