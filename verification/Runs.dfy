/** Runs of a step system: the state reached by a sequence of events. */
module Runs {

  function Fold<S, E>(step: (S, E) -> S, s: S, events: seq<E>): S {
    if events == [] then s else step(Fold(step, s, events[..|events| - 1]), events[|events| - 1])
  }

  lemma FoldSnoc<S, E>(step: (S, E) -> S, s: S, front: seq<E>, e: E)
    ensures Fold(step, s, front + [e]) == step(Fold(step, s, front), e)
  {
    assert (front + [e])[..|front|] == front;
  }

  lemma {:induction false} FoldConcat<S, E>(step: (S, E) -> S, s: S, a: seq<E>, b: seq<E>)
    ensures Fold(step, s, a + b) == Fold(step, Fold(step, s, a), b)
  {
    if b == [] {
      assert a + b == a;
    } else {
      assert (a + b)[..|a + b| - 1] == a + b[..|b| - 1];
      FoldConcat(step, s, a, b[..|b| - 1]);
    }
  }

  lemma FoldTwo<S, E>(step: (S, E) -> S, s: S, front: seq<E>, a: E, b: E)
    ensures Fold(step, s, front + [a, b]) == step(step(Fold(step, s, front), a), b)
  {
    FoldSnoc(step, s, front, a);
    FoldSnoc(step, s, front + [a], b);
    assert front + [a] + [b] == front + [a, b];
  }

  lemma FoldThree<S, E>(step: (S, E) -> S, s: S, front: seq<E>, a: E, b: E, c: E)
    ensures Fold(step, s, front + [a, b, c]) == step(step(step(Fold(step, s, front), a), b), c)
  {
    FoldTwo(step, s, front, a, b);
    FoldSnoc(step, s, front + [a, b], c);
    assert front + [a, b] + [c] == front + [a, b, c];
  }

  lemma FoldOneOf<S, E>(step: (S, E) -> S, s: S, a: E)
    ensures Fold(step, s, [a]) == step(s, a)
  {
    assert [a] == [] + [a];
  }

  lemma FoldTwoOf<S, E>(step: (S, E) -> S, s: S, a: E, b: E)
    ensures Fold(step, s, [a, b]) == step(step(s, a), b)
  {
    FoldTwo(step, s, [], a, b);
    assert [] + [a, b] == [a, b];
  }

  lemma FoldThreeOf<S, E>(step: (S, E) -> S, s: S, a: E, b: E, c: E)
    ensures Fold(step, s, [a, b, c]) == step(step(step(s, a), b), c)
  {
    FoldThree(step, s, [], a, b, c);
    assert [] + [a, b, c] == [a, b, c];
  }
}
