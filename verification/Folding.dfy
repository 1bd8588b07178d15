// Runs as folds, for any state and any events: a coarse step that expands into finer events, and what
// holds at every position of the finer run.
module Folding {
  import opened Common

  // Folding a step over a sequence of events, from the left.
  function Fold<S, E>(step: (S, E) -> S, s: S, es: seq<E>): S
    decreases |es|
  {
    if es == [] then s else step(Fold(step, s, es[..|es| - 1]), es[|es| - 1])
  }

  lemma FoldSnoc<S, E>(step: (S, E) -> S, s: S, es: seq<E>, e: E)
    ensures Fold(step, s, es + [e]) == step(Fold(step, s, es), e)
  {
    assert (es + [e])[..|es|] == es;
  }

  lemma {:induction false} FoldConcat<S, E>(step: (S, E) -> S, s: S, a: seq<E>, b: seq<E>)
    ensures Fold(step, s, a + b) == Fold(step, Fold(step, s, a), b)
    decreases |b|
  {
    if b == [] {
      assert a + b == a;
    } else {
      var front, last := b[..|b| - 1], b[|b| - 1];
      FoldConcat(step, s, a, front);
      FoldSnoc(step, s, a + front, last);
      assert a + b == a + front + [last];
    }
  }

  // ---------------------------------------------------------------- expanding coarse steps

  // The events of a run of coarse steps, each expanded in the state it is taken in.
  function Expansion<S, T, E>(step: (S, E) -> S, expand: (S, T) -> seq<E>, s: S, ts: seq<T>): seq<E>
    decreases |ts|
  {
    if ts == [] then []
    else
      var before := Expansion(step, expand, s, ts[..|ts| - 1]);
      before + expand(Fold(step, s, before), ts[|ts| - 1])
  }

  lemma ExpansionSnoc<S, T, E>(step: (S, E) -> S, expand: (S, T) -> seq<E>, s: S, front: seq<T>, last: T)
    ensures var before := Expansion(step, expand, s, front);
            Expansion(step, expand, s, front + [last]) == before + expand(Fold(step, s, before), last)
  {
    assert (front + [last])[..|front|] == front;
  }

  lemma {:induction false} ExpansionGrows<S, T, E>(step: (S, E) -> S, expand: (S, T) -> seq<E>, s: S, ts: seq<T>, n: nat)
    requires n <= |ts|
    ensures Expansion(step, expand, s, ts[..n]) <= Expansion(step, expand, s, ts)
    decreases |ts|
  {
    if n == |ts| {
      assert ts[..n] == ts;
    } else {
      var front, last := ts[..|ts| - 1], ts[|ts| - 1];
      ExpansionGrows(step, expand, s, front, n);
      ExpansionSnoc(step, expand, s, front, last);
      assert front[..n] == ts[..n] && front + [last] == ts;
    }
  }

  // ss is a run of coarse steps that do what their expansions do.
  ghost predicate IsCoarseRun<S(!new), T(!new), E(!new)>(step: (S, E) -> S, expand: (S, T) -> seq<E>,
                                                         ts: seq<T>, ss: seq<S>) {
    && |ss| == |ts| + 1
    && forall n: nat {:trigger Moment(n)} ::
         n < |ts| && Moment(n) ==> ss[n + 1] == Fold(step, ss[n], expand(ss[n], ts[n]))
  }

  lemma {:induction false} CoarseState<S(!new), T(!new), E(!new)>(step: (S, E) -> S, expand: (S, T) -> seq<E>,
                                                                   ts: seq<T>, ss: seq<S>, n: nat)
    requires IsCoarseRun(step, expand, ts, ss) && n <= |ts|
    ensures ss[n] == Fold(step, ss[0], Expansion(step, expand, ss[0], ts[..n]))
  {
    if n > 0 {
      var front := ts[..n - 1];
      CoarseState(step, expand, ts, ss, n - 1);
      assert Moment(n - 1);
      ExpansionSnoc(step, expand, ss[0], front, ts[n - 1]);
      FoldConcat(step, ss[0], Expansion(step, expand, ss[0], front), expand(ss[n - 1], ts[n - 1]));
      assert ts[..n] == front + [ts[n - 1]];
    }
  }

  // ---------------------------------------------------------------- conditions on neighbours

  // A condition on a state, the event taken in it and the event after that, if any.
  type Condition<!S, !E> = (S, E, Option<E>) -> bool

  function EventAt<E>(es: seq<E>, j: nat): Option<E> {
    if j < |es| then Some(es[j]) else None
  }

  predicate HoldsAt<S, E>(step: (S, E) -> S, holds: Condition<S, E>, s: S, es: seq<E>, j: nat)
    requires j < |es|
  {
    holds(Fold(step, s, es[..j]), es[j], EventAt(es, j + 1))
  }

  ghost predicate Holds<S, E>(step: (S, E) -> S, holds: Condition<S, E>, s: S, es: seq<E>) {
    forall j :: 0 <= j < |es| ==> HoldsAt(step, holds, s, es, j)
  }

  // The condition does not mind an event following where there was none.
  ghost predicate Extensible<S(!new), E(!new)>(holds: Condition<S, E>) {
    forall s: S, e: E, next: Option<E> :: holds(s, e, None) ==> holds(s, e, next)
  }

  lemma HoldsEarlier<S(!new), E(!new)>(step: (S, E) -> S, holds: Condition<S, E>, s: S, a: seq<E>, b: seq<E>, j: nat)
    requires Extensible(holds) && j < |a| && HoldsAt(step, holds, s, a, j)
    ensures HoldsAt(step, holds, s, a + b, j)
  {
    assert (a + b)[..j] == a[..j];
    assert EventAt(a, j + 1) == None || EventAt(a, j + 1) == EventAt(a + b, j + 1);
  }

  lemma HoldsLater<S, E>(step: (S, E) -> S, holds: Condition<S, E>, s: S, a: seq<E>, b: seq<E>, j: nat)
    requires j < |b| && HoldsAt(step, holds, Fold(step, s, a), b, j)
    ensures HoldsAt(step, holds, s, a + b, |a| + j)
  {
    assert (a + b)[..|a| + j] == a + b[..j];
    FoldConcat(step, s, a, b[..j]);
    assert EventAt(b, j + 1) == EventAt(a + b, |a| + j + 1);
  }

  lemma HoldsConcat<S(!new), E(!new)>(step: (S, E) -> S, holds: Condition<S, E>, s: S, a: seq<E>, b: seq<E>)
    requires Extensible(holds) && Holds(step, holds, s, a) && Holds(step, holds, Fold(step, s, a), b)
    ensures Holds(step, holds, s, a + b)
  {
    forall j | 0 <= j < |a + b| ensures HoldsAt(step, holds, s, a + b, j) {
      if j < |a| {
        HoldsEarlier(step, holds, s, a, b, j);
      } else {
        HoldsLater(step, holds, s, a, b, j - |a|);
      }
    }
  }

  // What every coarse step's expansion meets, the whole expansion meets.
  lemma {:induction false} ExpansionHolds<S(!new), T(!new), E(!new)>(step: (S, E) -> S, expand: (S, T) -> seq<E>,
                                                                      holds: Condition<S, E>, s: S, ts: seq<T>)
    requires Extensible(holds)
    requires forall c: S, k: nat :: k < |ts| ==> Holds(step, holds, c, expand(c, ts[k]))
    ensures Holds(step, holds, s, Expansion(step, expand, s, ts))
    decreases |ts|
  {
    if ts != [] {
      var front, last := ts[..|ts| - 1], ts[|ts| - 1];
      assert forall k: nat :: k < |front| ==> front[k] == ts[k];
      ExpansionHolds(step, expand, holds, s, front);
      var before := Expansion(step, expand, s, front);
      var c := Fold(step, s, before);
      assert Holds(step, holds, c, expand(c, ts[|ts| - 1]));
      HoldsConcat(step, holds, s, before, expand(c, last));
    }
  }
}
