/** Runs of a step function over the lines of a stream. */
module Streams {

  function Fold<S, L>(step: (S, L) -> S, init: S, lines: seq<L>): S
  {
    if lines == [] then init
    else step(Fold(step, init, lines[..|lines| - 1]), lines[|lines| - 1])
  }

  lemma FoldSnoc<S, L>(step: (S, L) -> S, init: S, lines: seq<L>, last: L)
    ensures Fold(step, init, lines + [last]) == step(Fold(step, init, lines), last)
  {
    assert (lines + [last])[..|lines|] == lines;
  }

  lemma {:induction false} FoldConcat<S, L>(step: (S, L) -> S, init: S, a: seq<L>, b: seq<L>)
    ensures Fold(step, init, a + b) == Fold(step, Fold(step, init, a), b)
  {
    if b == [] {
      assert a + b == a;
    } else {
      var front, last := b[..|b| - 1], b[|b| - 1];
      assert a + b == (a + front) + [last] && b == front + [last];
      FoldSnoc(step, init, a + front, last);
      FoldConcat(step, init, a, front);
    }
  }

  /** A state that no line changes ends the run. */
  lemma {:induction false} FoldStops<S, L(!new)>(step: (S, L) -> S, init: S, a: seq<L>, b: seq<L>)
    requires b == [] || forall l :: step(Fold(step, init, a), l) == Fold(step, init, a)
    ensures Fold(step, init, a + b) == Fold(step, init, a)
  {
    if b == [] {
      assert a + b == a;
    } else {
      FoldStops(step, init, a, b[..|b| - 1]);
      assert a + b == (a + b[..|b| - 1]) + [b[|b| - 1]];
      FoldSnoc(step, init, a + b[..|b| - 1], b[|b| - 1]);
    }
  }

  /** Lines that step alike from every state give the same run, at every prefix. */
  lemma {:induction false} FoldCongruence<S(!new), L>(step: (S, L) -> S, init: S, a: seq<L>, b: seq<L>, n: nat)
    requires |a| == |b| && n <= |a|
    requires forall i, st | 0 <= i < n :: step(st, a[i]) == step(st, b[i])
    ensures Fold(step, init, a[..n]) == Fold(step, init, b[..n])
  {
    if n > 0 {
      FoldCongruence(step, init, a, b, n - 1);
      assert a[..n] == a[..n - 1] + [a[n - 1]] && b[..n] == b[..n - 1] + [b[n - 1]];
      FoldSnoc(step, init, a[..n - 1], a[n - 1]);
      FoldSnoc(step, init, b[..n - 1], b[n - 1]);
    }
  }

  /** If no step takes output back, no continuation of the stream does. */
  lemma {:induction false} FoldGrows<S(!new), L(!new), T>(step: (S, L) -> S, init: S, out: S -> seq<T>, a: seq<L>, b: seq<L>)
    requires forall st, l :: out(st) <= out(step(st, l))
    ensures out(Fold(step, init, a)) <= out(Fold(step, init, a + b))
  {
    if b == [] {
      assert a + b == a;
    } else {
      var front, last := b[..|b| - 1], b[|b| - 1];
      assert a + b == (a + front) + [last];
      FoldSnoc(step, init, a + front, last);
      FoldGrows(step, init, out, a, front);
    }
  }

  lemma FoldPrefix<S, L>(step: (S, L) -> S, init: S, a: seq<L>, b: seq<L>, n: nat)
    requires n <= |b|
    ensures Fold(step, init, (a + b)[..|a| + n]) == Fold(step, Fold(step, init, a), b[..n])
  {
    assert (a + b)[..|a| + n] == a + b[..n];
    FoldConcat(step, init, a, b[..n]);
  }
}
