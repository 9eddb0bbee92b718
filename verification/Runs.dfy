/** Finite runs of a system whose steps may look back at any earlier state. */
module Runs {
  /** h lists the states, one more than the events; every event leads from the states so far to the next. */
  ghost predicate RunOf<S(!new), E(!new)>(h: seq<S>, es: seq<E>, start: S, step: (seq<S>, E, S) -> bool)
    decreases |es|
  {
    |h| == |es| + 1 &&
    if es == [] then h[0] == start
    else
      var n := |es| - 1;
      RunOf(h[..n + 1], es[..n], start, step) && step(h[..n + 1], es[n], h[n + 1])
  }

  ghost predicate Inductive<S(!new), E(!new)>(
      start: S, step: (seq<S>, E, S) -> bool, good: (seq<S>, seq<E>) -> bool)
  {
    && good([start], [])
    && forall g, fs, e, s {:trigger step(g, e, s), good(g, fs)} ::
         RunOf(g, fs, start, step) && good(g, fs) && step(g, e, s) ==> good(g + [s], fs + [e])
  }

  lemma {:induction false} Induction<S(!new), E(!new)>(
      h: seq<S>, es: seq<E>, start: S, step: (seq<S>, E, S) -> bool, good: (seq<S>, seq<E>) -> bool)
    requires RunOf(h, es, start, step) && Inductive(start, step, good)
    ensures good(h, es)
    decreases |es|
  {
    if es == [] {
      assert h == [start];
    } else {
      var n := |es| - 1;
      Induction(h[..n + 1], es[..n], start, step, good);
      assert h == h[..n + 1] + [h[n + 1]] && es == es[..n] + [es[n]];
    }
  }

  lemma {:induction false} StepAt<S(!new), E(!new)>(
      h: seq<S>, es: seq<E>, start: S, step: (seq<S>, E, S) -> bool, n: nat)
    requires RunOf(h, es, start, step) && n < |es|
    ensures |h| == |es| + 1 && step(h[..n + 1], es[n], h[n + 1])
    decreases |es|
  {
    if n < |es| - 1 {
      StepAt(h[..|es|], es[..|es| - 1], start, step, n);
      assert h[..|es|][..n + 1] == h[..n + 1];
    }
  }

  lemma {:induction false} FirstState<S(!new), E(!new)>(
      h: seq<S>, es: seq<E>, start: S, step: (seq<S>, E, S) -> bool)
    requires RunOf(h, es, start, step)
    ensures |h| == |es| + 1 && h[0] == start
    decreases |es|
  {
    if es != [] { FirstState(h[..|es|], es[..|es| - 1], start, step); }
  }

  /** A run of narrower steps is a run. */
  lemma {:induction false} Widen<S(!new), E(!new)>(
      h: seq<S>, es: seq<E>, start: S, step: (seq<S>, E, S) -> bool, wider: (seq<S>, E, S) -> bool)
    requires RunOf(h, es, start, step)
    requires forall g, e, s {:trigger step(g, e, s)} :: step(g, e, s) ==> wider(g, e, s)
    ensures RunOf(h, es, start, wider)
    decreases |es|
  {
    if es != [] { Widen(h[..|es|], es[..|es| - 1], start, step, wider); }
  }

  /** A run with one more step. */
  lemma Snoc<S(!new), E(!new)>(h: seq<S>, es: seq<E>, e: E, next: S, start: S, step: (seq<S>, E, S) -> bool)
    returns (g: seq<S>, fs: seq<E>)
    requires RunOf(h, es, start, step) && step(h, e, next)
    ensures RunOf(g, fs, start, step) && g == h + [next] && fs == es + [e]
    ensures |g| == |h| + 1 == |fs| + 1 && g[|h|] == next
  {
    g, fs := h + [next], es + [e];
    assert g[..|es| + 1] == h && fs[..|es|] == es;
  }
}
