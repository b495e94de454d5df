/** Threads, the holder of a spinlock, and who did what in a run. */
module Locks {
  type Tid = nat

  datatype Holder = Free | By(t: Tid)

  datatype Act<S> = Act(t: Tid, step: S)

  /** One more than the index of t's last `step` among the first n acts; 0 if it did none. */
  function Last<S(==)>(acts: seq<Act<S>>, t: Tid, step: S, n: nat): nat
    requires n <= |acts|
  {
    if n == 0 then 0 else if acts[n - 1] == Act(t, step) then n else Last(acts, t, step, n - 1)
  }

  /** The list is in the order in which its threads last did `step`. */
  ghost predicate InOrder<S>(acts: seq<Act<S>>, step: S, n: nat, xs: seq<Tid>)
    requires n <= |acts|
  {
    forall p, q | 0 <= p < q < |xs| :: Last(acts, xs[p], step, n) < Last(acts, xs[q], step, n)
  }

  lemma LastBound<S>(acts: seq<Act<S>>, t: Tid, step: S, n: nat)
    requires n <= |acts|
    ensures Last(acts, t, step, n) <= n
  {
  }

  /** A thread that has done the step last joins at the end, and anything may leave at the front. */
  lemma OrderKept<S>(acts: seq<Act<S>>, step: S, n: nat, xs: seq<Tid>, k: nat)
    requires n < |acts| && InOrder(acts, step, n, xs) && k <= |xs|
    ensures acts[n].step == step && acts[n].t !in xs ==> InOrder(acts, step, n + 1, xs + [acts[n].t])
    ensures acts[n].step != step ==> InOrder(acts, step, n + 1, xs[k..])
  {
    forall t ensures Last(acts, t, step, n) <= n {
      LastBound(acts, t, step, n);
    }
  }

  /** The first of such a list is the one who did the step longest ago. */
  lemma FirstIsOldest<S>(acts: seq<Act<S>>, step: S, n: nat, xs: seq<Tid>, t: Tid)
    requires n <= |acts| && InOrder(acts, step, n, xs) && t in xs
    ensures t == xs[0] <==> forall u | u in xs && u != t :: Last(acts, t, step, n) < Last(acts, u, step, n)
  {
    assert t != xs[0] ==> xs[0] in xs;
  }
}
