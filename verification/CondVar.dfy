/** thread/synch.c: cv_wait, cv_signal and cv_broadcast on one condition variable and its
    lock, by any number of threads, interleaved between their lock operations.

    The lock is taken and released in one step, as SleepLock shows it may be. A thread that
    is taken off the channel's list can go on at once; in the code its waker still has to
    make it runnable, so every run of the code is one of these. What cv_wait does not do
    is hold one lock until it has the next: between releasing the lock and locking the
    channel there is a gap.
  */
module CondVar {
  import opened Locks

  /** cv_wait: Gap has released the lock and wants the channel; Commit holds the channel;
        Asleep is on its list; Again has been woken and wants the lock.
      cv_signal and cv_broadcast (all): Wake wants the channel. */
  datatype Pc = Out | Gap | Commit | Asleep | Again | Wake(all: bool)

  /** `mutex` is the lock and `wlock` the channel's spinlock, each with its holder. */
  datatype State = State(mutex: Holder, wlock: Holder, sleepers: seq<Tid>, pc: map<Tid, Pc>)

  function At(s: State, t: Tid): Pc {
    if t in s.pc then s.pc[t] else Out
  }

  datatype Step = Acquire | Release | CallWait | Lock | Sleep | Reacquire | CallWake(all: bool) | Take

  predicate Enabled(s: State, t: Tid, step: Step) {
    match step
    case Acquire => At(s, t) == Out && s.mutex == Free
    case Release => At(s, t) == Out && s.mutex == By(t)
    case CallWait => At(s, t) == Out
    case Lock => At(s, t) == Gap && s.wlock == Free
    case Sleep => At(s, t) == Commit
    case Reacquire => At(s, t) == Again && s.mutex == Free
    case CallWake(_) => At(s, t) == Out
    case Take => At(s, t).Wake? && s.wlock == Free
  }

  /** How many sleepers a waker takes off the list. */
  function Taken(s: State, all: bool): nat {
    if all || s.sleepers == [] then |s.sleepers| else 1
  }

  function Apply(s: State, t: Tid, step: Step): State
    requires Enabled(s, t, step)
  {
    match step
    case Acquire => s.(mutex := By(t))
    case Release => s.(mutex := Free)
    case CallWait => s.(pc := s.pc[t := Gap], mutex := if s.mutex == By(t) then Free else s.mutex)
    case Lock => s.(pc := s.pc[t := Commit], wlock := By(t))
    case Sleep => s.(pc := s.pc[t := Asleep], sleepers := s.sleepers + [t], wlock := Free)
    case Reacquire => s.(pc := s.pc[t := Out], mutex := By(t))
    case CallWake(all) => s.(pc := s.pc[t := Wake(all)])
    case Take =>
      var n := Taken(s, At(s, t).all);
      s.(pc := (map u | u in s.pc :: if u in s.sleepers[..n] then Again else s.pc[u])[t := Out],
         sleepers := s.sleepers[n..])
  }

  ghost predicate ThreadOk(s: State, t: Tid) {
    (At(s, t) == Commit <==> s.wlock == By(t)) && (At(s, t) == Asleep <==> t in s.sleepers)
  }

  ghost predicate Inv(s: State) {
    (forall t :: ThreadOk(s, t)) && forall i, j | 0 <= i < j < |s.sleepers| :: s.sleepers[i] != s.sleepers[j]
  }

  lemma Split(xs: seq<Tid>, n: nat, t: Tid)
    requires n <= |xs| && forall i, j | 0 <= i < j < |xs| :: xs[i] != xs[j]
    ensures t in xs[n..] <==> t in xs && t !in xs[..n]
  {
    assert xs == xs[..n] + xs[n..];
  }

  lemma StepKeeps(s: State, t: Tid, step: Step)
    requires Inv(s) && Enabled(s, t, step)
    ensures Inv(Apply(s, t, step))
  {
    var s' := Apply(s, t, step);
    assert ThreadOk(s, t);
    forall u ensures ThreadOk(s', u) {
      assert ThreadOk(s, u);
      if step == Take {
        Split(s.sleepers, Taken(s, At(s, t).all), u);
      }
    }
  }

  ghost predicate Initial(s: State) {
    s.mutex == Free && s.wlock == Free && s.sleepers == [] && s.pc == map[]
  }

  type Acts = seq<Act<Step>>

  ghost predicate ActAt(run: seq<State>, acts: Acts, i: nat)
    requires i < |acts| && i + 1 < |run|
  {
    Enabled(run[i], acts[i].t, acts[i].step) && run[i + 1] == Apply(run[i], acts[i].t, acts[i].step)
  }

  /** A run, with who did what. */
  ghost predicate Run(run: seq<State>, acts: Acts) {
    |run| == |acts| + 1 && Initial(run[0]) && forall i | 0 <= i < |acts| :: ActAt(run, acts, i)
  }

  lemma {:induction false} RunInv(run: seq<State>, acts: Acts, i: nat)
    requires Run(run, acts) && i < |run|
    ensures Inv(run[i])
  {
    if i > 0 {
      RunInv(run, acts, i - 1);
      assert ActAt(run, acts, i - 1);
      StepKeeps(run[i - 1], acts[i - 1].t, acts[i - 1].step);
    }
  }

  /** A thread in cv_wait that nobody has woken yet. */
  predicate Waits(p: Pc) {
    p == Gap || p == Commit || p == Asleep
  }

  // --- What a wakeup misses ----------------------------------------------------------

  /** When a waker takes the channel, each waiter is on the list or still in its gap. */
  lemma NobodyHalfway(run: seq<State>, acts: Acts, j: nat, t: Tid)
    requires Run(run, acts) && j < |acts| && acts[j].step == Take && Waits(At(run[j], t))
    ensures At(run[j], t) == if t in run[j].sleepers then Asleep else Gap
  {
    RunInv(run, acts, j);
    assert ActAt(run, acts, j) && ThreadOk(run[j], t);
  }

  /** A waiter that has called cv_wait at step i is in the gap until it locks the channel. */
  lemma {:induction false} GapUntilLock(run: seq<State>, acts: Acts, t: Tid, i: nat, j: nat)
    requires Run(run, acts) && i < j <= |acts| && acts[i] == Act(t, CallWait)
    requires forall k | i < k < j :: acts[k] != Act(t, CallWait)
    ensures At(run[j], t) == Gap <==> forall k | i < k < j :: acts[k] != Act(t, Lock)
    decreases j
  {
    assert ActAt(run, acts, j - 1);
    if i + 1 < j {
      GapUntilLock(run, acts, t, i, j - 1);
      RunInv(run, acts, j - 1);
      assert ThreadOk(run[j - 1], t);
      GapStep(run[j - 1], acts[j - 1].t, acts[j - 1].step, t);
    }
  }

  lemma GapStep(s: State, u: Tid, step: Step, t: Tid)
    requires Enabled(s, u, step) && ThreadOk(s, t) && !(u == t && step == CallWait)
    ensures At(Apply(s, u, step), t) == Gap <==> At(s, t) == Gap && !(u == t && step == Lock)
  {
    if step == Take && t in s.sleepers[..Taken(s, At(s, u).all)] {
      assert t in s.sleepers;
    }
  }

  /** A broadcast misses a waiter if and only if it takes the channel before the waiter does.
      All the others it wakes. */
  lemma BroadcastMisses(run: seq<State>, acts: Acts, t: Tid, i: nat, j: nat)
    requires Run(run, acts) && i < j < |acts| && acts[i] == Act(t, CallWait) && Waits(At(run[j], t))
    requires forall k | i < k < j :: acts[k] != Act(t, CallWait)
    requires acts[j].step == Take && At(run[j], acts[j].t) == Wake(true)
    ensures At(run[j + 1], t) == if exists k | i < k < j :: acts[k] == Act(t, Lock) then Again else Gap
  {
    NobodyHalfway(run, acts, j, t);
    GapUntilLock(run, acts, t, i, j);
    assert ActAt(run, acts, j);
    assert run[j].sleepers[..|run[j].sleepers|] == run[j].sleepers;
  }

  /** A signal wakes the first on the list, and nobody if and only if all the waiters there
      are have yet to take the channel. */
  lemma SignalMisses(run: seq<State>, acts: Acts, j: nat)
    requires Run(run, acts) && j < |acts| && acts[j].step == Take && At(run[j], acts[j].t) == Wake(false)
    ensures run[j].sleepers != [] ==>
              At(run[j], run[j].sleepers[0]) == Asleep && At(run[j + 1], run[j].sleepers[0]) == Again
    ensures (forall t :: Waits(At(run[j], t)) ==> At(run[j], t) == Gap) <==> run[j].sleepers == []
    ensures forall t | run[j].sleepers == [] || t != run[j].sleepers[0] ::
              Waits(At(run[j], t)) ==> At(run[j + 1], t) == At(run[j], t)
  {
    var s := run[j];
    RunInv(run, acts, j);
    assert ActAt(run, acts, j);
    forall t ensures Waits(At(s, t)) ==> At(s, t) == if t in s.sleepers then Asleep else Gap {
      assert ThreadOk(s, t);
    }
    if s.sleepers != [] {
      assert s.sleepers[0] in s.sleepers && ThreadOk(s, s.sleepers[0]);
      assert s.sleepers[..1] == [s.sleepers[0]];
    }
  }

  /** Whoever sleeps goes on sleeping until a waker takes the channel. */
  lemma {:induction false} SleepsOn(run: seq<State>, acts: Acts, t: Tid, i: nat, j: nat)
    requires Run(run, acts) && i <= j <= |acts| && At(run[i], t) == Asleep
    requires forall k | i <= k < j :: acts[k].step != Take
    ensures At(run[j], t) == Asleep
    decreases j
  {
    if i < j {
      SleepsOn(run, acts, t, i, j - 1);
      assert ActAt(run, acts, j - 1);
    }
  }

  // --- The lock and the return of cv_wait ------------------------------------------------

  /** Of lock_acquire and lock_release, and of coming back from and calling cv_wait, t has done
      one of the former last. */
  ghost predicate Owns(acts: Acts, t: Tid, n: nat)
    requires n <= |acts|
  {
    n > 0 &&
    if acts[n - 1].t == t && acts[n - 1].step in {Acquire, Reacquire} then true
    else if acts[n - 1].t == t && acts[n - 1].step in {Release, CallWait} then false
    else Owns(acts, t, n - 1)
  }

  /** The lock is where the calls say, so at most one thread owns it. */
  lemma {:induction false} MutexIs(run: seq<State>, acts: Acts, n: nat, t: Tid)
    requires Run(run, acts) && n <= |acts|
    ensures run[n].mutex == By(t) <==> Owns(acts, t, n)
  {
    if n > 0 {
      MutexIs(run, acts, n - 1, t);
      assert ActAt(run, acts, n - 1);
    }
  }

  /** t has called cv_wait at step i and was not back before n. */
  ghost predicate Since(run: seq<State>, acts: Acts, t: Tid, i: nat, n: nat)
    requires |acts| < |run|
  {
    i < n <= |acts| && acts[i] == Act(t, CallWait) && forall k | i < k < n :: At(run[k], t) != Out
  }

  /** A thread in cv_wait does not own the lock; when it is back it does, and it has been on
      the list and been taken off by a waker. */
  lemma {:induction false} WaitReturns(run: seq<State>, acts: Acts, t: Tid, i: nat, n: nat)
    requires Run(run, acts) && Since(run, acts, t, i, n)
    ensures if At(run[n], t) == Out then Owns(acts, t, n) && run[n].mutex == By(t) else !Owns(acts, t, n)
    ensures At(run[n], t) == Out || At(run[n], t) == Again ==>
              exists k | i < k < n :: acts[k].step == Take && At(run[k], t) == Asleep
    ensures At(run[n], t) != Out ==> Waits(At(run[n], t)) || At(run[n], t) == Again
    decreases n
  {
    assert ActAt(run, acts, n - 1);
    if i + 1 < n {
      WaitReturns(run, acts, t, i, n - 1);
      assert At(run[n - 1], t) != Out;
      RunInv(run, acts, n - 1);
      assert ThreadOk(run[n - 1], t) && ThreadOk(run[n - 1], acts[n - 1].t);
      MutexIs(run, acts, n, t);
      WaitStep(run[n - 1], acts[n - 1].t, acts[n - 1].step, t);
    }
  }

  lemma WaitStep(s: State, u: Tid, step: Step, t: Tid)
    requires Enabled(s, u, step) && ThreadOk(s, t) && (Waits(At(s, t)) || At(s, t) == Again)
    ensures var s' := Apply(s, u, step);
            && (Waits(At(s', t)) || At(s', t) == Again || At(s', t) == Out)
            && (At(s', t) == Out <==> u == t && step == Reacquire) && (At(s', t) == Out ==> s'.mutex == By(t))
            && (At(s', t) != Out && s'.mutex == By(t) ==> s.mutex == By(t))
            && (Waits(At(s, t)) && At(s', t) == Again ==> step == Take && At(s, t) == Asleep)
  {
    if step == Take && t in s.sleepers[..Taken(s, At(s, u).all)] {
      assert t in s.sleepers;
    }
  }

  ghost predicate CanMove(s: State, t: Tid) {
    exists step :: Enabled(s, t, step)
  }

  /** A thread waits for nothing but a waker, the lock, or a channel whose holder can go on. */
  lemma NeverStuck(run: seq<State>, acts: Acts, n: nat, t: Tid)
    requires Run(run, acts) && n <= |acts| && At(run[n], t) != Asleep
    ensures var s := run[n];
            || CanMove(s, t) || (At(s, t) == Again && s.mutex.By?)
            || ((At(s, t) == Gap || At(s, t).Wake?) && s.wlock.By? && CanMove(s, s.wlock.t))
  {
    RunInv(run, acts, n);
    var s := run[n];
    assert ThreadOk(s, t);
    if s.wlock.By? {
      assert ThreadOk(s, s.wlock.t);
      assert Enabled(s, s.wlock.t, Sleep);
    }
    var step :=
      match At(s, t)
      case Gap => Lock
      case Commit => Sleep
      case Again => Reacquire
      case Wake(_) => Take
      case _ => CallWait;
    assert Enabled(s, t, step) || s.wlock.By? || At(s, t) == Again;
  }

  // --- The order of waking ------------------------------------------------------------------

  lemma ListStep(s: State, t: Tid, step: Step)
    requires Inv(s) && Enabled(s, t, step)
    ensures var xs, xs' := s.sleepers, Apply(s, t, step).sleepers;
            if step == Sleep then t !in xs && xs' == xs + [t] else |xs'| <= |xs| && xs' == xs[|xs| - |xs'|..]
  {
    assert ThreadOk(s, t);
  }

  lemma {:induction false} Queued(run: seq<State>, acts: Acts, n: nat)
    requires Run(run, acts) && n <= |acts|
    ensures InOrder(acts, Sleep, n, run[n].sleepers)
  {
    if n > 0 {
      hide InOrder, Apply, Enabled, Inv;
      Queued(run, acts, n - 1);
      RunInv(run, acts, n - 1);
      assert ActAt(run, acts, n - 1);
      ListStep(run[n - 1], acts[n - 1].t, acts[n - 1].step);
      var xs, xs' := run[n - 1].sleepers, run[n].sleepers;
      OrderKept(acts, Sleep, n - 1, xs, if acts[n - 1].step == Sleep then 0 else |xs| - |xs'|);
    } else {
      assert run[0].sleepers == [];
    }
  }

  /** A signal wakes the one that has slept longest. */
  lemma SignalsLongest(run: seq<State>, acts: Acts, k: nat, t: Tid)
    requires Run(run, acts) && k < |acts| && acts[k].step == Take && At(run[k], acts[k].t) == Wake(false)
    requires At(run[k], t) == Asleep
    ensures At(run[k + 1], t) == Again <==>
              forall u | At(run[k], u) == Asleep && u != t :: Last(acts, t, Sleep, k) < Last(acts, u, Sleep, k)
  {
    RunInv(run, acts, k);
    Queued(run, acts, k);
    assert ActAt(run, acts, k);
    var s := run[k];
    forall u ensures At(s, u) == Asleep <==> u in s.sleepers {
      assert ThreadOk(s, u);
    }
    FirstIsOldest(acts, Sleep, k, s.sleepers, t);
    assert s.sleepers[..1] == [s.sleepers[0]];
  }

  // --- A lost wakeup -------------------------------------------------------------------

  ghost predicate Ends(run: seq<State>, acts: Acts, s: State) {
    Run(run, acts) && run[|acts|] == s
  }

  lemma Extend(run: seq<State>, acts: Acts, s: State, t: Tid, step: Step, s': State) returns (run': seq<State>)
    requires Ends(run, acts, s) && Enabled(s, t, step) && s' == Apply(s, t, step)
    ensures Ends(run', acts + [Act(t, step)], s')
  {
    hide Enabled, Apply, Initial;
    run' := run + [s'];
    var acts' := acts + [Act(t, step)];
    forall i | 0 <= i < |acts'| ensures ActAt(run', acts', i) {
      assert i < |acts| ==> ActAt(run, acts, i);
    }
  }

  /** t calls cv_wait with the lock; u then takes the lock and signals; and t goes to sleep. */
  function LostActs(t: Tid, u: Tid): Acts {
    [Act(t, Acquire), Act(t, CallWait), Act(u, Acquire), Act(u, CallWake(false)), Act(u, Take), Act(u, Release),
     Act(t, Lock), Act(t, Sleep)]
  }

  /** That is a run, and nobody is left to wake t. */
  lemma SignalLost(t: Tid, u: Tid) returns (run: seq<State>)
    requires t != u
    ensures Run(run, LostActs(t, u))
    ensures At(run[8], t) == Asleep && run[8].mutex == Free && forall v | v != t :: At(run[8], v) == Out
  {
    hide Run, Ends;
    var s := State(Free, Free, [], map[]);
    run := Start();
    run := Extend(run, [], s, t, Acquire, s.(mutex := By(t)));
    var acts := [Act(t, Acquire)];
    assert [] + acts == acts;
    run := Extend(run, acts, s.(mutex := By(t)), t, CallWait, s.(pc := map[t := Gap]));
    run := SignalMissed(run, acts + [Act(t, CallWait)], t, u);
    var s1 := s.(pc := map[t := Gap, u := Out]);
    acts := acts + [Act(t, CallWait)] + [Act(u, Acquire), Act(u, CallWake(false)), Act(u, Take), Act(u, Release)];
    var s2 := s.(pc := map[t := Commit, u := Out], wlock := By(t));
    run := Extend(run, acts, s1, t, Lock, s2);
    var s3 := s.(pc := map[t := Asleep, u := Out], sleepers := [t]);
    run := Extend(run, acts + [Act(t, Lock)], s2, t, Sleep, s3);
    assert acts + [Act(t, Lock)] + [Act(t, Sleep)] == LostActs(t, u);
    EndsIs(run, LostActs(t, u), s3);
  }

  lemma Start() returns (run: seq<State>)
    ensures Ends(run, [], State(Free, Free, [], map[]))
  {
    run := [State(Free, Free, [], map[])];
  }

  lemma EndsIs(run: seq<State>, acts: Acts, s: State)
    requires Ends(run, acts, s)
    ensures Run(run, acts) && |run| == |acts| + 1 && run[|acts|] == s
  {
  }

  /** The middle part: u's signal, with t in its gap. */
  lemma SignalMissed(run: seq<State>, acts: Acts, t: Tid, u: Tid) returns (run': seq<State>)
    requires t != u && Ends(run, acts, State(Free, Free, [], map[t := Gap]))
    ensures Ends(run', acts + [Act(u, Acquire), Act(u, CallWake(false)), Act(u, Take), Act(u, Release)],
                 State(Free, Free, [], map[t := Gap, u := Out]))
  {
    hide Run, Ends;
    var s := State(Free, Free, [], map[t := Gap]);
    var s1 := s.(mutex := By(u));
    run' := Extend(run, acts, s, u, Acquire, s1);
    var a1 := acts + [Act(u, Acquire)];
    var s2 := s1.(pc := map[t := Gap, u := Wake(false)]);
    run' := Extend(run', a1, s1, u, CallWake(false), s2);
    var a2 := a1 + [Act(u, CallWake(false))];
    var s3 := s1.(pc := map[t := Gap, u := Out]);
    assert Apply(s2, u, Take).pc == s3.pc;
    run' := Extend(run', a2, s2, u, Take, s3);
    var a3 := a2 + [Act(u, Take)];
    run' := Extend(run', a3, s3, u, Release, s3.(mutex := Free));
    assert a3 + [Act(u, Release)] ==
           acts + [Act(u, Acquire), Act(u, CallWake(false)), Act(u, Take), Act(u, Release)];
  }
}
