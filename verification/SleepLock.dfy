/** thread/synch.c: lock_acquire and lock_release on one lock, by any number of threads,
    interleaved between their lock operations; the assignments to `held` and `holder`
    are steps of their own.

    `lock` is lk_lock and `wlock` the wait channel's spinlock, each with its holder.
  */
module SleepLock {
  import opened Locks

  /** lock_acquire: AWant wants lk_lock; ABlock has seen a holder and, with lk_lock held,
        wants the channel; ACommit holds the channel only; Asleep is on it; AHand is in
        a releaser's hand; ATaken has set holder but not yet held.
      lock_release: RWant wants lk_lock; RDrop has cleared held but not yet holder; RWake
        has cleared both and wants the channel; RPut has a sleeper in hand; RDone is
        about to release lk_lock. */
  datatype Pc =
    | Out
    | AWant | ABlock | ACommit | Asleep | AHand | ATaken
    | RWant | RDrop | RWake | RPut(target: Tid) | RDone

  datatype State = State(held: bool, holder: Holder, lock: Holder, wlock: Holder, sleepers: seq<Tid>, pc: map<Tid, Pc>)

  function At(s: State, t: Tid): Pc {
    if t in s.pc then s.pc[t] else Out
  }

  datatype Step = CallAcquire | CallRelease | Try | Bridge | Sleep | Enter | Check | Drop | Take | Put | Release

  predicate Enabled(s: State, t: Tid, step: Step) {
    match step
    case CallAcquire => At(s, t) == Out
    case CallRelease => At(s, t) == Out
    case Try => At(s, t) == AWant && s.lock == Free
    case Bridge => At(s, t) == ABlock && s.wlock == Free
    case Sleep => At(s, t) == ACommit
    case Enter => At(s, t) == ATaken
    case Check => At(s, t) == RWant && s.lock == Free
    case Drop => At(s, t) == RDrop
    case Take => At(s, t) == RWake && s.wlock == Free
    case Put => At(s, t).RPut?
    case Release => At(s, t) == RDone
  }

  function Apply(s: State, t: Tid, step: Step): State
    requires Enabled(s, t, step)
  {
    match step
    case CallAcquire => s.(pc := s.pc[t := AWant])
    case CallRelease => s.(pc := s.pc[t := RWant])
    case Try =>
      if s.holder.By? then s.(pc := s.pc[t := ABlock], lock := By(t))
      else s.(pc := s.pc[t := ATaken], lock := By(t), holder := By(t))
    case Bridge => s.(pc := s.pc[t := ACommit], wlock := By(t), lock := Free)
    case Sleep => s.(pc := s.pc[t := Asleep], sleepers := s.sleepers + [t], wlock := Free)
    case Enter => s.(pc := s.pc[t := Out], held := true, lock := Free)
    case Check =>
      if s.holder == By(t) then s.(pc := s.pc[t := RDrop], lock := By(t), held := false)
      else s.(pc := s.pc[t := RDone], lock := By(t))
    case Drop => s.(pc := s.pc[t := RWake], holder := Free)
    case Take =>
      if s.sleepers == [] then s.(pc := s.pc[t := RDone])
      else s.(pc := s.pc[t := RPut(s.sleepers[0])][s.sleepers[0] := AHand], sleepers := s.sleepers[1..])
    case Put => s.(pc := s.pc[t := RDone][At(s, t).target := AWant])
    case Release => s.(pc := s.pc[t := Out], lock := Free)
  }

  predicate HoldsLock(p: Pc) {
    p == ABlock || p == ATaken || p == RDrop || p == RWake || p.RPut? || p == RDone
  }

  ghost predicate ThreadOk(s: State, t: Tid) {
    && (HoldsLock(At(s, t)) <==> s.lock == By(t))
    && (At(s, t) == ACommit <==> s.wlock == By(t))
    && (At(s, t) == Asleep <==> t in s.sleepers)
    && (At(s, t) == AHand <==> s.lock.By? && At(s, s.lock.t) == RPut(t))
    && (At(s, t) == ATaken || At(s, t) == RDrop ==> s.holder == By(t))
    && (At(s, t) in {RWake, RDone} || At(s, t).RPut? ==> s.holder != By(t))
    && (At(s, t) == ABlock ==> s.holder.By?)
  }

  /** held and holder differ only in the middle of an update. */
  ghost predicate Inv(s: State) {
    && (forall t :: ThreadOk(s, t))
    && (forall i, j | 0 <= i < j < |s.sleepers| :: s.sleepers[i] != s.sleepers[j])
    && (s.held == s.holder.By? || (s.lock.By? && (At(s, s.lock.t) == ATaken || At(s, s.lock.t) == RDrop)))
    && (s.lock.By? && (At(s, s.lock.t) == ATaken || At(s, s.lock.t) == RDrop) ==> !s.held && s.holder.By?)
  }

  ghost predicate Sleeping(s: State) {
    exists t :: At(s, t) == Asleep || At(s, t) == ACommit
  }

  /** A thread that will try for the lock without being woken, or a releaser that has yet
      to look for sleepers. */
  predicate Moves(p: Pc) {
    p == AWant || p == AHand || p == RWake
  }

  ghost predicate Mover(s: State) {
    exists t :: Moves(At(s, t))
  }

  ghost predicate NotStranded(s: State) {
    s.holder == Free && Sleeping(s) ==> Mover(s)
  }

  lemma StepKeeps(s: State, t: Tid, step: Step)
    requires Inv(s) && Enabled(s, t, step)
    ensures Inv(Apply(s, t, step))
  {
    var s' := Apply(s, t, step);
    assert ThreadOk(s, t);
    forall u ensures ThreadOk(s', u) {
      assert ThreadOk(s, u);
      if step == Take && s.sleepers != [] {
        assert ThreadOk(s, s.sleepers[0]);
        TakeThread(s, t, u);
      } else if step == Put {
        assert ThreadOk(s, At(s, t).target);
        PutThread(s, t, u);
      } else {
        OneThread(s, t, step, u);
      }
    }
    hide ThreadOk;
  }

  lemma OneThread(s: State, t: Tid, step: Step, u: Tid)
    requires Enabled(s, t, step) && ThreadOk(s, t) && ThreadOk(s, u) && !step.Put? && (step.Take? ==> s.sleepers == [])
    ensures ThreadOk(Apply(s, t, step), u)
  {
  }

  lemma TakeThread(s: State, t: Tid, u: Tid)
    requires Enabled(s, t, Take) && s.sleepers != [] && ThreadOk(s, t) && ThreadOk(s, u) && ThreadOk(s, s.sleepers[0])
    requires forall i, j | 0 <= i < j < |s.sleepers| :: s.sleepers[i] != s.sleepers[j]
    ensures ThreadOk(Apply(s, t, Take), u)
  {
    assert u in s.sleepers[1..] <==> u in s.sleepers && u != s.sleepers[0];
  }

  lemma PutThread(s: State, t: Tid, u: Tid)
    requires Enabled(s, t, Put) && ThreadOk(s, t) && ThreadOk(s, u) && ThreadOk(s, At(s, t).target)
    ensures ThreadOk(Apply(s, t, Put), u)
  {
  }

  lemma StepNotStranded(s: State, t: Tid, step: Step)
    requires Inv(s) && NotStranded(s) && Enabled(s, t, step)
    ensures NotStranded(Apply(s, t, step))
  {
    var s' := Apply(s, t, step);
    assert ThreadOk(s, t);
    match step
    case Take =>
      if s.sleepers != [] {
        assert At(s', s.sleepers[0]) == AHand;
      } else {
        forall u ensures At(s', u) != Asleep && At(s', u) != ACommit {
          assert ThreadOk(s, u);
        }
      }
    case Put => assert At(s', At(s, t).target) == AWant;
    case Drop => assert At(s', t) == RWake;
    case Try => assert s'.holder.By?;
    case Bridge => assert s'.holder.By?;
    case _ =>
      assert forall u | u != t :: At(s', u) == At(s, u);
      assert Sleeping(s') ==> Sleeping(s);
      assert forall m | Moves(At(s, m)) :: Moves(At(s', m));
  }

  // --- Runs ---------------------------------------------------------------------------

  ghost predicate Initial(s: State) {
    !s.held && s.holder == Free && s.lock == Free && s.wlock == Free && s.sleepers == [] && s.pc == map[]
  }

  type Acts = seq<Act<Step>>

  ghost predicate ActAt(run: seq<State>, acts: Acts, i: nat)
    requires i < |acts| && i + 1 < |run|
  {
    Enabled(run[i], acts[i].t, acts[i].step) && run[i + 1] == Apply(run[i], acts[i].t, acts[i].step)
  }

  /** A run, with who did what. */
  ghost predicate Run(run: seq<State>, acts: Acts) {
    |run| == |acts| + 1 && Initial(run[0]) && forall i | 0 <= i < |acts| :: ActAt(run, acts, i)
  }

  lemma InitialInv(s: State)
    requires Initial(s)
    ensures Inv(s) && NotStranded(s)
  {
  }

  lemma {:induction false} RunInv(run: seq<State>, acts: Acts, n: nat)
    requires Run(run, acts) && n <= |acts|
    ensures Inv(run[n]) && NotStranded(run[n])
  {
    hide Inv, NotStranded, Enabled, Apply, Initial;
    if n == 0 {
      InitialInv(run[0]);
    } else {
      RunInv(run, acts, n - 1);
      assert ActAt(run, acts, n - 1);
      StepKeeps(run[n - 1], acts[n - 1].t, acts[n - 1].step);
      StepNotStranded(run[n - 1], acts[n - 1].t, acts[n - 1].step);
    }
  }

  /** With no holder and somebody asleep, somebody awake will look after the lock. */
  lemma NobodyStranded(run: seq<State>, acts: Acts, n: nat)
    requires Run(run, acts) && n <= |acts| && run[n].holder == Free && Sleeping(run[n])
    ensures Mover(run[n])
  {
    hide Run, Inv;
    RunInv(run, acts, n);
  }

  ghost predicate CanMove(s: State, t: Tid) {
    exists step :: Enabled(s, t, step)
  }

  /** There is no deadlock on lk_lock or the channel: a thread that is not asleep can go on, or
      the one that holds lk_lock can, perhaps once another has let go of the channel. */
  lemma NeverStuck(run: seq<State>, acts: Acts, n: nat, t: Tid)
    requires Run(run, acts) && n <= |acts| && At(run[n], t) != Asleep
    ensures var s := run[n];
            || CanMove(s, t) || (s.lock.By? && CanMove(s, s.lock.t))
            || (s.lock.By? && At(s, s.lock.t) in {ABlock, RWake} && s.wlock.By? && CanMove(s, s.wlock.t))
  {
    RunInv(run, acts, n);
    var s := run[n];
    assert ThreadOk(s, t);
    if s.lock.By? {
      assert ThreadOk(s, s.lock.t);
      if s.wlock.By? {
        assert ThreadOk(s, s.wlock.t);
        assert Enabled(s, s.wlock.t, Sleep);
      }
      assert Enabled(s, s.lock.t, OwnStep(At(s, s.lock.t))) || (At(s, s.lock.t) in {ABlock, RWake} && s.wlock.By?);
    } else {
      assert Enabled(s, t, OwnStep(At(s, t)));
    }
  }

  /** The next step of a thread that is not asleep or in another's hand. */
  function OwnStep(p: Pc): Step {
    match p
    case AWant => Try
    case ABlock => Bridge
    case ACommit => Sleep
    case ATaken => Enter
    case RWant => Check
    case RDrop => Drop
    case RWake => Take
    case RPut(_) => Put
    case RDone => Release
    case _ => CallAcquire
  }

  // --- Who is inside ----------------------------------------------------------------------

  /** t has called lock_acquire (or lock_release) and has not come back since. */
  ghost predicate In(run: seq<State>, acts: Acts, t: Tid, call: Step, n: nat)
    requires n <= |acts| < |run|
  {
    n > 0 && (acts[n - 1] == Act(t, call) || (In(run, acts, t, call, n - 1) && At(run[n], t) != Out))
  }

  /** t has come back from lock_acquire, and has not called lock_release since. */
  ghost predicate Inside(run: seq<State>, acts: Acts, t: Tid, n: nat)
    requires n <= |acts| < |run|
  {
    && n > 0 && acts[n - 1] != Act(t, CallRelease)
    && (Inside(run, acts, t, n - 1) || (In(run, acts, t, CallAcquire, n - 1) && At(run[n], t) == Out))
  }

  predicate InAcquire(p: Pc) {
    p == AWant || p == ABlock || p == ACommit || p == Asleep || p == AHand || p == ATaken
  }

  predicate InRelease(p: Pc) {
    p == RWant || p == RDrop || p == RWake || p.RPut? || p == RDone
  }

  /** What a step means for t's call and for the holder. */
  lemma CallStep(s: State, u: Tid, step: Step, t: Tid)
    requires Inv(s) && Enabled(s, u, step)
    ensures var s' := Apply(s, u, step);
            var p, p' := At(s, t), At(s', t);
            && (InAcquire(p') <==> (u == t && step == CallAcquire) || (InAcquire(p) && p' != Out))
            && (InRelease(p') <==> (u == t && step == CallRelease) || (InRelease(p) && p' != Out))
            && (InAcquire(p) && p' == Out ==> p == ATaken && s'.holder == By(t))
            && (InRelease(p) && p' == Out ==> s'.holder != By(t))
            && (p != ATaken && p' == ATaken ==> s.holder == Free)
            && (p == ATaken && InAcquire(p') ==> p' == ATaken)
            && (s.holder == By(t) && s'.holder != By(t) ==> p == RDrop)
            && (s.holder != By(t) && s'.holder == By(t) ==> p' == ATaken && p == AWant)
  {
    assert ThreadOk(s, t) && ThreadOk(s, u);
    if step == Take && s.sleepers != [] {
      assert ThreadOk(s, s.sleepers[0]);
    } else if step == Put {
      assert ThreadOk(s, At(s, u).target);
    }
  }

  lemma {:induction false} InIs(run: seq<State>, acts: Acts, t: Tid, n: nat)
    requires Run(run, acts) && n <= |acts|
    ensures In(run, acts, t, CallAcquire, n) <==> InAcquire(At(run[n], t))
    ensures In(run, acts, t, CallRelease, n) <==> InRelease(At(run[n], t))
  {
    hide Inv, Apply, Enabled;
    if n > 0 {
      InIs(run, acts, t, n - 1);
      RunInv(run, acts, n - 1);
      assert ActAt(run, acts, n - 1);
      CallStep(run[n - 1], acts[n - 1].t, acts[n - 1].step, t);
    }
  }

  /** The holder is the thread that is inside, except in the middle of a call. */
  lemma {:induction false} InsideIs(run: seq<State>, acts: Acts, t: Tid, n: nat)
    requires Run(run, acts) && n <= |acts|
    ensures Inside(run, acts, t, n) ==> run[n].holder == By(t) && !InRelease(At(run[n], t)) && At(run[n], t) != ATaken
    ensures run[n].holder == By(t) && !Inside(run, acts, t, n) ==>
              InRelease(At(run[n], t)) || At(run[n], t) == ATaken
  {
    hide Inv, Apply, Enabled;
    if n > 0 {
      InsideIs(run, acts, t, n - 1);
      InIs(run, acts, t, n - 1);
      RunInv(run, acts, n - 1);
      assert ActAt(run, acts, n - 1);
      CallStep(run[n - 1], acts[n - 1].t, acts[n - 1].step, t);
    }
  }

  /** At most one thread is inside. Between calls the holder is exactly the one inside, and
      held says so whenever lk_lock is free. */
  lemma MutualExclusion(run: seq<State>, acts: Acts, n: nat)
    requires Run(run, acts) && n <= |acts|
    ensures forall t, u | Inside(run, acts, t, n) && Inside(run, acts, u, n) :: t == u
    ensures forall t | At(run[n], t) == Out :: Inside(run, acts, t, n) <==> run[n].holder == By(t)
    ensures run[n].lock == Free ==> run[n].held == run[n].holder.By?
  {
    RunInv(run, acts, n);
    forall t
      ensures Inside(run, acts, t, n) ==> run[n].holder == By(t)
      ensures At(run[n], t) == Out ==> (Inside(run, acts, t, n) <==> run[n].holder == By(t))
    {
      InsideIs(run, acts, t, n);
    }
    hide Inside;
  }

  /** Whoever comes back from lock_acquire holds the lock, did not hold it before, and is
      alone inside. */
  lemma AcquireReturns(run: seq<State>, acts: Acts, t: Tid, k: nat)
    requires Run(run, acts) && k < |acts| && In(run, acts, t, CallAcquire, k) && At(run[k + 1], t) == Out
    ensures !Inside(run, acts, t, k) && Inside(run, acts, t, k + 1) && run[k + 1].holder == By(t) && run[k + 1].held
    ensures forall u | Inside(run, acts, u, k) || Inside(run, acts, u, k + 1) :: u == t
  {
    RunInv(run, acts, k);
    assert ActAt(run, acts, k) && ThreadOk(run[k], t);
    InIs(run, acts, t, k);
    InsideIs(run, acts, t, k);
    CallStep(run[k], acts[k].t, acts[k].step, t);
    MutualExclusion(run, acts, k + 1);
    hide Apply, Enabled, Inv;
    forall u ensures !Inside(run, acts, u, k) || u == t {
      InsideIs(run, acts, u, k);
    }
  }

  ghost predicate Since(run: seq<State>, acts: Acts, t: Tid, call: Step, i: nat, n: nat)
    requires |acts| < |run|
  {
    i < n <= |acts| && acts[i] == Act(t, call) && forall k | i < k < n :: At(run[k], t) != Out
  }

  /** A release by the thread inside: once it is back, the lock is not held by it, and on the
      way it has looked for a sleeper. */
  lemma {:induction false} ReleaseReturns(run: seq<State>, acts: Acts, t: Tid, i: nat, n: nat)
    requires Run(run, acts) && Since(run, acts, t, CallRelease, i, n) && Inside(run, acts, t, i)
    ensures At(run[n], t) == Out ==>
              && run[n].holder != By(t) && !Inside(run, acts, t, n)
              && exists k | i < k < n :: acts[k] == Act(t, Take)
    ensures At(run[n], t) != Out ==>
              && InRelease(At(run[n], t)) && (At(run[n], t) == RWant ==> run[n].holder == By(t))
              && (At(run[n], t) == RDone || At(run[n], t).RPut? ==>
                    exists k | i < k < n :: acts[k] == Act(t, Take))
    decreases n
  {
    assert ActAt(run, acts, n - 1);
    if n == i + 1 {
      InsideIs(run, acts, t, i);
    } else {
      ReleaseReturns(run, acts, t, i, n - 1);
      assert At(run[n - 1], t) != Out;
      RunInv(run, acts, n - 1);
      CallStep(run[n - 1], acts[n - 1].t, acts[n - 1].step, t);
      InsideIs(run, acts, t, n);
      assert ThreadOk(run[n - 1], t) && ThreadOk(run[n - 1], acts[n - 1].t);
      assert acts[n - 1] == Act(t, Take) || At(run[n - 1], t) != RWake || At(run[n], t) == RWake;
    }
  }

  lemma ForeignStep(s: State, u: Tid, step: Step, t: Tid)
    requires Inv(s) && Enabled(s, u, step) && (At(s, t) == RWant || At(s, t) == RDone) && s.holder != By(t)
    ensures var s' := Apply(s, u, step);
            && (At(s', t) == RWant || At(s', t) == RDone || At(s', t) == Out) && s'.holder != By(t)
            && (u == t ==> s' == s.(pc := s'.pc, lock := s'.lock) && forall v | v != t :: At(s', v) == At(s, v))
  {
    assert ThreadOk(s, t) && ThreadOk(s, u);
    if step == Take && s.sleepers != [] {
      assert ThreadOk(s, s.sleepers[0]);
    }
  }

  /** A release by a thread that is not inside changes nothing, whatever the others do in
      between: its steps only take lk_lock and give it back. */
  lemma {:induction false} ForeignRelease(run: seq<State>, acts: Acts, t: Tid, i: nat, n: nat)
    requires Run(run, acts) && Since(run, acts, t, CallRelease, i, n) && !Inside(run, acts, t, i)
    ensures (At(run[n], t) == RWant || At(run[n], t) == RDone || At(run[n], t) == Out) && run[n].holder != By(t)
    ensures n < |acts| && acts[n].t == t && At(run[n], t) != Out ==>
              var s, s' := run[n], run[n + 1];
              && s'.held == s.held && s'.holder == s.holder && s'.sleepers == s.sleepers
              && forall u | u != t :: At(s', u) == At(s, u)
    decreases n
  {
    hide Inv;
    if n == i + 1 {
      assert ActAt(run, acts, i);
      InsideIs(run, acts, t, i);
    } else {
      hide Enabled, Apply;
      ForeignRelease(run, acts, t, i, n - 1);
      RunInv(run, acts, n - 1);
      assert ActAt(run, acts, n - 1);
      ForeignStep(run[n - 1], acts[n - 1].t, acts[n - 1].step, t);
    }
    if n < |acts| && At(run[n], t) != Out {
      RunInv(run, acts, n);
      assert ActAt(run, acts, n);
      ForeignStep(run[n], acts[n].t, acts[n].step, t);
    }
  }

  // --- The order of waking ------------------------------------------------------------------

  lemma {:induction false} Queued(run: seq<State>, acts: Acts, n: nat)
    requires Run(run, acts) && n <= |acts|
    ensures InOrder(acts, Sleep, n, run[n].sleepers)
  {
    if n > 0 {
      hide InOrder;
      Queued(run, acts, n - 1);
      RunInv(run, acts, n - 1);
      assert ActAt(run, acts, n - 1);
      var s, a := run[n - 1], acts[n - 1];
      assert ThreadOk(s, a.t);
      OrderKept(acts, Sleep, n - 1, s.sleepers, if a.step == Take && s.sleepers != [] then 1 else 0);
      assert s.sleepers[0..] == s.sleepers;
    } else {
      assert run[0].sleepers == [];
    }
  }

  /** A release that looks for a sleeper wakes exactly one, the one that has slept longest; its
      next step lets that one go on. */
  lemma WakesLongest(run: seq<State>, acts: Acts, k: nat, t: Tid)
    requires Run(run, acts) && k < |acts| && acts[k].step == Take && At(run[k], t) == Asleep
    ensures At(run[k + 1], t) == AHand <==>
              forall u | At(run[k], u) == Asleep && u != t :: Last(acts, t, Sleep, k) < Last(acts, u, Sleep, k)
    ensures At(run[k + 1], t) == AHand || At(run[k + 1], t) == Asleep
    ensures exists u :: At(run[k], u) == Asleep && At(run[k + 1], acts[k].t) == RPut(u)
  {
    RunInv(run, acts, k);
    Queued(run, acts, k);
    assert ActAt(run, acts, k);
    var s := run[k];
    forall u ensures At(s, u) == Asleep <==> u in s.sleepers {
      assert ThreadOk(s, u);
    }
    FirstIsOldest(acts, Sleep, k, s.sleepers, t);
    assert At(s, s.sleepers[0]) == Asleep && At(run[k + 1], acts[k].t) == RPut(s.sleepers[0]);
  }
}
