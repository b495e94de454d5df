/** thread/synch.c: P and V on one semaphore, by any number of threads, interleaved
    between their lock operations.

    A step is what one thread does from one lock operation to the next. `lock` is the
    semaphore's spinlock, `wlock` the spinlock of its wait channel, both with their
    holder, and `sleepers` is the channel's list. sem_count is an int; a V that makes it
    wrap around fails its assertion, and the kernel stops.
  */
module Semaphore {
  import opened Locks

  /** How far a thread is in its call.
        P: PWant wants the lock; PBlock has found the count 0 and, with the lock held, wants
        the channel; PCommit has released the lock and holds the channel; Asleep is on
        the channel; PHand is off it, in a waker's hand.
        V: VWant wants the lock; VWake has counted up and wants the channel; VPut has a
        sleeper in hand; VDone is about to release the lock. */
  datatype Pc = Out | PWant | PBlock | PCommit | Asleep | PHand | VWant | VWake | VPut(target: Tid) | VDone

  const INT_MAX: nat := 0x7fff_ffff

  datatype State = State(count: nat, lock: Holder, wlock: Holder, sleepers: seq<Tid>, pc: map<Tid, Pc>, panicked: bool)

  function At(s: State, t: Tid): Pc {
    if t in s.pc then s.pc[t] else Out
  }

  datatype Step = CallP | CallV | Try | Bridge | Sleep | Count | Take | Put | Release

  predicate Enabled(s: State, t: Tid, step: Step) {
    && !s.panicked
    && match step
       case CallP => At(s, t) == Out
       case CallV => At(s, t) == Out
       case Try => At(s, t) == PWant && s.lock == Free
       case Bridge => At(s, t) == PBlock && s.wlock == Free
       case Sleep => At(s, t) == PCommit
       case Count => At(s, t) == VWant && s.lock == Free
       case Take => At(s, t) == VWake && s.wlock == Free
       case Put => At(s, t).VPut?
       case Release => At(s, t) == VDone
  }

  /** sem_count++, in 32 bits. */
  function Incremented(count: nat): int {
    if count == INT_MAX then -0x8000_0000 else count + 1
  }

  function Apply(s: State, t: Tid, step: Step): State
    requires Enabled(s, t, step)
  {
    match step
    case CallP => s.(pc := s.pc[t := PWant])
    case CallV => s.(pc := s.pc[t := VWant])
    case Try =>
      if s.count == 0 then s.(pc := s.pc[t := PBlock], lock := By(t))
      else s.(pc := s.pc[t := Out], count := s.count - 1)
    case Bridge => s.(pc := s.pc[t := PCommit], wlock := By(t), lock := Free)
    case Sleep => s.(pc := s.pc[t := Asleep], sleepers := s.sleepers + [t], wlock := Free)
    case Count =>
      var c := Incremented(s.count);
      if c <= 0 then s.(panicked := true) else s.(pc := s.pc[t := VWake], lock := By(t), count := c)
    case Take =>
      if s.sleepers == [] then s.(pc := s.pc[t := VDone])
      else s.(pc := s.pc[t := VPut(s.sleepers[0])][s.sleepers[0] := PHand], sleepers := s.sleepers[1..])
    case Put => s.(pc := s.pc[t := VDone][At(s, t).target := PWant])
    case Release => s.(pc := s.pc[t := Out], lock := Free)
  }

  /** Waiters that will look at the count again. */
  ghost function Awake(s: State): set<Tid> {
    set t | t in s.pc && (s.pc[t] == PWant || s.pc[t] == PBlock || s.pc[t] == PHand)
  }

  /** Calls of V that have counted up but not yet looked for a sleeper. */
  ghost function Pending(s: State): set<Tid> {
    set t | t in s.pc && s.pc[t] == VWake
  }

  /** Some thread is asleep on the channel, or committed to it. */
  ghost predicate Sleeping(s: State) {
    exists t :: At(s, t) == Asleep || At(s, t) == PCommit
  }

  predicate HoldsLock(p: Pc) {
    p == PBlock || p == VWake || p.VPut? || p == VDone
  }

  /** A thread's position agrees with the locks, the list and the hands of wakers. */
  ghost predicate ThreadOk(s: State, t: Tid) {
    && (HoldsLock(At(s, t)) <==> s.lock == By(t))
    && (At(s, t) == PCommit <==> s.wlock == By(t))
    && (At(s, t) == Asleep <==> t in s.sleepers)
    && (At(s, t) == PHand <==> s.lock.By? && At(s, s.lock.t) == VPut(t))
  }

  ghost predicate Inv(s: State) {
    && (forall t :: ThreadOk(s, t))
    && (forall i, j | 0 <= i < j < |s.sleepers| :: s.sleepers[i] != s.sleepers[j])
    && (s.lock.By? && At(s, s.lock.t) == PBlock ==> s.count == 0)
    && s.count <= INT_MAX
  }

  /** No wakeup is lost: while somebody sleeps, every unit of the count has someone who
      will take it or pass it on. */
  ghost predicate NoLoss(s: State) {
    Sleeping(s) ==> s.count <= |Awake(s)| + |Pending(s)|
  }

  /** What one thread's move does to the two sets. */
  lemma Counts(s: State, s': State, t: Tid)
    requires forall u | u != t :: At(s', u) == At(s, u)
    ensures |Awake(s')| - |Awake(s)| ==
              (if At(s', t) in {PWant, PBlock, PHand} then 1 else 0) -
              (if At(s, t) in {PWant, PBlock, PHand} then 1 else 0)
    ensures |Pending(s')| - |Pending(s)| == (if At(s', t) == VWake then 1 else 0) - (if At(s, t) == VWake then 1 else 0)
  {
    assert forall u :: u in Awake(s) <==> At(s, u) in {PWant, PBlock, PHand};
    assert forall u :: u in Awake(s') <==> At(s', u) in {PWant, PBlock, PHand};
    assert forall u :: u in Pending(s) <==> At(s, u) == VWake;
    assert forall u :: u in Pending(s') <==> At(s', u) == VWake;
    Without(Awake(s), Awake(s'), t);
    Without(Pending(s), Pending(s'), t);
  }

  lemma Without(a: set<Tid>, b: set<Tid>, t: Tid)
    requires forall u | u != t :: u in a <==> u in b
    ensures |b| - |a| == (if t in b then 1 else 0) - (if t in a then 1 else 0)
  {
    assert a - {t} == b - {t};
    assert |a| == |a - {t}| + if t in a then 1 else 0;
    assert |b| == |b - {t}| + if t in b then 1 else 0;
  }

  lemma StepKeeps(s: State, t: Tid, step: Step)
    requires Inv(s) && Enabled(s, t, step)
    ensures Inv(Apply(s, t, step))
  {
    var s' := Apply(s, t, step);
    assert ThreadOk(s, t);
    forall u ensures ThreadOk(s', u) {
      assert ThreadOk(s, u);
      if step == Take && s.sleepers != [] {
        assert ThreadOk(s, s.sleepers[0]);
        TakeThread(s, t, u);
      } else if step == Put {
        assert ThreadOk(s, At(s, t).target);
        PutThread(s, t, u);
      } else {
        OneThread(s, t, step, u);
      }
    }
  }

  lemma OneThread(s: State, t: Tid, step: Step, u: Tid)
    requires Enabled(s, t, step) && ThreadOk(s, t) && ThreadOk(s, u) && !step.Put? && (step.Take? ==> s.sleepers == [])
    ensures ThreadOk(Apply(s, t, step), u)
  {
  }

  lemma TakeThread(s: State, t: Tid, u: Tid)
    requires Enabled(s, t, Take) && s.sleepers != [] && ThreadOk(s, t) && ThreadOk(s, u) && ThreadOk(s, s.sleepers[0])
    requires forall i, j | 0 <= i < j < |s.sleepers| :: s.sleepers[i] != s.sleepers[j]
    ensures ThreadOk(Apply(s, t, Take), u)
  {
    assert u in s.sleepers[1..] <==> u in s.sleepers && u != s.sleepers[0];
  }

  lemma PutThread(s: State, t: Tid, u: Tid)
    requires Enabled(s, t, Put) && ThreadOk(s, t) && ThreadOk(s, u) && ThreadOk(s, At(s, t).target)
    ensures ThreadOk(Apply(s, t, Put), u)
  {
  }

  lemma StepNoLoss(s: State, t: Tid, step: Step)
    requires Inv(s) && NoLoss(s) && Enabled(s, t, step)
    ensures NoLoss(Apply(s, t, step))
  {
    hide Awake, Pending;
    var s' := Apply(s, t, step);
    assert ThreadOk(s, t);
    if step == Take && s.sleepers != [] {
      var x := s.sleepers[0];
      assert ThreadOk(s, x);
      var s1 := s.(pc := s.pc[t := VPut(x)]);
      assert At(s, x) == Asleep;
      Counts(s, s1, t);
      Counts(s1, s', x);
    } else if step == Put {
      var x := At(s, t).target;
      var s1 := s.(pc := s.pc[t := VDone]);
      assert ThreadOk(s, x);
      assert s.lock == By(t) && At(s, x) == PHand;
      Counts(s, s1, t);
      Counts(s1, s', x);
      assert Sleeping(s') ==> Sleeping(s);
    } else if step == Take {
      NobodySleeps(s, s', t);
    } else {
      assert forall u | u != t :: At(s', u) == At(s, u);
      Counts(s, s', t);
      assert Sleeping(s') && step != Bridge ==> Sleeping(s);
    }
  }

  /** A waker that finds the channel's list empty, with the channel locked. */
  lemma NobodySleeps(s: State, s': State, t: Tid)
    requires Inv(s) && s.sleepers == [] && s.wlock == Free && s' == s.(pc := s.pc[t := VDone])
    ensures !Sleeping(s')
  {
    forall u ensures At(s', u) != Asleep && At(s', u) != PCommit {
      assert ThreadOk(s, u);
    }
  }

  // --- Runs ---------------------------------------------------------------------------

  ghost predicate Initial(s: State) {
    && s.lock == Free && s.wlock == Free && s.sleepers == [] && s.pc == map[] && s.count <= INT_MAX && !s.panicked
  }

  type Acts = seq<Act<Step>>

  ghost predicate ActAt(run: seq<State>, acts: Acts, i: nat)
    requires i < |acts| && i + 1 < |run|
  {
    Enabled(run[i], acts[i].t, acts[i].step) && run[i + 1] == Apply(run[i], acts[i].t, acts[i].step)
  }

  /** A run, with who did what. */
  ghost predicate Run(run: seq<State>, acts: Acts) {
    |run| == |acts| + 1 && Initial(run[0]) && forall i | 0 <= i < |acts| :: ActAt(run, acts, i)
  }

  lemma InitialInv(s: State)
    requires Initial(s)
    ensures Inv(s) && NoLoss(s)
  {
  }

  lemma {:induction false} RunInv(run: seq<State>, acts: Acts, n: nat)
    requires Run(run, acts) && n <= |acts|
    ensures Inv(run[n]) && NoLoss(run[n])
  {
    hide Inv, NoLoss, Enabled, Apply, Initial;
    if n == 0 {
      InitialInv(run[0]);
    } else {
      RunInv(run, acts, n - 1);
      assert ActAt(run, acts, n - 1);
      StepKeeps(run[n - 1], acts[n - 1].t, acts[n - 1].step);
      StepNoLoss(run[n - 1], acts[n - 1].t, acts[n - 1].step);
    }
  }

  /** In every state of every run no wakeup is lost. */
  lemma NoLostWakeup(run: seq<State>, acts: Acts, n: nat)
    requires Run(run, acts) && n <= |acts|
    ensures var s := run[n];
            && (Sleeping(s) ==> s.count <= |Awake(s)| + |Pending(s)|)
            && (Sleeping(s) && s.count > 0 ==> Awake(s) != {} || Pending(s) != {})
  {
    hide Awake, Pending, Sleeping;
    RunInv(run, acts, n);
  }

  /** The lock is held by at most one thread, and a thread that found the count 0 still
      finds it 0 when it commits to sleep: the assertion after the loop holds. */
  lemma BlockedMeansZero(run: seq<State>, acts: Acts, n: nat, t: Tid)
    requires Run(run, acts) && n <= |acts| && At(run[n], t) == PBlock
    ensures run[n].count == 0 && run[n].lock == By(t) && forall u | HoldsLock(At(run[n], u)) :: u == t
  {
    RunInv(run, acts, n);
    assert ThreadOk(run[n], t);
    forall u | HoldsLock(At(run[n], u)) ensures u == t {
      assert ThreadOk(run[n], u);
    }
  }

  ghost predicate CanMove(s: State, t: Tid) {
    exists step :: Enabled(s, t, step)
  }

  /** There is no deadlock: a thread that is not asleep can go on, or the lock it waits for is
      held by one that can, perhaps once another has let go of the channel. */
  lemma NeverStuck(run: seq<State>, acts: Acts, n: nat, t: Tid)
    requires Run(run, acts) && n <= |acts| && !run[n].panicked && At(run[n], t) != Asleep
    ensures var s := run[n];
            || CanMove(s, t) || (s.lock.By? && CanMove(s, s.lock.t))
            || (s.lock.By? && At(s, s.lock.t) in {PBlock, VWake} && s.wlock.By? && CanMove(s, s.wlock.t))
  {
    RunInv(run, acts, n);
    var s := run[n];
    assert ThreadOk(s, t);
    if s.lock.By? {
      assert ThreadOk(s, s.lock.t);
      if s.wlock.By? {
        assert ThreadOk(s, s.wlock.t);
        assert Enabled(s, s.wlock.t, Sleep);
      }
      assert Enabled(s, s.lock.t, OwnStep(At(s, s.lock.t))) || (At(s, s.lock.t) in {PBlock, VWake} && s.wlock.By?);
    } else {
      assert Enabled(s, t, OwnStep(At(s, t)));
    }
  }

  /** The next step of a thread that is not asleep or in another's hand. */
  function OwnStep(p: Pc): Step {
    match p
    case PWant => Try
    case PBlock => Bridge
    case PCommit => Sleep
    case VWant => Count
    case VWake => Take
    case VPut(_) => Put
    case VDone => Release
    case _ => CallP
  }

  // --- Calls and what they do to the count -----------------------------------------------

  /** t has called P (or V) and has not come back since. */
  ghost predicate In(run: seq<State>, acts: Acts, t: Tid, call: Step, n: nat)
    requires n <= |acts| < |run|
  {
    n > 0 && (acts[n - 1] == Act(t, call) || (In(run, acts, t, call, n - 1) && At(run[n], t) != Out))
  }

  /** The threads that come back from such a call with step k. */
  ghost function Back(run: seq<State>, acts: Acts, call: Step, k: nat): set<Tid>
    requires k < |acts| < |run|
  {
    set t | t in run[k].pc && In(run, acts, t, call, k) && At(run[k + 1], t) == Out
  }

  /** How many such calls have come back in the first n steps. */
  ghost function Returned(run: seq<State>, acts: Acts, call: Step, n: nat): nat
    requires n <= |acts| < |run|
  {
    if n == 0 then 0 else Returned(run, acts, call, n - 1) + |Back(run, acts, call, n - 1)|
  }

  predicate InP(p: Pc) {
    p == PWant || p == PBlock || p == PCommit || p == Asleep || p == PHand
  }

  predicate InV(p: Pc) {
    p == VWant || p == VWake || p.VPut? || p == VDone
  }

  /** Whoever holds the lock has counted up, in a V that has not come back. */
  predicate Counted(s: State) {
    s.lock.By? && InV(At(s, s.lock.t))
  }

  /** What a step means for t's call. */
  lemma CallStep(s: State, u: Tid, step: Step, t: Tid)
    requires Inv(s) && Enabled(s, u, step)
    ensures var p, p' := At(s, t), At(Apply(s, u, step), t);
            && (InP(p') <==> (u == t && step == CallP) || (InP(p) && p' != Out))
            && (InV(p') <==> (u == t && step == CallV) || (InV(p) && p' != Out))
            && (InP(p) && p' == Out <==> u == t && step == Try && s.count > 0)
            && (InV(p) && p' == Out <==> u == t && step == Release)
            && (InV(p) && InV(p') && (p == VWant) != (p' == VWant) <==> u == t && step == Count && s.count < INT_MAX)
            && (p == VWant ==> p' != Out)
  {
    assert ThreadOk(s, t) && ThreadOk(s, u);
    if step == Take && s.sleepers != [] {
      assert ThreadOk(s, s.sleepers[0]);
    } else if step == Put {
      assert ThreadOk(s, At(s, u).target);
    }
  }

  /** And for the count. */
  lemma CountStep(s: State, u: Tid, step: Step)
    requires Inv(s) && Enabled(s, u, step)
    ensures var s' := Apply(s, u, step);
            && s'.count - s.count ==
               (if step == Count && s.count < INT_MAX then 1 else if step == Try && s.count > 0 then -1 else 0)
            && (if Counted(s') then 1 else 0) - (if Counted(s) then 1 else 0) ==
               (if step == Count && s.count < INT_MAX then 1 else if step == Release then -1 else 0)
  {
    assert ThreadOk(s, u);
    if step == Take && s.sleepers != [] {
      assert ThreadOk(s, s.sleepers[0]);
    } else if step == Put {
      assert ThreadOk(s, At(s, u).target);
    }
    assert s.lock.By? ==> ThreadOk(s, s.lock.t);
  }

  lemma {:induction false} InIs(run: seq<State>, acts: Acts, t: Tid, n: nat)
    requires Run(run, acts) && n <= |acts|
    ensures In(run, acts, t, CallP, n) <==> InP(At(run[n], t))
    ensures In(run, acts, t, CallV, n) <==> InV(At(run[n], t))
  {
    hide Inv, Apply, Enabled;
    if n > 0 {
      InIs(run, acts, t, n - 1);
      RunInv(run, acts, n - 1);
      assert ActAt(run, acts, n - 1);
      CallStep(run[n - 1], acts[n - 1].t, acts[n - 1].step, t);
    }
  }

  /** One step: a P comes back exactly when it takes a unit, and a V has counted up by one by
      the time it is back. */
  lemma StepBalance(run: seq<State>, acts: Acts, k: nat)
    requires Run(run, acts) && k < |acts|
    ensures var s, s' := run[k], run[k + 1];
            && s'.count == s.count - |Back(run, acts, CallP, k)| + |Back(run, acts, CallV, k)|
                           + (if Counted(s') then 1 else 0) - (if Counted(s) then 1 else 0)
            && Back(run, acts, CallP, k) <= {acts[k].t} && Back(run, acts, CallV, k) <= {acts[k].t}
  {
    hide Inv, Apply, Enabled, Counted;
    RunInv(run, acts, k);
    assert ActAt(run, acts, k);
    var s, t, step := run[k], acts[k].t, acts[k].step;
    forall u
      ensures u in Back(run, acts, CallP, k) <==> u == t && step == Try && s.count > 0
      ensures u in Back(run, acts, CallV, k) <==> u == t && step == Release
    {
      InIs(run, acts, u, k);
      CallStep(s, t, step, u);
    }
    CountStep(s, t, step);
    assert Back(run, acts, CallP, k) == if step == Try && s.count > 0 then {t} else {};
    assert Back(run, acts, CallV, k) == if step == Release then {t} else {};
  }

  /** In every state of every run the count is the initial one, plus the Vs and minus the Ps
      that have come back; and one more while a V that has counted holds the lock. So never
      more Ps come back than there were units. */
  lemma {:induction false} Conservation(run: seq<State>, acts: Acts, n: nat)
    requires Run(run, acts) && n <= |acts|
    ensures run[n].count == run[0].count + Returned(run, acts, CallV, n) - Returned(run, acts, CallP, n)
                            + if Counted(run[n]) then 1 else 0
    ensures run[n].lock == Free ==>
              run[n].count == run[0].count + Returned(run, acts, CallV, n) - Returned(run, acts, CallP, n)
  {
    hide Back, ActAt;
    if n > 0 {
      Conservation(run, acts, n - 1);
      StepBalance(run, acts, n - 1);
    }
  }

  /** By how much t's own steps from i up to j have changed the count. */
  ghost function Net(run: seq<State>, acts: Acts, t: Tid, i: nat, j: nat): int
    requires i <= j <= |acts| < |run|
    decreases j
  {
    if i == j then 0
    else Net(run, acts, t, i, j - 1) + if acts[j - 1].t == t then run[j].count - run[j - 1].count else 0
  }

  /** A thread that called P at step i has changed nothing as long as it is in it, and once it
      is back it has taken exactly one unit; V likewise gives one. */
  lemma {:induction false} NetOfCall(run: seq<State>, acts: Acts, t: Tid, call: Step, i: nat, n: nat)
    requires Run(run, acts) && i < n <= |acts| && acts[i] == Act(t, call) && (call == CallP || call == CallV)
    requires forall k | i < k < n :: At(run[k], t) != Out
    ensures At(run[n], t) == Out ==> Net(run, acts, t, i, n) == if call == CallP then -1 else 1
    ensures At(run[n], t) != Out && call == CallP ==> Net(run, acts, t, i, n) == 0
    ensures At(run[n], t) != Out && call == CallV ==> Net(run, acts, t, i, n) == if At(run[n], t) == VWant then 0 else 1
    decreases n
  {
    assert ActAt(run, acts, n - 1);
    if n > i + 1 {
      NetOfCall(run, acts, t, call, i, n - 1);
      assert At(run[n - 1], t) != Out;
      RunInv(run, acts, n - 1);
      CallStays(run, acts, t, call, i, n - 1);
      CallStep(run[n - 1], acts[n - 1].t, acts[n - 1].step, t);
      CountStep(run[n - 1], acts[n - 1].t, acts[n - 1].step);
    }
  }

  lemma {:induction false} CallStays(run: seq<State>, acts: Acts, t: Tid, call: Step, i: nat, n: nat)
    requires Run(run, acts) && i < n <= |acts| && acts[i] == Act(t, call) && (call == CallP || call == CallV)
    requires forall k | i < k <= n :: At(run[k], t) != Out
    ensures if call == CallP then InP(At(run[n], t)) else InV(At(run[n], t))
  {
    InIs(run, acts, t, n);
    InSince(run, acts, t, call, i, n);
  }

  lemma {:induction false} InSince(run: seq<State>, acts: Acts, t: Tid, call: Step, i: nat, n: nat)
    requires Run(run, acts) && i < n <= |acts| && acts[i] == Act(t, call)
    requires forall k | i < k <= n :: At(run[k], t) != Out
    ensures In(run, acts, t, call, n)
    decreases n
  {
    if i + 1 < n {
      InSince(run, acts, t, call, i, n - 1);
    }
  }

  /** A P that finds the count 0 comes back only after a V has counted up. */
  lemma {:induction false} ZeroNeedsV(run: seq<State>, acts: Acts, t: Tid, i: nat, n: nat)
    requires Run(run, acts) && i < n <= |acts| && acts[i] == Act(t, Try) && run[i].count == 0
    requires forall k | i <= k < n :: acts[k].step != Count
    ensures run[n].count == 0 && InP(At(run[n], t))
    decreases n
  {
    assert ActAt(run, acts, n - 1);
    if i + 1 < n {
      ZeroNeedsV(run, acts, t, i, n - 1);
    }
    RunInv(run, acts, n - 1);
    CallStep(run[n - 1], acts[n - 1].t, acts[n - 1].step, t);
    CountStep(run[n - 1], acts[n - 1].t, acts[n - 1].step);
  }

  /** A V panics if and only if as many Vs are ahead of the Ps as an int can hold; nothing else
      does. */
  lemma PanicsExactly(run: seq<State>, acts: Acts, n: nat, t: Tid, step: Step)
    requires Run(run, acts) && n <= |acts| && Enabled(run[n], t, step)
    ensures Apply(run[n], t, step).panicked <==>
              step == Count &&
              run[0].count + Returned(run, acts, CallV, n) - Returned(run, acts, CallP, n) == INT_MAX
  {
    RunInv(run, acts, n);
    Conservation(run, acts, n);
    hide Run, Returned;
  }

  // --- The order of waking ------------------------------------------------------------------

  lemma {:induction false} Queued(run: seq<State>, acts: Acts, n: nat)
    requires Run(run, acts) && n <= |acts|
    ensures InOrder(acts, Sleep, n, run[n].sleepers)
  {
    if n > 0 {
      hide InOrder;
      Queued(run, acts, n - 1);
      RunInv(run, acts, n - 1);
      assert ActAt(run, acts, n - 1);
      var s, a := run[n - 1], acts[n - 1];
      assert ThreadOk(s, a.t);
      OrderKept(acts, Sleep, n - 1, s.sleepers, if a.step == Take && s.sleepers != [] then 1 else 0);
      assert s.sleepers[0..] == s.sleepers;
    } else {
      assert run[0].sleepers == [];
    }
  }

  /** When a V looks for a sleeper it wakes exactly one, the one that has slept longest; its next
      step lets that one go on. */
  lemma WakesLongest(run: seq<State>, acts: Acts, k: nat, t: Tid)
    requires Run(run, acts) && k < |acts| && acts[k].step == Take && At(run[k], t) == Asleep
    ensures At(run[k + 1], t) == PHand <==>
              forall u | At(run[k], u) == Asleep && u != t :: Last(acts, t, Sleep, k) < Last(acts, u, Sleep, k)
    ensures At(run[k + 1], t) == PHand || At(run[k + 1], t) == Asleep
    ensures exists u :: At(run[k], u) == Asleep && At(run[k + 1], acts[k].t) == VPut(u)
  {
    RunInv(run, acts, k);
    Queued(run, acts, k);
    assert ActAt(run, acts, k);
    var s := run[k];
    forall u ensures At(s, u) == Asleep <==> u in s.sleepers {
      assert ThreadOk(s, u);
    }
    FirstIsOldest(acts, Sleep, k, s.sleepers, t);
    assert At(s, s.sleepers[0]) == Asleep && At(run[k + 1], acts[k].t) == VPut(s.sleepers[0]);
  }
}
