/** The order in which the thread system takes its spinlocks: a semaphore's or sleep
    lock's own, then its wait channel's, then a run queue's, then an IPI lock
    (thread/synch.c, thread/thread.c).

    A CPU executes stretches of code that begin and end without any spinlock; between
    stretches anything may happen, including interrupts and, in cpu_idle or after a
    switch, another thread. Each stretch is the list of its lock operations.
  */
module LockOrder {
  datatype Lock = Outer(i: nat) | Chan(i: nat) | RunQ(c: nat) | Ipi(c: nat)
  datatype Op = Acq(l: Lock) | Rel(l: Lock)

  function Rank(l: Lock): nat {
    match l case Outer(_) => 0 case Chan(_) => 1 case RunQ(_) => 2 case Ipi(_) => 3
  }

  /** thread_make_runnable for a thread of CPU j, which may be idle. */
  function MakeRunnable(j: nat, idle: bool): seq<Op> {
    if idle then [Acq(RunQ(j)), Acq(Ipi(j)), Rel(Ipi(j)), Rel(RunQ(j))] else [Acq(RunQ(j)), Rel(RunQ(j))]
  }

  /** One wakeup after another, each for some CPU. */
  function Wakeups(targets: seq<(nat, bool)>): seq<Op> {
    if targets == [] then [] else MakeRunnable(targets[0].0, targets[0].1) + Wakeups(targets[1..])
  }

  /** Migration onto CPU i: one IPI for each thread given to it while it is idle. */
  function Ipis(i: nat, n: nat): seq<Op> {
    if n == 0 then [] else [Acq(Ipi(i)), Rel(Ipi(i))] + Ipis(i, n - 1)
  }

  function Gifts(targets: seq<(nat, nat)>): seq<Op> {
    if targets == [] then []
    else [Acq(RunQ(targets[0].0))] + Ipis(targets[0].0, targets[0].1) + [Rel(RunQ(targets[0].0))] + Gifts(targets[1..])
  }

  /** The stretches of code on CPU c.
        Enter: P or lock_acquire that does not block, lock_release by another thread.
        Block: P or lock_acquire that goes to sleep, up to where thread_switch drops the run
          queue lock, in cpu_idle or in the next thread.
        SleepOn: the same without an outer lock, as in cv_wait.
        Signal: V or lock_release, which wake at most one sleeper.
        WakeUp: wchan_wakeone or wchan_wakeall called without an outer lock.
        Yield: thread_switch for another reason, or the return from cpu_idle; thread_fork is
          a wakeup without a channel.
        Migrate: thread_consider_migration. Handler: interprocessor_interrupt. */
  datatype Stretch =
    | Enter(i: nat)
    | Block(i: nat)
    | SleepOn(i: nat)
    | Signal(i: nat, target: seq<(nat, bool)>)
    | WakeUp(i: nat, targets: seq<(nat, bool)>)
    | Fork(idle: bool)
    | Yield(ipi: bool)
    | Count(i: nat)
    | Migrate(gifts: seq<(nat, nat)>)
    | Handler

  function Code(c: nat, s: Stretch): seq<Op> {
    match s
    case Enter(i) => [Acq(Outer(i)), Rel(Outer(i))]
    case Block(i) => [Acq(Outer(i)), Acq(Chan(i)), Rel(Outer(i)), Acq(RunQ(c)), Rel(Chan(i)), Rel(RunQ(c))]
    case SleepOn(i) => [Acq(Chan(i)), Acq(RunQ(c)), Rel(Chan(i)), Rel(RunQ(c))]
    case Signal(i, target) => [Acq(Outer(i)), Acq(Chan(i)), Rel(Chan(i))] + Wakeups(target) + [Rel(Outer(i))]
    case WakeUp(i, targets) => [Acq(Chan(i)), Rel(Chan(i))] + Wakeups(targets)
    case Fork(idle) => MakeRunnable(c, idle)
    case Yield(ipi) => MakeRunnable(c, ipi)
    case Count(i) => [Acq(RunQ(i)), Rel(RunQ(i))]
    case Migrate(gifts) => Gifts(gifts)
    case Handler => [Acq(Ipi(c)), Rel(Ipi(c))]
  }

  /** Locks are taken in increasing rank and all given back. */
  ghost predicate Ordered(ops: seq<Op>, held: set<Lock>) {
    if ops == [] then held == {}
    else match ops[0]
      case Acq(l) => (forall h | h in held :: Rank(h) < Rank(l)) && Ordered(ops[1..], held + {l})
      case Rel(l) => l in held && Ordered(ops[1..], held - {l})
  }

  /** A prefix that takes and gives back locks of its own keeps the order. */
  ghost predicate Neutral(ops: seq<Op>, held: set<Lock>) {
    forall rest {:trigger ops + rest} :: Ordered(rest, held) ==> Ordered(ops + rest, held)
  }

  lemma PairNeutral(l: Lock, held: set<Lock>)
    requires forall h | h in held :: Rank(h) < Rank(l)
    ensures Neutral([Acq(l), Rel(l)], held)
  {
    var ops := [Acq(l), Rel(l)];
    forall rest | Ordered(rest, held) ensures Ordered(ops + rest, held) {
      assert (ops + rest)[1..] == [Rel(l)] + rest && ([Rel(l)] + rest)[1..] == rest;
      assert held + {l} - {l} == held;
    }
  }

  /** A lock around something neutral. */
  lemma AroundNeutral(l: Lock, inner: seq<Op>, held: set<Lock>)
    requires (forall h | h in held :: Rank(h) < Rank(l)) && Neutral(inner, held + {l})
    ensures Neutral([Acq(l)] + inner + [Rel(l)], held)
  {
    var ops := [Acq(l)] + inner + [Rel(l)];
    forall rest | Ordered(rest, held) ensures Ordered(ops + rest, held) {
      assert ([Rel(l)] + rest)[1..] == rest && held + {l} - {l} == held;
      assert Ordered(inner + ([Rel(l)] + rest), held + {l});
      assert (ops + rest)[1..] == inner + ([Rel(l)] + rest);
    }
  }

  lemma BothNeutral(a: seq<Op>, b: seq<Op>, held: set<Lock>)
    requires Neutral(a, held) && Neutral(b, held)
    ensures Neutral(a + b, held)
  {
    forall rest | Ordered(rest, held) ensures Ordered((a + b) + rest, held) {
      assert a + (b + rest) == (a + b) + rest;
      assert Ordered(b + rest, held);
    }
  }

  lemma NothingNeutral(held: set<Lock>)
    ensures Neutral([], held)
  {
    forall rest | Ordered(rest, held) ensures Ordered([] + rest, held) {
      assert [] + rest == rest;
    }
  }

  lemma MakeRunnableNeutral(j: nat, idle: bool, held: set<Lock>)
    requires forall h | h in held :: Rank(h) < 2
    ensures Neutral(MakeRunnable(j, idle), held)
  {
    if idle {
      PairNeutral(Ipi(j), held + {RunQ(j)});
      AroundNeutral(RunQ(j), [Acq(Ipi(j)), Rel(Ipi(j))], held);
      assert [Acq(RunQ(j))] + [Acq(Ipi(j)), Rel(Ipi(j))] + [Rel(RunQ(j))] == MakeRunnable(j, idle);
    } else {
      PairNeutral(RunQ(j), held);
    }
  }

  lemma {:induction false} WakeupsNeutral(targets: seq<(nat, bool)>, held: set<Lock>)
    requires forall h | h in held :: Rank(h) < 2
    ensures Neutral(Wakeups(targets), held)
  {
    if targets == [] {
      NothingNeutral(held);
    } else {
      MakeRunnableNeutral(targets[0].0, targets[0].1, held);
      WakeupsNeutral(targets[1..], held);
      BothNeutral(MakeRunnable(targets[0].0, targets[0].1), Wakeups(targets[1..]), held);
    }
  }

  lemma {:induction false} IpisNeutral(i: nat, n: nat)
    ensures Neutral(Ipis(i, n), {RunQ(i)})
  {
    if n == 0 {
      NothingNeutral({RunQ(i)});
    } else {
      PairNeutral(Ipi(i), {RunQ(i)});
      IpisNeutral(i, n - 1);
      BothNeutral([Acq(Ipi(i)), Rel(Ipi(i))], Ipis(i, n - 1), {RunQ(i)});
    }
  }

  lemma {:induction false} GiftsNeutral(gifts: seq<(nat, nat)>)
    ensures Neutral(Gifts(gifts), {})
  {
    if gifts == [] {
      NothingNeutral({});
    } else {
      var i := gifts[0].0;
      IpisNeutral(i, gifts[0].1);
      assert {} + {RunQ(i)} == {RunQ(i)};
      AroundNeutral(RunQ(i), Ipis(i, gifts[0].1), {});
      GiftsNeutral(gifts[1..]);
      BothNeutral([Acq(RunQ(i))] + Ipis(i, gifts[0].1) + [Rel(RunQ(i))], Gifts(gifts[1..]), {});
    }
  }

  /** Going to sleep is the one place where locks are not released in reverse order. */
  lemma BlockOrdered(c: nat, i: nat)
    ensures Ordered(Code(c, Block(i)), {})
  {
    var ops := Code(c, Block(i));
    SwitchOrdered(c, i, ops[3..]);
    assert ops[2..][1..] == ops[3..] && {Outer(i), Chan(i)} - {Outer(i)} == {Chan(i)};
    assert Ordered(ops[2..], {Outer(i), Chan(i)});
    assert ops[1..][1..] == ops[2..] && {Outer(i)} + {Chan(i)} == {Outer(i), Chan(i)};
    assert Ordered(ops[1..], {Outer(i)});
    assert {} + {Outer(i)} == {Outer(i)};
  }

  /** thread_switch with the channel locked: the run queue is locked before it is unlocked. */
  lemma SwitchOrdered(c: nat, i: nat, ops: seq<Op>)
    requires ops == [Acq(RunQ(c)), Rel(Chan(i)), Rel(RunQ(c))]
    ensures Ordered(ops, {Chan(i)})
  {
    assert Ordered([], {});
    assert ops[2..] == [Rel(RunQ(c))] && [Rel(RunQ(c))][1..] == [] && {RunQ(c)} - {RunQ(c)} == {};
    assert Ordered(ops[2..], {RunQ(c)});
    assert ops[1..][1..] == ops[2..] && {Chan(i), RunQ(c)} - {Chan(i)} == {RunQ(c)};
    assert Ordered(ops[1..], {Chan(i), RunQ(c)});
    assert {Chan(i)} + {RunQ(c)} == {Chan(i), RunQ(c)};
  }

  lemma SleepOnOrdered(c: nat, i: nat)
    ensures Ordered(Code(c, SleepOn(i)), {})
  {
    var ops := Code(c, SleepOn(i));
    SwitchOrdered(c, i, ops[1..]);
    assert {} + {Chan(i)} == {Chan(i)};
  }

  /** Every path takes its locks in order. */
  lemma EveryStretchOrdered(c: nat, s: Stretch)
    ensures Ordered(Code(c, s), {})
  {
    if s.Block? {
      BlockOrdered(c, s.i);
    } else if s.SleepOn? {
      SleepOnOrdered(c, s.i);
    } else {
      StretchNeutral(c, s);
      assert Code(c, s) + [] == Code(c, s) && Ordered([], {});
    }
  }

  lemma StretchNeutral(c: nat, s: Stretch)
    requires !s.Block? && !s.SleepOn?
    ensures Neutral(Code(c, s), {})
  {
    match s
    case Enter(i) => PairNeutral(Outer(i), {});
    case Signal(i, target) =>
      assert {} + {Outer(i)} == {Outer(i)};
      PairNeutral(Chan(i), {Outer(i)});
      WakeupsNeutral(target, {Outer(i)});
      BothNeutral([Acq(Chan(i)), Rel(Chan(i))], Wakeups(target), {Outer(i)});
      AroundNeutral(Outer(i), [Acq(Chan(i)), Rel(Chan(i))] + Wakeups(target), {});
      assert [Acq(Outer(i))] + ([Acq(Chan(i)), Rel(Chan(i))] + Wakeups(target)) + [Rel(Outer(i))] == Code(c, s);
    case WakeUp(i, targets) =>
      PairNeutral(Chan(i), {});
      WakeupsNeutral(targets, {});
      BothNeutral([Acq(Chan(i)), Rel(Chan(i))], Wakeups(targets), {});
    case Fork(idle) => MakeRunnableNeutral(c, idle, {});
    case Yield(ipi) => MakeRunnableNeutral(c, ipi, {});
    case Count(i) => PairNeutral(RunQ(i), {});
    case Migrate(gifts) => GiftsNeutral(gifts);
    case Handler => PairNeutral(Ipi(c), {});
  }

  // --- The machine ----------------------------------------------------------------

  /** What each CPU still has to do of its stretch, and who holds each lock. */
  datatype State = State(todo: seq<seq<Op>>, holder: map<Lock, nat>)

  ghost function Held(s: State, c: nat): set<Lock> {
    set l | l in s.holder && s.holder[l] == c
  }

  ghost predicate Begins(s: State, c: nat, st: Stretch) {
    c < |s.todo| && s.todo[c] == Code(c, st)
  }

  /** CPU c starts a stretch, takes a free lock or gives one back; it spins by not
      moving. */
  ghost predicate Step(s: State, s': State, c: nat) {
    && c < |s.todo| == |s'.todo| && (forall d | 0 <= d < |s.todo| && d != c :: s'.todo[d] == s.todo[d])
    && if s.todo[c] == [] then (exists st :: Begins(s', c, st)) && s'.holder == s.holder
       else s'.todo[c] == s.todo[c][1..] && match s.todo[c][0]
         case Acq(l) => l !in s.holder && s'.holder == s.holder[l := c]
         case Rel(l) => s'.holder == s.holder - {l}
  }

  ghost predicate Inv(s: State) {
    && (forall c: nat | c < |s.todo| :: Ordered(s.todo[c], Held(s, c)))
    && (forall l | l in s.holder :: s.holder[l] < |s.todo|)
  }

  ghost predicate NextAt(run: seq<State>, i: nat)
    requires 1 <= i < |run|
  {
    Next(run[i - 1], run[i])
  }

  ghost predicate Run(run: seq<State>) {
    && run != [] && (forall c | 0 <= c < |run[0].todo| :: run[0].todo[c] == []) && run[0].holder == map[]
    && forall i | 1 <= i < |run| :: NextAt(run, i)
  }

  ghost predicate Next(s: State, s': State) {
    exists c :: Step(s, s', c)
  }

  lemma StepKeeps(s: State, s': State, c: nat)
    requires Inv(s) && Step(s, s', c)
    ensures Inv(s')
  {
    hide Code;
    assert Ordered(s.todo[c], Held(s, c));
    if s.todo[c] == [] {
      var st :| Begins(s', c, st);
      EveryStretchOrdered(c, st);
      assert Held(s', c) == Held(s, c);
    } else {
      var op := s.todo[c][0];
      assert op.Acq? ==> Held(s', c) == Held(s, c) + {op.l};
      assert op.Rel? ==> Held(s', c) == Held(s, c) - {op.l};
    }
    forall d: nat | d < |s'.todo| && d != c ensures Ordered(s'.todo[d], Held(s', d)) {
      assert Held(s', d) == Held(s, d);
    }
  }

  lemma {:induction false} RunInv(run: seq<State>, i: nat)
    requires Run(run) && i < |run|
    ensures Inv(run[i])
  {
    hide Step;
    if i == 0 {
      assert forall c: nat :: Held(run[0], c) == {};
    } else {
      RunInv(run, i - 1);
      assert NextAt(run, i);
      var c :| Step(run[i - 1], run[i], c);
      StepKeeps(run[i - 1], run[i], c);
    }
  }

  /** CPU c spins on a lock that d holds. */
  ghost predicate WaitsFor(s: State, c: nat, d: nat) {
    c < |s.todo| && s.todo[c] != [] && s.todo[c][0].Acq? && s.todo[c][0].l in s.holder && s.holder[s.todo[c][0].l] == d
  }

  ghost predicate Linked(s: State, cs: seq<nat>, i: nat)
    requires 1 <= i < |cs|
  {
    WaitsFor(s, cs[i - 1], cs[i])
  }

  ghost predicate Cycle(s: State, cs: seq<nat>) {
    && cs != [] && WaitsFor(s, cs[|cs| - 1], cs[0])
    && forall i | 1 <= i < |cs| :: Linked(s, cs, i)
  }

  /** CPU c spins. */
  ghost predicate Spins(s: State, c: nat) {
    c < |s.todo| && s.todo[c] != [] && s.todo[c][0].Acq?
  }

  /** Whoever is waited for waits, if at all, for a lock of higher rank. */
  lemma RanksRise(s: State, c: nat, d: nat)
    requires Inv(s) && Spins(s, d)
    ensures WaitsFor(s, c, d) ==> Rank(s.todo[c][0].l) < Rank(s.todo[d][0].l)
  {
    assert Ordered(s.todo[d], Held(s, d));
    assert WaitsFor(s, c, d) ==> s.todo[c][0].l in Held(s, d);
  }

  /** Each CPU of the sequence waits for the one after it, and the last spins. */
  ghost predicate Chain(s: State, cs: seq<nat>) {
    cs != [] && Spins(s, cs[|cs| - 1]) && forall i | 1 <= i < |cs| :: Linked(s, cs, i)
  }

  lemma ChainSpins(s: State, cs: seq<nat>, j: nat)
    requires Chain(s, cs) && j < |cs|
    ensures Spins(s, cs[j])
  {
    if j < |cs| - 1 {
      assert Linked(s, cs, j + 1);
    }
  }

  lemma {:induction false} RanksRiseAlong(s: State, cs: seq<nat>, i: nat)
    requires Inv(s) && Chain(s, cs) && i < |cs|
    ensures Spins(s, cs[0]) && Spins(s, cs[i]) && Rank(s.todo[cs[0]][0].l) <= Rank(s.todo[cs[i]][0].l)
  {
    hide Inv, Spins;
    ChainSpins(s, cs, 0);
    ChainSpins(s, cs, i);
    if i > 0 {
      RanksRiseAlong(s, cs, i - 1);
      assert Linked(s, cs, i);
      RanksRise(s, cs[i - 1], cs[i]);
    }
  }

  /** No run reaches a state in which CPUs spin on each other's locks in a circle; in
      particular no CPU ever spins on a lock it holds itself. */
  lemma NoDeadlock(run: seq<State>, i: nat, cs: seq<nat>)
    requires Run(run) && i < |run|
    ensures !Cycle(run[i], cs)
  {
    hide Run, Inv, Rank;
    RunInv(run, i);
    if Chain(run[i], cs) {
      RanksRiseAlong(run[i], cs, |cs| - 1);
      RanksRise(run[i], cs[|cs| - 1], cs[0]);
    }
  }
}
