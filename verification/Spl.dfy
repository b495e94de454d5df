/** thread/spl.c, thread/spinlock.c and their use in thread/thread.c: how often a thread
    has raised the interrupt priority, and when interrupts are on.
  */
module Spl {
  datatype Level = NONE | HIGH

  /** t_curspl and t_iplhigh_count, and the level a thread that is not running goes back
      to: the local variable spl of its thread_switch, or 0 in thread_startup. */
  class Thread {
    var curspl: Level
    var count: int
    var saved: Level

    /** thread_create */
    constructor ()
      ensures curspl == HIGH && count == 1 && saved == NONE
    {
      curspl, count, saved := HIGH, 1, NONE;
    }

    /** A thread that is not current carries two counts: for the run queue lock held at the
        switch, and for its raised level. */
    predicate Parked()
      reads this
    {
      curspl == HIGH && count == 2
    }
  }

  class Spinlock {
    var word: nat
    var holder: Cpu?

    constructor ()
      ensures word == 0 && holder == null
    {
      word, holder := 0, null;
    }
  }

  class Cpu {
    var cur: Thread
    /** The hardware interrupt flag. */
    var irqOn: bool
    ghost var held: set<Spinlock>

    constructor (t: Thread)
      requires t.curspl == HIGH && t.count == 1
      ensures Valid() && cur == t && held == {}
    {
      cur, irqOn, held := t, false, {};
    }

    /** The count is the number of spinlocks this CPU holds, plus one if the level is
        raised; interrupts are on exactly when it is 0. */
    ghost predicate Valid()
      reads this, cur, held
    {
      && cur.count == |held| + (if cur.curspl == HIGH then 1 else 0)
      && irqOn == (cur.count == 0)
      && forall l | l in held :: l.holder == this && l.word == 1
    }

    /** Interrupts go off at the first raise. */
    method Splraise(oldspl: Level, newspl: Level)
      requires oldspl == NONE && newspl == HIGH && irqOn == (cur.count == 0) && cur.count >= 0
      modifies this`irqOn, cur`count
      ensures cur.count == old(cur.count) + 1 && !irqOn
    {
      if cur.count == 0 {
        irqOn := false;
      }
      cur.count := cur.count + 1;
    }

    /** Interrupts come back on at the last lower. */
    method Spllower(oldspl: Level, newspl: Level)
      requires oldspl == HIGH && newspl == NONE && irqOn == (cur.count == 0) && cur.count > 0
      modifies this`irqOn, cur`count
      ensures cur.count == old(cur.count) - 1 && irqOn == (cur.count == 0)
    {
      cur.count := cur.count - 1;
      if cur.count == 0 {
        irqOn := true;
      }
    }

    /** splx: any level to any level; the old one is returned. */
    method Splx(spl: Level) returns (ret: Level)
      requires Valid()
      modifies this`irqOn, cur`count, cur`curspl
      ensures Valid() && ret == old(cur.curspl) && cur.curspl == spl
      ensures irqOn <==> spl == NONE && held == {}
    {
      ret := cur.curspl;
      if cur.curspl == NONE && spl == HIGH {
        Splraise(cur.curspl, spl);
        cur.curspl := spl;
      } else if cur.curspl == HIGH && spl == NONE {
        cur.curspl := spl;
        Spllower(ret, spl);
      }
    }

    /** spinlock_acquire, once the test-and-set has found the lock free. The deadlock panic
        is for a lock this CPU already holds. */
    method Acquire(lk: Spinlock)
      requires Valid() && lk.holder != this && lk.word == 0
      modifies this`irqOn, this`held, cur`count, lk
      ensures Valid() && held == old(held) + {lk} && lk !in old(held) && cur == old(cur)
      ensures cur.curspl == old(cur.curspl)
      ensures lk.holder == this && lk.word == 1 && !irqOn
    {
      Splraise(NONE, HIGH);
      lk.word := 1;
      lk.holder := this;
      held := held + {lk};
    }

    /** spinlock_release; its assertion is that this CPU holds the lock. */
    method Release(lk: Spinlock)
      requires Valid() && lk in held
      modifies this`irqOn, this`held, cur`count, lk
      ensures Valid() && held == old(held) - {lk} && cur == old(cur) && cur.curspl == old(cur.curspl)
      ensures lk.holder == null && lk.word == 0
      ensures irqOn <==> held == {} && cur.curspl == NONE
    {
      lk.holder := null;
      lk.word := 0;
      held := held - {lk};
      Spllower(HIGH, NONE);
    }
  }

  // --- All the CPUs -----------------------------------------------------------------------

  datatype Op =
    | DoSplx(c: nat, spl: Level)
    | DoAcquire(c: nat, lk: Spinlock)
    | DoRelease(c: nat, lk: Spinlock)
    | DoSwitch(c: nat, runqueue: Spinlock, wc: Spinlock?, next: Thread, idles: nat)
    | DoFork

  /** What matters: the thread each CPU runs, the spinlocks it holds and whether its interrupts
      are on; the level each thread runs at or will be resumed at; and all the spinlocks. */
  datatype Picture = Picture(
    cur: seq<Thread>, locks: seq<set<Spinlock>>, irqOn: seq<bool>, level: map<Thread, Level>, all: set<Spinlock>)

  /** Interrupts are on exactly where the level is 0 and no spinlock is held; no thread is
      on two CPUs and no lock held by two. */
  ghost predicate Proper(x: Picture) {
    && |x.cur| == |x.locks| == |x.irqOn| && (forall i | 0 <= i < |x.cur| :: x.cur[i] in x.level)
    && (forall i | 0 <= i < |x.cur| :: x.irqOn[i] <==> x.level[x.cur[i]] == NONE && x.locks[i] == {})
    && (forall i, j | 0 <= i < j < |x.cur| :: x.cur[i] != x.cur[j] && x.locks[i] !! x.locks[j])
  }

  ghost predicate IsFree(x: Picture, lk: Spinlock) {
    lk in x.all && forall i | 0 <= i < |x.locks| :: lk !in x.locks[i]
  }

  /** When an operation can be done: splx always, acquiring a lock that is free, releasing one that
      this CPU holds, switching with no lock but the channel's to a thread that runs nowhere else,
      and thread_fork always. */
  ghost predicate Possible(op: Op, x: Picture)
    requires Proper(x)
  {
    op.DoFork? ||
    (op.c < |x.cur| &&
     match op
     case DoSplx(_, _) => true
     case DoAcquire(_, lk) => IsFree(x, lk)
     case DoRelease(c, lk) => lk in x.locks[c]
     case DoSwitch(c, runqueue, wc, next, _) =>
       && IsFree(x, runqueue) && x.locks[c] == (if wc == null then {} else {wc})
       && next in x.level && forall i | 0 <= i < |x.cur| && i != c :: x.cur[i] != next)
  }

  /** Only its own splx changes the level of a thread. Switching to another thread and back,
      on whatever CPU, does not. What cannot be done, such as taking a lock that is not
      free, is not. */
  ghost predicate Did(op: Op, x: Picture, y: Picture, done: bool)
    requires Proper(x)
  {
    && |y.cur| == |x.cur| && |y.locks| == |x.locks| && y.all == x.all && (done <==> Possible(op, x))
    && if !done then y == x
       else match op
         case DoSplx(c, spl) => y.cur == x.cur && y.locks == x.locks && y.level == x.level[x.cur[c] := spl]
         case DoAcquire(c, lk) =>
           y.cur == x.cur && y.level == x.level && y.locks == x.locks[c := x.locks[c] + {lk}]
         case DoRelease(c, lk) =>
           y.cur == x.cur && y.level == x.level && y.locks == x.locks[c := x.locks[c] - {lk}]
         case DoSwitch(c, _, wc, next, _) =>
           y.cur == x.cur[c := next] && y.level == x.level && y.locks == x.locks[c := {}]
         case DoFork =>
           && y.cur == x.cur && y.locks == x.locks
           && exists t | t in y.level && t !in x.level :: y.level == x.level[t := NONE]
  }

  method NewCpus(n: nat) returns (cs: seq<Cpu>)
    ensures |cs| == n && fresh(cs)
    ensures forall i, j | 0 <= i < j < |cs| :: cs[i] != cs[j] && cs[i].cur != cs[j].cur
    ensures forall c | c in cs :: fresh(c.cur) && c.held == {} && c.Valid()
  {
    cs := [];
    while |cs| < n
      invariant |cs| <= n && fresh(cs)
      invariant forall i, j | 0 <= i < j < |cs| :: cs[i] != cs[j] && cs[i].cur != cs[j].cur
      invariant forall c | c in cs :: fresh(c.cur) && c.held == {} && c.Valid()
    {
      var t := new Thread();
      var c := new Cpu(t);
      cs := cs + [c];
    }
  }

  method NewLocks(m: nat) returns (ls: set<Spinlock>)
    ensures |ls| == m && fresh(ls) && forall l | l in ls :: l.word == 0 && l.holder == null
  {
    ls := {};
    while |ls| < m
      invariant |ls| <= m && fresh(ls) && forall l | l in ls :: l.word == 0 && l.holder == null
    {
      var l := new Spinlock();
      ls := ls + {l};
    }
  }

  /** thread_create and the extra count of thread_fork, for the run queue lock that a new
      thread comes out holding. */
  method NewThread() returns (t: Thread)
    ensures fresh(t) && t.Parked() && t.saved == NONE
  {
    t := new Thread();
    t.count := t.count + 1;
  }

  class Machine {
    const cpus: seq<Cpu>
    var threads: set<Thread>
    const locks: set<Spinlock>

    /** The threads that are current somewhere. */
    function Running(): set<Thread>
      reads cpus
    {
      set c | c in cpus :: c.cur
    }

    /** n CPUs at boot, each with a thread of its own, and m locks. */
    constructor (n: nat, m: nat)
      ensures Valid() && fresh(cpus) && fresh(threads) && fresh(locks) && |cpus| == n && |locks| == m
    {
      var cs := NewCpus(n);
      var ls := NewLocks(m);
      cpus, threads, locks := cs, set c | c in cs :: c.cur, ls;
    }

    /** A lock is free, or held by the CPU that it says. */
    ghost predicate LockOk(l: Spinlock)
      reads l, cpus
    {
      if l.holder == null then l.word == 0 else l.holder in cpus && l in l.holder.held
    }

    /** Every CPU's accounts are right, no thread is on two CPUs, and every thread that is
        on none carries the two counts its resumption will drop. */
    ghost predicate Valid()
      reads this, cpus, threads, locks
    {
      && (forall i, j | 0 <= i < j < |cpus| :: cpus[i] != cpus[j])
      && (forall c, d | c in cpus && d in cpus && c != d :: c.cur != d.cur)
      && (forall c | c in cpus :: c.cur in threads && c.held <= locks && c.Valid())
      && (forall l | l in locks :: LockOk(l))
      && (forall t | t in threads && t !in Running() :: t.Parked())
    }

    /** The level a thread runs at, or will run at when it is resumed. */
    ghost function LevelOf(t: Thread): Level
      reads cpus, t
    {
      if t in Running() then t.curspl else t.saved
    }

    ghost function Now(): (x: Picture)
      reads this, cpus, threads
      ensures |x.cur| == |x.locks| == |x.irqOn| == |cpus| && x.level.Keys == threads && x.all == locks
      ensures forall i | 0 <= i < |cpus| ::
                x.cur[i] == cpus[i].cur && x.locks[i] == cpus[i].held && x.irqOn[i] == cpus[i].irqOn
      ensures forall t | t in threads :: x.level[t] == LevelOf(t)
    {
      Picture(
        seq(|cpus|, i requires 0 <= i < |cpus| reads this, cpus => cpus[i].cur),
        seq(|cpus|, i requires 0 <= i < |cpus| reads this, cpus => cpus[i].held),
        seq(|cpus|, i requires 0 <= i < |cpus| reads this, cpus => cpus[i].irqOn),
        map t | t in threads :: LevelOf(t), locks)
    }

    lemma NowProper()
      requires Valid()
      ensures Proper(Now())
    {
      hide Now;
      forall i | 0 <= i < |cpus| ensures cpus[i].cur in Running() && (cpus[i].held == {} <==> |cpus[i].held| == 0) {
        assert cpus[i] in cpus;
      }
      forall i, j | 0 <= i < j < |cpus| ensures cpus[i].held !! cpus[j].held {
        assert cpus[i] in cpus && cpus[j] in cpus;
        assert cpus[i].Valid() && cpus[j].Valid();
      }
    }

    method SplxOn(cpu: Cpu, spl: Level) returns (ret: Level)
      requires Valid() && cpu in cpus
      modifies cpu`irqOn, cpu.cur`count, cpu.cur`curspl
      ensures Valid() && cpu.cur in threads && cpu.cur.curspl == spl && ret == old(LevelOf(cpu.cur))
      ensures forall t | t in threads :: LevelOf(t) == if t == cpu.cur then spl else old(LevelOf(t))
    {
      assert cpu.cur in Running();
      ret := cpu.Splx(spl);
      assert Running() == old(Running());
    }

    /** The lock is free; otherwise the CPU spins. */
    method AcquireOn(cpu: Cpu, lk: Spinlock)
      requires Valid() && cpu in cpus && lk in locks && lk.word == 0
      modifies cpu`irqOn, cpu`held, cpu.cur`count, lk
      ensures Valid() && lk !in old(cpu.held) && cpu.held == old(cpu.held) + {lk}
      ensures forall t | t in threads :: LevelOf(t) == old(LevelOf(t))
    {
      assert LockOk(lk) && cpu.cur in Running();
      cpu.Acquire(lk);
      assert Running() == old(Running());
    }

    method ReleaseOn(cpu: Cpu, lk: Spinlock)
      requires Valid() && cpu in cpus && lk in locks && lk.holder == cpu
      modifies cpu`irqOn, cpu`held, cpu.cur`count, lk
      ensures Valid() && lk in old(cpu.held) && cpu.held == old(cpu.held) - {lk} && lk.word == 0
      ensures forall t | t in threads :: LevelOf(t) == old(LevelOf(t))
    {
      assert LockOk(lk) && cpu.cur in Running();
      cpu.Release(lk);
      assert Running() == old(Running());
    }

    /** The idle loop of thread_switch: the run queue lock is dropped around cpu_idle. */
    method Idle(cpu: Cpu, runqueue: Spinlock, idles: nat)
      requires Valid() && cpu in cpus && runqueue in locks && cpu.held == {runqueue}
      modifies cpu`irqOn, cpu`held, cpu.cur`count, runqueue
      ensures Valid() && cpu.held == {runqueue}
      ensures forall t | t in threads :: LevelOf(t) == old(LevelOf(t))
    {
      var i := 0;
      while i < idles
        invariant Valid() && cpu.held == {runqueue} && forall t | t in threads :: LevelOf(t) == old(LevelOf(t))
      {
        assert cpu.Valid();
        ReleaseOn(cpu, runqueue);
        // cpu_idle
        AcquireOn(cpu, runqueue);
        i := i + 1;
      }
    }

    /** The switch itself. Both threads have two counts: for the lock, and for the level. */
    method HandOver(cpu: Cpu, next: Thread, ghost runqueue: Spinlock)
      requires Valid() && cpu in cpus && cpu.held == {runqueue} && cpu.cur.curspl == HIGH
      requires next in threads && (next == cpu.cur || next !in Running())
      modifies cpu`cur
      ensures Valid() && cpu.cur == next && next.curspl == HIGH
      ensures next != old(cpu.cur) ==> LevelOf(old(cpu.cur)) == old(cpu.cur).saved && old(LevelOf(next)) == next.saved
      ensures forall t | t in threads && t != old(cpu.cur) && t != next :: LevelOf(t) == old(LevelOf(t))
    {
      assert cpu.Valid() && cpu.cur in Running() && cpu.cur.Parked();
      assert next != cpu.cur ==> next.Parked();
      cpu.cur := next;
      assert Running() == (old(Running()) - {old(cpu.cur)}) + {next};
    }

    /** thread_switch, from a caller that holds no spinlock or only the one of the channel wc
        it goes to sleep on. The next thread is this one or one that runs nowhere, and
        before there is one the CPU idles any number of times. The thread switched in, on
        whose stack the rest is done, goes back to the level it saved when it was switched
        out. */
    method SwitchOn(cpu: Cpu, runqueue: Spinlock, wc: Spinlock?, next: Thread, idles: nat)
      requires Valid() && cpu in cpus && runqueue in locks && runqueue.word == 0 && runqueue != wc
      requires wc == null || (wc in locks && wc.holder == cpu)
      requires |cpu.held| == if wc == null then 0 else 1
      requires next in threads && (next == cpu.cur || next !in Running())
      modifies cpu, cpu.cur, next, runqueue, cpu.held
      ensures Valid() && cpu.cur == next && cpu.held == {}
      ensures forall t | t in threads :: LevelOf(t) == old(LevelOf(t))
    {
      hide Valid, LevelOf;
      OwnFacts(cpu);
      SwitchOut(cpu, runqueue, wc);
      Idle(cpu, runqueue, idles);
      assert Running() == old(Running());
      SwitchIn(cpu, runqueue, next);
    }

    /** The thread's level is saved and raised, the run queue locked and the channel
        unlocked. */
    method SwitchOut(cpu: Cpu, runqueue: Spinlock, wc: Spinlock?)
      requires Valid() && cpu in cpus && runqueue in locks && runqueue.word == 0 && runqueue != wc
      requires wc == null || (wc in locks && wc.holder == cpu)
      requires |cpu.held| == if wc == null then 0 else 1
      modifies cpu`irqOn, cpu`held, cpu.cur, runqueue, cpu.held
      ensures Valid() && cpu.held == {runqueue} && cpu.cur.curspl == HIGH && cpu.cur.saved == old(LevelOf(cpu.cur))
      ensures forall t | t in threads && t != cpu.cur :: LevelOf(t) == old(LevelOf(t))
    {
      hide Valid, LevelOf, Running;
      OwnFacts(cpu);
      var spl := SplxOn(cpu, HIGH);
      Save(cpu, spl);
      if wc != null {
        OnlyOne(cpu.held, wc);
      }
      AcquireOn(cpu, runqueue);
      if wc != null {
        ReleaseOn(cpu, wc);
      }
      assert cpu.held == {runqueue};
    }

    /** On the stack of the next thread: the lock goes, and the level is what it was. */
    method SwitchIn(cpu: Cpu, runqueue: Spinlock, next: Thread)
      requires Valid() && cpu in cpus && cpu.held == {runqueue} && cpu.cur.curspl == HIGH
      requires next in threads && (next == cpu.cur || next !in Running())
      modifies cpu, next, runqueue
      ensures Valid() && cpu.cur == next && cpu.held == {} && next.saved == old(next.saved)
      ensures LevelOf(next) == next.saved && LevelOf(old(cpu.cur)) == old(cpu.cur.saved)
      ensures next != old(cpu.cur) ==> old(LevelOf(next)) == next.saved
      ensures forall t | t in threads && t != old(cpu.cur) && t != next :: LevelOf(t) == old(LevelOf(t))
    {
      hide Valid, LevelOf, Running;
      OwnFacts(cpu);
      HandOver(cpu, next, runqueue);
      OwnFacts(cpu);
      ReleaseOn(cpu, runqueue);
      var spl := SplxOn(cpu, cpu.cur.saved);
    }

    /** The level of a running thread is kept in a local variable of thread_switch. */
    method Save(cpu: Cpu, spl: Level)
      requires Valid() && cpu in cpus
      modifies cpu.cur`saved
      ensures Valid() && cpu.cur.saved == spl
      ensures forall t | t in threads :: LevelOf(t) == old(LevelOf(t))
    {
      assert cpu.cur in Running();
      cpu.cur.saved := spl;
      assert Running() == old(Running());
    }

    lemma OwnFacts(cpu: Cpu)
      requires Valid() && cpu in cpus
      ensures cpu.cur in threads && cpu.held <= locks && LevelOf(cpu.cur) == cpu.cur.curspl
      ensures forall l | l in cpu.held :: l.holder == cpu && l.word == 1
      ensures forall l | l in locks && l.holder == cpu :: l in cpu.held
    {
      assert cpu.cur in Running() && cpu.Valid();
      assert forall l | l in locks :: LockOk(l);
    }

    /** thread_fork: the new thread will start with interrupts on. */
    method Fork() returns (t: Thread)
      requires Valid()
      modifies this`threads
      ensures Valid() && fresh(t) && threads == old(threads) + {t} && LevelOf(t) == NONE
      ensures forall u | u in old(threads) :: LevelOf(u) == old(LevelOf(u))
    {
      t := NewThread();
      threads := threads + {t};
    }

    method SplxBy(c: nat, spl: Level) returns (done: bool)
      requires Valid() && c < |cpus|
      modifies cpus, threads, locks
      ensures Valid() && Proper(old(Now())) && Did(DoSplx(c, spl), old(Now()), Now(), done)
    {
      hide Valid, LockOk, LevelOf, Now, Proper, Running;
      NowProper();
      Apart(c);
      ghost var x := Now();
      var cpu := cpus[c];
      done := true;
      if done {
        var _ := SplxOn(cpu, spl);
        assert Now().cur == x.cur && Now().locks == x.locks && Now().level == x.level[x.cur[c] := spl];
      }
    }

    method AcquireBy(c: nat, lk: Spinlock) returns (done: bool)
      requires Valid() && c < |cpus|
      modifies cpus, threads, locks
      ensures Valid() && Proper(old(Now())) && Did(DoAcquire(c, lk), old(Now()), Now(), done)
    {
      hide Valid, LockOk, LevelOf, Now, Proper, Running;
      NowProper();
      Apart(c);
      ghost var x := Now();
      var cpu := cpus[c];
      FreeLock(lk);
      done := lk in locks && lk.word == 0;
      if done {
        AcquireOn(cpu, lk);
        assert Now().cur == x.cur && Now().level == x.level && Now().locks == x.locks[c := x.locks[c] + {lk}];
      }
    }

    method ReleaseBy(c: nat, lk: Spinlock) returns (done: bool)
      requires Valid() && c < |cpus|
      modifies cpus, threads, locks
      ensures Valid() && Proper(old(Now())) && Did(DoRelease(c, lk), old(Now()), Now(), done)
    {
      hide Valid, LockOk, LevelOf, Now, Proper, Running;
      NowProper();
      Apart(c);
      ghost var x := Now();
      var cpu := cpus[c];
      HeldLock(c, lk);
      done := lk in locks && lk.holder == cpu;
      if done {
        ReleaseOn(cpu, lk);
        assert Now().cur == x.cur && Now().level == x.level && Now().locks == x.locks[c := x.locks[c] - {lk}];
      }
    }

    method SwitchBy(c: nat, runqueue: Spinlock, wc: Spinlock?, next: Thread, idles: nat) returns (done: bool)
      requires Valid() && c < |cpus|
      modifies cpus, threads, locks
      ensures Valid() && Proper(old(Now())) && Did(DoSwitch(c, runqueue, wc, next, idles), old(Now()), Now(), done)
    {
      hide Valid, LockOk, LevelOf, Now, Proper, Running;
      NowProper();
      Apart(c);
      ghost var x := Now();
      var cpu := cpus[c];
      SwitchPossible(c, runqueue, wc, next);
      var n := if cpu.cur.curspl == HIGH then cpu.cur.count - 1 else cpu.cur.count;
      done := && runqueue in locks && runqueue.word == 0 && runqueue != wc
              && (wc == null || (wc in locks && wc.holder == cpu))
              && n == (if wc == null then 0 else 1) && next in threads && (next == cpu.cur || next !in Running());
      if done {
        SwitchOn(cpu, runqueue, wc, next, idles);
        assert Now().cur == x.cur[c := next] && Now().level == x.level && Now().locks == x.locks[c := {}];
      }
    }

    method ForkBy() returns (done: bool)
      requires Valid()
      modifies this`threads
      ensures Valid() && Proper(old(Now())) && Did(DoFork, old(Now()), Now(), done)
      ensures forall t | t in threads :: t in old(threads) || fresh(t)
    {
      hide Valid, LockOk, LevelOf, Now, Proper, Running;
      NowProper();
      ghost var x := Now();
      var t := Fork();
      done := true;
      assert Now().level == x.level[t := NONE] && Now().cur == x.cur && Now().locks == x.locks;
    }

    /** One operation, if it can be done. */
    method Do(op: Op) returns (done: bool)
      requires Valid()
      modifies this`threads, cpus, threads, locks
      ensures Valid() && Proper(old(Now())) && Did(op, old(Now()), Now(), done) && Proper(Now())
      ensures forall t | t in threads :: t in old(threads) || fresh(t)
    {
      hide Valid, Now, Proper, Running;
      NowProper();
      done := false;
      if op.DoFork? {
        done := ForkBy();
      } else if op.c < |cpus| {
        match op
        case DoSplx(c, spl) =>
          done := SplxBy(c, spl);
        case DoAcquire(c, lk) =>
          done := AcquireBy(c, lk);
        case DoRelease(c, lk) =>
          done := ReleaseBy(c, lk);
        case DoSwitch(c, runqueue, wc, next, idles) =>
          done := SwitchBy(c, runqueue, wc, next, idles);
      }
      NowProper();
    }

    /** Any sequence of operations of any CPUs. */
    method Run(ops: seq<Op>) returns (ds: seq<bool>, ghost xs: seq<Picture>)
      requires Valid()
      modifies this`threads, cpus, threads, locks
      ensures Valid() && Trace(ops, xs, ds) && xs[0] == old(Now()) && xs[|ops|] == Now() && Proper(Now())
    {
      hide Valid, Now, Proper, Did, Running;
      ds, xs := [], [Now()];
      var i := 0;
      while i < |ops|
        invariant 0 <= i <= |ops| && Valid() && |ds| == i && |xs| == i + 1 && xs[0] == old(Now()) && xs[i] == Now()
        invariant forall t | t in threads :: t in old(threads) || fresh(t)
        invariant forall j | 0 <= j < i :: Proper(xs[j]) && Did(ops[j], xs[j], xs[j + 1], ds[j])
      {
        var d := Do(ops[i]);
        ds, xs, i := ds + [d], xs + [Now()], i + 1;
      }
      NowProper();
    }

    /** The word of a lock says whether somebody holds it. */
    lemma FreeLock(lk: Spinlock)
      requires Valid()
      ensures IsFree(Now(), lk) <==> lk in locks && lk.word == 0
    {
      hide Now;
      if lk in locks {
        assert LockOk(lk);
        if lk.holder != null {
          var i :| 0 <= i < |cpus| && cpus[i] == lk.holder;
          assert cpus[i].Valid() && lk in Now().locks[i];
        } else {
          forall i | 0 <= i < |cpus| ensures lk !in cpus[i].held {
            assert cpus[i] in cpus && cpus[i].Valid();
          }
        }
      }
    }

    lemma HeldLock(c: nat, lk: Spinlock)
      requires Valid() && c < |cpus|
      ensures lk in cpus[c].held <==> lk in locks && lk.holder == cpus[c]
    {
      assert cpus[c] in cpus && cpus[c].Valid();
      assert lk in locks ==> LockOk(lk);
    }

    lemma SwitchPossible(c: nat, runqueue: Spinlock, wc: Spinlock?, next: Thread)
      requires Valid() && c < |cpus| && Proper(Now())
      ensures Possible(DoSwitch(c, runqueue, wc, next, 0), Now()) <==>
                && runqueue in locks && runqueue.word == 0 && runqueue != wc
                && (wc == null || (wc in locks && wc.holder == cpus[c]))
                && |cpus[c].held| == (if wc == null then 0 else 1) && next in threads
                && (next == cpus[c].cur || next !in Running())
    {
      hide Now, Valid;
      FreeLock(runqueue);
      NotElsewhere(c, next);
      if wc != null {
        HeldLock(c, wc);
        if wc in cpus[c].held && |cpus[c].held| == 1 {
          OnlyOne(cpus[c].held, wc);
        }
        assert wc == runqueue && cpus[c].held == {wc} ==> wc in Now().locks[c];
      }
    }

    lemma NotElsewhere(c: nat, t: Thread)
      requires Valid() && c < |cpus|
      ensures (forall i | 0 <= i < |cpus| && i != c :: cpus[i].cur != t) <==> t == cpus[c].cur || t !in Running()
    {
      if t == cpus[c].cur {
        forall i | 0 <= i < |cpus| && i != c ensures cpus[i].cur != t {
          assert cpus[i] in cpus && cpus[c] in cpus && cpus[i] != cpus[c];
        }
      } else if t in Running() {
        var d :| d in cpus && d.cur == t;
        var i :| 0 <= i < |cpus| && cpus[i] == d;
      } else {
        forall i | 0 <= i < |cpus| ensures cpus[i].cur != t {
          assert cpus[i] in cpus;
        }
      }
    }

    /** What a CPU can touch is its own. */
    lemma Apart(c: nat)
      requires Valid() && c < |cpus|
      ensures cpus[c] in cpus && cpus[c].cur in threads && cpus[c].held <= locks
      ensures cpus[c].cur.count == |cpus[c].held| + (if cpus[c].cur.curspl == HIGH then 1 else 0)
      ensures forall i | 0 <= i < |cpus| && i != c :: cpus[i] != cpus[c]
    {
      assert cpus[c] in cpus;
    }
  }

  ghost predicate DidAt(ops: seq<Op>, xs: seq<Picture>, ds: seq<bool>, i: nat)
    requires i < |ops| && i < |ds| && i + 1 < |xs|
  {
    Proper(xs[i]) && Did(ops[i], xs[i], xs[i + 1], ds[i])
  }

  /** A thread did not run splx in the first i operations. */
  ghost predicate NoSplx(ops: seq<Op>, xs: seq<Picture>, t: Thread, i: nat)
    requires i <= |ops| && |ops| < |xs|
  {
    forall j | 0 <= j < i && ops[j].DoSplx? && ops[j].c < |xs[j].cur| :: xs[j].cur[ops[j].c] != t
  }

  ghost predicate Trace(ops: seq<Op>, xs: seq<Picture>, ds: seq<bool>) {
    |ds| == |ops| && |xs| == |ops| + 1 && forall i | 0 <= i < |ops| :: DidAt(ops, xs, ds, i)
  }

  /** However often a thread is switched out, by whatever CPU it is resumed: it is back at
      the level it had. */
  lemma {:induction false} LevelKept(ops: seq<Op>, xs: seq<Picture>, ds: seq<bool>, t: Thread, i: nat)
    requires Trace(ops, xs, ds) && i <= |ops| && t in xs[0].level && NoSplx(ops, xs, t, i)
    ensures t in xs[i].level && xs[i].level[t] == xs[0].level[t]
  {
    if i > 0 {
      LevelKept(ops, xs, ds, t, i - 1);
      assert DidAt(ops, xs, ds, i - 1);
    }
  }

  lemma OnlyOne<T>(s: set<T>, x: T)
    requires |s| == 1 && x in s
    ensures s == {x}
  {
    assert |s - {x}| == 0;
  }
}
