/** What becomes of threads over whole runs of thread/thread.c: where a thread goes when it
    yields, sleeps or exits, how long it stays there, who takes it away and where to.
  */
module ThreadRuns {
  import opened Threads

  // --- What each step does to each kind of list ------------------------------------------

  /** The thread in front of CPU c's hand. */
  function InFront(s: State, c: nat): Tid
    requires c < |s.cur| && Mine(s, c) != [] && At(s.lists, MyHand(s, c)) != []
  {
    At(s.lists, MyHand(s, c))[0]
  }

  /** What the steps that need something find. */
  lemma EnabledFacts(s: State, c: nat, step: Step)
    requires Enabled(s, c, step)
    ensures Sized(s) && c < |s.cur|
    ensures step == PickNext ==> At(s.lists, RunQ(c)) != []
    ensures step == Destroy ==> At(s.lists, Zombies(c)) != []
    ensures step.WakeOne? ==> At(s.lists, Chan(step.w)) != []
    ensures step == MakeRunnable || step == PutBack ==> At(s.lists, MyHand(s, c)) != []
    ensures step in {Destroy, MakeRunnable, Take, Give} ==> !Top(Mine(s, c)).Switch?
  {
  }

  lemma ChanStep(s: State, c: nat, step: Step, w: nat)
    requires Enabled(s, c, step)
    ensures var xs, xs' := At(s.lists, Chan(w)), At(Apply(s, c, step).lists, Chan(w));
            if step == WakeOne(w) then xs != [] && xs' == xs[1..]
            else if step == WakeAll(w) then xs' == []
            else if step == Place && Top(Mine(s, c)).why == Sleep(w) then xs' == xs + [s.cur[c]]
            else xs' == xs
  {
    hide Enabled, Sized, Top, Push, Pop, StateFor, Notify, DivRoundUp;
    EnabledFacts(s, c, step);
  }

  lemma ZombiesStep(s: State, c: nat, step: Step, q: nat)
    requires Enabled(s, c, step)
    ensures var xs, xs' := At(s.lists, Zombies(q)), At(Apply(s, c, step).lists, Zombies(q));
            if step == Destroy && q == c then xs != [] && xs' == xs[1..]
            else if step == Place && Top(Mine(s, c)).why == Exit && q == c then xs' == xs + [s.cur[c]]
            else xs' == xs
  {
    hide Enabled;
    EnabledFacts(s, c, step);
  }

  /** The thread that a step adds to run queue q, if it adds one. */
  ghost function Joins(s: State, c: nat, step: Step, q: nat): seq<Tid>
    requires Enabled(s, c, step)
  {
    match step
    case Place => if Top(Mine(s, c)).why == Ready && q == c then [s.cur[c]] else []
    case MakeRunnable => if s.tcpu[InFront(s, c)] == q then [InFront(s, c)] else []
    case Give =>
      if At(s.lists, MyHand(s, c)) != [] && InFront(s, c) != s.cur[c] && Top(Mine(s, c)).i == q then [InFront(s, c)]
      else []
    case PutBack => if q == c then [InFront(s, c)] else []
    case _ => []
  }

  lemma RunQStep(s: State, c: nat, step: Step, q: nat)
    requires Enabled(s, c, step)
    ensures var xs, xs' := At(s.lists, RunQ(q)), At(Apply(s, c, step).lists, RunQ(q));
            if step == PickNext && q == c then xs != [] && xs' == xs[1..]
            else if step == Take && q == c && xs != [] then xs' == xs[..|xs| - 1]
            else xs' == xs + Joins(s, c, step, q)
  {
    hide Enabled;
    EnabledFacts(s, c, step);
  }

  /** The hand of a new frame is empty, and a migration has what it is about to move. */
  lemma MoveFacts(s: State, c: nat, step: Step)
    requires Inv(s) && Enabled(s, c, step)
    ensures At(s.lists, NewHand(s, c)) == []
    ensures step == Take ==> At(s.lists, RunQ(c)) != []
    ensures step == Give ==> At(s.lists, MyHand(s, c)) != []
  {
    TopFacts(s, c);
    HandEmpty(s, s.cur[c], |Mine(s, c)|);
  }

  /** What a step puts into the hand of a new frame. */
  lemma NewHandStep(s: State, c: nat, step: Step)
    requires Enabled(s, c, step) && At(s.lists, NewHand(s, c)) == []
    ensures At(Apply(s, c, step).lists, NewHand(s, c)) ==
              match step
              case WakeOne(w) => At(s.lists, Chan(w))[..1]
              case WakeAll(w) => At(s.lists, Chan(w))
              case Fork(t) => [t]
              case _ => []
  {
    hide Enabled;
    EnabledFacts(s, c, step);
  }

  /** What a step leaves in the hand of the frame that takes it. */
  lemma MyHandStep(s: State, c: nat, step: Step)
    requires Enabled(s, c, step)
    requires step == Take ==> At(s.lists, RunQ(c)) != []
    requires step == Give ==> At(s.lists, MyHand(s, c)) != []
    ensures var xs, xs' := At(s.lists, MyHand(s, c)), At(Apply(s, c, step).lists, MyHand(s, c));
            if step == MakeRunnable || step == PutBack then xs != [] && xs' == xs[1..]
            else if step == Give then xs' == if xs[0] == s.cur[c] then xs[1..] + [xs[0]] else xs[1..]
            else if step == Take then xs' == [Final(At(s.lists, RunQ(c)))] + xs
            else xs' == xs
  {
    hide Enabled;
    EnabledFacts(s, c, step);
  }

  /** All the other hands keep what they have. */
  lemma HandStep(s: State, c: nat, step: Step, o: Tid, d: nat)
    requires Enabled(s, c, step) && Hand(o, d) != NewHand(s, c) && Hand(o, d) != MyHand(s, c)
    ensures At(Apply(s, c, step).lists, Hand(o, d)) == At(s.lists, Hand(o, d))
  {
    hide Enabled;
    EnabledFacts(s, c, step);
  }

  function Final(xs: seq<Tid>): Tid
    requires xs != []
  {
    xs[|xs| - 1]
  }

  /** A step of one CPU leaves the others on their threads, and those on their stacks. */
  lemma OthersStay(s: State, c: nat, step: Step, d: nat)
    requires Inv(s) && Enabled(s, c, step) && d < |s.cur| && d != c
    ensures var s' := Apply(s, c, step);
            |s'.cur| == |s.cur| && s'.cur[d] == s.cur[d] && Mine(s', d) == Mine(s, d)
  {
    hide Inv, StackOk, Waiting, Dying, Woken, Unique, Apply;
    InvCpu(s, c);
    InvCpu(s, d);
    if step == Destroy {
      ZombieFacts(s, c, At(s.lists, Zombies(c))[0]);
      assert s.cur[d] in s.cur;
    }
    StayOn(s, c, step, d);
  }

  lemma StayOn(s: State, c: nat, step: Step, d: nat)
    requires Enabled(s, c, step) && d < |s.cur| && d != c && s.cur[d] != s.cur[c]
    requires step == Destroy ==> At(s.lists, Zombies(c))[0] != s.cur[d]
    requires step.Fork? ==> step.n != s.cur[d]
    ensures var s' := Apply(s, c, step);
            |s'.cur| == |s.cur| && s'.cur[d] == s.cur[d] && Mine(s', d) == Mine(s, d)
  {
    hide Enabled;
    EnabledFacts(s, c, step);
  }

  // --- Every queue serves the longest waiting first -----------------------------------------

  /** Since which state t, which is on list l in state n, has been there. */
  ghost function Since(run: seq<State>, l: ListId, t: Tid, n: nat): nat
    requires n < |run|
    decreases n
  {
    if n == 0 || t !in At(run[n - 1].lists, l) then n else Since(run, l, t, n - 1)
  }

  ghost predicate Oldest(run: seq<State>, l: ListId, t: Tid, n: nat)
    requires n < |run|
  {
    && t in At(run[n].lists, l)
    && forall u | u in At(run[n].lists, l) && u != t :: Since(run, l, t, n) < Since(run, l, u, n)
  }

  lemma NotTwice(m: Lists, l: ListId, k: ListId, t: Tid)
    requires Unique(m) && t in At(m, l) && l != k
    ensures t !in At(m, k)
  {
  }

  /** A run queue, channel or zombie list only loses threads at its ends and gains at most one,
      at the tail, which was not there. */
  ghost predicate Served(xs: seq<Tid>, xs': seq<Tid>, a: nat, b: nat, more: seq<Tid>) {
    a <= b <= |xs| && xs' == xs[a..b] + more && |more| <= 1 && (more != [] ==> more[0] !in xs)
  }

  ghost predicate Serves(xs: seq<Tid>, xs': seq<Tid>) {
    exists a, b, more :: Served(xs, xs', a, b, more)
  }

  lemma Serving(xs: seq<Tid>, xs': seq<Tid>, more: seq<Tid>)
    requires |more| <= 1 && (more != [] ==> more[0] !in xs)
    requires xs' == xs + more || xs' == xs || xs' == [] || (xs != [] && (xs' == xs[1..] || xs' == xs[..|xs| - 1]))
    ensures Serves(xs, xs')
  {
    if xs' == xs + more {
      assert Served(xs, xs', 0, |xs|, more);
    } else if xs' == xs {
      assert Served(xs, xs', 0, |xs|, []);
    } else if xs' == [] {
      assert Served(xs, xs', 0, 0, []);
    } else if xs' == xs[1..] {
      assert Served(xs, xs', 1, |xs|, []);
    } else {
      assert Served(xs, xs', 0, |xs| - 1, []);
    }
  }

  lemma QueueStep(s: State, c: nat, step: Step, l: ListId)
    requires Inv(s) && Enabled(s, c, step) && !l.Hand?
    ensures Serves(At(s.lists, l), At(Apply(s, c, step).lists, l))
  {
    assert c < |s.cur|;
    hide Inv, Apply, Enabled, Served, Serves, Joins;
    var xs, xs' := At(s.lists, l), At(Apply(s, c, step).lists, l);
    match l {
      case Chan(w) =>
        ChanStep(s, c, step, w);
        CurrentNotOn(s, c, step, l);
        Serving(xs, xs', if |xs'| > |xs| then [s.cur[c]] else []);
      case Zombies(q) =>
        ZombiesStep(s, c, step, q);
        CurrentNotOn(s, c, step, l);
        Serving(xs, xs', if |xs'| > |xs| then [s.cur[c]] else []);
      case RunQ(q) =>
        RunQStep(s, c, step, q);
        JoinsNew(s, c, step, q);
        Serving(xs, xs', Joins(s, c, step, q));
    }
  }

  lemma CurrentNotOn(s: State, c: nat, step: Step, l: ListId)
    requires Inv(s) && Enabled(s, c, step)
    ensures step == Place ==> s.cur[c] !in At(s.lists, l)
  {
    hide Inv, StackOk, Waiting, Dying, Woken, Unique;
    TopFacts(s, c);
    CurrentListed(s, c);
    assert s.cur[c] in At(s.lists, l) ==> Listed(s.lists, s.cur[c]);
  }

  lemma JoinsNew(s: State, c: nat, step: Step, q: nat)
    requires Inv(s) && Enabled(s, c, step)
    ensures var js := Joins(s, c, step, q); js == [] || (|js| == 1 && js[0] !in At(s.lists, RunQ(q)))
  {
    hide Inv, StackOk, Waiting, Dying, Woken, Unique, Apply;
    TopFacts(s, c);
    CurrentNotOn(s, c, step, RunQ(q));
    if (step == MakeRunnable || step == Give || step == PutBack) && At(s.lists, MyHand(s, c)) != [] {
      NotTwice(s.lists, MyHand(s, c), RunQ(q), InFront(s, c));
    }
  }

  /** In every run queue, channel and zombie list the threads are in the order in which they
      came. */
  ghost predicate InOrder(run: seq<State>, l: ListId, n: nat)
    requires n < |run|
  {
    var xs := At(run[n].lists, l);
    && (forall p | 0 <= p < |xs| :: Since(run, l, xs[p], n) <= n)
    && (forall p, q | 0 <= p < q < |xs| :: Since(run, l, xs[p], n) < Since(run, l, xs[q], n))
  }

  lemma {:induction false} AlwaysInOrder(run: seq<State>, acts: seq<Act>, l: ListId, n: nat)
    requires Run(run, acts) && n < |run| && !l.Hand?
    ensures InOrder(run, l, n)
  {
    hide Inv, Apply, Enabled, InOrder;
    if n > 0 {
      AlwaysInOrder(run, acts, l, n - 1);
      RunInv(run, acts, n - 1);
      assert ActAt(run, acts, n - 1);
      QueueStep(run[n - 1], acts[n - 1].c, acts[n - 1].step, l);
      OrderStep(run, l, n);
    } else {
      FirstOrder(run, l);
    }
  }

  lemma FirstOrder(run: seq<State>, l: ListId)
    requires |run| > 0 && Initial(run[0])
    ensures InOrder(run, l, 0)
  {
  }

  lemma OrderStep(run: seq<State>, l: ListId, n: nat)
    requires 0 < n < |run| && InOrder(run, l, n - 1) && Serves(At(run[n - 1].lists, l), At(run[n].lists, l))
    ensures InOrder(run, l, n)
  {
    hide Since;
    var xs, xs' := At(run[n - 1].lists, l), At(run[n].lists, l);
    var a: nat, b: nat, more :| Served(xs, xs', a, b, more);
    forall p | 0 <= p < |xs'|
      ensures Since(run, l, xs'[p], n) == if p < b - a then Since(run, l, xs[a + p], n - 1) else n
      ensures p < b - a || p == b - a == |xs'| - 1
    {
      SinceStep(run, l, xs'[p], n);
      assert p < b - a ==> xs'[p] == xs[a + p] && xs[a + p] in xs;
    }
  }

  lemma SinceStep(run: seq<State>, l: ListId, t: Tid, n: nat)
    requires 0 < n < |run|
    ensures Since(run, l, t, n) == if t in At(run[n - 1].lists, l) then Since(run, l, t, n - 1) else n
  {
  }

  /** The thread that came last. */
  ghost predicate Newest(run: seq<State>, l: ListId, t: Tid, n: nat)
    requires n < |run|
  {
    && t in At(run[n].lists, l)
    && forall u | u in At(run[n].lists, l) && u != t :: Since(run, l, u, n) < Since(run, l, t, n)
  }

  lemma Ends(run: seq<State>, acts: seq<Act>, l: ListId, n: nat, t: Tid)
    requires Run(run, acts) && n < |run| && !l.Hand? && t in At(run[n].lists, l)
    ensures t == At(run[n].lists, l)[0] <==> Oldest(run, l, t, n)
    ensures t == Final(At(run[n].lists, l)) <==> Newest(run, l, t, n)
  {
    AlwaysInOrder(run, acts, l, n);
    var xs := At(run[n].lists, l);
    assert xs[0] in xs && Final(xs) in xs;
  }

  // --- Going to sleep and being woken -------------------------------------------------------

  /** CPU c's thread has called wchan_sleep on channel w and is not on the list yet. */
  predicate Locker(s: State, c: nat, w: nat) {
    c < |s.cur| && Top(Mine(s, c)) == Switch(Sleep(w), Begin)
  }

  /** A channel is locked exactly while one thread is on its way to its list. */
  ghost predicate ChannelsOk(s: State) {
    && (forall c: nat, w | Locker(s, c, w) :: w in s.wlocked)
    && (forall c: nat, d: nat, w | Locker(s, c, w) && Locker(s, d, w) :: c == d)
    && (forall w | w in s.wlocked :: exists c: nat :: Locker(s, c, w))
  }

  lemma WlockedStep(s: State, c: nat, step: Step)
    requires Enabled(s, c, step)
    ensures Apply(s, c, step).wlocked ==
              if step.BeginSleep? then s.wlocked + {step.w}
              else if step == Place && Top(Mine(s, c)).why.Sleep? then s.wlocked - {Top(Mine(s, c)).why.w}
              else s.wlocked
  {
    hide Enabled;
    EnabledFacts(s, c, step);
  }

  /** What is on top of the stack of the thread that runs after a step. */
  lemma LockerStep(s: State, c: nat, step: Step, w: nat)
    requires Inv(s) && Enabled(s, c, step)
    ensures Locker(Apply(s, c, step), c, w) <==> step == BeginSleep(w)
  {
    hide Inv, Waiting, Dying, Woken, Unique, Listed, Apply;
    TopFacts(s, c);
    var fs := Mine(s, c);
    assert |fs| > 1 ==> Lower(fs[|fs| - 2]) && Top(Pop(fs)) == fs[|fs| - 2];
    if step == PickNext {
      NextFacts(s, c, At(s.lists, RunQ(c))[0]);
    }
    TopStep(s, c, step, w);
  }

  lemma TopStep(s: State, c: nat, step: Step, w: nat)
    requires Enabled(s, c, step) && Mine(s, c) != [] && (|Mine(s, c)| > 1 ==> Lower(Top(Pop(Mine(s, c)))))
    requires step == PickNext ==>
               var t := At(s.lists, RunQ(c))[0]; t == s.cur[c] || Parked(Top(Stack(s, t)))
    ensures Locker(Apply(s, c, step), c, w) <==> step == BeginSleep(w)
  {
    hide Enabled;
    EnabledFacts(s, c, step);
  }

  /** The next thing such a CPU does is to put the thread on the list. */
  lemma LockerMoves(s: State, c: nat, step: Step, w: nat)
    requires Inv(s) && Enabled(s, c, step) && Locker(s, c, w)
    ensures step == Place && Mine(s, c) == [Code, Switch(Sleep(w), Begin)]
  {
    hide Inv;
    TopFacts(s, c);
    var fs := Mine(s, c);
    assert fs[|fs| - 1].why != Ready;
  }

  lemma LockerAt(s: State, c: nat, step: Step, d: nat, w: nat)
    requires Inv(s) && Enabled(s, c, step)
    ensures Locker(Apply(s, c, step), d, w) <==> if d == c then step == BeginSleep(w) else Locker(s, d, w)
  {
    hide Inv, Apply, Enabled;
    LockerStep(s, c, step, w);
    SameCpus(s, c, step);
    if d < |s.cur| && d != c {
      OthersStay(s, c, step, d);
    }
  }

  /** CPU c was going to sleep on `done` and is no more; now it is on `begun`. */
  lemma ChannelsKept(s: State, s': State, c: nat, begun: set<nat>, done: set<nat>)
    requires ChannelsOk(s) && begun !! s.wlocked && s'.wlocked == s.wlocked + begun - done
    requires forall v, w | v in begun && w in begun :: v == w
    requires forall w :: w in done <==> Locker(s, c, w)
    requires forall d: nat, w :: Locker(s', d, w) <==> if d == c then w in begun else Locker(s, d, w)
    ensures ChannelsOk(s')
  {
    hide Locker;
    forall w | w in s'.wlocked ensures exists d: nat :: Locker(s', d, w) {
      if w in begun {
        assert Locker(s', c, w);
      } else {
        var d: nat :| Locker(s, d, w);
        assert d != c && Locker(s', d, w);
      }
    }
  }

  lemma ChannelsStep(s: State, c: nat, step: Step)
    requires Inv(s) && ChannelsOk(s) && Enabled(s, c, step)
    ensures ChannelsOk(Apply(s, c, step))
  {
    var s', top := Apply(s, c, step), Top(Mine(s, c));
    assert step.BeginSleep? ==> step.w !in s.wlocked && top == Code;
    assert step == Place ==> top.Switch? && top.pc == Begin;
    hide Inv, Apply, Enabled, ChannelsOk;
    WlockedStep(s, c, step);
    forall d: nat, w ensures Locker(s', d, w) <==> if d == c then step == BeginSleep(w) else Locker(s, d, w) {
      LockerAt(s, c, step, d, w);
    }
    forall w | Locker(s, c, w) ensures step == Place {
      LockerMoves(s, c, step, w);
    }
    var done := if step == Place && top.why.Sleep? then {top.why.w} else {};
    var begun := if step.BeginSleep? then {step.w} else {};
    forall w ensures w in done <==> Locker(s, c, w) {
    }
    ChannelsKept(s, s', c, begun, done);
  }

  lemma SameCpus(s: State, c: nat, step: Step)
    requires Enabled(s, c, step)
    ensures |Apply(s, c, step).cur| == |s.cur|
  {
    hide Enabled;
    EnabledFacts(s, c, step);
  }

  /** In every run a channel is locked exactly while one thread is on its way to its list, and
      no wakeup comes in between. */
  lemma {:induction false} ChannelLocked(run: seq<State>, acts: seq<Act>, n: nat)
    requires Run(run, acts) && n < |run|
    ensures ChannelsOk(run[n])
    ensures n < |acts| && (acts[n].step.WakeOne? || acts[n].step.WakeAll?) ==>
              forall c: nat :: !Locker(run[n], c, acts[n].step.w)
  {
    hide Inv, Apply, Locker;
    if n > 0 {
      hide Enabled;
      ChannelLocked(run, acts, n - 1);
      RunInv(run, acts, n - 1);
      assert ActAt(run, acts, n - 1);
      ChannelsStep(run[n - 1], acts[n - 1].c, acts[n - 1].step);
    } else {
      NobodyGoing(run[0]);
    }
    assert n < |acts| ==> ActAt(run, acts, n);
  }

  lemma NobodyGoing(s: State)
    requires Initial(s)
    ensures ChannelsOk(s)
  {
    forall c: nat, w ensures !Locker(s, c, w) {
      if c < |s.cur| {
        assert s.cur[c] in s.live;
      }
    }
  }

  /** A wakeup on w that takes t: wakeall takes everybody, wakeone the one who has slept
      longest. */
  ghost predicate Wakes(run: seq<State>, acts: seq<Act>, k: nat, w: nat, t: Tid)
    requires k < |acts| < |run|
  {
    || (acts[k].step == WakeAll(w) && t in At(run[k].lists, Chan(w)))
    || (acts[k].step == WakeOne(w) && Oldest(run, Chan(w), t, k))
  }

  /** A thread that calls wchan_sleep on w goes straight to the list of w, and stays there until
      a wakeup on w takes it. */
  lemma {:induction false} SleepsUntilWoken(run: seq<State>, acts: seq<Act>, i: nat, n: nat, c: nat, w: nat, t: Tid)
    requires Run(run, acts) && i < n <= |acts| && acts[i] == Act(c, BeginSleep(w))
    requires c < |run[i].cur| && t == run[i].cur[c] && forall k | i < k < n :: !Wakes(run, acts, k, w, t)
    ensures if exists k | i < k < n :: acts[k] == Act(c, Place) then t in At(run[n].lists, Chan(w))
            else Locker(run[n], c, w) && run[n].cur[c] == t
    decreases n
  {
    hide Inv, Apply, Enabled, Locker;
    var s, a := run[n - 1], acts[n - 1];
    RunInv(run, acts, n - 1);
    assert ActAt(run, acts, n - 1);
    if n == i + 1 {
      LockerStep(s, c, a.step, w);
      SleepStart(s, c, w);
    } else {
      SleepsUntilWoken(run, acts, i, n - 1, c, w, t);
      ChanStep(s, a.c, a.step, w);
      if exists k | i < k < n - 1 :: acts[k] == Act(c, Place) {
        Ends(run, acts, Chan(w), n - 1, t);
        assert !Wakes(run, acts, n - 1, w, t);
        Behind(At(s.lists, Chan(w)), t);
      } else {
        SleepGoes(s, a.c, a.step, c, w);
      }
    }
  }

  lemma Behind(xs: seq<Tid>, t: Tid)
    requires t in xs
    ensures t != xs[0] ==> t in xs[1..]
  {
  }

  lemma SleepStart(s: State, c: nat, w: nat)
    requires Enabled(s, c, BeginSleep(w))
    ensures Apply(s, c, BeginSleep(w)).cur == s.cur
  {
  }

  lemma SleepGoes(s: State, e: nat, step: Step, c: nat, w: nat)
    requires Inv(s) && Enabled(s, e, step) && Locker(s, c, w)
    ensures e == c ==>
              && step == Place && c < |s.cur|
              && At(Apply(s, e, step).lists, Chan(w)) == At(s.lists, Chan(w)) + [s.cur[c]]
    ensures e != c ==> var s' := Apply(s, e, step); Locker(s', c, w) && s'.cur[c] == s.cur[c]
  {
    hide Inv, Apply;
    if e == c {
      LockerMoves(s, c, step, w);
      ChanStep(s, c, step, w);
    } else {
      OthersStay(s, e, step, c);
    }
  }

  /** wchan_sleep does not return unless a wakeup on its channel has taken the thread. */
  lemma ReturnsOnlyWoken(run: seq<State>, acts: seq<Act>, i: nat, n: nat, c: nat, w: nat, t: Tid)
    requires Run(run, acts) && i < n <= |acts| && acts[i] == Act(c, BeginSleep(w))
    requires c < |run[i].cur| && t == run[i].cur[c] && t in run[n].live && Stack(run[n], t) == [Code]
    ensures exists k | i < k < n :: Wakes(run, acts, k, w, t)
  {
    hide Inv;
    if forall k | i < k < n :: !Wakes(run, acts, k, w, t) {
      SleepsUntilWoken(run, acts, i, n, c, w, t);
      RunInv(run, acts, n);
      AtWork(run[n], t, Chan(w));
    }
  }

  /** A thread in ordinary code is on no list. */
  lemma AtWork(s: State, t: Tid, l: ListId)
    requires Inv(s) && t in s.live && Stack(s, t) == [Code]
    ensures t !in At(s.lists, l)
  {
    InvThread(s, t);
    assert !Waiting([Code]);
    assert t in At(s.lists, l) ==> Listed(s.lists, t);
  }

  lemma WakeStack(s: State, c: nat, step: Step)
    requires Enabled(s, c, step) && (step.WakeOne? || step.WakeAll?)
    ensures var s' := Apply(s, c, step);
            s'.cur == s.cur && c < |s.cur| && Mine(s', c) == Mine(s, c) + [Wake] && MyHand(s', c) == NewHand(s, c)
  {
  }

  /** wchan_wakeall: the channel is empty, and all who slept there are in the waker's hand, in
      the order in which they went to sleep. */
  lemma WakeAllTakes(run: seq<State>, acts: seq<Act>, k: nat, c: nat, w: nat)
    requires Run(run, acts) && k < |acts| && acts[k] == Act(c, WakeAll(w))
    ensures var s, s' := run[k], run[k + 1];
            && c < |s.cur| == |s'.cur| && s'.cur[c] == s.cur[c] && Mine(s', c) == Mine(s, c) + [Wake]
            && At(s'.lists, Chan(w)) == [] && At(s'.lists, MyHand(s', c)) == At(s.lists, Chan(w))
  {
    hide Inv, Apply, Enabled;
    RunInv(run, acts, k);
    assert ActAt(run, acts, k);
    WakeStack(run[k], c, WakeAll(w));
    MoveFacts(run[k], c, WakeAll(w));
    ChanStep(run[k], c, WakeAll(w), w);
    NewHandStep(run[k], c, WakeAll(w));
  }

  /** wchan_wakeone: exactly the one who has slept longest is gone, and is in the waker's
      hand. */
  lemma WakeOneTakes(run: seq<State>, acts: seq<Act>, k: nat, c: nat, w: nat)
    requires Run(run, acts) && k < |acts| && acts[k] == Act(c, WakeOne(w))
    ensures var s, s' := run[k], run[k + 1];
            && c < |s.cur| == |s'.cur| && s'.cur[c] == s.cur[c] && Mine(s', c) == Mine(s, c) + [Wake]
            && At(s.lists, Chan(w)) == At(s'.lists, MyHand(s', c)) + At(s'.lists, Chan(w))
            && |At(s'.lists, MyHand(s', c))| == 1
            && Oldest(run, Chan(w), At(s'.lists, MyHand(s', c))[0], k)
  {
    hide Inv, Apply, Enabled, Oldest;
    RunInv(run, acts, k);
    assert ActAt(run, acts, k);
    WakeStack(run[k], c, WakeOne(w));
    MoveFacts(run[k], c, WakeOne(w));
    ChanStep(run[k], c, WakeOne(w), w);
    NewHandStep(run[k], c, WakeOne(w));
    var xs := At(run[k].lists, Chan(w));
    Ends(run, acts, Chan(w), k, xs[0]);
    assert xs == xs[..1] + xs[1..];
  }

  // --- Off a list: where a thread goes -------------------------------------------------------

  /** t has joined the end of the run queue of CPU q, which is now its own. */
  ghost predicate Queued(run: seq<State>, k: nat, q: nat, t: Tid)
    requires k + 1 < |run|
  {
    && At(run[k + 1].lists, RunQ(q)) == At(run[k].lists, RunQ(q)) + [t]
    && t in run[k + 1].tcpu && run[k + 1].tcpu[t] == q
  }

  lemma TcpuStep(s: State, c: nat, step: Step, t: Tid)
    requires Enabled(s, c, step) && t in s.tcpu && (step == Destroy ==> t != At(s.lists, Zombies(c))[0])
    requires step.Fork? ==> t != step.n
    ensures var s' := Apply(s, c, step);
            && t in s'.tcpu
            && s'.tcpu[t] == if step == Give && At(s.lists, MyHand(s, c)) != [] && t == InFront(s, c) && t != s.cur[c]
                             then Top(Mine(s, c)).i else s.tcpu[t]
  {
    hide Enabled;
    EnabledFacts(s, c, step);
  }

  /** Off a channel exactly by a wakeup there. */
  lemma ChannelLeaves(run: seq<State>, acts: seq<Act>, k: nat, w: nat, t: Tid)
    requires Run(run, acts) && k < |acts| && t in At(run[k].lists, Chan(w))
    ensures t !in At(run[k + 1].lists, Chan(w)) <==> Wakes(run, acts, k, w, t)
  {
    hide Inv, Apply, Enabled;
    RunInv(run, acts, k);
    assert ActAt(run, acts, k);
    ChanStep(run[k], acts[k].c, acts[k].step, w);
    Ends(run, acts, Chan(w), k, t);
    NoDouble(run[k], Chan(w), t);
  }

  lemma NoDouble(s: State, l: ListId, t: Tid)
    requires Inv(s) && t in At(s.lists, l)
    ensures var xs := At(s.lists, l); (t in xs[1..] <==> t != xs[0]) && (t in xs[..|xs| - 1] <==> t != Final(xs))
  {
    hide CpuOk, ThreadOk, MemberOk;
    var xs := At(s.lists, l);
    assert forall i, j | 0 <= i < |xs| && 0 <= j < |xs| && xs[i] == xs[j] :: i == j;
  }

  /** Off a run queue exactly when its CPU resumes the longest waiting, which this is, or makes
      the latest arrival, which this is, a victim of its migration. */
  lemma RunQueueLeaves(run: seq<State>, acts: seq<Act>, k: nat, c: nat, t: Tid)
    requires Run(run, acts) && k < |acts| && t in At(run[k].lists, RunQ(c))
    ensures t !in At(run[k + 1].lists, RunQ(c)) <==>
              || (acts[k] == Act(c, PickNext) && Oldest(run, RunQ(c), t, k))
              || (acts[k] == Act(c, Take) && Newest(run, RunQ(c), t, k))
    ensures t !in At(run[k + 1].lists, RunQ(c)) ==> c < |run[k].cur| == |run[k + 1].cur| && Mine(run[k], c) != []
    ensures t !in At(run[k + 1].lists, RunQ(c)) && acts[k].step == PickNext ==> run[k + 1].cur[c] == t
    ensures t !in At(run[k + 1].lists, RunQ(c)) && acts[k].step == Take ==>
              At(run[k + 1].lists, MyHand(run[k], c)) == [t] + At(run[k].lists, MyHand(run[k], c))
  {
    hide Inv;
    RunInv(run, acts, k);
    assert ActAt(run, acts, k);
    var s, a := run[k], acts[k];
    RunQStep(s, a.c, a.step, c);
    Ends(run, acts, RunQ(c), k, t);
    MoveFacts(s, a.c, a.step);
    NoDouble(s, RunQ(c), t);
    MyHandStep(s, a.c, a.step);
  }

  /** Off the zombie list exactly when it is destroyed. */
  lemma ZombieLeaves(run: seq<State>, acts: seq<Act>, k: nat, c: nat, t: Tid)
    requires Run(run, acts) && k < |acts| && t in At(run[k].lists, Zombies(c))
    ensures t !in At(run[k + 1].lists, Zombies(c)) <==> acts[k] == Act(c, Destroy) && Oldest(run, Zombies(c), t, k)
    ensures t !in At(run[k + 1].lists, Zombies(c)) <==> t !in run[k + 1].live
  {
    hide Inv, Apply;
    RunInv(run, acts, k);
    InvLists(run[k]);
    assert ActAt(run, acts, k);
    var s, a := run[k], acts[k];
    ZombiesStep(s, a.c, a.step, c);
    Ends(run, acts, Zombies(c), k, t);
    NoDouble(s, Zombies(c), t);
    InvMember(s, Zombies(c), t);
    LiveStep(s, a.c, a.step, t);
    if a.step == Destroy && a.c != c {
      NotTwice(s.lists, Zombies(c), Zombies(a.c), t);
    }
  }

  lemma LiveStep(s: State, c: nat, step: Step, t: Tid)
    requires Enabled(s, c, step)
    ensures t in Apply(s, c, step).live <==>
              step == Fork(t) || (t in s.live && !(step == Destroy && t == At(s.lists, Zombies(c))[0]))
  {
    hide Enabled;
    EnabledFacts(s, c, step);
  }

  /** The step takes the thread in front out of its hand. */
  ghost predicate HandsOver(s: State, c: nat, step: Step)
    requires c < |s.cur| && Mine(s, c) != [] && At(s.lists, MyHand(s, c)) != []
  {
    step == MakeRunnable || step == PutBack || (step == Give && InFront(s, c) != s.cur[c])
  }

  /** Out of a hand exactly from the front, by a step of the thread whose hand it is. */
  lemma HandLeaves(run: seq<State>, acts: seq<Act>, k: nat, o: Tid, d: nat, t: Tid)
    requires Run(run, acts) && k < |acts| && t in At(run[k].lists, Hand(o, d))
    ensures t !in At(run[k + 1].lists, Hand(o, d)) <==>
              var s, c := run[k], acts[k].c;
              && c < |s.cur| && s.cur[c] == o && |Mine(s, c)| == d + 1 && t == At(s.lists, Hand(o, d))[0]
              && HandsOver(s, c, acts[k].step)
  {
    hide Inv, Apply;
    RunInv(run, acts, k);
    assert ActAt(run, acts, k);
    var s, a := run[k], acts[k];
    MoveFacts(s, a.c, a.step);
    NoDouble(s, Hand(o, d), t);
    if Hand(o, d) == MyHand(s, a.c) {
      MyHandStep(s, a.c, a.step);
    } else if Hand(o, d) != NewHand(s, a.c) {
      HandStep(s, a.c, a.step, o, d);
    }
  }

  /** From a waker's or parent's hand a thread goes to the end of the run queue of its own CPU;
      from a migration's to that of the CPU being filled, if it has less than its share, or
      back to that of the migrating CPU. */
  lemma HandGoesTo(run: seq<State>, acts: seq<Act>, k: nat, t: Tid)
    requires Run(run, acts) && k < |acts|
    requires var s, c := run[k], acts[k].c;
             && c < |s.cur| && Mine(s, c) != [] && At(s.lists, MyHand(s, c)) != [] && t == InFront(s, c)
             && HandsOver(s, c, acts[k].step)
    ensures var s, c, top := run[k], acts[k].c, Top(Mine(run[k], acts[k].c));
            && t in s.tcpu
            && if top == Wake then Queued(run, k, s.tcpu[t], t)
               else if acts[k].step == PutBack then s.tcpu[t] == c && Queued(run, k, c, t)
               else top.MigGive? && top.i != c && Queued(run, k, top.i, t) && |At(s.lists, RunQ(top.i))| < top.share
  {
    hide Inv, Apply;
    RunInv(run, acts, k);
    assert ActAt(run, acts, k);
    var s, a := run[k], acts[k];
    InvMember(s, MyHand(s, a.c), t);
    TcpuStep(s, a.c, a.step, t);
    HandGoes(s, a.c, a.step, t);
  }

  lemma HandGoes(s: State, c: nat, step: Step, t: Tid)
    requires Inv(s) && Enabled(s, c, step) && At(s.lists, MyHand(s, c)) != [] && t == InFront(s, c) && t in s.tcpu
    ensures step == MakeRunnable ==> At(Apply(s, c, step).lists, RunQ(s.tcpu[t])) == At(s.lists, RunQ(s.tcpu[t])) + [t]
    ensures step == PutBack ==> At(Apply(s, c, step).lists, RunQ(c)) == At(s.lists, RunQ(c)) + [t] && s.tcpu[t] == c
    ensures step == Give && t != s.cur[c] ==>
              var q := Top(Mine(s, c)).i; At(Apply(s, c, step).lists, RunQ(q)) == At(s.lists, RunQ(q)) + [t]
  {
    hide Inv, Apply;
    if step == MakeRunnable {
      RunQStep(s, c, step, s.tcpu[t]);
    } else if step == PutBack {
      RunQStep(s, c, step, c);
      VictimFacts(s, c, t);
    } else if step == Give {
      RunQStep(s, c, step, Top(Mine(s, c)).i);
    }
  }

  /** When exorcise returns, its CPU has no zombies left. */
  lemma ExorcisesAll(run: seq<State>, acts: seq<Act>, k: nat, c: nat)
    requires Run(run, acts) && k < |acts| && acts[k].c == c && c < |run[k].cur| && c < |run[k + 1].cur|
    requires Top(Mine(run[k], c)) == Exorcise && |Mine(run[k + 1], c)| < |Mine(run[k], c)|
    ensures At(run[k].lists, Zombies(c)) == [] == At(run[k + 1].lists, Zombies(c))
  {
    hide Inv;
    RunInv(run, acts, k);
    assert ActAt(run, acts, k);
    var s, step := run[k], acts[k].step;
    TopFacts(s, c);
    if step == Destroy {
      ZombieFacts(s, c, At(s.lists, Zombies(c))[0]);
    }
  }

  // --- Interrupts between CPUs --------------------------------------------------------------

  /** Act k put a thread on the run queue of CPU j, which was idle. */
  ghost predicate Sent(run: seq<State>, acts: seq<Act>, k: nat, j: nat)
    requires |run| == |acts| + 1 && k < |acts|
  {
    && (acts[k].step == MakeRunnable || acts[k].step == Give) && j < |run[k].idle| && run[k].idle[j]
    && |At(run[k].lists, RunQ(j))| < |At(run[k + 1].lists, RunQ(j))|
  }

  /** Such an act, and CPU j has not acknowledged an interrupt since. */
  ghost predicate Pending(run: seq<State>, acts: seq<Act>, n: nat, j: nat)
    requires |run| == |acts| + 1 && n < |run|
  {
    exists k: nat :: k < n && Sent(run, acts, k, j) && forall m | k < m < n :: acts[m] != Act(j, Interrupt(true))
  }

  lemma IpiStep(s: State, c: nat, step: Step, j: nat)
    requires Enabled(s, c, step) && j < |s.cur| && (step == Give ==> At(s.lists, MyHand(s, c)) != [])
    ensures var s' := Apply(s, c, step);
            && |s'.ipi| == |s'.cur| == |s.cur| == |s.idle| == |s.ipi|
            && (s'.ipi[j] <==>
                || (s.ipi[j] && !(c == j && step == Interrupt(true)))
                || (&& (step == MakeRunnable || step == Give) && s.idle[j]
                    && |At(s.lists, RunQ(j))| < |At(s'.lists, RunQ(j))|))
  {
    hide Apply;
    SameCpus(s, c, step);
    if step == MakeRunnable || step == Give {
      IpiSent(s, c, step, j);
    } else {
      IpiStays(s, c, step);
    }
  }

  lemma IpiStays(s: State, c: nat, step: Step)
    requires Enabled(s, c, step) && step != MakeRunnable && step != Give
    ensures |s.ipi| == |s.cur| && Apply(s, c, step).ipi == if step == Interrupt(true) then s.ipi[c := false] else s.ipi
  {
    hide Enabled;
    EnabledFacts(s, c, step);
  }

  lemma IpiSent(s: State, c: nat, step: Step, j: nat)
    requires Enabled(s, c, step) && j < |s.cur| && (step == Give ==> At(s.lists, MyHand(s, c)) != [])
    requires step == MakeRunnable || step == Give
    ensures var s' := Apply(s, c, step);
            && |s'.ipi| == |s.cur| == |s.idle| == |s.ipi|
            && (s'.ipi[j] <==> s.ipi[j] || (s.idle[j] && |At(s.lists, RunQ(j))| < |At(s'.lists, RunQ(j))|))
  {
  }

  /** An IPI_UNIDLE is pending exactly when a thread was sent to the CPU while it was idle and it has
      not acknowledged since. */
  lemma {:induction false} IpiIs(run: seq<State>, acts: seq<Act>, n: nat, j: nat)
    requires Run(run, acts) && n < |run| && j < |run[n].cur|
    ensures |run[n].ipi| == |run[n].cur| && (run[n].ipi[j] <==> Pending(run, acts, n, j))
  {
    if n > 0 {
      hide Inv, Apply, Enabled;
      var s, a := run[n - 1], acts[n - 1];
      assert ActAt(run, acts, n - 1);
      RunInv(run, acts, n - 1);
      MoveFacts(s, a.c, a.step);
      SameCpus(s, a.c, a.step);
      IpiStep(s, a.c, a.step, j);
      IpiIs(run, acts, n - 1, j);
      PendingStep(run, acts, n, j);
    }
  }

  lemma PendingStep(run: seq<State>, acts: seq<Act>, n: nat, j: nat)
    requires |run| == |acts| + 1 && 0 < n < |run|
    ensures Pending(run, acts, n, j) <==>
              Sent(run, acts, n - 1, j) || (Pending(run, acts, n - 1, j) && acts[n - 1] != Act(j, Interrupt(true)))
  {
    hide Sent;
    if Pending(run, acts, n - 1, j) && acts[n - 1] != Act(j, Interrupt(true)) {
      var k: nat :|
        k < n - 1 && Sent(run, acts, k, j) && forall m | k < m < n - 1 :: acts[m] != Act(j, Interrupt(true));
      assert forall m | k < m < n :: acts[m] != Act(j, Interrupt(true));
    }
  }

  // --- thread_switch from the call to the return ----------------------------------------------

  /** thread_yield, wchan_sleep and thread_exit call thread_switch. */
  ghost predicate Begins(step: Step, why: Why) {
    match why
    case Ready => step == BeginYield
    case Sleep(w) => step == BeginSleep(w)
    case Exit => step == BeginExit
  }

  lemma BeginStep(s: State, c: nat, step: Step, why: Why)
    requires Enabled(s, c, step) && Begins(step, why)
    ensures var s' := Apply(s, c, step); s'.cur == s.cur && Mine(s', c) == Mine(s, c) + [Switch(why, Begin)]
  {
  }

  /** Nothing happens to a CPU's thread except by that CPU. */
  lemma {:induction false} CpuStays(run: seq<State>, acts: seq<Act>, i: nat, n: nat, c: nat)
    requires Run(run, acts) && i <= n < |run| && c < |run[i].cur| && forall k | i <= k < n :: acts[k].c != c
    ensures c < |run[n].cur| && run[n].cur[c] == run[i].cur[c] && Mine(run[n], c) == Mine(run[i], c)
    decreases n
  {
    hide Inv, Apply, Enabled;
    if i < n {
      CpuStays(run, acts, i, n - 1, c);
      RunInv(run, acts, n - 1);
      assert ActAt(run, acts, n - 1);
      OthersStay(run[n - 1], acts[n - 1].c, acts[n - 1].step, c);
    }
  }

  /** i and k are two acts of CPU c with none of its acts in between. */
  ghost predicate InARow(acts: seq<Act>, i: nat, k: nat, c: nat) {
    i < k < |acts| && acts[i].c == c && acts[k].c == c && forall m | i < m < k :: acts[m].c != c
  }

  /** thread_switch comes back at once only from a yield, on an idle CPU or with nothing to run.
      Otherwise it puts the thread at the end of the run queue, of the list of its channel or
      of the zombies, and nowhere else, with the state to match. */
  lemma SwitchPlaces(run: seq<State>, acts: seq<Act>, i: nat, k: nat, c: nat, why: Why)
    requires Run(run, acts) && InARow(acts, i, k, c) && Begins(acts[i].step, why)
    ensures var s, s', s0 := run[k], run[k + 1], run[i];
            && c < |s0.cur| == |s.cur| == |s'.cur| == |s.idle| && s'.cur[c] == s0.cur[c]
            && match acts[k].step
               case Return =>
                 why == Ready && Mine(s', c) == Mine(s0, c) && (s.idle[c] || At(s.lists, RunQ(c)) == [])
               case Place =>
                 var t := s0.cur[c];
                 && t in s'.tstate && !(why == Ready && At(s.lists, RunQ(c)) == [])
                 && (match why
                     case Ready => s'.tstate[t] == READY && At(s'.lists, RunQ(c)) == At(s.lists, RunQ(c)) + [t]
                     case Sleep(w) => s'.tstate[t] == SLEEP && At(s'.lists, Chan(w)) == At(s.lists, Chan(w)) + [t]
                     case Exit => s'.tstate[t] == ZOMBIE && At(s'.lists, Zombies(c)) == At(s.lists, Zombies(c)) + [t])
               case _ => false
  {
    hide Inv;
    var s, s0 := run[k], run[i];
    assert ActAt(run, acts, i) && ActAt(run, acts, k);
    SwitchBegun(run, acts, i, k, c, why);
    RunInv(run, acts, k);
    TopFacts(s, c);
    if acts[k].step == Return {
      ReturnIsYield(s, c);
    } else {
      PlaceStep(s, c, why);
    }
  }

  lemma SwitchBegun(run: seq<State>, acts: seq<Act>, i: nat, k: nat, c: nat, why: Why)
    requires Run(run, acts) && InARow(acts, i, k, c) && Begins(acts[i].step, why)
    ensures var s, s0 := run[k], run[i];
            && c < |s0.cur| == |s.cur| && s.cur[c] == s0.cur[c] && Mine(s, c) == Mine(s0, c) + [Switch(why, Begin)]
    ensures acts[k].step == Return || acts[k].step == Place
  {
    hide Inv, Apply;
    assert ActAt(run, acts, i) && ActAt(run, acts, k);
    BeginStep(run[i], c, acts[i].step, why);
    CpuStays(run, acts, i + 1, k, c);
    CpusSame(run, acts, i, k);
  }

  lemma {:induction false} CpusSame(run: seq<State>, acts: seq<Act>, i: nat, n: nat)
    requires Run(run, acts) && i <= n < |run|
    ensures |run[n].cur| == |run[i].cur|
    decreases n
  {
    hide Apply, Enabled;
    if i < n {
      CpusSame(run, acts, i, n - 1);
      assert ActAt(run, acts, n - 1);
      SameCpus(run[n - 1], acts[n - 1].c, acts[n - 1].step);
    }
  }

  lemma ReturnIsYield(s: State, c: nat)
    requires Inv(s) && Enabled(s, c, Return)
    ensures Top(Mine(s, c)).why == Ready
  {
    hide Inv;
    TopFacts(s, c);
    var fs := Mine(s, c);
    assert fs[|fs| - 1] == Top(fs);
  }

  lemma PlaceStep(s: State, c: nat, why: Why)
    requires Enabled(s, c, Place) && Top(Mine(s, c)).why == why
    ensures var s', t := Apply(s, c, Place), s.cur[c];
            && s'.cur == s.cur && t in s'.tstate
            && match why
               case Ready => s'.tstate[t] == READY && At(s'.lists, RunQ(c)) == At(s.lists, RunQ(c)) + [t]
               case Sleep(w) => s'.tstate[t] == SLEEP && At(s'.lists, Chan(w)) == At(s.lists, Chan(w)) + [t]
               case Exit => s'.tstate[t] == ZOMBIE && At(s'.lists, Zombies(c)) == At(s.lists, Zombies(c)) + [t]
  {
  }

  /** A CPU that has picked a thread runs it: the thread is in state RUN, the run queue lock is
      free, and the thread is back where it called thread_switch, or starts. */
  lemma Resumes(run: seq<State>, acts: seq<Act>, i: nat, k: nat, c: nat)
    requires Run(run, acts) && InARow(acts, i, k, c) && acts[i].step == PickNext
    ensures var s, s' := run[i], run[k + 1];
            && c < |s.cur| == |s'.cur| == |s'.rqheld| && At(s.lists, RunQ(c)) != []
            && var t := At(s.lists, RunQ(c))[0];
               && acts[k].step == Finish && s'.cur[c] == t && t in s'.tstate && s'.tstate[t] == RUN && !s'.rqheld[c]
               && Mine(s', c) == (if Top(Stack(run[k], t)) == Start then [Code] else Pop(Stack(run[k], t))) + [Exorcise]
  {
    hide Inv, Apply;
    assert ActAt(run, acts, i) && ActAt(run, acts, k);
    RunInv(run, acts, i);
    NextFacts(run[i], c, At(run[i].lists, RunQ(c))[0]);
    PickStep(run[i], c);
    CpuStays(run, acts, i + 1, k, c);
    CpusSame(run, acts, i, k);
    FinishStep(run[k], c);
  }

  lemma PickStep(s: State, c: nat)
    requires Enabled(s, c, PickNext) && Stack(s, At(s.lists, RunQ(c))[0]) != []
    requires var t := At(s.lists, RunQ(c))[0]; t != s.cur[c] ==> Parked(Top(Stack(s, t)))
    ensures var s', t := Apply(s, c, PickNext), At(s.lists, RunQ(c))[0];
            |s'.cur| == |s.cur| && s'.cur[c] == t && Parked(Top(Mine(s', c)))
  {
  }

  lemma FinishStep(s: State, c: nat)
    requires c < |s.cur|
    ensures forall step | Enabled(s, c, step) && Parked(Top(Mine(s, c))) :: step == Finish
    ensures Enabled(s, c, Finish) ==>
              var s', fs := Apply(s, c, Finish), Mine(s, c);
              && s'.cur == s.cur && |s'.rqheld| == |s.cur| && !s'.rqheld[c]
              && s.cur[c] in s'.tstate && s'.tstate[s.cur[c]] == RUN
              && Mine(s', c) == (if Top(fs) == Start then [Code] else Pop(fs)) + [Exorcise]
  {
  }

  /** One frame more, one less, or another top frame. */
  ghost predicate Local(fs: seq<Frame>, fs': seq<Frame>) {
    fs != [] && |fs| - 1 <= |fs'| <= |fs| + 1 && fs'[..|fs| - 1] == fs[..|fs| - 1]
  }

  lemma OwnStackStep(s: State, c: nat, step: Step)
    requires Enabled(s, c, step) && (Top(Mine(s, c)) == Start ==> |Mine(s, c)| == 1)
    requires step == Destroy ==> At(s.lists, Zombies(c))[0] != s.cur[c]
    requires step.Fork? ==> step.n != s.cur[c]
    ensures Local(Mine(s, c), Stack(Apply(s, c, step), s.cur[c]))
  {
    hide Enabled;
    EnabledFacts(s, c, step);
  }

  lemma OtherStackStep(s: State, c: nat, step: Step, t: Tid)
    requires Enabled(s, c, step) && t != s.cur[c] && (step.Fork? ==> t != step.n)
    requires step == Destroy ==> At(s.lists, Zombies(c))[0] != t
    ensures Stack(Apply(s, c, step), t) == Stack(s, t)
  {
    hide Enabled;
    EnabledFacts(s, c, step);
  }

  /** A step changes the stack of its CPU's thread only, and only at the top. */
  lemma StackStep(s: State, c: nat, step: Step, t: Tid)
    requires Inv(s) && Enabled(s, c, step) && t in s.live && t in Apply(s, c, step).live
    ensures var fs, fs' := Stack(s, t), Stack(Apply(s, c, step), t); Local(fs, fs') && (t != s.cur[c] ==> fs' == fs)
  {
    hide Inv, Apply;
    TopFacts(s, c);
    InvThread(s, t);
    ForkNewTid(s, c, step);
    if t == s.cur[c] {
      OwnStackStep(s, c, step);
    } else {
      OtherStackStep(s, c, step, t);
    }
  }

  /** Whatever is called from a stack fs comes back to fs: as long as the stack is higher, fs is
      untouched below, and then it is fs again. */
  lemma {:induction false} CallsReturn(run: seq<State>, acts: seq<Act>, i: nat, n: nat, t: Tid, fs: seq<Frame>)
    requires Run(run, acts) && i <= n < |run| && forall k | i <= k <= n :: t in run[k].live
    requires forall k | i <= k < n :: |Stack(run[k], t)| > |fs|
    requires |Stack(run[i], t)| > |fs| && Stack(run[i], t)[..|fs|] == fs
    ensures if |Stack(run[n], t)| > |fs| then Stack(run[n], t)[..|fs|] == fs else Stack(run[n], t) == fs
    decreases n
  {
    hide Inv, Apply, Enabled;
    if i < n {
      CallsReturn(run, acts, i, n - 1, t, fs);
      var s, a := run[n - 1], acts[n - 1];
      assert ActAt(run, acts, n - 1);
      RunInv(run, acts, n - 1);
      StackStep(s, a.c, a.step, t);
      var gs, gs' := Stack(s, t), Stack(run[n], t);
      assert gs'[..|fs|] == gs'[..|gs| - 1][..|fs|] == gs[..|gs| - 1][..|fs|] == gs[..|fs|];
    }
  }

  lemma ForkNewTid(s: State, c: nat, step: Step)
    requires Enabled(s, c, step)
    ensures step.Fork? ==> step.n !in s.live
    ensures step == Destroy ==> At(s.lists, Zombies(c))[0] !in Apply(s, c, step).live
  {
  }

  /** thread_fork: the new thread is in the parent's hand, on the parent's CPU, about to start. */
  lemma Forks(run: seq<State>, acts: seq<Act>, k: nat, c: nat, t: Tid)
    requires Run(run, acts) && k < |acts| && acts[k] == Act(c, Fork(t))
    ensures var s, s' := run[k], run[k + 1];
            && t !in s.live && s'.live == s.live + {t} && Stack(s', t) == [Start] && t in s'.tcpu && s'.tcpu[t] == c
            && c < |s.cur| == |s'.cur| && s'.cur[c] == s.cur[c] && Mine(s', c) == Mine(s, c) + [Wake]
            && At(s'.lists, MyHand(s', c)) == [t]
  {
    hide Inv;
    RunInv(run, acts, k);
    assert ActAt(run, acts, k);
    TopFacts(run[k], c);
  }

  // --- The state of a thread ---------------------------------------------------------------

  lemma BitsStep(s: State, c: nat, step: Step)
    requires Enabled(s, c, step)
    ensures var s' := Apply(s, c, step);
            && s'.cur == (if step == PickNext then s.cur[c := At(s.lists, RunQ(c))[0]] else s.cur)
            && s'.idle == (if step == Place then s.idle[c := true] else if step == PickNext then s.idle[c := false]
                           else s.idle)
            && s'.rqheld == (if step == Place || step == Unidle then s.rqheld[c := true]
                             else if step == GoIdle || step == Finish then s.rqheld[c := false] else s.rqheld)
  {
    hide Enabled;
    EnabledFacts(s, c, step);
  }

  lemma TstateStep(s: State, c: nat, step: Step, t: Tid)
    requires Enabled(s, c, step) && t in s.tstate && t in Apply(s, c, step).tstate
    ensures Apply(s, c, step).tstate[t] ==
              if t == s.cur[c] && step == Finish then RUN
              else if t == s.cur[c] && step == Place then
                match Top(Mine(s, c)).why case Ready => READY case Sleep(_) => SLEEP case Exit => ZOMBIE
              else if step == Fork(t) then READY else s.tstate[t]
  {
    hide Enabled;
    EnabledFacts(s, c, step);
  }

  /** t is current on a CPU that is not in the middle of a switch. */
  predicate Runs(s: State, t: Tid) {
    && IsCur(s, t) && |s.idle| == |s.rqheld| == |s.cur| && !s.idle[s.tcpu[t]] && !s.rqheld[s.tcpu[t]]
  }

  ghost predicate StateOk(s: State, t: Tid) {
    && t in s.tstate && (Runs(s, t) ==> s.tstate[t] == RUN)
    && (forall w | t in At(s.lists, Chan(w)) :: s.tstate[t] == SLEEP)
    && (forall c | t in At(s.lists, Zombies(c)) :: s.tstate[t] == ZOMBIE)
  }

  /** t_state is S_RUN while a thread runs, S_SLEEP on a channel and S_ZOMBIE on a zombie list. */
  lemma {:induction false} StateIs(run: seq<State>, acts: seq<Act>, n: nat, t: Tid)
    requires Run(run, acts) && n < |run| && t in run[n].live
    ensures StateOk(run[n], t)
  {
    hide Inv, Apply, Enabled, StateOk;
    RunInv(run, acts, n);
    if n == 0 {
      FirstState(run[0], t);
    } else {
      var s, a := run[n - 1], acts[n - 1];
      RunInv(run, acts, n - 1);
      assert ActAt(run, acts, n - 1);
      LiveStep(s, a.c, a.step, t);
      if t in s.live {
        StateIs(run, acts, n - 1, t);
        StateStep(s, a.c, a.step, t);
      } else {
        NewState(s, a.c, a.step, t);
      }
    }
  }

  lemma FirstState(s: State, t: Tid)
    requires Initial(s) && t in s.live
    ensures StateOk(s, t)
  {
  }

  lemma NewState(s: State, c: nat, step: Step, t: Tid)
    requires Inv(s) && Enabled(s, c, step) && t !in s.live && step == Fork(t)
    ensures StateOk(Apply(s, c, step), t)
  {
    hide Inv, Apply;
    var s' := Apply(s, c, step);
    NewUnlisted(s, t);
    StepKeeps(s, c, step);
    BitsStep(s, c, step);
    forall d: nat | d < |s.cur| ensures s.cur[d] != t {
      InvCpu(s, d);
    }
    LiveStep(s, c, step, t);
    InvThread(s', t);
    forall w ensures t !in At(s'.lists, Chan(w)) {
      ChanStep(s, c, step, w);
      assert t in At(s.lists, Chan(w)) ==> Listed(s.lists, t);
    }
    forall q ensures t !in At(s'.lists, Zombies(q)) {
      ZombiesStep(s, c, step, q);
      assert t in At(s.lists, Zombies(q)) ==> Listed(s.lists, t);
    }
  }

  lemma StateStep(s: State, c: nat, step: Step, t: Tid)
    requires Inv(s) && Enabled(s, c, step) && Inv(Apply(s, c, step)) && t in s.live && t in Apply(s, c, step).live
    requires StateOk(s, t)
    ensures StateOk(Apply(s, c, step), t)
  {
    hide Inv, Apply, Enabled;
    var s' := Apply(s, c, step);
    InvThread(s', t);
    if Runs(s', t) {
      RunsStep(s, c, step, t);
      RunState(s, c, step, t);
    }
    forall w | t in At(s'.lists, Chan(w)) ensures s'.tstate[t] == SLEEP {
      ChanState(s, c, step, t, w);
    }
    forall q | t in At(s'.lists, Zombies(q)) ensures s'.tstate[t] == ZOMBIE {
      ZombieState(s, c, step, t, q);
    }
  }

  lemma RunState(s: State, c: nat, step: Step, t: Tid)
    requires Inv(s) && Enabled(s, c, step) && t in s.live && t in s.tstate && t in Apply(s, c, step).tstate
    requires (Runs(s, t) && s.tstate[t] == RUN) || (step == Finish && t == s.cur[c])
    requires Runs(Apply(s, c, step), t)
    ensures Apply(s, c, step).tstate[t] == RUN
  {
    hide Inv, Apply;
    TstateStep(s, c, step, t);
    ForkNewTid(s, c, step);
    BitsStep(s, c, step);
    if step == Place && t == s.cur[c] {
      InvCpu(s, c);
      TcpuStep(s, c, step, t);
    }
  }

  lemma ChanState(s: State, c: nat, step: Step, t: Tid, w: nat)
    requires Inv(s) && Enabled(s, c, step) && t in s.live && t in s.tstate && t in Apply(s, c, step).tstate
    requires t in At(Apply(s, c, step).lists, Chan(w)) && (t in At(s.lists, Chan(w)) ==> s.tstate[t] == SLEEP)
    ensures Apply(s, c, step).tstate[t] == SLEEP
  {
    hide Inv, Apply;
    TstateStep(s, c, step, t);
    ForkNewTid(s, c, step);
    ChanStep(s, c, step, w);
    if step == Place || step == Finish {
      SwitchListed(s, c, step, Chan(w));
    }
  }

  lemma ZombieState(s: State, c: nat, step: Step, t: Tid, q: nat)
    requires Inv(s) && Enabled(s, c, step) && t in s.live && t in s.tstate && t in Apply(s, c, step).tstate
    requires t in At(Apply(s, c, step).lists, Zombies(q)) && (t in At(s.lists, Zombies(q)) ==> s.tstate[t] == ZOMBIE)
    ensures Apply(s, c, step).tstate[t] == ZOMBIE
  {
    hide Inv, Apply;
    TstateStep(s, c, step, t);
    ForkNewTid(s, c, step);
    ZombiesStep(s, c, step, q);
    if step == Place || step == Finish {
      SwitchListed(s, c, step, Zombies(q));
    }
  }

  /** A thread that is being placed or resumed is on no list. */
  lemma SwitchListed(s: State, c: nat, step: Step, l: ListId)
    requires Inv(s) && Enabled(s, c, step) && (step == Place || step == Finish)
    ensures s.cur[c] !in At(s.lists, l)
  {
    hide Inv;
    var t := s.cur[c];
    TopFacts(s, c);
    CurrentListed(s, c);
    if step == Finish {
      ParkedStack(Mine(s, c));
    }
    assert t in At(s.lists, l) ==> Listed(s.lists, t);
  }

  lemma RunsStep(s: State, c: nat, step: Step, t: Tid)
    requires Inv(s) && Enabled(s, c, step) && Inv(Apply(s, c, step)) && Runs(Apply(s, c, step), t)
    ensures Runs(s, t) || (step == Finish && t == s.cur[c])
  {
    hide Inv, Apply;
    var s' := Apply(s, c, step);
    BitsStep(s, c, step);
    TopFacts(s, c);
    var d := s'.tcpu[t];
    InvCpu(s, d);
  }

  // --- Every call comes to its end --------------------------------------------------------------

  /** What is left to do for the frame on top of CPU c's stack: a phase and a number of steps. */
  ghost function Work(s: State, c: nat): (nat, nat)
    requires c < |s.cur| && Mine(s, c) != []
  {
    var hand := |At(s.lists, MyHand(s, c))|;
    match Top(Mine(s, c))
    case Exorcise => (0, |At(s.lists, Zombies(c))|)
    case MigCount(i, _, _) => (3, if i < |s.cur| then |s.cur| - i else 0)
    case MigTake(left, _, _) => (2, left)
    case MigGive(i, send, _) => (1, send + if i < |s.cur| then |s.cur| - i else 0)
    case _ => (0, hand)
  }

  /** The steps by which an interrupt handler, a wakeup, the reaping of zombies and a migration
      go on, and an early return from thread_switch. */
  predicate Working(step: Step) {
    step in {IrqDone, Return, Destroy, ExorciseDone, MakeRunnable, WakeDone, Count, Decide, Take, Taken, Give, NextCpu,
             PutBack, EndMigration}
  }

  /** The call on top of CPU c's stack is over, or has less to do. */
  ghost predicate Progress(s: State, s': State, c: nat)
    requires c < |s.cur| && c < |s'.cur| && Mine(s, c) != []
  {
    || Mine(s', c) == Pop(Mine(s, c))
    || (&& |Mine(s', c)| == |Mine(s, c)| && Pop(Mine(s', c)) == Pop(Mine(s, c))
        && (Work(s', c).0 < Work(s, c).0 || (Work(s', c).0 == Work(s, c).0 && Work(s', c).1 < Work(s, c).1)))
  }

  /** Every such step finishes the call it belongs to, or leaves it less to do. */
  lemma WorkEnds(run: seq<State>, acts: seq<Act>, k: nat, c: nat)
    requires Run(run, acts) && k < |acts| && acts[k].c == c && Working(acts[k].step)
    ensures var s, s' := run[k], run[k + 1];
            && c < |s.cur| == |s'.cur| && s'.cur[c] == s.cur[c] && Mine(s, c) != []
            && Progress(s, s', c)
  {
    hide Inv, Apply;
    var s, step := run[k], acts[k].step;
    RunInv(run, acts, k);
    assert ActAt(run, acts, k);
    TopFacts(s, c);
    MoveFacts(s, c, step);
    if step == Destroy {
      ZombieFacts(s, c, At(s.lists, Zombies(c))[0]);
      assert s.cur[c] in s.cur;
    }
    WorkStep(s, c, step);
  }

  lemma WorkStep(s: State, c: nat, step: Step)
    requires Enabled(s, c, step) && Working(step)
    requires step == Take ==> At(s.lists, RunQ(c)) != []
    requires step == Give ==> At(s.lists, MyHand(s, c)) != []
    requires step == Destroy ==> At(s.lists, Zombies(c))[0] != s.cur[c]
    ensures var s' := Apply(s, c, step); s'.cur == s.cur && Mine(s, c) != [] && Progress(s, s', c)
  {
    hide Apply, Progress;
    if step in {IrqDone, Return, ExorciseDone, WakeDone, EndMigration} {
      PopWork(s, c, step);
    } else if step == Destroy || step == MakeRunnable {
      HandWork(s, c, step);
    } else if step in {Count, Decide} {
      CountWork(s, c, step);
    } else if step in {Take, Taken} {
      TakeWork(s, c, step);
    } else if step == Give {
      GiveWork(s, c);
    } else {
      NextWork(s, c, step);
    }
  }

  lemma PopWork(s: State, c: nat, step: Step)
    requires Enabled(s, c, step) && step in {IrqDone, Return, ExorciseDone, WakeDone, EndMigration}
    ensures var s' := Apply(s, c, step); s'.cur == s.cur && Mine(s, c) != [] && Progress(s, s', c)
  {
    hide Enabled;
    EnabledFacts(s, c, step);
  }

  lemma HandWork(s: State, c: nat, step: Step)
    requires Enabled(s, c, step) && (step == MakeRunnable || step == Destroy)
    requires step == Destroy ==> At(s.lists, Zombies(c))[0] != s.cur[c]
    ensures var s' := Apply(s, c, step); s'.cur == s.cur && Mine(s, c) != [] && Progress(s, s', c)
  {
  }

  lemma CountWork(s: State, c: nat, step: Step)
    requires Enabled(s, c, step) && step in {Count, Decide}
    ensures var s' := Apply(s, c, step); s'.cur == s.cur && Mine(s, c) != [] && Progress(s, s', c)
  {
  }

  lemma TakeWork(s: State, c: nat, step: Step)
    requires Enabled(s, c, step) && step in {Take, Taken} && (step == Take ==> At(s.lists, RunQ(c)) != [])
    ensures var s' := Apply(s, c, step); s'.cur == s.cur && Mine(s, c) != [] && Progress(s, s', c)
  {
  }

  lemma GiveWork(s: State, c: nat)
    requires Enabled(s, c, Give) && At(s.lists, MyHand(s, c)) != []
    ensures var s' := Apply(s, c, Give); s'.cur == s.cur && Mine(s, c) != [] && Progress(s, s', c)
  {
  }

  lemma NextWork(s: State, c: nat, step: Step)
    requires Enabled(s, c, step) && step in {NextCpu, PutBack}
    ensures var s' := Apply(s, c, step); s'.cur == s.cur && Mine(s, c) != [] && Progress(s, s', c)
  {
  }

  // --- No deadlock ------------------------------------------------------------------------------

  /** The CPU can go on by itself. */
  ghost predicate CanMove(s: State, c: nat) {
    exists step: Step :: !step.Interrupt? && Enabled(s, c, step)
  }

  /** A CPU can go on, or waits in cpu_idle for an interrupt, or run queues are locked and their
      holders can go on. */
  lemma NeverStuck(run: seq<State>, acts: seq<Act>, n: nat, c: nat)
    requires Run(run, acts) && n < |run| && c < |run[n].cur|
    ensures var s := run[n];
            || CanMove(s, c)
            || (exists why :: Top(Mine(s, c)) == Switch(why, Idle(false)) && Enabled(s, c, Interrupt(true)))
            || (exists q: nat :: q < |s.rqheld| && s.rqheld[q] && CanMove(s, q))
  {
    hide Inv;
    var s := run[n];
    RunInv(run, acts, n);
    SizedInv(s);
    forall q: nat | q < |s.rqheld| && s.rqheld[q] ensures CanMove(s, q) {
      TopFacts(s, q);
      HolderMoves(s, q);
    }
    if forall q: nat | q < |s.rqheld| :: !s.rqheld[q] {
      TopFacts(s, c);
      FreeMoves(s, c);
    }
  }

  lemma SizedInv(s: State)
    requires Inv(s)
    ensures Sized(s)
  {
    forall c: nat | c < |s.cur| ensures s.cur[c] in s.frames && s.frames[s.cur[c]] != [] && s.cur[c] in s.tcpu {
      InvCpu(s, c);
    }
  }

  lemma HolderMoves(s: State, q: nat)
    requires Sized(s) && q < |s.cur| && HoldsQueue(Mine(s, q))
    ensures CanMove(s, q)
  {
    var step := if Parked(Top(Mine(s, q))) then Finish else if At(s.lists, RunQ(q)) != [] then PickNext else GoIdle;
    assert Enabled(s, q, step);
  }

  /** The next step of a frame when no run queue is locked. */
  function OwnStep(s: State, c: nat): Step
    requires Sized(s) && c < |s.cur|
  {
    var hand := At(s.lists, MyHand(s, c));
    match Top(Mine(s, c))
    case Code => BeginYield
    case Start => Finish
    case Irq => IrqDone
    case Wake => if hand == [] then WakeDone else MakeRunnable
    case Exorcise => if At(s.lists, Zombies(c)) == [] then ExorciseDone else Destroy
    case Switch(why, Begin) => if s.idle[c] || (why == Ready && At(s.lists, RunQ(c)) == []) then Return else Place
    case Switch(_, Pick) => if At(s.lists, RunQ(c)) == [] then GoIdle else PickNext
    case Switch(_, Idle(_)) => Unidle
    case Switch(_, Off) => Finish
    case MigCount(i, _, _) => if i < |s.cur| then Count else Decide
    case MigTake(left, _, _) => if left > 0 then Take else Taken
    case MigGive(i, send, share) =>
      if i < |s.cur| && send > 0 then if i == c || |At(s.lists, RunQ(i))| >= share then NextCpu else Give
      else if hand == [] then EndMigration else PutBack
    case MigBack => if hand == [] then EndMigration else PutBack
  }

  lemma FreeMoves(s: State, c: nat)
    requires Inv(s) && Sized(s) && c < |s.cur| && forall q: nat | q < |s.rqheld| :: !s.rqheld[q]
    ensures || CanMove(s, c)
            || (exists why :: Top(Mine(s, c)) == Switch(why, Idle(false)) && Enabled(s, c, Interrupt(true)))
  {
    hide Inv;
    var fs := Mine(s, c);
    if Top(fs).Switch? && Top(fs).pc == Idle(false) {
      assert Top(fs) == Switch(Top(fs).why, Idle(false)) && Enabled(s, c, Interrupt(true));
    } else {
      if Top(fs) == Wake && At(s.lists, MyHand(s, c)) != [] {
        InvMember(s, MyHand(s, c), InFront(s, c));
        InvThread(s, InFront(s, c));
      }
      assert Enabled(s, c, OwnStep(s, c));
    }
  }

  // --- What a migration counts and moves ------------------------------------------------------

  /** How often CPU c did `step` between acts i and n. */
  ghost function Times(acts: seq<Act>, c: nat, step: Step, i: nat, n: nat): nat
    requires n <= |acts|
    decreases n
  {
    if n <= i + 1 then 0 else Times(acts, c, step, i, n - 1) + if acts[n - 1] == Act(c, step) then 1 else 0
  }

  /** The lengths of the run queues that CPU c has looked at since act i, each at the moment it
      was looked at, added up. */
  ghost function Total(run: seq<State>, acts: seq<Act>, c: nat, i: nat, n: nat): nat
    requires n <= |acts| < |run|
    decreases n
  {
    if n <= i + 1 then 0
    else Total(run, acts, c, i, n - 1) +
         if acts[n - 1] == Act(c, Count) then |At(run[n - 1].lists, RunQ(Times(acts, c, Count, i, n - 1)))| else 0
  }

  /** The length of its own queue when it looked. */
  ghost function Own(run: seq<State>, acts: seq<Act>, c: nat, i: nat, n: nat): nat
    requires n <= |acts| < |run|
    decreases n
  {
    if n <= i + 1 then 0
    else if acts[n - 1] == Act(c, Count) && Times(acts, c, Count, i, n - 1) == c then |At(run[n - 1].lists, RunQ(c))|
    else Own(run, acts, c, i, n - 1)
  }

  ghost predicate Only(acts: seq<Act>, c: nat, steps: set<Step>, i: nat, n: nat) {
    i < n <= |acts| && forall k | i < k < n && acts[k].c == c :: acts[k].step in steps
  }

  /** A migration counts the run queues one after the other. */
  lemma {:induction false} Counting(run: seq<State>, acts: seq<Act>, i: nat, n: nat, c: nat)
    requires Run(run, acts) && i < n && Only(acts, c, {Count}, i, n) && acts[i] == Act(c, StartMigration)
    ensures c < |run[n].cur|
    ensures Top(Mine(run[n], c)) ==
              MigCount(Times(acts, c, Count, i, n), Own(run, acts, c, i, n), Total(run, acts, c, i, n))
    decreases n
  {
    hide Inv, Apply, Enabled;
    var s, a := run[n - 1], acts[n - 1];
    RunInv(run, acts, n - 1);
    assert ActAt(run, acts, n - 1);
    SameCpus(s, a.c, a.step);
    if n == i + 1 {
      CountStarts(s, c);
    } else {
      Counting(run, acts, i, n - 1, c);
      if a.c == c {
        assert a.step in {Count};
        CountStep(s, c);
      } else {
        OthersStay(s, a.c, a.step, c);
      }
    }
  }

  lemma CountStarts(s: State, c: nat)
    requires Enabled(s, c, StartMigration)
    ensures c < |s.cur| && Top(Mine(Apply(s, c, StartMigration), c)) == MigCount(0, 0, 0)
  {
  }

  lemma CountStep(s: State, c: nat)
    requires Enabled(s, c, Count)
    ensures var top, top' := Top(Mine(s, c)), Top(Mine(Apply(s, c, Count), c));
            && top.MigCount?
            && top' == MigCount(top.i + 1, if top.i == c then |At(s.lists, RunQ(c))| else top.my,
                                top.total + |At(s.lists, RunQ(top.i))|)
  {
  }

  /** The least number of threads that, on each of n CPUs, is enough for all of them. */
  ghost predicate Share(total: nat, n: nat, share: nat) {
    total <= share * n && (share > 0 ==> (share - 1) * n < total)
  }

  /** With all queues counted it computes the share and what is to be sent, or returns because it
      has less than its share. */
  lemma Decides(run: seq<State>, acts: seq<Act>, i: nat, n: nat, c: nat)
    requires Run(run, acts) && i < n < |acts| && Only(acts, c, {Count}, i, n)
    requires acts[i] == Act(c, StartMigration) && acts[n] == Act(c, Decide)
    ensures c < |run[n].cur| == |run[n + 1].cur| && Times(acts, c, Count, i, n) >= |run[n].cur|
    ensures exists share: nat ::
              && Share(Total(run, acts, c, i, n), |run[n].cur|, share)
              && if Own(run, acts, c, i, n) < share then Mine(run[n + 1], c) == Pop(Mine(run[n], c))
                 else var x := Own(run, acts, c, i, n) - share; Top(Mine(run[n + 1], c)) == MigTake(x, x, share)
  {
    hide Inv, Apply;
    Counting(run, acts, i, n, c);
    assert ActAt(run, acts, n);
    DecideStep(run[n], c);
    SameCpus(run[n], c, Decide);
    var top := Top(Mine(run[n], c));
    Shares(top.total, |run[n].cur|);
  }

  lemma Shares(total: nat, n: nat)
    requires n > 0
    ensures Share(total, n, DivRoundUp(total, n))
  {
    var q := DivRoundUp(total, n);
    assert total + n - 1 == q * n + (total + n - 1) % n;
  }

  lemma DecideStep(s: State, c: nat)
    requires Enabled(s, c, Decide)
    ensures var top, s' := Top(Mine(s, c)), Apply(s, c, Decide);
            && top.MigCount? && top.i >= |s.cur| > c && s'.cur == s.cur
            && var share := DivRoundUp(top.total, |s.cur|);
               if top.my < share then Mine(s', c) == Pop(Mine(s, c))
               else Top(Mine(s', c)) == MigTake(top.my - share, top.my - share, share)
  {
  }

  /** From then on it takes that many victims from its own queue, offers each other CPU in turn as
      many as that has room for up to the share, no more than it took in all, and puts the rest
      back. */
  lemma {:induction false} Sending(run: seq<State>, acts: seq<Act>, i: nat, n: nat, c: nat, x: nat, share: nat)
    requires Run(run, acts) && Only(acts, c, {Take, Taken, Give, NextCpu, PutBack}, i, n)
    requires acts[i] == Act(c, Decide) && c < |run[i + 1].cur|
    requires Top(Mine(run[i + 1], c)) == MigTake(x, x, share)
    ensures c < |run[n].cur| && Times(acts, c, Take, i, n) <= x && Times(acts, c, Give, i, n) <= x
    ensures Top(Mine(run[n], c)) ==
              if Times(acts, c, Taken, i, n) == 0 then MigTake(x - Times(acts, c, Take, i, n), x, share)
              else if Times(acts, c, PutBack, i, n) == 0 then
                MigGive(Times(acts, c, NextCpu, i, n), x - Times(acts, c, Give, i, n), share)
              else MigBack
    ensures Times(acts, c, Taken, i, n) == 0 ==>
              Times(acts, c, Give, i, n) == Times(acts, c, NextCpu, i, n) == Times(acts, c, PutBack, i, n) == 0
    decreases n
  {
    hide Inv, Apply, Enabled;
    if i + 1 < n {
      var s, a := run[n - 1], acts[n - 1];
      RunInv(run, acts, n - 1);
      assert ActAt(run, acts, n - 1);
      SameCpus(s, a.c, a.step);
      Sending(run, acts, i, n - 1, c, x, share);
      if a.c == c {
        MoveFacts(s, c, a.step);
        SendStep(s, c, a.step);
      } else {
        OthersStay(s, a.c, a.step, c);
      }
    }
  }

  lemma SendStep(s: State, c: nat, step: Step)
    requires Enabled(s, c, step) && step in {Take, Taken, Give, NextCpu, PutBack}
    requires step == Take ==> At(s.lists, RunQ(c)) != []
    requires step == Give ==> At(s.lists, MyHand(s, c)) != []
    ensures var top, top' := Top(Mine(s, c)), Top(Mine(Apply(s, c, step), c));
            match step
            case Take => top.MigTake? && top.left > 0 && top' == MigTake(top.left - 1, top.send, top.share)
            case Taken => top.MigTake? && top.left == 0 && top' == MigGive(0, top.send, top.share)
            case Give => top.MigGive? && top.send > 0 && top' == MigGive(top.i, top.send - 1, top.share)
            case NextCpu => top.MigGive? && top' == MigGive(top.i + 1, top.send, top.share)
            case _ => (top.MigGive? || top.MigBack?) && top' == MigBack
  {
  }
}
