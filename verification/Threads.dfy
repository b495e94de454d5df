/** thread/thread.c: where every thread is, on a machine with any number of CPUs.

    The system is a state machine. A step is what one CPU does between two lock
    operations; test-and-set is atomic and the context switch is `curthread = next`.
    A CPU always executes the topmost frame on the stack of its current thread, also
    while it idles on the stack of a thread that is asleep or queued. Loops over
    lists under a run-queue lock are split into one step per thread, which allows
    more interleavings than the code does, not fewer.
  */
module Threads {
  type Tid = nat

  /** The lists a thread can be on. `Hand(t, d)` is the local list of frame d of
      thread t: the threads a waker or a parent is about to make runnable, or the
      victims of a migration. */
  datatype ListId = RunQ(c: nat) | Chan(w: nat) | Zombies(c: nat) | Hand(t: Tid, d: nat)

  /** Why thread_switch was called, and how far it has come: before taking the run
      queue lock; choosing the next thread with the lock held; in cpu_idle, perhaps
      already interrupted; switched away. */
  datatype Why = Ready | Sleep(w: nat) | Exit
  datatype Pc = Begin | Pick | Idle(woken: bool) | Off

  datatype Frame =
    | Code
    | Start
    | Irq
    | Wake
    | Exorcise
    | Switch(why: Why, pc: Pc)
    | MigCount(i: nat, my: nat, total: nat)
    | MigTake(left: nat, send: nat, share: nat)
    | MigGive(i: nat, send: nat, share: nat)
    | MigBack

  datatype ThreadState = RUN | READY | SLEEP | ZOMBIE

  /** Per CPU: c_curthread, c_isidle, whether its run-queue lock is held across a
      switch, and a pending IPI_UNIDLE. Per thread: t_cpu, t_state and its stack. */
  datatype State = State(
    cur: seq<Tid>, idle: seq<bool>, rqheld: seq<bool>, ipi: seq<bool>,
    lists: map<ListId, seq<Tid>>, wlocked: set<nat>,
    live: set<Tid>, tcpu: map<Tid, nat>, tstate: map<Tid, ThreadState>, frames: map<Tid, seq<Frame>>)

  function At(lists: map<ListId, seq<Tid>>, l: ListId): seq<Tid> {
    if l in lists then lists[l] else []
  }

  function Stack(s: State, t: Tid): seq<Frame> {
    if t in s.frames then s.frames[t] else []
  }

  /** The frame CPU c is executing. */
  function Top(fs: seq<Frame>): Frame {
    if fs == [] then Code else fs[|fs| - 1]
  }

  function Push(fs: seq<Frame>, f: Frame): seq<Frame> {
    fs + [f]
  }

  function Pop(fs: seq<Frame>): seq<Frame> {
    if fs == [] then [] else fs[..|fs| - 1]
  }

  // --- Invariant ---------------------------------------------------------------

  /** A switch that has queued its thread and is still on its stack. */
  predicate Waits(f: Frame) {
    f.Switch? && (f.pc.Pick? || f.pc.Idle?)
  }

  ghost predicate Waiting(fs: seq<Frame>) {
    exists d :: 0 <= d < |fs| && Waits(fs[d])
  }

  /** cpu_idle is about to return. */
  ghost predicate Woken(fs: seq<Frame>) {
    exists d :: 0 <= d < |fs| && fs[d].Switch? && fs[d].pc == Idle(true)
  }

  /** Past the point of no return in thread_exit. */
  ghost predicate Dying(fs: seq<Frame>) {
    exists d :: 0 <= d < |fs| && fs[d].Switch? && fs[d].why == Exit && !fs[d].pc.Begin?
  }

  predicate Parked(f: Frame) {
    f == Start || (f.Switch? && f.pc == Off)
  }

  /** Frames that may have another above them. */
  predicate Lower(f: Frame) {
    f == Code || f == Irq || f == Wake || (f.Switch? && f.pc == Idle(true))
  }

  predicate Migrating(f: Frame) {
    f.MigCount? || f.MigTake? || f.MigGive? || f.MigBack?
  }

  ghost predicate StackOk(fs: seq<Frame>) {
    && fs != [] && (forall d | 0 <= d < |fs| - 1 :: Lower(fs[d]))
    && (forall d | 0 < d < |fs| :: fs[d] != Code && fs[d] != Start)
    && (forall d, e | 0 <= d < e < |fs| :: !(Waits(fs[d]) && Waits(fs[e])))
    && (fs[0] == Code || fs == [Start])
    && (forall d | 0 <= d < |fs| && fs[d].Switch? && fs[d].why != Ready :: d == 1)
    && (Parked(Top(fs)) || Top(fs) == Exorcise ==> !Waiting(fs))
    && (Dying(fs) ==> Waiting(fs) || Top(fs) == Switch(Exit, Off))
  }

  /** t is the current thread of its CPU. */
  predicate IsCur(s: State, t: Tid) {
    t in s.tcpu && s.tcpu[t] < |s.cur| && s.cur[s.tcpu[t]] == t
  }

  ghost predicate Listed(lists: map<ListId, seq<Tid>>, t: Tid) {
    exists l :: t in At(lists, l)
  }

  /** No thread is on two lists, or twice on one. */
  ghost predicate Unique(lists: map<ListId, seq<Tid>>) {
    forall l, k, i, j | 0 <= i < |At(lists, l)| && 0 <= j < |At(lists, k)| && At(lists, l)[i] == At(lists, k)[j] ::
      l == k && i == j
  }

  ghost predicate ThreadOk(s: State, t: Tid) {
    && t in s.tcpu && t in s.tstate && t in s.frames && s.tcpu[t] < |s.cur| && StackOk(s.frames[t])
    && (!IsCur(s, t) ==> Parked(Top(s.frames[t])))
    && (Waiting(s.frames[t]) ==> IsCur(s, t))
    && (Listed(s.lists, t) <==> Waiting(s.frames[t]) || !IsCur(s, t))
    && (Dying(s.frames[t]) ==> Listed(s.lists, t))
  }

  ghost predicate CpuOk(s: State, c: nat)
    requires c < |s.cur| == |s.idle| == |s.rqheld| == |s.ipi|
  {
    && s.cur[c] in s.live && s.cur[c] in s.tcpu && s.tcpu[s.cur[c]] == c && s.cur[c] in s.frames
    && s.frames[s.cur[c]] != []
    && var fs := s.frames[s.cur[c]];
       && s.idle[c] == Waiting(fs)
       && s.rqheld[c] == HoldsQueue(fs)
       && (s.idle[c] && !s.rqheld[c] && At(s.lists, RunQ(c)) != [] ==> s.ipi[c] || Woken(fs))
       && CountsOk(Top(fs), c, |At(s.lists, RunQ(c))|, |At(s.lists, Hand(s.cur[c], |fs| - 1))|)
  }

  /** What a migration on CPU c knows about its run queue (q threads) and its victims
      (h of them): enough are there for every removal it will make. */
  ghost predicate CountsOk(f: Frame, c: nat, q: nat, h: nat) {
    match f
    case MigCount(i, my, total) => (c < i ==> my <= q) && (i <= c ==> my == 0) && my <= total && h == 0
    case MigTake(left, send, share) => left <= q && h + left == send
    case MigGive(i, send, share) => send <= h
    case _ => true
  }

  /** What being on a list means. */
  ghost predicate MemberOk(s: State, l: ListId, t: Tid) {
    && t in s.live && t in s.tcpu && t in s.tstate
    && match l
       case RunQ(c) => s.tcpu[t] == c && !Dying(Stack(s, t))
       case Chan(w) => !Dying(Stack(s, t))
       case Zombies(c) => s.tcpu[t] == c && s.tstate[t] == ZOMBIE && Dying(Stack(s, t))
       case Hand(o, d) =>
         && o in s.live && o in s.tcpu && d < |Stack(s, o)| && !Dying(Stack(s, t))
         && (Stack(s, o)[d] == Wake || (Migrating(Stack(s, o)[d]) && s.tcpu[t] == s.tcpu[o]))
  }

  ghost predicate Inv(s: State) {
    && 0 < |s.cur| == |s.idle| == |s.rqheld| == |s.ipi|
    && (forall c: nat | c < |s.cur| :: CpuOk(s, c))
    && (forall t | t in s.live :: ThreadOk(s, t))
    && (forall l, t | t in At(s.lists, l) :: MemberOk(s, l, t))
    && Unique(s.lists)
  }

  // --- Steps -------------------------------------------------------------------

  predicate Sized(s: State) {
    && 0 < |s.cur| == |s.idle| == |s.rqheld| == |s.ipi|
    && forall c | 0 <= c < |s.cur| :: s.cur[c] in s.frames && s.frames[s.cur[c]] != [] && s.cur[c] in s.tcpu
  }

  datatype Step =
    | Interrupt(ack: bool) | IrqDone
    | BeginYield | BeginSleep(w: nat) | BeginExit
    | Return | Place | PickNext | GoIdle | Unidle | Finish | Destroy | ExorciseDone
    | WakeOne(w: nat) | WakeAll(w: nat) | Fork(n: Tid) | MakeRunnable | WakeDone
    | StartMigration | Count | Decide | Take | Taken | Give | NextCpu | PutBack | EndMigration

  /** The stack CPU c is on, the depth of its top frame, and that frame's list. */
  function Mine(s: State, c: nat): seq<Frame>
    requires c < |s.cur|
  {
    Stack(s, s.cur[c])
  }

  function MyHand(s: State, c: nat): ListId
    requires c < |s.cur| && Mine(s, c) != []
  {
    Hand(s.cur[c], |Mine(s, c)| - 1)
  }

  function NewHand(s: State, c: nat): ListId
    requires c < |s.cur|
  {
    Hand(s.cur[c], |Mine(s, c)|)
  }

  function SetStack(s: State, c: nat, fs: seq<Frame>): State
    requires c < |s.cur|
  {
    s.(frames := s.frames[s.cur[c] := fs])
  }

  function SetTop(s: State, c: nat, f: Frame): State
    requires c < |s.cur|
  {
    SetStack(s, c, Push(Pop(Mine(s, c)), f))
  }

  /** A thread from the front of list a goes to the end of list b. */
  function MoveHead(m: map<ListId, seq<Tid>>, a: ListId, b: ListId): map<ListId, seq<Tid>>
    requires At(m, a) != [] && a != b
  {
    m[a := At(m, a)[1..]][b := At(m, b) + [At(m, a)[0]]]
  }

  function StateFor(why: Why): ThreadState {
    match why case Ready => READY case Sleep(_) => SLEEP case Exit => ZOMBIE
  }

  function ListFor(why: Why, c: nat): ListId {
    match why case Ready => RunQ(c) case Sleep(w) => Chan(w) case Exit => Zombies(c)
  }

  function DivRoundUp(a: nat, b: nat): nat
    requires b > 0
  {
    (a + b - 1) / b
  }

  predicate Enabled(s: State, c: nat, step: Step) {
    Sized(s) && c < |s.cur| &&
    var fs, top, n := Mine(s, c), Top(Mine(s, c)), |s.cur|;
    match step
    case Interrupt(_) => top == Code || top == Wake || (top.Switch? && top.pc.Idle?)
    case IrqDone => top == Irq
    case BeginYield => top == Code || top == Irq
    case BeginSleep(w) => top == Code && w !in s.wlocked
    case BeginExit => top == Code
    case Return =>
      && top.Switch? && top.pc == Begin
      && (s.idle[c] || (!s.rqheld[c] && top.why == Ready && At(s.lists, RunQ(c)) == []))
    case Place =>
      && top.Switch? && top.pc == Begin && !s.idle[c] && !s.rqheld[c]
      && !(top.why == Ready && At(s.lists, RunQ(c)) == [])
    case PickNext => top.Switch? && top.pc == Pick && At(s.lists, RunQ(c)) != []
    case GoIdle => top.Switch? && top.pc == Pick && At(s.lists, RunQ(c)) == []
    case Unidle => top.Switch? && top.pc == Idle(true) && !s.rqheld[c]
    case Finish => Parked(top)
    case Destroy => top == Exorcise && At(s.lists, Zombies(c)) != []
    case ExorciseDone => top == Exorcise && At(s.lists, Zombies(c)) == []
    case WakeOne(w) => (top == Code || top == Irq) && w !in s.wlocked && At(s.lists, Chan(w)) != []
    case WakeAll(w) => (top == Code || top == Irq) && w !in s.wlocked
    case Fork(t) => top == Code && t !in s.live
    case MakeRunnable =>
      && top == Wake && At(s.lists, MyHand(s, c)) != []
      && var t := At(s.lists, MyHand(s, c))[0]; t in s.tcpu && s.tcpu[t] < n && !s.rqheld[s.tcpu[t]]
    case WakeDone => top == Wake && At(s.lists, MyHand(s, c)) == []
    case StartMigration => top == Irq
    case Count => top.MigCount? && top.i < n && !s.rqheld[top.i]
    case Decide => top.MigCount? && top.i >= n
    case Take => top.MigTake? && top.left > 0 && !s.rqheld[c]
    case Taken => top.MigTake? && top.left == 0
    case Give =>
      && top.MigGive? && top.i < n && top.send > 0 && top.i != c && !s.rqheld[top.i]
      && |At(s.lists, RunQ(top.i))| < top.share
    case NextCpu =>
      && top.MigGive? && top.i < n && top.send > 0
      && (top.i == c || (!s.rqheld[top.i] && |At(s.lists, RunQ(top.i))| >= top.share))
    case PutBack =>
      && ((top.MigGive? && (top.i >= n || top.send == 0)) || top.MigBack?) && At(s.lists, MyHand(s, c)) != []
      && !s.rqheld[c]
    case EndMigration =>
      ((top.MigGive? && (top.i >= n || top.send == 0)) || top.MigBack?) && At(s.lists, MyHand(s, c)) == []
  }

  /** thread_make_runnable sends an interrupt to an idle CPU. */
  function Notify(s: State, j: nat): seq<bool>
    requires j < |s.ipi| && j < |s.idle|
  {
    s.ipi[j := s.ipi[j] || s.idle[j]]
  }

  /** An interrupt; a CPU in cpu_idle will leave it. Acknowledging an IPI clears it. */
  function DoInterrupt(s: State, c: nat, ack: bool): State
    requires Sized(s) && c < |s.cur|
  {
    var fs, top := Mine(s, c), Top(Mine(s, c));
    var under := if top.Switch? then Push(Pop(fs), Switch(top.why, Idle(true))) else fs;
    SetStack(s, c, Push(under, Irq)).(ipi := if ack then s.ipi[c := false] else s.ipi)
  }

  /** thread_switch takes the run queue lock and puts the current thread in its place. */
  function DoPlace(s: State, c: nat): State
    requires Sized(s) && c < |s.cur| && Top(Mine(s, c)).Switch?
  {
    var why := Top(Mine(s, c)).why;
    var l := ListFor(why, c);
    SetTop(s, c, Switch(why, Pick)).(
      lists := s.lists[l := At(s.lists, l) + [s.cur[c]]],
      tstate := s.tstate[s.cur[c] := StateFor(why)],
      wlocked := if why.Sleep? then s.wlocked - {why.w} else s.wlocked,
      idle := s.idle[c := true], rqheld := s.rqheld[c := true])
  }

  /** The next thread becomes current; the run queue lock goes over to it. */
  function DoPick(s: State, c: nat): State
    requires Sized(s) && c < |s.cur| && Top(Mine(s, c)).Switch? && At(s.lists, RunQ(c)) != []
  {
    var q := At(s.lists, RunQ(c));
    SetTop(s, c, Switch(Top(Mine(s, c)).why, Off)).(
      lists := s.lists[RunQ(c) := q[1..]], cur := s.cur[c := q[0]], idle := s.idle[c := false])
  }

  function DoFinish(s: State, c: nat): State
    requires Sized(s) && c < |s.cur|
  {
    var fs := Mine(s, c);
    SetStack(s, c, Push(if Top(fs) == Start then [Code] else Pop(fs), Exorcise)).(
      tstate := s.tstate[s.cur[c] := RUN], rqheld := s.rqheld[c := false])
  }

  /** exorcise destroys the first zombie of its CPU. */
  function DoDestroy(s: State, c: nat): State
    requires At(s.lists, Zombies(c)) != []
  {
    var z := At(s.lists, Zombies(c))[0];
    s.(lists := s.lists[Zombies(c) := At(s.lists, Zombies(c))[1..]], live := s.live - {z},
       tcpu := s.tcpu - {z}, tstate := s.tstate - {z}, frames := s.frames - {z})
  }

  function DoWakeOne(s: State, c: nat, w: nat): State
    requires c < |s.cur| && At(s.lists, Chan(w)) != []
  {
    SetStack(s, c, Push(Mine(s, c), Wake)).(lists := MoveHead(s.lists, Chan(w), NewHand(s, c)))
  }

  function DoWakeAll(s: State, c: nat, w: nat): State
    requires c < |s.cur|
  {
    SetStack(s, c, Push(Mine(s, c), Wake)).(lists := s.lists[Chan(w) := []][NewHand(s, c) := At(s.lists, Chan(w))])
  }

  /** thread_fork: a new thread on the caller's CPU, in the caller's hand. */
  function DoFork(s: State, c: nat, t: Tid): State
    requires Sized(s) && c < |s.cur|
  {
    var me := s.cur[c];
    s.(frames := s.frames[me := Push(Mine(s, c), Wake)][t := [Start]],
       lists := s.lists[NewHand(s, c) := [t]], live := s.live + {t}, tcpu := s.tcpu[t := s.tcpu[me]],
       tstate := s.tstate[t := READY])
  }

  /** thread_make_runnable: to the end of its own CPU's queue, and an interrupt if that
      CPU is idle. */
  function DoMakeRunnable(s: State, c: nat): State
    requires Sized(s) && c < |s.cur| && At(s.lists, MyHand(s, c)) != []
    requires var t := At(s.lists, MyHand(s, c))[0]; t in s.tcpu && s.tcpu[t] < |s.cur|
  {
    var j := s.tcpu[At(s.lists, MyHand(s, c))[0]];
    s.(lists := MoveHead(s.lists, MyHand(s, c), RunQ(j)), ipi := Notify(s, j))
  }

  /** Migration looks at one run queue. */
  function DoCount(s: State, c: nat): State
    requires c < |s.cur| && Top(Mine(s, c)).MigCount?
  {
    var top := Top(Mine(s, c));
    var q := |At(s.lists, RunQ(top.i))|;
    SetTop(s, c, MigCount(top.i + 1, if top.i == c then q else top.my, top.total + q))
  }

  function DoDecide(s: State, c: nat): State
    requires c < |s.cur| && Top(Mine(s, c)).MigCount?
  {
    var top := Top(Mine(s, c));
    var share := DivRoundUp(top.total, |s.cur|);
    if top.my < share then SetStack(s, c, Pop(Mine(s, c)))
    else SetTop(s, c, MigTake(top.my - share, top.my - share, share))
  }

  /** The last thread of the own queue becomes the first victim. */
  function DoTake(s: State, c: nat): State
    requires Sized(s) && c < |s.cur| && Top(Mine(s, c)).MigTake? && Top(Mine(s, c)).left > 0
    requires At(s.lists, RunQ(c)) != []
  {
    var top, q := Top(Mine(s, c)), At(s.lists, RunQ(c));
    SetTop(s, c, MigTake(top.left - 1, top.send, top.share)).(
      lists := s.lists[RunQ(c) := q[..|q| - 1]][MyHand(s, c) := [q[|q| - 1]] + At(s.lists, MyHand(s, c))])
  }

  /** The first victim goes to CPU i, unless it is the current thread, which goes to the
      end of the victims. */
  function DoGive(s: State, c: nat): State
    requires Sized(s) && c < |s.cur| && At(s.lists, MyHand(s, c)) != []
    requires var top := Top(Mine(s, c)); top.MigGive? && top.send > 0 && top.i < |s.cur|
  {
    var top, h := Top(Mine(s, c)), At(s.lists, MyHand(s, c));
    if h[0] == s.cur[c] then
      SetTop(s, c, MigGive(top.i, top.send - 1, top.share)).(lists := s.lists[MyHand(s, c) := h[1..] + [h[0]]])
    else
      SetTop(s, c, MigGive(top.i, top.send - 1, top.share)).(
        lists := MoveHead(s.lists, MyHand(s, c), RunQ(top.i)), tcpu := s.tcpu[h[0] := top.i], ipi := Notify(s, top.i))
  }

  function DoPutBack(s: State, c: nat): State
    requires Sized(s) && c < |s.cur| && At(s.lists, MyHand(s, c)) != []
  {
    SetTop(s, c, MigBack).(lists := MoveHead(s.lists, MyHand(s, c), RunQ(c)))
  }

  /** The steps of CPU c. Where a migration would remove a thread from an empty list the
      model stands still; `NoEmptyRemoval` shows that it never does. */
  function Apply(s: State, c: nat, step: Step): State
    requires Enabled(s, c, step)
  {
    var fs, top := Mine(s, c), Top(Mine(s, c));
    match step
    case Interrupt(ack) => DoInterrupt(s, c, ack)
    case IrqDone => SetStack(s, c, Pop(fs))
    case BeginYield => SetStack(s, c, Push(fs, Switch(Ready, Begin)))
    case BeginSleep(w) => SetStack(s, c, Push(fs, Switch(Sleep(w), Begin))).(wlocked := s.wlocked + {w})
    case BeginExit => SetStack(s, c, Push(fs, Switch(Exit, Begin)))
    case Return => SetStack(s, c, Pop(fs))
    case Place => DoPlace(s, c)
    case PickNext => DoPick(s, c)
    case GoIdle => SetTop(s, c, Switch(top.why, Idle(false))).(rqheld := s.rqheld[c := false])
    case Unidle => SetTop(s, c, Switch(top.why, Pick)).(rqheld := s.rqheld[c := true])
    case Finish => DoFinish(s, c)
    case Destroy => DoDestroy(s, c)
    case ExorciseDone => SetStack(s, c, Pop(fs))
    case WakeOne(w) => DoWakeOne(s, c, w)
    case WakeAll(w) => DoWakeAll(s, c, w)
    case Fork(t) => DoFork(s, c, t)
    case MakeRunnable => DoMakeRunnable(s, c)
    case WakeDone => SetStack(s, c, Pop(fs))
    case StartMigration => SetStack(s, c, Push(fs, MigCount(0, 0, 0)))
    case Count => DoCount(s, c)
    case Decide => DoDecide(s, c)
    case Take => if At(s.lists, RunQ(c)) == [] then s else DoTake(s, c)
    case Taken => SetTop(s, c, MigGive(0, top.send, top.share))
    case Give => if At(s.lists, MyHand(s, c)) == [] then s else DoGive(s, c)
    case NextCpu => SetTop(s, c, MigGive(top.i + 1, top.send, top.share))
    case PutBack => DoPutBack(s, c)
    case EndMigration => SetStack(s, c, Pop(fs))
  }

  // --- Lists -------------------------------------------------------------------

  type Lists = map<ListId, seq<Tid>>

  function Removed(m: Lists, l: ListId, i: nat): Lists
    requires i < |At(m, l)|
  {
    m[l := At(m, l)[..i] + At(m, l)[i + 1..]]
  }

  function Added(m: Lists, l: ListId, i: nat, t: Tid): Lists
    requires i <= |At(m, l)|
  {
    m[l := At(m, l)[..i] + [t] + At(m, l)[i..]]
  }

  /** Exactly t has gone from the lists. */
  ghost predicate Less(m: Lists, m': Lists, l: ListId, t: Tid) {
    && Unique(m') && !Listed(m', t)
    && (forall k, u :: u in At(m', k) <==> u in At(m, k) && u != t)
    && (forall u | u != t :: Listed(m', u) <==> Listed(m, u))
    && (forall k | k != l :: At(m', k) == At(m, k)) && |At(m', l)| == |At(m, l)| - 1
  }

  /** Exactly t is new on the lists, on l. */
  ghost predicate More(m: Lists, m': Lists, l: ListId, t: Tid) {
    && Unique(m') && Listed(m', t)
    && (forall k, u :: u in At(m', k) <==> u in At(m, k) || (k == l && u == t))
    && (forall u | u != t :: Listed(m', u) <==> Listed(m, u))
    && (forall k | k != l :: At(m', k) == At(m, k)) && |At(m', l)| == |At(m, l)| + 1
  }

  lemma RemoveOne(m: Lists, l: ListId, i: nat)
    requires Unique(m) && i < |At(m, l)|
    ensures Less(m, Removed(m, l, i), l, At(m, l)[i])
  {
    var m', t, a := Removed(m, l, i), At(m, l)[i], At(m, l);
    var b := At(m', l);
    assert forall j | 0 <= j < |b| :: b[j] == a[if j < i then j else j + 1];
    forall k, u ensures u in At(m', k) <==> u in At(m, k) && u != t {
      if k == l {
        if u in a && u != t {
          var j :| 0 <= j < |a| && a[j] == u;
          assert b[if j < i then j else j - 1] == u;
        }
      } else if u in At(m, k) {
        var j :| 0 <= j < |At(m, k)| && At(m, k)[j] == u;
        assert At(m, k)[j] != At(m, l)[i];
      }
    }
    forall u | u != t ensures Listed(m', u) <==> Listed(m, u) {
      if Listed(m', u) {
        var k :| u in At(m', k);
        assert u in At(m, k);
      }
      if Listed(m, u) {
        var k :| u in At(m, k);
        assert u in At(m', k);
      }
    }
    UniqueRemoved(m, l, i);
  }

  lemma UniqueRemoved(m: Lists, l: ListId, i: nat)
    requires Unique(m) && i < |At(m, l)|
    ensures Unique(Removed(m, l, i))
  {
    var m' := Removed(m, l, i);
    forall p, q, x, y | 0 <= x < |At(m', p)| && 0 <= y < |At(m', q)| && At(m', p)[x] == At(m', q)[y]
      ensures p == q && x == y
    {
      var x' := if p == l && x >= i then x + 1 else x;
      var y' := if q == l && y >= i then y + 1 else y;
      assert At(m', p)[x] == At(m, p)[x'] && At(m', q)[y] == At(m, q)[y'];
    }
  }

  lemma AddOne(m: Lists, l: ListId, i: nat, t: Tid)
    requires Unique(m) && i <= |At(m, l)| && !Listed(m, t)
    ensures More(m, Added(m, l, i, t), l, t)
  {
    var m', a := Added(m, l, i, t), At(m, l);
    var b := At(m', l);
    assert b[i] == t && forall j | 0 <= j < |b| && j != i :: b[j] == a[if j < i then j else j - 1];
    forall k, u ensures u in At(m', k) <==> u in At(m, k) || (k == l && u == t) {
      if k == l && u in a {
        var j :| 0 <= j < |a| && a[j] == u;
        assert b[if j < i then j else j + 1] == u;
      }
    }
    forall u | u != t ensures Listed(m', u) <==> Listed(m, u) {
      if Listed(m', u) {
        var k :| u in At(m', k);
        assert u in At(m, k);
      }
      if Listed(m, u) {
        var k :| u in At(m, k);
        assert u in At(m', k);
      }
    }
    assert t in At(m', l);
    UniqueAdded(m, l, i, t);
  }

  lemma UniqueAdded(m: Lists, l: ListId, i: nat, t: Tid)
    requires Unique(m) && i <= |At(m, l)| && !Listed(m, t)
    ensures Unique(Added(m, l, i, t))
  {
    var m', a := Added(m, l, i, t), At(m, l);
    forall p, x | 0 <= x < |At(m', p)| && !(p == l && x == i) ensures At(m', p)[x] != t {
      var x' := if p == l && x > i then x - 1 else x;
      assert At(m', p)[x] == At(m, p)[x'];
      assert At(m, p)[x'] in At(m, p);
    }
    forall p, q, x, y | 0 <= x < |At(m', p)| && 0 <= y < |At(m', q)| && At(m', p)[x] == At(m', q)[y]
      ensures p == q && x == y
    {
      assert At(m', l)[i] == t;
      if !(p == l && x == i) && !(q == l && y == i) {
        var x' := if p == l && x > i then x - 1 else x;
        var y' := if q == l && y > i then y - 1 else y;
        assert At(m', p)[x] == At(m, p)[x'] && At(m', q)[y] == At(m, q)[y'];
      }
    }
  }

  /** t has moved from list a to list b; nothing else has. */
  ghost predicate Moved(m: Lists, m': Lists, a: ListId, b: ListId, t: Tid) {
    && a != b && t in At(m, a) && Unique(m')
    && (forall k, u :: u in At(m', k) <==> (u in At(m, k) && u != t) || (k == b && u == t))
    && (forall u :: Listed(m', u) <==> Listed(m, u))
    && (forall k | k != a && k != b :: At(m', k) == At(m, k))
    && |At(m', a)| == |At(m, a)| - 1 && |At(m', b)| == |At(m, b)| + 1
  }

  lemma MoveOne(m: Lists, a: ListId, i: nat, b: ListId, j: nat)
    requires Unique(m) && a != b && i < |At(m, a)| && j <= |At(m, b)|
    ensures Moved(m, Added(Removed(m, a, i), b, j, At(m, a)[i]), a, b, At(m, a)[i])
  {
    var t := At(m, a)[i];
    RemoveOne(m, a, i);
    AddOne(Removed(m, a, i), b, j, t);
    assert Listed(m, t);
    hide Unique, Listed;
  }

  lemma MoveHeadIs(m: Lists, a: ListId, b: ListId)
    requires Unique(m) && a != b && At(m, a) != []
    ensures Moved(m, MoveHead(m, a, b), a, b, At(m, a)[0])
  {
    MoveOne(m, a, 0, b, |At(m, b)|);
    var r := Removed(m, a, 0);
    assert At(r, b) == At(m, b);
    assert At(m, a)[..0] + At(m, a)[1..] == At(m, a)[1..];
    assert At(m, b)[..|At(m, b)|] + [At(m, a)[0]] + At(m, b)[|At(m, b)|..] == At(m, b) + [At(m, a)[0]];
  }

  // --- Stacks ------------------------------------------------------------------

  predicate HoldsQueue(fs: seq<Frame>) {
    Parked(Top(fs)) || (Top(fs).Switch? && Top(fs).pc == Pick)
  }

  /** Two stacks that make no difference to the lists. */
  ghost predicate Alike(fs: seq<Frame>, fs': seq<Frame>) {
    && StackOk(fs') && Waiting(fs') == Waiting(fs) && Dying(fs') == Dying(fs) && (Woken(fs) ==> Woken(fs'))
    && HoldsQueue(fs') == HoldsQueue(fs)
  }

  lemma PushAlike(fs: seq<Frame>, f: Frame)
    requires StackOk(fs) && Lower(Top(fs))
    requires f == Irq || f == Wake || Migrating(f) || (f.Switch? && f.pc == Begin && (f.why == Ready || |fs| == 1))
    ensures Alike(fs, Push(fs, f))
  {
    hide Waiting, Dying, Woken;
    SameWaiting(fs, Push(fs, f), |fs|);
  }

  lemma PopAlike(fs: seq<Frame>)
    requires StackOk(fs) && |fs| > 1 && (Top(fs).Switch? ==> Top(fs).pc == Begin) && Top(fs) != Start
    ensures Alike(fs, Pop(fs)) && Lower(Top(Pop(fs)))
  {
    hide Waiting, Dying, Woken;
    SameWaiting(fs, Pop(fs), |fs| - 1);
  }

  lemma TopAlike(fs: seq<Frame>, f: Frame)
    requires StackOk(fs) && Migrating(Top(fs)) && Migrating(f)
    ensures Alike(fs, Push(Pop(fs), f))
  {
    hide Waiting, Dying, Woken;
    SameWaiting(fs, Push(Pop(fs), f), |fs| - 1);
  }

  /** Stacks that agree below d, and above have no waiting or dying switch. */
  lemma SameWaiting(fs: seq<Frame>, fs': seq<Frame>, d: nat)
    requires d <= |fs| && d <= |fs'| && fs[..d] == fs'[..d]
    requires forall e | d <= e < |fs| :: fs[e].Switch? ==> fs[e].pc == Begin
    requires forall e | d <= e < |fs'| :: fs'[e].Switch? ==> fs'[e].pc == Begin
    ensures Waiting(fs') == Waiting(fs) && Dying(fs') == Dying(fs) && Woken(fs') == Woken(fs)
  {
    assert forall e | 0 <= e < d :: fs[e] == fs[..d][e] == fs'[..d][e] == fs'[e];
  }

  /** Replacing a top frame that was not waiting by one that is, and so on. */
  lemma TopWaits(fs: seq<Frame>, f: Frame)
    requires StackOk(fs) && |fs| > 1 && f.Switch? && Waits(f) && Top(fs).Switch? && Top(fs).why == f.why
    requires Waits(Top(fs)) || (Top(fs).pc == Begin && !Waiting(fs))
    ensures var fs' := Push(Pop(fs), f);
            && StackOk(fs') && Waiting(fs') && (Dying(fs') <==> f.why == Exit || Dying(fs))
            && (f.pc == Idle(true) ==> Woken(fs'))
    ensures Waits(Top(fs)) ==> Dying(Push(Pop(fs), f)) == Dying(fs)
  {
    var fs', n := Push(Pop(fs), f), |fs| - 1;
    assert fs'[n] == f && forall e | 0 <= e < n :: fs'[e] == fs[e];
    assert Waits(fs[n]) ==> forall e | 0 <= e < n :: !Waits(fs[e]);
    assert fs[n].Switch?;
  }

  lemma TopParks(fs: seq<Frame>)
    requires StackOk(fs) && |fs| > 1 && Top(fs).Switch? && Top(fs).pc == Pick
    ensures var fs' := Push(Pop(fs), Switch(Top(fs).why, Off));
            StackOk(fs') && !Waiting(fs') && Dying(fs') == Dying(fs) && Parked(Top(fs'))
  {
    var n := |fs| - 1;
    var fs' := Push(Pop(fs), Switch(Top(fs).why, Off));
    assert fs'[n] == Switch(Top(fs).why, Off) && forall e | 0 <= e < n :: fs'[e] == fs[e];
    assert forall e | 0 <= e < n :: !Waits(fs[e]) by {
      assert Waits(fs[n]);
    }
  }

  /** The start of thread_startup and the end of thread_switch. */
  lemma TopResumes(fs: seq<Frame>)
    requires StackOk(fs) && Parked(Top(fs)) && !Dying(fs)
    ensures var fs' := Push(if Top(fs) == Start then [Code] else Pop(fs), Exorcise);
            StackOk(fs') && !Waiting(fs') && !Dying(fs') && !HoldsQueue(fs')
  {
    var fs' := Push(if Top(fs) == Start then [Code] else Pop(fs), Exorcise);
    if Top(fs) == Start {
      assert fs' == [Code, Exorcise];
    } else {
      assert forall e | 0 <= e < |fs'| - 1 :: fs'[e] == fs[e];
    }
  }

  // --- What a step leaves alone ---------------------------------------------------

  ghost predicate Shape(s: State) {
    0 < |s.cur| == |s.idle| == |s.rqheld| == |s.ipi|
  }

  lemma CpuSame(s: State, s': State, d: nat)
    requires Shape(s) && Shape(s') && d < |s.cur| == |s'.cur| && CpuOk(s, d)
    requires s'.cur[d] == s.cur[d] && s'.idle[d] == s.idle[d] && s'.rqheld[d] == s.rqheld[d]
    requires var t := s.cur[d];
             t in s'.live && t in s'.tcpu && s'.tcpu[t] == s.tcpu[t] && t in s'.frames && s'.frames[t] == s.frames[t]
    requires |At(s.lists, RunQ(d))| <= |At(s'.lists, RunQ(d))|
    requires At(s'.lists, RunQ(d)) == At(s.lists, RunQ(d)) || (s.idle[d] ==> s'.ipi[d])
    requires s.ipi[d] ==> s'.ipi[d]
    requires |At(s'.lists, Hand(s.cur[d], |s.frames[s.cur[d]]| - 1))| ==
             |At(s.lists, Hand(s.cur[d], |s.frames[s.cur[d]]| - 1))|
    ensures CpuOk(s', d)
  {
    hide Waiting, Woken, HoldsQueue;
  }

  lemma ThreadSame(s: State, s': State, t: Tid)
    requires ThreadOk(s, t) && |s'.cur| == |s.cur|
    requires t in s'.tcpu && t in s'.tstate && t in s'.frames && s'.tcpu[t] < |s'.cur| && s'.frames[t] == s.frames[t]
    requires IsCur(s', t) == IsCur(s, t) && (Listed(s'.lists, t) <==> Listed(s.lists, t))
    ensures ThreadOk(s', t)
  {
    hide Waiting, Dying, StackOk, Listed, IsCur;
  }

  /** Frame d of o still holds what it held. */
  predicate SameFrame(fs: seq<Frame>, fs': seq<Frame>, d: nat) {
    d < |fs| ==> d < |fs'| && (fs'[d] == fs[d] || (Migrating(fs'[d]) && Migrating(fs[d])))
  }

  lemma MemberSame(s: State, s': State, l: ListId, t: Tid)
    requires MemberOk(s, l, t) && t in s'.live && t in s'.tcpu && t in s'.tstate && s'.tcpu[t] == s.tcpu[t]
    requires Dying(Stack(s', t)) == Dying(Stack(s, t))
    requires (s.tstate[t] == ZOMBIE && l.Zombies? ==> s'.tstate[t] == ZOMBIE)
    requires l.Hand? ==> l.t in s'.live && l.t in s'.tcpu && SameFrame(Stack(s, l.t), Stack(s', l.t), l.d)
    requires l.Hand? && Migrating(Top(Stack(s, l.t))) ==> s'.tcpu[l.t] == s.tcpu[l.t]
    requires l.Hand? ==> StackOk(Stack(s, l.t))
    ensures MemberOk(s', l, t)
  {
    hide Dying, Waiting;
    assert l.Hand? ==> forall d | 0 <= d < |Stack(s, l.t)| - 1 :: Lower(Stack(s, l.t)[d]);
  }

  /** The members of Inv, one at a time. */
  lemma InvCpu(s: State, c: nat)
    requires Inv(s) && c < |s.cur|
    ensures Shape(s) && CpuOk(s, c) && ThreadOk(s, s.cur[c]) && IsCur(s, s.cur[c])
    ensures s.cur[c] in s.tcpu && s.tcpu[s.cur[c]] == c && s.cur[c] in s.live
  {
  }

  lemma InvThread(s: State, t: Tid)
    requires Inv(s) && t in s.live
    ensures Shape(s) && ThreadOk(s, t)
  {
  }

  lemma InvMember(s: State, l: ListId, t: Tid)
    requires Inv(s) && t in At(s.lists, l)
    ensures MemberOk(s, l, t) && t in s.live && (l.Hand? ==> l.t in s.live && StackOk(Stack(s, l.t)))
  {
    assert MemberOk(s, l, t);
    assert l.Hand? ==> ThreadOk(s, l.t);
  }

  lemma InvLists(s: State)
    requires Inv(s)
    ensures Unique(s.lists) && Shape(s)
  {
  }

  // --- Steps that only change a stack -------------------------------------------

  lemma Reframe(s: State, s': State, c: nat, fs': seq<Frame>)
    requires Inv(s) && c < |s.cur|
    requires s' == s.(frames := s.frames[s.cur[c] := fs'], ipi := s'.ipi, wlocked := s'.wlocked)
    requires |s'.ipi| == |s.ipi| && (forall d | 0 <= d < |s.ipi| && d != c :: s'.ipi[d] == s.ipi[d])
    requires Shape(s) && (s.ipi[c] && !s'.ipi[c] ==> !s.idle[c] || Woken(fs'))
    requires Alike(Mine(s, c), fs')
    requires forall d: nat | At(s.lists, Hand(s.cur[c], d)) != [] :: SameFrame(Mine(s, c), fs', d)
    requires CountsOk(Top(fs'), c, |At(s.lists, RunQ(c))|, |At(s.lists, Hand(s.cur[c], |fs'| - 1))|)
    ensures Inv(s')
  {
    hide Inv, CpuOk, ThreadOk, MemberOk, Waiting, Dying, Woken, StackOk, Unique, Listed, CountsOk, Alike, SameFrame;
    forall d: nat | d < |s.cur| ensures CpuOk(s', d) {
      InvCpu(s, d);
      InvCpu(s, c);
      ReframeCpu(s, s', c, fs', d);
    }
    forall t | t in s.live ensures ThreadOk(s', t) {
      InvThread(s, t);
      InvCpu(s, c);
      ReframeThread(s, s', c, fs', t);
    }
    forall l, t | t in At(s.lists, l) ensures MemberOk(s', l, t) {
      InvMember(s, l, t);
      ReframeMember(s, s', c, fs', l, t);
    }
    InvLists(s);
    InvIs(s');
  }

  lemma InvIs(s: State)
    requires Shape(s) && Unique(s.lists)
    requires forall c: nat | c < |s.cur| :: CpuOk(s, c)
    requires forall t | t in s.live :: ThreadOk(s, t)
    requires forall l, t | t in At(s.lists, l) :: MemberOk(s, l, t)
    ensures Inv(s)
  {
    hide CpuOk, ThreadOk, MemberOk, Unique;
  }

  lemma ReframeCpu(s: State, s': State, c: nat, fs': seq<Frame>, d: nat)
    requires Shape(s) && c < |s.cur| && d < |s.cur| && CpuOk(s, d) && CpuOk(s, c)
    requires s' == s.(frames := s.frames[s.cur[c] := fs'], ipi := s'.ipi, wlocked := s'.wlocked)
    requires |s'.ipi| == |s.ipi| && (forall e | 0 <= e < |s.ipi| && e != c :: s'.ipi[e] == s.ipi[e])
    requires (s.ipi[c] && !s'.ipi[c] ==> !s.idle[c] || Woken(fs')) && Alike(Mine(s, c), fs')
    requires CountsOk(Top(fs'), c, |At(s.lists, RunQ(c))|, |At(s.lists, Hand(s.cur[c], |fs'| - 1))|)
    ensures CpuOk(s', d)
  {
    if d == c {
      hide Waiting, Dying, Woken, CountsOk, HoldsQueue;
    } else {
      hide Waiting, Dying, Woken, CountsOk, HoldsQueue, StackOk;
      CpuSame(s, s', d);
    }
  }

  lemma ReframeThread(s: State, s': State, c: nat, fs': seq<Frame>, t: Tid)
    requires Shape(s) && c < |s.cur| && ThreadOk(s, t) && CpuOk(s, c)
    requires s' == s.(frames := s.frames[s.cur[c] := fs'], ipi := s'.ipi, wlocked := s'.wlocked)
    requires Alike(Mine(s, c), fs')
    ensures ThreadOk(s', t)
  {
    hide Waiting, Dying, Woken, CountsOk, HoldsQueue, StackOk, Listed;
  }

  lemma ReframeMember(s: State, s': State, c: nat, fs': seq<Frame>, l: ListId, t: Tid)
    requires c < |s.cur| && t in At(s.lists, l) && MemberOk(s, l, t) && (l.Hand? ==> StackOk(Stack(s, l.t)))
    requires s' == s.(frames := s.frames[s.cur[c] := fs'], ipi := s'.ipi, wlocked := s'.wlocked)
    requires Alike(Mine(s, c), fs')
    requires forall d: nat | At(s.lists, Hand(s.cur[c], d)) != [] :: SameFrame(Mine(s, c), fs', d)
    ensures MemberOk(s', l, t)
  {
    hide Dying, Waiting, StackOk, Woken;
    MemberSame(s, s', l, t);
  }

  // --- Steps that move threads between lists ---------------------------------------

  /** Some threads went from list a to list b, and nothing else moved. */
  ghost predicate Shuffled(m: Lists, m': Lists, a: ListId, b: ListId) {
    && Unique(m') && (forall u :: Listed(m', u) <==> Listed(m, u))
    && (forall k | k != a && k != b :: At(m', k) == At(m, k))
    && (forall u | u in At(m', a) && a != b :: u in At(m, a))
  }

  lemma MovedShuffled(m: Lists, m': Lists, a: ListId, b: ListId, t: Tid)
    requires Moved(m, m', a, b, t)
    ensures Shuffled(m, m', a, b)
  {
    hide Listed, Unique;
  }

  /** CPU c moves threads from a to b, and its top frame may change with it. */
  ghost predicate Shift(s: State, s': State, c: nat, fs': seq<Frame>, a: ListId, b: ListId) {
    && Shape(s) && c < |s.cur| && Shuffled(s.lists, s'.lists, a, b)
    && s' == s.(frames := s.frames[s.cur[c] := fs'], lists := s'.lists, ipi := s'.ipi)
    && Alike(Mine(s, c), fs') && |s'.ipi| == |s.ipi|
    && (forall d: nat | At(s.lists, Hand(s.cur[c], d)) != [] :: SameFrame(Mine(s, c), fs', d))
    && (forall d | 0 <= d < |s.ipi| && s.ipi[d] :: s'.ipi[d])
    && (b.RunQ? && b.c < |s.cur| && s.idle[b.c] ==> s'.ipi[b.c] || (b.c == c && Woken(fs')))
    && (a.RunQ? ==> a.c == c) && (a.Hand? ==> a.t == s.cur[c]) && (b.Hand? ==> b.t == s.cur[c])
    && (b.RunQ? && b.c != c ==> |At(s.lists, b)| <= |At(s'.lists, b)|)
    && CountsOk(Top(fs'), c, |At(s'.lists, RunQ(c))|, |At(s'.lists, Hand(s.cur[c], |fs'| - 1))|)
  }

  lemma ShiftKeeps(s: State, s': State, c: nat, fs': seq<Frame>, a: ListId, b: ListId)
    requires Inv(s) && Shift(s, s', c, fs', a, b)
    requires forall t | t in At(s'.lists, b) :: MemberOk(s', b, t)
    ensures Inv(s')
  {
    hide Inv, CpuOk, ThreadOk, MemberOk, Waiting, Dying, Woken, StackOk, Listed, CountsOk, Alike, SameFrame, Unique;
    forall d: nat | d < |s.cur| ensures CpuOk(s', d) {
      InvCpu(s, d);
      InvCpu(s, c);
      ShiftCpu(s, s', c, fs', a, b, d);
    }
    forall t | t in s.live ensures ThreadOk(s', t) {
      InvThread(s, t);
      InvCpu(s, c);
      ShiftThread(s, s', c, fs', a, b, t);
    }
    forall l, t | t in At(s'.lists, l) ensures MemberOk(s', l, t) {
      if l != b {
        assert t in At(s.lists, l);
        InvMember(s, l, t);
        ShiftMember(s, s', c, fs', a, b, l, t);
      }
    }
    InvIs(s');
  }

  lemma ShiftCpu(s: State, s': State, c: nat, fs': seq<Frame>, a: ListId, b: ListId, d: nat)
    requires Shift(s, s', c, fs', a, b) && d < |s.cur| && CpuOk(s, d) && CpuOk(s, c)
    requires d == c || s.cur[d] != s.cur[c]
    ensures CpuOk(s', d)
  {
    hide Waiting, Dying, Woken, CountsOk, HoldsQueue, Listed, Unique, SameFrame;
    if d != c {
      CpuSame(s, s', d);
    } else {
      assert fs' != [];
      assert At(s'.lists, a) != [] && a != b ==> At(s'.lists, a)[0] in At(s.lists, a);
    }
  }

  lemma ShiftThread(s: State, s': State, c: nat, fs': seq<Frame>, a: ListId, b: ListId, t: Tid)
    requires Shift(s, s', c, fs', a, b) && ThreadOk(s, t) && CpuOk(s, c)
    ensures ThreadOk(s', t)
  {
    hide Waiting, Dying, Woken, CountsOk, HoldsQueue, StackOk, Listed, Unique, SameFrame;
  }

  lemma ShiftMember(s: State, s': State, c: nat, fs': seq<Frame>, a: ListId, b: ListId, l: ListId, t: Tid)
    requires Shift(s, s', c, fs', a, b) && t in At(s.lists, l) && MemberOk(s, l, t)
    requires (l.Hand? ==> StackOk(Stack(s, l.t)))
    ensures MemberOk(s', l, t)
  {
    hide Dying, Waiting, StackOk, Woken, Listed, Unique, CountsOk;
    MemberSame(s, s', l, t);
  }

  // --- Each step keeps the invariant -----------------------------------------------

  /** Only a waking or migrating frame has threads in hand. */
  lemma HandEmpty(s: State, o: Tid, d: nat)
    requires Inv(s) && (d < |Stack(s, o)| ==> Stack(s, o)[d] != Wake && !Migrating(Stack(s, o)[d]))
    ensures At(s.lists, Hand(o, d)) == []
  {
    var h := At(s.lists, Hand(o, d));
    assert h != [] ==> MemberOk(s, Hand(o, d), h[0]);
  }

  lemma PushKeeps(s: State, c: nat, f: Frame)
    requires Inv(s) && c < |s.cur| && Lower(Top(Mine(s, c)))
    requires f == Irq || f == MigCount(0, 0, 0) || (f.Switch? && f.pc == Begin && (f.why == Ready || |Mine(s, c)| == 1))
    ensures forall w :: Inv(SetStack(s, c, Push(Mine(s, c), f)).(wlocked := w))
  {
    hide Inv, Waiting, Dying, Woken, Listed, Unique;
    InvCpu(s, c);
    var fs := Mine(s, c);
    PushAlike(fs, f);
    HandEmpty(s, s.cur[c], |fs|);
    forall w ensures Inv(SetStack(s, c, Push(fs, f)).(wlocked := w)) {
      Reframe(s, SetStack(s, c, Push(fs, f)).(wlocked := w), c, Push(fs, f));
    }
  }

  lemma PopKeeps(s: State, c: nat)
    requires Inv(s) && c < |s.cur| && |Mine(s, c)| > 1 && (Top(Mine(s, c)).Switch? ==> Top(Mine(s, c)).pc == Begin)
    requires At(s.lists, Hand(s.cur[c], |Mine(s, c)| - 1)) == []
    ensures Inv(SetStack(s, c, Pop(Mine(s, c))))
  {
    hide Inv, Waiting, Dying, Woken, Listed, Unique;
    InvCpu(s, c);
    var fs := Mine(s, c);
    PopAlike(fs);
    forall d: nat | At(s.lists, Hand(s.cur[c], d)) != [] ensures SameFrame(fs, Pop(fs), d) {
    }
    Reframe(s, SetStack(s, c, Pop(fs)), c, Pop(fs));
  }

  lemma MigTopKeeps(s: State, c: nat, f: Frame)
    requires Inv(s) && c < |s.cur| && Migrating(Top(Mine(s, c))) && Migrating(f) && Mine(s, c) != []
    requires CountsOk(f, c, |At(s.lists, RunQ(c))|, |At(s.lists, MyHand(s, c))|)
    ensures Inv(SetTop(s, c, f))
  {
    hide Inv, Waiting, Dying, Woken, Listed, Unique;
    InvCpu(s, c);
    var fs := Mine(s, c);
    TopAlike(fs, f);
    Reframe(s, SetTop(s, c, f), c, Push(Pop(fs), f));
  }

  lemma InterruptKeeps(s: State, c: nat, ack: bool)
    requires Inv(s) && Sized(s) && c < |s.cur|
    requires var top := Top(Mine(s, c)); top == Code || top == Wake || (top.Switch? && top.pc.Idle?)
    ensures Inv(DoInterrupt(s, c, ack))
  {
    hide Inv, Waiting, Dying, Woken, Listed, Unique, StackOk, Alike;
    InvCpu(s, c);
    var fs, top := Mine(s, c), Top(Mine(s, c));
    var fs' := Push(if top.Switch? then Push(Pop(fs), Switch(top.why, Idle(true))) else fs, Irq);
    IrqAlike(fs);
    HandEmpty(s, s.cur[c], |fs|);
    if top.Switch? {
      HandEmpty(s, s.cur[c], |fs| - 1);
    }
    Reframe(s, DoInterrupt(s, c, ack), c, fs');
  }

  /** An interrupt while idling: cpu_idle will return. */
  lemma IrqAlike(fs: seq<Frame>)
    requires StackOk(fs) && (Top(fs) == Code || Top(fs) == Wake || (Top(fs).Switch? && Top(fs).pc.Idle?))
    ensures var under := if Top(fs).Switch? then Push(Pop(fs), Switch(Top(fs).why, Idle(true))) else fs;
            Alike(fs, Push(under, Irq)) && (Waiting(fs) ==> Woken(Push(under, Irq)))
  {
    var top, n := Top(fs), |fs| - 1;
    if top.Switch? {
      var under := Push(Pop(fs), Switch(top.why, Idle(true)));
      TopWaits(fs, Switch(top.why, Idle(true)));
      PushAlike(under, Irq);
      assert Push(under, Irq)[n] == under[n];
    } else {
      PushAlike(fs, Irq);
      assert Waiting(fs) ==> Woken(fs);
    }
  }

  /** Ordinary code is at the bottom of the stack, handlers are not. */
  lemma CodeBase(fs: seq<Frame>)
    requires StackOk(fs)
    ensures Top(fs) == Code ==> |fs| == 1
    ensures Top(fs) != Code && Top(fs) != Start ==> |fs| > 1
  {
  }

  /** wchan_wakeone: the first sleeper is in the waker's hand. */
  lemma WakeOneKeeps(s: State, c: nat, w: nat)
    requires Inv(s) && c < |s.cur| && Lower(Top(Mine(s, c))) && At(s.lists, Chan(w)) != []
    ensures Inv(DoWakeOne(s, c, w))
  {
    hide Inv, StackOk, Waiting, Dying, Woken, Listed, Unique, MemberOk, CpuOk, ThreadOk, Shuffled, Alike, Moved;
    var fs, s', h := Mine(s, c), DoWakeOne(s, c, w), NewHand(s, c);
    TopFacts(s, c);
    PushAlike(fs, Wake);
    HandEmpty(s, s.cur[c], |fs|);
    MoveHeadIs(s.lists, Chan(w), h);
    MovedShuffled(s.lists, s'.lists, Chan(w), h, At(s.lists, Chan(w))[0]);
    InHand(s, s', c, Chan(w));
    ShiftKeeps(s, s', c, Push(fs, Wake), Chan(w), h);
  }

  lemma WakeAllKeeps(s: State, c: nat, w: nat)
    requires Inv(s) && c < |s.cur| && Lower(Top(Mine(s, c)))
    ensures Inv(DoWakeAll(s, c, w))
  {
    hide Inv, StackOk, Waiting, Dying, Woken, Listed, Unique, MemberOk, CpuOk, ThreadOk, Shuffled, Alike;
    var fs, s', h := Mine(s, c), DoWakeAll(s, c, w), NewHand(s, c);
    TopFacts(s, c);
    PushAlike(fs, Wake);
    HandEmpty(s, s.cur[c], |fs|);
    MoveAll(s.lists, Chan(w), h);
    InHand(s, s', c, Chan(w));
    ShiftKeeps(s, s', c, Push(fs, Wake), Chan(w), h);
  }

  lemma TopFacts(s: State, c: nat)
    requires Inv(s) && c < |s.cur|
    ensures Shape(s) && Unique(s.lists) && StackOk(Mine(s, c)) && Mine(s, c) != [] && s.cur[c] in s.frames
    ensures s.cur[c] in s.tcpu && s.tcpu[s.cur[c]] == c && s.cur[c] in s.live
    ensures s.idle[c] == Waiting(Mine(s, c)) && s.rqheld[c] == HoldsQueue(Mine(s, c))
    ensures CountsOk(Top(Mine(s, c)), c, |At(s.lists, RunQ(c))|, |At(s.lists, MyHand(s, c))|)
  {
    InvCpu(s, c);
  }

  /** Sleepers become the threads in hand of CPU c's new frame. */
  lemma InHand(s: State, s': State, c: nat, l: ListId)
    requires Inv(s) && c < |s.cur| && l.Chan? && At(s.lists, NewHand(s, c)) == []
    requires s'.frames == s.frames[s.cur[c] := Push(Mine(s, c), Wake)] && Alike(Mine(s, c), Push(Mine(s, c), Wake))
    requires s'.live == s.live && s'.tcpu == s.tcpu && s'.tstate == s.tstate
    requires forall t | t in At(s'.lists, NewHand(s, c)) :: t in At(s.lists, l)
    ensures forall t | t in At(s'.lists, NewHand(s, c)) :: MemberOk(s', NewHand(s, c), t)
  {
    TopFacts(s, c);
    hide Inv, StackOk, Waiting, Dying, Woken;
    forall t | t in At(s'.lists, NewHand(s, c)) ensures MemberOk(s', NewHand(s, c), t) {
      InvMember(s, l, t);
    }
  }

  lemma MoveAll(m: Lists, a: ListId, b: ListId)
    requires Unique(m) && a != b && At(m, b) == []
    ensures Shuffled(m, m[a := []][b := At(m, a)], a, b)
  {
    var m' := m[a := []][b := At(m, a)];
    forall u ensures Listed(m', u) <==> Listed(m, u) {
      if Listed(m', u) {
        var k :| u in At(m', k);
        assert u in At(m, if k == b then a else k);
      }
      if Listed(m, u) {
        var k :| u in At(m, k);
        assert u in At(m', if k == a then b else k);
      }
    }
    forall l, k, i, j | 0 <= i < |At(m', l)| && 0 <= j < |At(m', k)| && At(m', l)[i] == At(m', k)[j]
      ensures l == k && i == j
    {
      assert At(m', l)[i] == At(m, if l == b then a else l)[i] && At(m', k)[j] == At(m, if k == b then a else k)[j];
    }
  }

  /** thread_make_runnable */
  lemma MakeRunnableKeeps(s: State, c: nat)
    requires Inv(s) && Sized(s) && c < |s.cur| && Top(Mine(s, c)) == Wake && At(s.lists, MyHand(s, c)) != []
    requires var t := At(s.lists, MyHand(s, c))[0]; t in s.tcpu && s.tcpu[t] < |s.cur|
    ensures Inv(DoMakeRunnable(s, c))
  {
    hide Inv, StackOk, Waiting, Dying, Woken, Listed, Unique, MemberOk, CpuOk, ThreadOk, Shuffled, Alike, Moved,
         Sized;
    var fs, s', h := Mine(s, c), DoMakeRunnable(s, c), MyHand(s, c);
    var t := At(s.lists, h)[0];
    var j := s.tcpu[t];
    TopFacts(s, c);
    AlikeSame(fs);
    MoveHeadIs(s.lists, h, RunQ(j));
    MovedShuffled(s.lists, s'.lists, h, RunQ(j), t);
    InQueue(s, s', h, t, j);
    assert s.frames[s.cur[c] := fs] == s.frames;
    ShiftKeeps(s, s', c, fs, h, RunQ(j));
  }

  lemma AlikeSame(fs: seq<Frame>)
    requires StackOk(fs)
    ensures Alike(fs, fs)
  {
  }

  /** A thread in hand joins the queue of its own CPU. */
  lemma InQueue(s: State, s': State, l: ListId, t: Tid, j: nat)
    requires Inv(s) && l.Hand? && t in At(s.lists, l) && t in s.tcpu && s.tcpu[t] == j
    requires s'.live == s.live && s'.tcpu == s.tcpu && s'.tstate == s.tstate
    requires forall u :: Dying(Stack(s', u)) == Dying(Stack(s, u))
    requires forall u | u in At(s'.lists, RunQ(j)) :: u == t || u in At(s.lists, RunQ(j))
    ensures forall u | u in At(s'.lists, RunQ(j)) :: MemberOk(s', RunQ(j), u)
  {
    hide Inv, Dying;
    forall u | u in At(s'.lists, RunQ(j)) ensures MemberOk(s', RunQ(j), u) {
      InvMember(s, if u == t then l else RunQ(j), u);
    }
  }

  lemma PutBackKeeps(s: State, c: nat)
    requires Inv(s) && Sized(s) && c < |s.cur| && Migrating(Top(Mine(s, c))) && At(s.lists, MyHand(s, c)) != []
    ensures Inv(DoPutBack(s, c))
  {
    hide Inv, StackOk, Waiting, Dying, Woken, Listed, Unique, MemberOk, CpuOk, ThreadOk, Shuffled, Alike, Moved,
         Sized;
    var fs, s', h := Mine(s, c), DoPutBack(s, c), MyHand(s, c);
    var t := At(s.lists, h)[0];
    TopFacts(s, c);
    TopAlike(fs, MigBack);
    VictimFacts(s, c, t);
    MoveHeadIs(s.lists, h, RunQ(c));
    MovedShuffled(s.lists, s'.lists, h, RunQ(c), t);
    SameDying(s, s', c, Push(Pop(fs), MigBack));
    InQueue(s, s', h, t, c);
    MigAboveIdle(fs);
    WokenTop(fs, MigBack);
    ShiftKeeps(s, s', c, Push(Pop(fs), MigBack), h, RunQ(c));
  }

  lemma SameDying(s: State, s': State, c: nat, fs': seq<Frame>)
    requires c < |s.cur| && s'.frames == s.frames[s.cur[c] := fs'] && Alike(Mine(s, c), fs')
    ensures forall u :: Dying(Stack(s', u)) == Dying(Stack(s, u))
  {
    hide Dying, Waiting, Woken, StackOk;
  }

  /** A migration in progress on an idle CPU means an interrupt has arrived. */
  lemma MigAboveIdle(fs: seq<Frame>)
    requires StackOk(fs) && Migrating(Top(fs))
    ensures Waiting(fs) ==> Woken(fs)
  {
  }

  lemma WokenTop(fs: seq<Frame>, f: Frame)
    requires StackOk(fs) && Migrating(Top(fs)) && Migrating(f)
    ensures Woken(fs) ==> Woken(Push(Pop(fs), f))
  {
    TopAlike(fs, f);
  }

  /** A victim belongs to the migrating CPU and is neither dying nor migrating itself. */
  lemma VictimFacts(s: State, c: nat, t: Tid)
    requires Inv(s) && c < |s.cur| && Mine(s, c) != [] && Migrating(Top(Mine(s, c))) && t in At(s.lists, MyHand(s, c))
    ensures t in s.live && t in s.tcpu && s.tcpu[t] == c && t in s.frames && t in s.tstate && !Dying(Stack(s, t))
    ensures t != s.cur[c] ==>
              && !IsCur(s, t) && Parked(Top(Stack(s, t)))
              && forall d: nat | d < |Stack(s, t)| :: !Migrating(Stack(s, t)[d])
  {
    TopFacts(s, c);
    InvMember(s, MyHand(s, c), t);
    InvThread(s, t);
  }

  lemma TakeKeeps(s: State, c: nat)
    requires Inv(s) && Sized(s) && c < |s.cur| && Top(Mine(s, c)).MigTake? && Top(Mine(s, c)).left > 0
    ensures At(s.lists, RunQ(c)) != [] && Inv(DoTake(s, c))
  {
    hide Inv, StackOk, Waiting, Dying, Woken, Listed, Unique, MemberOk, CpuOk, ThreadOk, Shuffled, Alike, Moved,
         Sized;
    var fs, h, top := Mine(s, c), MyHand(s, c), Top(Mine(s, c));
    TopFacts(s, c);
    var q := At(s.lists, RunQ(c));
    var t, s', f := q[|q| - 1], DoTake(s, c), MigTake(top.left - 1, top.send, top.share);
    TopAlike(fs, f);
    MoveOne(s.lists, RunQ(c), |q| - 1, h, 0);
    TakeLists(s.lists, RunQ(c), h);
    MovedShuffled(s.lists, s'.lists, RunQ(c), h, t);
    TakenCounts(s.lists, s'.lists, RunQ(c), h, t);
    NewVictims(s, s', c, t, Push(Pop(fs), f));
    ShiftKeeps(s, s', c, Push(Pop(fs), f), RunQ(c), h);
  }

  lemma TakeLists(m: Lists, a: ListId, b: ListId)
    requires At(m, a) != [] && a != b
    ensures var q := At(m, a);
            Added(Removed(m, a, |q| - 1), b, 0, q[|q| - 1]) == m[a := q[..|q| - 1]][b := [q[|q| - 1]] + At(m, b)]
  {
    var q := At(m, a);
    assert q[..|q| - 1] + q[|q|..] == q[..|q| - 1];
    assert At(m, b)[..0] + [q[|q| - 1]] + At(m, b)[0..] == [q[|q| - 1]] + At(m, b);
  }

  lemma TakenCounts(m: Lists, m': Lists, a: ListId, b: ListId, t: Tid)
    requires Moved(m, m', a, b, t)
    ensures |At(m', a)| == |At(m, a)| - 1 && |At(m', b)| == |At(m, b)| + 1
    ensures forall u | u in At(m', b) :: u == t || u in At(m, b)
  {
    hide Listed, Unique;
  }

  lemma NewVictims(s: State, s': State, c: nat, t: Tid, fs': seq<Frame>)
    requires Inv(s) && c < |s.cur| && Mine(s, c) != [] && Migrating(Top(Mine(s, c))) && t in At(s.lists, RunQ(c))
    requires s'.frames == s.frames[s.cur[c] := fs'] && Alike(Mine(s, c), fs') && Migrating(Top(fs'))
    requires |fs'| == |Mine(s, c)|
    requires s'.live == s.live && s'.tcpu == s.tcpu && s'.tstate == s.tstate
    requires forall u | u in At(s'.lists, MyHand(s, c)) :: u == t || u in At(s.lists, MyHand(s, c))
    ensures forall u | u in At(s'.lists, MyHand(s, c)) :: MemberOk(s', MyHand(s, c), u)
  {
    TopFacts(s, c);
    SameDying(s, s', c, fs');
    hide Inv, Dying, StackOk, Waiting, Woken;
    forall u | u in At(s'.lists, MyHand(s, c)) ensures MemberOk(s', MyHand(s, c), u) {
      if u in At(s.lists, MyHand(s, c)) {
        InvMember(s, MyHand(s, c), u);
      } else {
        InvMember(s, RunQ(c), u);
      }
    }
  }

  lemma Rotate(m: Lists, a: ListId)
    requires Unique(m) && At(m, a) != []
    ensures var h := At(m, a);
            var m' := m[a := h[1..] + [h[0]]];
            Shuffled(m, m', a, a) && |At(m', a)| == |h| && forall u | u in At(m', a) :: u in h
  {
    hide Unique, Listed, Removed, Added;
    var h := At(m, a);
    var x, m1, m' := h[0], Removed(m, a, 0), m[a := h[1..] + [h[0]]];
    RemoveOne(m, a, 0);
    RotatedIs(m, a);
    AddOne(m1, a, |h| - 1, x);
    IsListed(m, a, x);
  }

  lemma RotatedIs(m: Lists, a: ListId)
    requires At(m, a) != []
    ensures var h := At(m, a);
            && At(Removed(m, a, 0), a) == h[1..]
            && m[a := h[1..] + [h[0]]] == Added(Removed(m, a, 0), a, |h| - 1, h[0])
  {
    var h := At(m, a);
    assert h[..0] + h[1..] == h[1..];
    assert h[1..][..|h| - 1] + [h[0]] + h[1..][|h| - 1..] == h[1..] + [h[0]];
  }

  /** The current thread is skipped. */
  lemma SkipKeeps(s: State, c: nat)
    requires Inv(s) && Sized(s) && c < |s.cur| && At(s.lists, MyHand(s, c)) != []
    requires At(s.lists, MyHand(s, c))[0] == s.cur[c]
    requires var top := Top(Mine(s, c)); top.MigGive? && top.send > 0 && top.i < |s.cur|
    ensures Inv(DoGive(s, c))
  {
    hide Inv, StackOk, Waiting, Dying, Woken, Listed, Unique, MemberOk, CpuOk, ThreadOk, Shuffled, Alike, Sized;
    var fs, s', h, top := Mine(s, c), DoGive(s, c), MyHand(s, c), Top(Mine(s, c));
    var f := MigGive(top.i, top.send - 1, top.share);
    TopFacts(s, c);
    TopAlike(fs, f);
    Rotate(s.lists, h);
    Victims(s, s', c, Push(Pop(fs), f));
    ShiftKeeps(s, s', c, Push(Pop(fs), f), h, h);
  }

  lemma Victims(s: State, s': State, c: nat, fs': seq<Frame>)
    requires Inv(s) && c < |s.cur| && Mine(s, c) != [] && Migrating(Top(Mine(s, c)))
    requires s'.frames == s.frames[s.cur[c] := fs'] && Alike(Mine(s, c), fs') && Migrating(Top(fs'))
    requires |fs'| == |Mine(s, c)|
    requires s'.live == s.live && s'.tcpu == s.tcpu && s'.tstate == s.tstate
    requires forall u | u in At(s'.lists, MyHand(s, c)) :: u in At(s.lists, MyHand(s, c))
    ensures forall u | u in At(s'.lists, MyHand(s, c)) :: MemberOk(s', MyHand(s, c), u)
  {
    TopFacts(s, c);
    SameDying(s, s', c, fs');
    hide Inv, Dying, StackOk, Waiting, Woken;
    forall u | u in At(s'.lists, MyHand(s, c)) ensures MemberOk(s', MyHand(s, c), u) {
      InvMember(s, MyHand(s, c), u);
    }
  }

  /** A victim other than the current thread changes its CPU and its queue. */
  lemma GiveKeeps(s: State, c: nat)
    requires Inv(s) && Sized(s) && c < |s.cur| && At(s.lists, MyHand(s, c)) != []
    requires At(s.lists, MyHand(s, c))[0] != s.cur[c]
    requires var top := Top(Mine(s, c)); top.MigGive? && top.send > 0 && top.i < |s.cur| && top.i != c
    ensures Inv(DoGive(s, c))
  {
    hide Inv, StackOk, Waiting, Dying, Woken, Listed, Unique, MemberOk, CpuOk, ThreadOk, Alike, Sized, Moved;
    var fs, s', h, top := Mine(s, c), DoGive(s, c), MyHand(s, c), Top(Mine(s, c));
    var t, f, j := At(s.lists, h)[0], MigGive(top.i, top.send - 1, top.share), top.i;
    TopFacts(s, c);
    TopAlike(fs, f);
    VictimFacts(s, c, t);
    MoveHeadIs(s.lists, h, RunQ(j));
    MovedLists(s.lists, s'.lists, h, RunQ(j), t);
    SameDying(s, s', c, Push(Pop(fs), f));
    forall d: nat | d < |s.cur| ensures CpuOk(s', d) {
      InvCpu(s, d);
      InvCpu(s, c);
      GiveCpu(s, s', c, t, d);
    }
    forall u | u in s.live ensures ThreadOk(s', u) {
      InvThread(s, u);
      InvCpu(s, j);
      GiveThread(s, s', c, t, u);
    }
    forall l, u | u in At(s'.lists, l) ensures MemberOk(s', l, u) {
      if u == t {
        InvMember(s, h, t);
      } else {
        InvMember(s, l, u);
      }
      GiveMember(s, s', c, t, l, u);
    }
    InvIs(s');
  }

  lemma MovedLists(m: Lists, m': Lists, a: ListId, b: ListId, t: Tid)
    requires Moved(m, m', a, b, t)
    ensures Unique(m') && (forall u :: Listed(m', u) <==> Listed(m, u))
    ensures forall k, u | u in At(m', k) :: if u == t then k == b else u in At(m, k)
    ensures forall k | k != a && k != b :: At(m', k) == At(m, k)
    ensures |At(m', a)| == |At(m, a)| - 1 && |At(m', b)| == |At(m, b)| + 1
  {
    hide Listed, Unique;
  }

  /** How a state looks after CPU c has given t to the CPU its top frame names. */
  ghost predicate Gave(s: State, s': State, c: nat, t: Tid) {
    && Shape(s) && c < |s.cur| && Mine(s, c) != [] && Top(Mine(s, c)).MigGive? && Top(Mine(s, c)).send > 0
    && var top := Top(Mine(s, c));
       var fs' := Push(Pop(Mine(s, c)), MigGive(top.i, top.send - 1, top.share));
       && top.i < |s.cur| && top.i != c && Alike(Mine(s, c), fs')
       && t in s.tcpu && s.tcpu[t] == c && t != s.cur[c] && t in s.live && t in s.tstate
       && s' == s.(frames := s.frames[s.cur[c] := fs'], lists := s'.lists, tcpu := s.tcpu[t := top.i],
                   ipi := Notify(s, top.i))
       && (forall k | k != MyHand(s, c) && k != RunQ(top.i) :: At(s'.lists, k) == At(s.lists, k))
       && |At(s'.lists, MyHand(s, c))| == |At(s.lists, MyHand(s, c))| - 1
       && |At(s'.lists, RunQ(top.i))| == |At(s.lists, RunQ(top.i))| + 1
  }

  lemma GiveCpu(s: State, s': State, c: nat, t: Tid, d: nat)
    requires Gave(s, s', c, t) && d < |s.cur| && CpuOk(s, d) && (d != c ==> s.cur[d] != s.cur[c])
    requires CpuOk(s, c)
    ensures CpuOk(s', d)
  {
    hide Waiting, Dying, Woken, HoldsQueue, StackOk;
    assert s.cur[d] != t;
    if d != c {
      CpuSame(s, s', d);
    } else {
      assert |s'.frames[s.cur[c]]| == |Mine(s, c)|;
    }
  }

  lemma GiveThread(s: State, s': State, c: nat, t: Tid, u: Tid)
    requires Gave(s, s', c, t) && ThreadOk(s, u) && (forall x :: Listed(s'.lists, x) <==> Listed(s.lists, x))
    requires CpuOk(s, Top(Mine(s, c)).i) && (u == s.cur[c] ==> IsCur(s, u))
    requires s.cur[c] in s.tcpu && s.tcpu[s.cur[c]] == c
    ensures ThreadOk(s', u)
  {
    hide Waiting, Dying, Woken, HoldsQueue, StackOk, Listed;
    assert IsCur(s', u) == IsCur(s, u);
  }

  lemma GiveMember(s: State, s': State, c: nat, t: Tid, l: ListId, u: Tid)
    requires Gave(s, s', c, t) && (u == t ==> l == RunQ(Top(Mine(s, c)).i))
    requires u != t ==>
               MemberOk(s, l, u) && u in At(s.lists, l) && (l.Hand? ==> l.t in s.live && StackOk(Stack(s, l.t)))
    requires !Dying(Stack(s, t)) && (forall d: nat | d < |Stack(s, t)| :: !Migrating(Stack(s, t)[d]))
    requires forall x :: Dying(Stack(s', x)) == Dying(Stack(s, x))
    ensures MemberOk(s', l, u)
  {
    hide Waiting, Dying, Woken, HoldsQueue, StackOk;
    if u != t {
      assert l.Hand? && l.t == s.cur[c] ==> SameFrame(Stack(s, l.t), Stack(s', l.t), l.d);
      if l.Hand? && l.t == t {
        assert Stack(s', t) == Stack(s, t);
      } else {
        assert l.Hand? && Migrating(Top(Stack(s, l.t))) ==> s'.tcpu[l.t] == s.tcpu[l.t];
        MemberSame(s, s', l, u);
      }
    }
  }

  lemma IsListed(m: Lists, l: ListId, t: Tid)
    requires t in At(m, l)
    ensures Listed(m, t)
  {
  }

  /** The current thread is on a list exactly while its switch waits. */
  lemma CurrentListed(s: State, c: nat)
    requires Inv(s) && c < |s.cur|
    ensures Listed(s.lists, s.cur[c]) <==> Waiting(Mine(s, c))
    ensures Dying(Mine(s, c)) ==> Waiting(Mine(s, c))
  {
    InvCpu(s, c);
  }

  /** thread_switch queues the current thread; it stays current. */
  lemma PlaceKeeps(s: State, c: nat)
    requires Inv(s) && Sized(s) && c < |s.cur| && Top(Mine(s, c)).Switch? && Top(Mine(s, c)).pc == Begin && !s.idle[c]
    ensures Inv(DoPlace(s, c))
  {
    hide Inv, StackOk, Waiting, Dying, Woken, Listed, Unique, MemberOk, CpuOk, ThreadOk, Sized, More;
    var fs, s', me, why := Mine(s, c), DoPlace(s, c), s.cur[c], Top(Mine(s, c)).why;
    var l := ListFor(why, c);
    var fs' := Push(Pop(fs), Switch(why, Pick));
    TopFacts(s, c);
    CodeBase(fs);
    CurrentListed(s, c);
    TopWaits(fs, Switch(why, Pick));
    HandEmpty(s, me, |fs| - 1);
    AddOne(s.lists, l, |At(s.lists, l)|, me);
    assert At(s.lists, l)[..|At(s.lists, l)|] + [me] + At(s.lists, l)[|At(s.lists, l)|..] == At(s.lists, l) + [me];
    MoreLists(s.lists, s'.lists, l, me);
    forall d: nat | d < |s.cur| ensures CpuOk(s', d) {
      InvCpu(s, d);
      InvCpu(s, c);
      PlaceCpu(s, s', c, fs', l, d);
    }
    forall t | t in s.live ensures ThreadOk(s', t) {
      InvThread(s, t);
      PlaceThread(s, s', c, fs', t);
    }
    forall k, t | t in At(s'.lists, k) ensures MemberOk(s', k, t) {
      if t in At(s.lists, k) {
        IsListed(s.lists, k, t);
        InvMember(s, k, t);
        PlaceMember(s, s', c, fs', k, t);
      } else {
        PlacedMember(s, s', c, fs', l);
      }
    }
    InvIs(s');
  }

  lemma MoreLists(m: Lists, m': Lists, l: ListId, t: Tid)
    requires More(m, m', l, t)
    ensures Unique(m') && Listed(m', t) && (forall u | u != t :: Listed(m', u) <==> Listed(m, u))
    ensures forall k, u | u in At(m', k) :: u in At(m, k) || (k == l && u == t)
    ensures forall k | k != l :: At(m', k) == At(m, k)
    ensures |At(m', l)| == |At(m, l)| + 1
  {
    hide Listed, Unique;
  }

  /** The effect of placing on everything but the lists. */
  ghost predicate Placed(s: State, s': State, c: nat, fs': seq<Frame>) {
    && Shape(s) && c < |s.cur| && s.cur[c] in s.tcpu && s.tcpu[s.cur[c]] == c && s.cur[c] in s.live && Mine(s, c) != []
    && Top(fs').Switch?
    && var why := Top(fs').why;
       && |fs'| == |Mine(s, c)| && (forall d | 0 <= d < |fs'| - 1 :: fs'[d] == Mine(s, c)[d])
       && Top(fs') == Switch(why, Pick) && StackOk(fs') && Waiting(fs') && (Dying(fs') <==> why == Exit)
       && !Dying(Mine(s, c))
       && s'.frames == s.frames[s.cur[c] := fs'] && s'.cur == s.cur && s'.tcpu == s.tcpu && s'.live == s.live
       && s'.ipi == s.ipi
       && s'.idle == s.idle[c := true] && s'.rqheld == s.rqheld[c := true]
       && s'.tstate == s.tstate[s.cur[c] := StateFor(why)] && At(s.lists, MyHand(s, c)) == []
  }

  lemma PlaceCpu(s: State, s': State, c: nat, fs': seq<Frame>, l: ListId, d: nat)
    requires Placed(s, s', c, fs') && d < |s.cur| && CpuOk(s, d) && CpuOk(s, c) && (d != c ==> s.cur[d] != s.cur[c])
    requires l == RunQ(c) || l.Chan? || l.Zombies?
    requires forall k | k != l :: At(s'.lists, k) == At(s.lists, k)
    ensures CpuOk(s', d)
  {
    hide Waiting, Dying, Woken, StackOk;
    if d != c {
      CpuSame(s, s', d);
    }
  }

  lemma PlaceThread(s: State, s': State, c: nat, fs': seq<Frame>, t: Tid)
    requires Placed(s, s', c, fs') && ThreadOk(s, t) && Listed(s'.lists, s.cur[c])
    requires t != s.cur[c] ==> (Listed(s'.lists, t) <==> Listed(s.lists, t))
    ensures ThreadOk(s', t)
  {
    hide Waiting, Dying, Woken, StackOk, Listed;
  }

  lemma PlaceMember(s: State, s': State, c: nat, fs': seq<Frame>, k: ListId, t: Tid)
    requires Placed(s, s', c, fs') && MemberOk(s, k, t) && t in At(s.lists, k) && t != s.cur[c]
    requires k.Hand? ==> StackOk(Stack(s, k.t))
    ensures MemberOk(s', k, t)
  {
    hide Waiting, Dying, Woken, StackOk;
    assert k.Hand? && k.t == s.cur[c] ==> k.d != |fs'| - 1;
    MemberSame(s, s', k, t);
  }

  lemma PlacedMember(s: State, s': State, c: nat, fs': seq<Frame>, l: ListId)
    requires Placed(s, s', c, fs') && Top(fs').Switch? && l == ListFor(Top(fs').why, c)
    ensures MemberOk(s', l, s.cur[c])
  {
    hide Waiting, Dying, Woken, StackOk;
  }

  /** The run queue lock is dropped to idle, or taken again. */
  lemma IdleKeeps(s: State, c: nat, pc: Pc)
    requires Inv(s) && Sized(s) && c < |s.cur| && Top(Mine(s, c)).Switch?
    requires (Top(Mine(s, c)).pc == Pick && pc == Idle(false) && At(s.lists, RunQ(c)) == []) ||
             (Top(Mine(s, c)).pc == Idle(true) && pc == Pick)
    ensures Inv(SetTop(s, c, Switch(Top(Mine(s, c)).why, pc)).(rqheld := s.rqheld[c := pc == Pick]))
  {
    hide Inv, StackOk, Waiting, Dying, Woken, Listed, Unique, MemberOk, CpuOk, ThreadOk, Sized;
    var fs, why, me := Mine(s, c), Top(Mine(s, c)).why, s.cur[c];
    var fs' := Push(Pop(fs), Switch(why, pc));
    TopFacts(s, c);
    var s' := SetStack(s, c, fs').(rqheld := s.rqheld[c := pc == Pick]);
    CodeBase(fs);
    TopWaits(fs, Switch(why, pc));
    IsWaiting(fs);
    HandEmpty(s, me, |fs| - 1);
    forall d: nat | d < |s.cur| ensures CpuOk(s', d) {
      InvCpu(s, d);
      InvCpu(s, c);
      IdleCpu(s, s', c, fs', d);
    }
    forall t | t in s.live ensures ThreadOk(s', t) {
      InvThread(s, t);
      IdleThread(s, s', c, fs', t);
    }
    forall k, t | t in At(s'.lists, k) ensures MemberOk(s', k, t) {
      InvMember(s, k, t);
      IdleMember(s, s', c, fs', k, t);
    }
    InvLists(s);
    InvIs(s');
  }

  lemma IsWaiting(fs: seq<Frame>)
    requires fs != [] && Waits(Top(fs))
    ensures Waiting(fs)
  {
    assert Waits(fs[|fs| - 1]);
  }

  ghost predicate Idled(s: State, s': State, c: nat, fs': seq<Frame>) {
    && Shape(s) && c < |s.cur| && s.cur[c] in s.live && Mine(s, c) != [] && s.cur[c] in s.frames
    && |fs'| == |Mine(s, c)| && (forall d | 0 <= d < |fs'| - 1 :: fs'[d] == Mine(s, c)[d])
    && Top(fs').Switch? && StackOk(fs') && Waiting(fs') && Waiting(Mine(s, c)) && Dying(fs') == Dying(Mine(s, c))
    && s' == s.(frames := s.frames[s.cur[c] := fs'], rqheld := s.rqheld[c := Top(fs').pc == Pick])
    && (Top(fs').pc == Pick || (Top(fs').pc == Idle(false) && At(s.lists, RunQ(c)) == []))
    && At(s.lists, MyHand(s, c)) == []
  }

  lemma IdleCpu(s: State, s': State, c: nat, fs': seq<Frame>, d: nat)
    requires Idled(s, s', c, fs') && d < |s.cur| && CpuOk(s, d) && CpuOk(s, c) && (d != c ==> s.cur[d] != s.cur[c])
    ensures CpuOk(s', d)
  {
    hide Waiting, Dying, Woken, StackOk;
    if d != c {
      CpuSame(s, s', d);
    }
  }

  lemma IdleThread(s: State, s': State, c: nat, fs': seq<Frame>, t: Tid)
    requires Idled(s, s', c, fs') && ThreadOk(s, t) && s.cur[c] in s.tcpu && s.tcpu[s.cur[c]] == c
    ensures ThreadOk(s', t)
  {
    hide Waiting, Dying, Woken, StackOk, Listed;
  }

  lemma IdleMember(s: State, s': State, c: nat, fs': seq<Frame>, k: ListId, t: Tid)
    requires Idled(s, s', c, fs') && MemberOk(s, k, t) && t in At(s.lists, k) && (k.Hand? ==> StackOk(Stack(s, k.t)))
    ensures MemberOk(s', k, t)
  {
    hide Waiting, Dying, Woken, StackOk;
    assert k.Hand? && k.t == s.cur[c] ==> k.d != |fs'| - 1;
    MemberSame(s, s', k, t);
  }

  /** The switch: the next thread of the queue becomes current and the old one, which is
      on some list or is that very thread, is parked. */
  lemma PickKeeps(s: State, c: nat)
    requires Inv(s) && Sized(s) && c < |s.cur| && Top(Mine(s, c)).Switch? && Top(Mine(s, c)).pc == Pick
    requires At(s.lists, RunQ(c)) != []
    ensures Inv(DoPick(s, c))
  {
    hide Inv, StackOk, Waiting, Dying, Woken, Listed, Unique, MemberOk, CpuOk, ThreadOk, Sized, Less;
    var fs, s', me, why := Mine(s, c), DoPick(s, c), s.cur[c], Top(Mine(s, c)).why;
    var next, fs' := At(s.lists, RunQ(c))[0], Push(Pop(fs), Switch(why, Off));
    TopFacts(s, c);
    CodeBase(fs);
    IsWaiting(fs);
    TopParks(fs);
    CurrentListed(s, c);
    HandEmpty(s, me, |fs| - 1);
    InvMember(s, RunQ(c), next);
    NextFacts(s, c, next);
    RemoveOne(s.lists, RunQ(c), 0);
    assert At(s.lists, RunQ(c))[..0] + At(s.lists, RunQ(c))[1..] == At(s.lists, RunQ(c))[1..];
    LessLists(s.lists, s'.lists, RunQ(c), next);
    forall d: nat | d < |s.cur| ensures CpuOk(s', d) {
      InvCpu(s, d);
      InvCpu(s, c);
      PickCpu(s, s', c, fs', next, d);
    }
    forall t | t in s.live ensures ThreadOk(s', t) {
      InvThread(s, t);
      PickThread(s, s', c, fs', next, t);
    }
    forall k, t | t in At(s'.lists, k) ensures MemberOk(s', k, t) {
      InvMember(s, k, t);
      PickMember(s, s', c, fs', next, k, t);
    }
    InvIs(s');
  }

  lemma LessLists(m: Lists, m': Lists, l: ListId, t: Tid)
    requires Less(m, m', l, t)
    ensures Unique(m') && !Listed(m', t) && (forall u | u != t :: Listed(m', u) <==> Listed(m, u))
    ensures forall k, u | u in At(m', k) :: u in At(m, k) && u != t
    ensures forall k | k != l :: At(m', k) == At(m, k)
    ensures |At(m', l)| == |At(m, l)| - 1
  {
    hide Listed, Unique;
  }

  /** A queued thread other than the current one is parked and current nowhere. */
  lemma NextFacts(s: State, c: nat, t: Tid)
    requires Inv(s) && c < |s.cur| && t in At(s.lists, RunQ(c))
    ensures t in s.live && t in s.tcpu && s.tcpu[t] == c && t in s.frames && Stack(s, t) != [] && !Dying(Stack(s, t))
    ensures t != s.cur[c] ==> Parked(Top(Stack(s, t))) && !Waiting(Stack(s, t)) && CountsOk(Top(Stack(s, t)), c, 0, 0)
  {
    InvMember(s, RunQ(c), t);
    InvThread(s, t);
  }

  ghost predicate Picked(s: State, s': State, c: nat, fs': seq<Frame>, next: Tid) {
    && Shape(s) && c < |s.cur| && s.cur[c] in s.live && s.cur[c] in s.tcpu && s.tcpu[s.cur[c]] == c
    && s.cur[c] in s.frames
    && Mine(s, c) != [] && |fs'| == |Mine(s, c)| && (forall d | 0 <= d < |fs'| - 1 :: fs'[d] == Mine(s, c)[d])
    && StackOk(fs') && !Waiting(fs') && Waiting(Mine(s, c)) && Dying(fs') == Dying(Mine(s, c)) && Parked(Top(fs'))
    && s.rqheld[c] && At(s.lists, MyHand(s, c)) == []
    && s' == s.(frames := s.frames[s.cur[c] := fs'], lists := s'.lists, cur := s.cur[c := next],
                idle := s.idle[c := false])
    && next in s.live && next in s.tcpu && s.tcpu[next] == c && next in s.frames && !Dying(Stack(s, next))
    && Stack(s, next) != []
    && (next != s.cur[c] ==> Parked(Top(Stack(s, next))) && !Waiting(Stack(s, next)))
    && !Listed(s'.lists, next) && (forall u | u != next :: Listed(s'.lists, u) <==> Listed(s.lists, u))
    && Listed(s.lists, s.cur[c])
    && (forall k | k != RunQ(c) :: At(s'.lists, k) == At(s.lists, k))
  }

  lemma PickCpu(s: State, s': State, c: nat, fs': seq<Frame>, next: Tid, d: nat)
    requires Picked(s, s', c, fs', next) && d < |s.cur| && CpuOk(s, d) && CpuOk(s, c)
    requires (d != c ==> s.cur[d] != s.cur[c])
    ensures CpuOk(s', d)
  {
    hide Waiting, Dying, Woken, StackOk, Listed;
    if d != c {
      CpuSame(s, s', d);
    } else {
      assert next == s.cur[c] ==> s'.frames[next] == fs';
      assert next != s.cur[c] ==> s'.frames[next] == s.frames[next];
    }
  }

  lemma PickThread(s: State, s': State, c: nat, fs': seq<Frame>, next: Tid, t: Tid)
    requires Picked(s, s', c, fs', next) && ThreadOk(s, t)
    ensures ThreadOk(s', t)
  {
    hide Waiting, Dying, Woken, StackOk, Listed;
    assert IsCur(s', t) == if t in s.tcpu && s.tcpu[t] == c then t == next else IsCur(s, t);
  }

  lemma PickMember(s: State, s': State, c: nat, fs': seq<Frame>, next: Tid, k: ListId, t: Tid)
    requires Picked(s, s', c, fs', next) && MemberOk(s, k, t) && t in At(s.lists, k)
    requires (k.Hand? ==> StackOk(Stack(s, k.t)))
    ensures MemberOk(s', k, t)
  {
    hide Waiting, Dying, Woken, StackOk, Listed;
    assert k.Hand? && k.t == s.cur[c] ==> k.d != |fs'| - 1;
    MemberSame(s, s', k, t);
  }

  /** The resumed thread sets its state and drops the run queue lock. */
  lemma FinishKeeps(s: State, c: nat)
    requires Inv(s) && Sized(s) && c < |s.cur| && Parked(Top(Mine(s, c)))
    ensures Inv(DoFinish(s, c)) && !Dying(Mine(s, c))
  {
    hide Inv, StackOk, Waiting, Dying, Woken, Listed, Unique, MemberOk, CpuOk, ThreadOk, Sized;
    var fs, s', me := Mine(s, c), DoFinish(s, c), s.cur[c];
    var fs' := Push(if Top(fs) == Start then [Code] else Pop(fs), Exorcise);
    TopFacts(s, c);
    ParkedStack(fs);
    CurrentListed(s, c);
    TopResumes(fs);
    HandEmpty(s, me, |fs| - 1);
    HandEmpty(s, me, |fs|);
    forall d: nat | d < |s.cur| ensures CpuOk(s', d) {
      InvCpu(s, d);
      InvCpu(s, c);
      FinishCpu(s, s', c, fs', d);
    }
    forall t | t in s.live ensures ThreadOk(s', t) {
      InvThread(s, t);
      FinishThread(s, s', c, fs', t);
    }
    forall k, t | t in At(s'.lists, k) ensures MemberOk(s', k, t) {
      IsListed(s.lists, k, t);
      InvMember(s, k, t);
      FinishMember(s, s', c, fs', k, t);
    }
    InvLists(s);
    InvIs(s');
  }

  lemma ParkedStack(fs: seq<Frame>)
    requires StackOk(fs) && Parked(Top(fs))
    ensures !Waiting(fs) && (Top(fs) == Start ==> |fs| == 1) && Top(fs) != Wake && !Migrating(Top(fs))
  {
  }

  ghost predicate Finished(s: State, s': State, c: nat, fs': seq<Frame>) {
    && Shape(s) && c < |s.cur| && s.cur[c] in s.live && s.cur[c] in s.tcpu && s.tcpu[s.cur[c]] == c
    && s.cur[c] in s.frames
    && Mine(s, c) != [] && !Listed(s.lists, s.cur[c]) && StackOk(fs') && !Waiting(fs') && !Dying(fs')
    && !HoldsQueue(fs')
    && !Waiting(Mine(s, c)) && !Dying(Mine(s, c)) && Top(fs') == Exorcise
    && (forall d: nat | At(s.lists, Hand(s.cur[c], d)) != [] :: SameFrame(Mine(s, c), fs', d))
    && s' == s.(frames := s.frames[s.cur[c] := fs'], tstate := s.tstate[s.cur[c] := RUN],
                rqheld := s.rqheld[c := false])
  }

  lemma FinishCpu(s: State, s': State, c: nat, fs': seq<Frame>, d: nat)
    requires Finished(s, s', c, fs') && d < |s.cur| && CpuOk(s, d) && CpuOk(s, c) && (d != c ==> s.cur[d] != s.cur[c])
    ensures CpuOk(s', d)
  {
    hide Waiting, Dying, Woken, Listed;
    if d != c {
      CpuSame(s, s', d);
    }
  }

  lemma FinishThread(s: State, s': State, c: nat, fs': seq<Frame>, t: Tid)
    requires Finished(s, s', c, fs') && ThreadOk(s, t)
    ensures ThreadOk(s', t)
  {
    hide Waiting, Dying, Woken, StackOk, Listed;
  }

  lemma FinishMember(s: State, s': State, c: nat, fs': seq<Frame>, k: ListId, t: Tid)
    requires Finished(s, s', c, fs') && MemberOk(s, k, t) && t in At(s.lists, k) && t != s.cur[c]
    requires k.Hand? ==> StackOk(Stack(s, k.t))
    ensures MemberOk(s', k, t)
  {
    hide Waiting, Dying, Woken, StackOk, Listed;
    MemberSame(s, s', k, t);
  }

  /** exorcise: the zombie is current nowhere, is in state ZOMBIE and holds nothing. */
  lemma ZombieFacts(s: State, c: nat, z: Tid)
    requires Inv(s) && c < |s.cur| && Top(Mine(s, c)) == Exorcise && z in At(s.lists, Zombies(c))
    ensures z in s.live && z !in s.cur && !IsCur(s, z) && z in s.tstate && s.tstate[z] == ZOMBIE
    ensures forall d: nat :: At(s.lists, Hand(z, d)) == []
  {
    InvMember(s, Zombies(c), z);
    IsListed(s.lists, Zombies(c), z);
    InvCpu(s, c);
    InvThread(s, z);
    assert z != s.cur[c];
    forall d | 0 <= d < |s.cur| ensures s.cur[d] != z {
      InvCpu(s, d);
    }
    hide Inv, Listed, Unique;
    DeadStack(Stack(s, z));
    forall d: nat ensures At(s.lists, Hand(z, d)) == [] {
      HandEmpty(s, z, d);
    }
  }

  lemma DeadStack(fs: seq<Frame>)
    requires StackOk(fs) && Dying(fs) && !Waiting(fs)
    ensures fs == [Code, Switch(Exit, Off)]
  {
  }

  lemma DestroyKeeps(s: State, c: nat)
    requires Inv(s) && Sized(s) && c < |s.cur| && Top(Mine(s, c)) == Exorcise && At(s.lists, Zombies(c)) != []
    ensures Inv(DoDestroy(s, c))
  {
    hide Inv, StackOk, Waiting, Dying, Woken, Listed, Unique, MemberOk, CpuOk, ThreadOk, Sized, Less;
    var z, s' := At(s.lists, Zombies(c))[0], DoDestroy(s, c);
    TopFacts(s, c);
    ZombieFacts(s, c, z);
    RemoveOne(s.lists, Zombies(c), 0);
    assert At(s.lists, Zombies(c))[..0] + At(s.lists, Zombies(c))[1..] == At(s.lists, Zombies(c))[1..];
    LessLists(s.lists, s'.lists, Zombies(c), z);
    forall d: nat | d < |s.cur| ensures CpuOk(s', d) {
      InvCpu(s, d);
      DestroyCpu(s, s', z, c, d);
    }
    forall t | t in s'.live ensures ThreadOk(s', t) {
      InvThread(s, t);
      DestroyThread(s, s', z, t);
    }
    forall k, t | t in At(s'.lists, k) ensures MemberOk(s', k, t) {
      InvMember(s, k, t);
      DestroyMember(s, s', z, k, t);
    }
    InvIs(s');
  }

  ghost predicate Destroyed(s: State, s': State, z: Tid) {
    && Shape(s) && z !in s.cur
    && s' == s.(lists := s'.lists, live := s.live - {z}, tcpu := s.tcpu - {z}, tstate := s.tstate - {z},
                frames := s.frames - {z})
  }

  lemma DestroyCpu(s: State, s': State, z: Tid, c: nat, d: nat)
    requires Destroyed(s, s', z) && d < |s.cur| && CpuOk(s, d)
    requires forall k | k != Zombies(c) :: At(s'.lists, k) == At(s.lists, k)
    ensures CpuOk(s', d)
  {
    hide Waiting, Woken, HoldsQueue;
    assert s.cur[d] != z;
    CpuSame(s, s', d);
  }

  lemma DestroyThread(s: State, s': State, z: Tid, t: Tid)
    requires Destroyed(s, s', z) && ThreadOk(s, t) && t != z && (Listed(s'.lists, t) <==> Listed(s.lists, t))
    ensures ThreadOk(s', t)
  {
    hide Waiting, Woken, Dying, StackOk, Listed;
    ThreadSame(s, s', t);
  }

  lemma DestroyMember(s: State, s': State, z: Tid, k: ListId, t: Tid)
    requires Destroyed(s, s', z) && MemberOk(s, k, t) && t in At(s.lists, k) && t != z
    requires (forall d: nat :: At(s.lists, Hand(z, d)) == [])
    requires k.Hand? ==> StackOk(Stack(s, k.t))
    ensures MemberOk(s', k, t)
  {
    hide Waiting, Woken, Dying, StackOk;
    MemberSame(s, s', k, t);
  }

  lemma ForkKeeps(s: State, c: nat, n: Tid)
    requires Inv(s) && Sized(s) && c < |s.cur| && Top(Mine(s, c)) == Code && n !in s.live
    ensures Inv(DoFork(s, c, n))
  {
    hide Inv, StackOk, Waiting, Dying, Woken, Listed, Unique, MemberOk, CpuOk, ThreadOk, Sized, More, Alike;
    var fs, s', me, h := Mine(s, c), DoFork(s, c, n), s.cur[c], NewHand(s, c);
    TopFacts(s, c);
    PushAlike(fs, Wake);
    HandEmpty(s, me, |fs|);
    NewUnlisted(s, n);
    StartStack();
    AddOne(s.lists, h, 0, n);
    assert At(s.lists, h)[..0] + [n] + At(s.lists, h)[0..] == [n];
    MoreLists(s.lists, s'.lists, h, n);
    forall d: nat | d < |s.cur| ensures CpuOk(s', d) {
      InvCpu(s, d);
      InvCpu(s, c);
      ForkCpu(s, s', c, n, d);
    }
    forall t | t in s'.live ensures ThreadOk(s', t) {
      if t != n {
        InvThread(s, t);
        ForkThread(s, s', c, n, t);
      } else {
        ForkNew(s, s', c, n);
      }
    }
    forall k, t | t in At(s'.lists, k) ensures MemberOk(s', k, t) {
      if t in At(s.lists, k) {
        InvMember(s, k, t);
        ForkMember(s, s', c, n, k, t);
      } else {
        ForkNewMember(s, s', c, n);
      }
    }
    InvIs(s');
  }

  lemma NewUnlisted(s: State, n: Tid)
    requires Inv(s) && n !in s.live
    ensures !Listed(s.lists, n) && forall d: nat :: At(s.lists, Hand(n, d)) == []
  {
    forall d: nat ensures At(s.lists, Hand(n, d)) == [] {
      assert At(s.lists, Hand(n, d)) != [] ==> MemberOk(s, Hand(n, d), At(s.lists, Hand(n, d))[0]);
    }
  }

  lemma StartStack()
    ensures StackOk([Start]) && !Waiting([Start]) && !Dying([Start])
  {
  }

  ghost predicate Forked(s: State, s': State, c: nat, n: Tid) {
    && Shape(s) && c < |s.cur| && n !in s.live && s.cur[c] in s.live && s.cur[c] in s.tcpu && s.tcpu[s.cur[c]] == c
    && s.cur[c] in s.frames
    && Mine(s, c) != [] && Alike(Mine(s, c), Push(Mine(s, c), Wake)) && !Listed(s.lists, n) && Listed(s'.lists, n)
    && StackOk([Start]) && !Waiting([Start]) && !Dying([Start])
    && s' == s.(frames := s.frames[s.cur[c] := Push(Mine(s, c), Wake)][n := [Start]], lists := s'.lists,
                live := s.live + {n},
                tcpu := s.tcpu[n := c], tstate := s.tstate[n := READY])
    && (forall k | k != NewHand(s, c) :: At(s'.lists, k) == At(s.lists, k))
    && (forall u | u != n :: Listed(s'.lists, u) <==> Listed(s.lists, u))
  }

  lemma ForkCpu(s: State, s': State, c: nat, n: Tid, d: nat)
    requires Forked(s, s', c, n) && d < |s.cur| && CpuOk(s, d) && CpuOk(s, c) && (d != c ==> s.cur[d] != s.cur[c])
    ensures CpuOk(s', d)
  {
    hide Waiting, Dying, Woken, Listed, StackOk, HoldsQueue;
    if d != c {
      CpuSame(s, s', d);
    }
  }

  lemma ForkThread(s: State, s': State, c: nat, n: Tid, t: Tid)
    requires Forked(s, s', c, n) && ThreadOk(s, t) && t in s.live
    ensures ThreadOk(s', t)
  {
    hide Waiting, Dying, Woken, StackOk, Listed;
  }

  lemma ForkNew(s: State, s': State, c: nat, n: Tid)
    requires Forked(s, s', c, n)
    ensures ThreadOk(s', n)
  {
    hide Waiting, Dying, Woken, StackOk, Listed;
  }

  lemma ForkMember(s: State, s': State, c: nat, n: Tid, k: ListId, t: Tid)
    requires Forked(s, s', c, n) && MemberOk(s, k, t) && t in At(s.lists, k) && t in s.live
    requires k.Hand? ==> k.t in s.live && StackOk(Stack(s, k.t))
    ensures MemberOk(s', k, t)
  {
    hide Waiting, Dying, Woken, StackOk, Listed;
    MemberSame(s, s', k, t);
  }

  lemma ForkNewMember(s: State, s': State, c: nat, n: Tid)
    requires Forked(s, s', c, n)
    ensures MemberOk(s', NewHand(s, c), n)
  {
    hide Waiting, Dying, Woken, StackOk, Listed;
    assert Stack(s', s.cur[c]) == Push(Mine(s, c), Wake);
  }

  // --- The whole system -------------------------------------------------------------

  lemma CountKeeps(s: State, c: nat)
    requires Inv(s) && c < |s.cur| && Top(Mine(s, c)).MigCount?
    ensures Inv(DoCount(s, c))
  {
    hide Inv, StackOk, Waiting, Dying, Woken, Listed, Unique;
    TopFacts(s, c);
    var top := Top(Mine(s, c));
    var q := |At(s.lists, RunQ(top.i))|;
    MigTopKeeps(s, c, MigCount(top.i + 1, if top.i == c then q else top.my, top.total + q));
  }

  lemma DecideKeeps(s: State, c: nat)
    requires Inv(s) && c < |s.cur| && Top(Mine(s, c)).MigCount? && Top(Mine(s, c)).i >= |s.cur|
    ensures Inv(DoDecide(s, c))
  {
    hide Inv, StackOk, Waiting, Dying, Woken, Listed, Unique;
    TopFacts(s, c);
    var top := Top(Mine(s, c));
    CodeBase(Mine(s, c));
    var share := DivRoundUp(top.total, |s.cur|);
    if top.my < share {
      PopKeeps(s, c);
    } else {
      MigTopKeeps(s, c, MigTake(top.my - share, top.my - share, share));
    }
  }

  lemma GivingKeeps(s: State, c: nat, f: Frame)
    requires Inv(s) && c < |s.cur| && f.MigGive?
    requires var top := Top(Mine(s, c));
             (top.MigTake? && top.left == 0 && f.send == top.send) || (top.MigGive? && f.send == top.send)
    ensures Inv(SetTop(s, c, f))
  {
    hide Inv, StackOk, Waiting, Dying, Woken, Listed, Unique;
    TopFacts(s, c);
    MigTopKeeps(s, c, f);
  }

  lemma PopStepKeeps(s: State, c: nat, step: Step)
    requires Inv(s) && Enabled(s, c, step)
    requires step in {IrqDone, Return, ExorciseDone, WakeDone, EndMigration}
    ensures Inv(Apply(s, c, step))
  {
    hide Inv, StackOk, Waiting, Dying, Woken, Listed, Unique;
    TopFacts(s, c);
    CodeBase(Mine(s, c));
    if !step.WakeDone? && !step.EndMigration? {
      HandEmpty(s, s.cur[c], |Mine(s, c)| - 1);
    }
    PopKeeps(s, c);
  }

  lemma BeginKeeps(s: State, c: nat, why: Why)
    requires Inv(s) && c < |s.cur| && (Top(Mine(s, c)) == Code || (Top(Mine(s, c)) == Irq && why == Ready))
    ensures forall w :: Inv(SetStack(s, c, Push(Mine(s, c), Switch(why, Begin))).(wlocked := w))
  {
    hide Inv, StackOk, Waiting, Dying, Woken, Listed, Unique;
    TopFacts(s, c);
    CodeBase(Mine(s, c));
    PushKeeps(s, c, Switch(why, Begin));
  }

  lemma GiveStepKeeps(s: State, c: nat)
    requires Inv(s) && Enabled(s, c, Give)
    ensures At(s.lists, MyHand(s, c)) != [] && Inv(DoGive(s, c))
  {
    hide Inv, StackOk, Waiting, Dying, Woken, Listed, Unique;
    TopFacts(s, c);
    if At(s.lists, MyHand(s, c))[0] == s.cur[c] {
      SkipKeeps(s, c);
    } else {
      GiveKeeps(s, c);
    }
  }

  /** Every step of every CPU keeps the invariant. */
  lemma StepKeeps(s: State, c: nat, step: Step)
    requires Inv(s) && Enabled(s, c, step)
    ensures Inv(Apply(s, c, step))
  {
    hide Inv, StackOk, Waiting, Dying, Woken, Listed, Unique;
    var top := Top(Mine(s, c));
    match step
    case Interrupt(ack) => InterruptKeeps(s, c, ack);
    case Place => PlaceKeeps(s, c);
    case PickNext => PickKeeps(s, c);
    case GoIdle => IdleKeeps(s, c, Idle(false));
    case Unidle => IdleKeeps(s, c, Pick);
    case Finish => FinishKeeps(s, c);
    case Destroy => DestroyKeeps(s, c);
    case WakeOne(w) => WakeOneKeeps(s, c, w);
    case WakeAll(w) => WakeAllKeeps(s, c, w);
    case Fork(n) => ForkKeeps(s, c, n);
    case MakeRunnable => MakeRunnableKeeps(s, c);
    case Take => TakeKeeps(s, c);
    case Give => GiveStepKeeps(s, c);
    case PutBack => PutBackKeeps(s, c);
    case Count => CountKeeps(s, c);
    case Decide => DecideKeeps(s, c);
    case Taken => GivingKeeps(s, c, MigGive(0, top.send, top.share));
    case NextCpu => GivingKeeps(s, c, MigGive(top.i + 1, top.send, top.share));
    case BeginYield =>
      BeginKeeps(s, c, Ready);
      assert Apply(s, c, step) == SetStack(s, c, Push(Mine(s, c), Switch(Ready, Begin))).(wlocked := s.wlocked);
    case BeginSleep(w) => BeginKeeps(s, c, Sleep(w));
    case BeginExit =>
      BeginKeeps(s, c, Exit);
      assert Apply(s, c, step) == SetStack(s, c, Push(Mine(s, c), Switch(Exit, Begin))).(wlocked := s.wlocked);
    case StartMigration =>
      PushKeeps(s, c, MigCount(0, 0, 0));
      assert Apply(s, c, step) == SetStack(s, c, Push(Mine(s, c), MigCount(0, 0, 0))).(wlocked := s.wlocked);
    case _ => PopStepKeeps(s, c, step);
  }

  // --- Runs ---------------------------------------------------------------------------

  /** Every CPU runs its first thread and nothing is queued. */
  ghost predicate Initial(s: State) {
    && 0 < |s.cur| == |s.idle| == |s.rqheld| == |s.ipi| && s.lists == map[] && s.wlocked == {}
    && (forall c | 0 <= c < |s.cur| :: !s.idle[c] && !s.rqheld[c] && !s.ipi[c] && s.cur[c] in s.live)
    && (forall t | t in s.live ::
          && t in s.tcpu && t in s.tstate && t in s.frames && s.frames[t] == [Code] && s.tstate[t] == RUN
          && s.tcpu[t] < |s.cur| && s.cur[s.tcpu[t]] == t)
    && (forall c | 0 <= c < |s.cur| :: s.cur[c] in s.tcpu && s.tcpu[s.cur[c]] == c)
  }

  /** What a CPU did. */
  datatype Act = Act(c: nat, step: Step)

  ghost predicate ActAt(run: seq<State>, acts: seq<Act>, i: nat)
    requires i < |acts| && i + 1 < |run|
  {
    Enabled(run[i], acts[i].c, acts[i].step) && run[i + 1] == Apply(run[i], acts[i].c, acts[i].step)
  }

  /** A run, with what every CPU did. */
  ghost predicate Run(run: seq<State>, acts: seq<Act>) {
    |run| == |acts| + 1 && Initial(run[0]) && forall i | 0 <= i < |acts| :: ActAt(run, acts, i)
  }

  lemma InitialInv(s: State)
    requires Initial(s)
    ensures Inv(s)
  {
    CodeStack();
    hide StackOk, Waiting, Dying, Woken;
    forall t | t in s.live ensures ThreadOk(s, t) {
    }
    forall c: nat | c < |s.cur| ensures CpuOk(s, c) {
    }
  }

  lemma CodeStack()
    ensures StackOk([Code]) && !Waiting([Code]) && !Dying([Code])
  {
  }

  lemma {:induction false} RunInv(run: seq<State>, acts: seq<Act>, i: nat)
    requires Run(run, acts) && i < |run|
    ensures Inv(run[i])
  {
    hide Inv, Initial, Enabled, Apply;
    if i == 0 {
      InitialInv(run[0]);
    } else {
      RunInv(run, acts, i - 1);
      assert ActAt(run, acts, i - 1);
      StepKeeps(run[i - 1], acts[i - 1].c, acts[i - 1].step);
    }
  }

  /** t is at position i of list l and nowhere else. */
  ghost predicate OnlyAt(m: Lists, t: Tid, l: ListId, i: nat) {
    && i < |At(m, l)| && At(m, l)[i] == t
    && forall k, j | 0 <= j < |At(m, k)| && At(m, k)[j] == t :: k == l && j == i
  }

  /** A thread is running and on no list, or it is in exactly one place on exactly one
      list. It can be both current and listed only on its own CPU, between the moment
      the switch has queued it and the moment it has switched away. */
  ghost predicate InOnePlace(s: State, t: Tid) {
    if Listed(s.lists, t) then
      && (exists l, i :: OnlyAt(s.lists, t, l, i))
      && (t in s.cur ==> IsCur(s, t) && s.tcpu[t] < |s.idle| && s.idle[s.tcpu[t]])
    else IsCur(s, t)
  }

  /** What no run of the machine violates. */
  ghost predicate Safe(s: State) {
    && (forall c, d | 0 <= c < d < |s.cur| :: s.cur[c] != s.cur[d])
    && (forall t | t in s.live :: InOnePlace(s, t))
    && (forall c, t | t in At(s.lists, RunQ(c)) :: t in s.tcpu && s.tcpu[t] == c)
    && (forall c, t | t in At(s.lists, Zombies(c)) && t in s.tstate :: s.tstate[t] == ZOMBIE)
    && (forall l, t | t in At(s.lists, l) :: t in s.live)
  }

  /** In every reachable state, each thread is in exactly one place and no thread runs on
      two CPUs. */
  lemma Safety(run: seq<State>, acts: seq<Act>, i: nat)
    requires Run(run, acts) && i < |run|
    ensures Safe(run[i])
  {
    hide Run;
    RunInv(run, acts, i);
    InvSafe(run[i]);
  }

  lemma InvSafe(s: State)
    requires Inv(s)
    ensures Safe(s)
  {
    hide Inv, StackOk, Waiting, Dying, Woken, Listed, Unique, CountsOk, HoldsQueue;
    forall c: nat, d: nat | c < d < |s.cur| ensures s.cur[c] != s.cur[d] {
      InvCpu(s, c);
      InvCpu(s, d);
    }
    forall t | t in s.live ensures InOnePlace(s, t) {
      PlaceOf(s, t);
    }
    forall l, t | t in At(s.lists, l)
      ensures t in s.live && t in s.tcpu && t in s.tstate
      ensures (l.RunQ? ==> s.tcpu[t] == l.c) && (l.Zombies? ==> s.tstate[t] == ZOMBIE)
    {
      InvMember(s, l, t);
    }
    hide MemberOk, InOnePlace;
  }

  lemma PlaceOf(s: State, t: Tid)
    requires Inv(s) && t in s.live
    ensures InOnePlace(s, t)
  {
    InvThread(s, t);
    if Listed(s.lists, t) {
      var l :| t in At(s.lists, l);
      var i :| 0 <= i < |At(s.lists, l)| && At(s.lists, l)[i] == t;
      assert OnlyAt(s.lists, t, l, i);
      if t in s.cur {
        var c :| 0 <= c < |s.cur| && s.cur[c] == t;
        InvCpu(s, c);
      }
    }
  }

  /** thread_destroy is only ever reached for a thread that is current nowhere and whose
      state is ZOMBIE: the assertions of exorcise and thread_destroy hold. */
  lemma DestroySafe(run: seq<State>, acts: seq<Act>, i: nat, c: nat)
    requires Run(run, acts) && i < |run| && Enabled(run[i], c, Destroy)
    ensures var z := At(run[i].lists, Zombies(c))[0];
            z !in run[i].cur && z in run[i].tstate && run[i].tstate[z] == ZOMBIE
  {
    hide Run;
    RunInv(run, acts, i);
    ZombieFacts(run[i], c, At(run[i].lists, Zombies(c))[0]);
  }

  /** A thread that has exited is never resumed. */
  lemma ZombieNeverWalks(run: seq<State>, acts: seq<Act>, i: nat, c: nat)
    requires Run(run, acts) && i < |run| && Enabled(run[i], c, Finish)
    ensures Top(Mine(run[i], c)) != Switch(Exit, Off)
  {
    hide Run;
    RunInv(run, acts, i);
    FinishKeeps(run[i], c);
    var fs := Mine(run[i], c);
    assert fs[|fs| - 1] == Switch(Exit, Off) ==> Dying(fs);
  }

  /** Migration never removes from an empty list: only this CPU takes threads off its
      queue, so the count it made is still a lower bound. */
  lemma NoEmptyRemoval(run: seq<State>, acts: seq<Act>, i: nat, c: nat)
    requires Run(run, acts) && i < |run|
    ensures Enabled(run[i], c, Take) ==> At(run[i].lists, RunQ(c)) != []
    ensures Enabled(run[i], c, Give) ==> At(run[i].lists, MyHand(run[i], c)) != []
  {
    hide Run;
    RunInv(run, acts, i);
    if Enabled(run[i], c, Take) {
      TopFacts(run[i], c);
    }
    if Enabled(run[i], c, Give) {
      TopFacts(run[i], c);
    }
  }

  /** Migration never moves a thread that is current on any CPU, and never takes a queue
      above the share. */
  lemma MigrationSafe(run: seq<State>, acts: seq<Act>, i: nat, c: nat)
    requires Run(run, acts) && i < |run| && Enabled(run[i], c, Give)
    ensures var s := run[i];
            var s' := Apply(s, c, Give);
            && (forall t | t in s.tcpu && t in s'.tcpu && s'.tcpu[t] != s.tcpu[t] :: t !in s.cur)
            && var top := Top(Mine(s, c)); |At(s'.lists, RunQ(top.i))| <= top.share
  {
    hide Run, Inv, Listed, Unique, Waiting, Dying, Woken, StackOk, CpuOk, ThreadOk, MemberOk;
    RunInv(run, acts, i);
    var s := run[i];
    TopFacts(s, c);
    GiveStepKeeps(s, c);
    var t := At(s.lists, MyHand(s, c))[0];
    VictimFacts(s, c, t);
    if t != s.cur[c] {
      CurrentOnlyHere(s, c, t);
    }
  }

  lemma CurrentOnlyHere(s: State, c: nat, t: Tid)
    requires Inv(s) && c < |s.cur| && t in s.tcpu && s.tcpu[t] == c && t != s.cur[c]
    ensures t !in s.cur
  {
    forall d: nat | d < |s.cur| ensures s.cur[d] != t {
      InvCpu(s, d);
    }
  }

  /** An idle CPU with work in its queue has an interrupt coming, or is already on its way
      out of cpu_idle. */
  lemma NoLostUnidle(run: seq<State>, acts: seq<Act>, i: nat, c: nat)
    requires Run(run, acts) && i < |run| && c < |run[i].cur|
    ensures var s := run[i];
            && |s.idle| == |s.rqheld| == |s.ipi| == |s.cur|
            && (s.idle[c] && !s.rqheld[c] && At(s.lists, RunQ(c)) != [] ==> s.ipi[c] || Woken(Mine(s, c)))
  {
    hide Run;
    RunInv(run, acts, i);
    InvCpu(run[i], c);
  }
}
