/** All the callers of kmalloc and kfree together (vm/kmalloc.c).

    A call of kmalloc that finds no free block drops the lock, asks alloc_kpages for a page
    and takes the lock again; kfree hands pages to free_kpages after dropping it. The
    steps here are the stretches of code in between, each by whichever caller is next; a
    run is any sequence of them.
  */
module KmallocRuns {
  import opened KHeap
  import opened KSpace
  import opened Kmalloc

  /** A call of kmalloc that is under way: without a page yet, or with one. */
  datatype Call = Wants(sz: nat, b: nat) | Has(sz: nat, b: nat, page: nat)

  /** `t` is the caller. `page` and `where` are alloc_kpages's answers; it fails for pages
      it does not have. */
  datatype Step =
    | Try(t: nat, sz: nat)
    | Take(t: nat, page: nat)
    | Finish(t: nat)
    | Big(sz: nat, where: nat)
    | Free(ptr: nat)
    | GiveBack(page: nat)
    | Write(ptr: nat, at: nat, value: nat)

  /** The allocation a step frees or writes to. */
  predicate Touches(s: Step, a: nat) {
    (s.Free? || s.Write?) && s.ptr == a
  }

  /** The step belongs to t's call of kmalloc. */
  predicate StepBy(s: Step, t: nat) {
    (s.Try? || s.Take? || s.Finish?) && s.t == t
  }

  /** Nobody frees or writes to a from step i up to step j. */
  ghost predicate Untouched(steps: seq<Step>, i: nat, j: nat, a: nat)
    requires j <= |steps|
  {
    forall m | i <= m < j :: !Touches(steps[m], a)
  }

  /** None of the steps from i up to j is t's. */
  ghost predicate OfOthers(steps: seq<Step>, i: nat, j: nat, t: nat)
    requires j <= |steps|
  {
    forall m | i <= m < j :: !StepBy(steps[m], t)
  }

  /** What has been given out, blocks with their sizes in bytes and big allocations with
      theirs in pages; the contents of memory; the calls under way; the pages alloc_kpages has to
      give, and those on their way to free_kpages. */
  datatype Snapshot = Snapshot(
    blocks: map<nat, nat>, bigs: map<nat, nat>, mem: map<nat, nat>, calls: map<nat, Call>, pool: set<nat>,
    leaving: set<nat>)

  /** The pages that blocks, big allocations and calls have. */
  ghost function Taken(x: Snapshot): set<nat> {
    PagesIn(x.blocks) + (set p, n | p in x.bigs && n in PageSet(p / 4096, x.bigs[p]) :: n)
    + (set t | t in x.calls && x.calls[t].Has? :: x.calls[t].page)
  }

  /** No page is lost, and none is in two places. */
  ghost predicate Whole(x: Snapshot, pages: set<nat>) {
    x.pool + x.leaving + Taken(x) == pages && x.pool !! x.leaving !! Taken(x)
  }

  ghost predicate Same(mem: map<nat, nat>, mem': map<nat, nat>, a: nat, size: nat) {
    forall x: nat | a <= x < a + size :: Word(mem', x) == Word(mem, x)
  }

  /** An allocation is still there, as big as before and with the same contents. */
  ghost predicate Keeps(x: Snapshot, y: Snapshot, a: nat) {
    && (a in x.blocks ==> a in y.blocks && y.blocks[a] == x.blocks[a] && Same(x.mem, y.mem, a, x.blocks[a]))
    && (a in x.bigs ==> a in y.bigs && y.bigs[a] == x.bigs[a] && Same(x.mem, y.mem, a, 4096 * x.bigs[a]))
  }

  ghost predicate KeepsCall(x: Snapshot, y: Snapshot, t: nat) {
    (t in x.calls <==> t in y.calls) && (t in x.calls ==> y.calls[t] == x.calls[t])
  }

  /** The bytes from a on overlap no other allocation. */
  ghost predicate Alone(x: Snapshot, a: nat, size: nat) {
    && (forall b | b in x.blocks && b != a :: b + x.blocks[b] <= a || a + size <= b)
    && (forall b | b in x.bigs && b != a :: b + 4096 * x.bigs[b] <= a || a + size <= b)
  }

  ghost predicate SoundAt(x: Snapshot, a: nat) {
    && (a in x.blocks ==> a !in x.bigs && 0 < x.blocks[a] && a % x.blocks[a] == 0 && Alone(x, a, x.blocks[a]))
    && (a in x.bigs ==> 0 < x.bigs[a] && a % 4096 == 0 && Alone(x, a, 4096 * x.bigs[a]))
  }

  /** Allocations are aligned, blocks to their size and big ones to a page, and no two
      overlap. */
  ghost predicate Sound(x: Snapshot) {
    forall a: nat :: SoundAt(x, a)
  }

  /** A new block of at least sz bytes. */
  ghost predicate Gave(x: Snapshot, y: Snapshot, ptr: nat, sz: nat) {
    && ptr !in x.blocks && ptr !in x.bigs && ptr in y.blocks && sz <= y.blocks[ptr]
    && y.blocks == x.blocks[ptr := y.blocks[ptr]] && y.bigs == x.bigs
  }

  ghost predicate Writable(x: Snapshot, ptr: nat, at: nat) {
    || (ptr in x.blocks && ptr <= at < ptr + x.blocks[ptr])
    || (ptr in x.bigs && ptr <= at < ptr + 4096 * x.bigs[ptr])
  }

  /** A new block of type b at r, if r is not 0; the pages and calls are another matter. */
  ghost predicate GaveAt(x: Snapshot, y: Snapshot, r: nat, b: nat) {
    if r != 0 then r !in x.blocks && r !in x.bigs && y.blocks == x.blocks[r := Size(b)] else y.blocks == x.blocks
  }

  /** What a step does, with the result r it returns. A step that its caller is not in a
      position to take does nothing.
        kmalloc of a small size takes a block on a page it has exactly if there is one free; after
      getting a page it fails exactly if all the page records are taken; whole pages it gives
      exactly if alloc_kpages has them. kfree gives back a page with its last block. */
  ghost predicate Effect(s: Step, x: Snapshot, y: Snapshot, r: nat) {
    match s
    case Try(t, sz) =>
      if t in x.calls || sz >= 2048 then r == 0 && y == x
      else
        exists b ::
          && Smallest(b, sz) && (r != 0 <==> HasHole(x.blocks, Size(b))) && GaveAt(x, y, r, b)
          && (r != 0 ==> r / 4096 in PagesIn(x.blocks) && y == x.(blocks := y.blocks))
          && (r == 0 ==> y == x.(calls := x.calls[t := Wants(sz, b)]))
    case Take(t, page) =>
      && r == 0
      && if t in x.calls && x.calls[t].Wants? then
           if page in x.pool then
             y == x.(calls := x.calls[t := Has(x.calls[t].sz, x.calls[t].b, page)], pool := x.pool - {page})
           else y == x.(calls := x.calls - {t})
         else y == x
    case Finish(t) =>
      if t in x.calls && x.calls[t].Has? then
        var page := x.calls[t].page;
        && (r == 0 <==> |PagesIn(x.blocks)| == NPAGEREFS) && GaveAt(x, y, r, x.calls[t].b)
        && (r != 0 ==> r / 4096 == page && y == x.(blocks := y.blocks, calls := x.calls - {t}, mem := y.mem))
        && (r == 0 ==> y == x.(calls := x.calls - {t}, leaving := x.leaving + {page}, mem := y.mem))
      else r == 0 && y == x
    case Big(sz, where) =>
      var got := PageSet(where / 4096, PagesFor(sz));
      && (r != 0 <==> 2048 <= sz < 0x1_0000_0000 && where != 0 && where % 4096 == 0 && got <= x.pool)
      && (r != 0 ==> r == where)
      && if r != 0 && sz <= 0xffff_f000 then
           && r !in x.blocks && r !in x.bigs && sz <= 4096 * PagesFor(sz)
           && y == x.(bigs := x.bigs[r := PagesFor(sz)], pool := x.pool - got)
         else y == x
    case Free(ptr) =>
      && r == 0
      && if ptr in x.blocks then
           var page := if ptr / 4096 in PagesIn(x.blocks - {ptr}) then {} else {ptr / 4096};
           y == x.(blocks := x.blocks - {ptr}, mem := y.mem, leaving := x.leaving + page)
         else if ptr in x.bigs then
           y == x.(bigs := x.bigs - {ptr}, leaving := x.leaving + PageSet(ptr / 4096, x.bigs[ptr]))
         else y == x
    case GiveBack(page) =>
      r == 0 && y == if page in x.leaving then x.(pool := x.pool + {page}, leaving := x.leaving - {page}) else x
    case Write(ptr, at, value) =>
      r == 0 && if Writable(x, ptr, at) then y == x.(mem := y.mem) && Word(y.mem, at) == value else y == x
  }

  /** Besides, a step keeps every allocation it does not free or write to and every call it
      is not part of, and what it leaves is sound. */
  ghost predicate Did(s: Step, x: Snapshot, y: Snapshot, r: nat) {
    && Effect(s, x, y, r) && Sound(y)
    && (forall a | !Touches(s, a) :: Keeps(x, y, a))
    && (forall t | !StepBy(s, t) :: KeepsCall(x, y, t))
  }

  ghost predicate DidAt(steps: seq<Step>, xs: seq<Snapshot>, rs: seq<nat>, i: nat)
    requires i < |steps| && i < |rs| && i + 1 < |xs|
  {
    Did(steps[i], xs[i], xs[i + 1], rs[i])
  }

  ghost predicate Trace(steps: seq<Step>, xs: seq<Snapshot>, rs: seq<nat>) {
    |rs| == |steps| && |xs| == |steps| + 1 && forall i | 0 <= i < |steps| :: DidAt(steps, xs, rs, i)
  }


  lemma KeepsThen(x: Snapshot, y: Snapshot, z: Snapshot, a: nat)
    requires Keeps(x, y, a) && Keeps(y, z, a)
    ensures Keeps(x, z, a)
  {
  }

  /** In any run, what nobody frees or writes to stays allocated and keeps its contents. */
  lemma {:induction false} TraceKeeps(steps: seq<Step>, xs: seq<Snapshot>, rs: seq<nat>, a: nat, i: nat, j: nat)
    requires Trace(steps, xs, rs) && i <= j <= |steps| && Untouched(steps, i, j, a)
    ensures Keeps(xs[i], xs[j], a)
    decreases j
  {
    hide Effect, Sound;
    if i < j {
      TraceKeeps(steps, xs, rs, a, i, j - 1);
      assert DidAt(steps, xs, rs, j - 1) && !Touches(steps[j - 1], a);
      KeepsThen(xs[i], xs[j - 1], xs[j], a);
    }
  }

  /** And a call that has no step in it is where it was. */
  lemma {:induction false} TraceKeepsCall(steps: seq<Step>, xs: seq<Snapshot>, rs: seq<nat>, t: nat, i: nat, j: nat)
    requires Trace(steps, xs, rs) && i <= j <= |steps| && OfOthers(steps, i, j, t)
    ensures KeepsCall(xs[i], xs[j], t)
    decreases j
  {
    hide Effect, Sound, Keeps;
    if i < j {
      TraceKeepsCall(steps, xs, rs, t, i, j - 1);
      assert DidAt(steps, xs, rs, j - 1) && !StepBy(steps[j - 1], t);
    }
  }

  /** A call of kmalloc that has to get a page, at steps i, j and k of a run, with anything
      happening in its window before and after alloc_kpages. What it returns is new with
      respect to the state it finds when it has the lock for the last time: nobody has it,
      whoever was given what meanwhile. It is as big as asked for, aligned and overlaps
      nothing. */
  lemma Window(steps: seq<Step>, xs: seq<Snapshot>, rs: seq<nat>, t: nat, sz: nat, page: nat, i: nat, j: nat, k: nat)
    requires Trace(steps, xs, rs) && i < j < k < |steps| && t !in xs[i].calls && rs[i] == 0
    requires steps[i] == Try(t, sz) && steps[j] == Take(t, page) && steps[k] == Finish(t)
    requires OfOthers(steps, i + 1, j, t) && OfOthers(steps, j + 1, k, t)
    ensures rs[k] != 0 ==> Gave(xs[k], xs[k + 1], rs[k], sz) && SoundAt(xs[k + 1], rs[k])
    ensures t !in xs[k + 1].calls
  {
    hide Keeps, SoundAt, HasHole, PagesIn, Size;
    assert DidAt(steps, xs, rs, i);
    if sz < 2048 {
      var b :| Smallest(b, sz) && xs[i + 1] == xs[i].(calls := xs[i].calls[t := Wants(sz, b)]);
    }
    TraceKeepsCall(steps, xs, rs, t, i + 1, j);
    assert DidAt(steps, xs, rs, j);
    TraceKeepsCall(steps, xs, rs, t, j + 1, k);
    assert DidAt(steps, xs, rs, k);
  }

  ghost predicate Allocated(x: Snapshot, p: nat) {
    p in x.blocks || p in x.bigs
  }

  /** The step returned p as a new allocation. */
  predicate Returns(s: Step, r: nat, p: nat) {
    p != 0 && r == p && (s.Try? || s.Finish? || (s.Big? && 2048 <= s.sz <= 0xffff_f000))
  }

  lemma ReturnsNew(s: Step, x: Snapshot, y: Snapshot, r: nat, p: nat)
    requires Did(s, x, y, r) && Returns(s, r, p)
    ensures !Allocated(x, p) && Allocated(y, p)
  {
    hide Keeps, Sound;
  }

  lemma {:induction false} StaysAllocated(steps: seq<Step>, xs: seq<Snapshot>, rs: seq<nat>, p: nat, i: nat, j: nat)
    requires Trace(steps, xs, rs) && i <= j <= |steps| && Allocated(xs[i], p)
    requires forall m | i <= m < j :: steps[m] != Free(p)
    ensures Allocated(xs[j], p)
    decreases j
  {
    hide Sound;
    if i < j {
      StaysAllocated(steps, xs, rs, p, i, j - 1);
      assert DidAt(steps, xs, rs, j - 1);
      assert Keeps(xs[j - 1], xs[j], p) || steps[j - 1].Write?;
    }
  }

  /** No run hands out the same address twice without a free in between. */
  lemma NoDoubleAllocation(steps: seq<Step>, xs: seq<Snapshot>, rs: seq<nat>, p: nat, i: nat, j: nat)
    requires Trace(steps, xs, rs) && i < j < |steps| && Returns(steps[i], rs[i], p) && Returns(steps[j], rs[j], p)
    ensures exists m | i < m < j :: steps[m] == Free(p)
  {
    hide Did;
    assert DidAt(steps, xs, rs, i) && DidAt(steps, xs, rs, j);
    ReturnsNew(steps[i], xs[i], xs[i + 1], rs[i], p);
    ReturnsNew(steps[j], xs[j], xs[j + 1], rs[j], p);
    if forall m | i < m < j :: steps[m] != Free(p) {
      StaysAllocated(steps, xs, rs, p, i + 1, j);
    }
  }

  /** Threading a page that is in a caller's hands. */
  lemma PageApart(h: Heap, g: Shadow, p: nat, mem: map<nat, nat>, a: nat)
    requires Ok(h, g, {}) && p in g.owner && g.owner[p] == Hand && OnlyBlock(h.mem, mem, 4096 * p, 4096)
    ensures a in g.live ==> Same(h.mem, mem, a, g.live[a])
    ensures a in g.big ==> Same(h.mem, mem, a, 4096 * g.big[a])
  {
    hide Ok, BlockOff, Size;
    if a in g.live {
      OkLive(h, g, {}, a);
      BlockFits(TypeOf(h.refs[g.owner[a / 4096].r]), a % 4096);
    }
    if a in g.big {
      OkBig(h, g, {}, a);
      assert !(a / 4096 <= p < a / 4096 + g.big[a]);
    }
  }

  /** Writing into one live block. */
  lemma BlockApart(h: Heap, g: Shadow, ptr: nat, mem: map<nat, nat>, a: nat)
    requires Ok(h, g, {}) && ptr in g.live && OnlyBlock(h.mem, mem, ptr, g.live[ptr]) && a != ptr
    ensures a in g.live ==> Same(h.mem, mem, a, g.live[a])
    ensures a in g.big ==> Same(h.mem, mem, a, 4096 * g.big[a])
  {
    hide Ok;
    if a in g.live {
      LiveApart(h, g, {}, if a < ptr then a else ptr, if a < ptr then ptr else a);
    }
    if a in g.big {
      BigApart(h, g, {}, a, ptr);
    }
  }

  /** Writing into one big allocation. */
  lemma PagesApart(h: Heap, g: Shadow, ptr: nat, mem: map<nat, nat>, a: nat)
    requires Ok(h, g, {}) && ptr in g.big && OnlyBlock(h.mem, mem, ptr, 4096 * g.big[ptr]) && a != ptr
    ensures a in g.live ==> Same(h.mem, mem, a, g.live[a])
    ensures a in g.big ==> Same(h.mem, mem, a, 4096 * g.big[a])
  {
    hide Ok;
    BigApart(h, g, {}, ptr, a);
  }

  /** The invariant of the heap is enough for soundness. */
  lemma SoundHeap(h: Heap, g: Shadow, x: Snapshot)
    requires Ok(h, g, {}) && x.blocks == g.live && x.bigs == g.big
    ensures Sound(x)
  {
    hide Ok, Alone;
    forall a: nat ensures SoundAt(x, a) {
      if a in g.live {
        FreeFacts(h, g, a);
        LiveAligned(h, g, {}, a);
        BlockAlone(h, g, x, a);
      }
      if a in g.big {
        OkBig(h, g, {}, a);
        BigAlone(h, g, x, a);
      }
    }
  }

  lemma BlockAlone(h: Heap, g: Shadow, x: Snapshot, a: nat)
    requires Ok(h, g, {}) && x.blocks == g.live && x.bigs == g.big && a in g.live
    ensures Alone(x, a, g.live[a])
  {
    hide Ok;
    forall b | b in x.blocks && b != a ensures b + x.blocks[b] <= a || a + g.live[a] <= b {
      LiveApart(h, g, {}, if a < b then a else b, if a < b then b else a);
    }
    forall b | b in x.bigs && b != a ensures b + 4096 * x.bigs[b] <= a || a + g.live[a] <= b {
      BigApart(h, g, {}, b, a);
    }
  }

  lemma BigAlone(h: Heap, g: Shadow, x: Snapshot, a: nat)
    requires Ok(h, g, {}) && x.blocks == g.live && x.bigs == g.big && a in g.big
    ensures Alone(x, a, 4096 * g.big[a])
  {
    hide Ok;
    forall b | b in x.blocks && b != a ensures b + x.blocks[b] <= a || a + 4096 * g.big[a] <= b {
      BigApart(h, g, {}, a, b);
    }
    forall b | b in x.bigs && b != a ensures b + 4096 * x.bigs[b] <= a || a + 4096 * g.big[a] <= b {
      BigApart(h, g, {}, b, a);
    }
  }

  /** The pages of a big allocation that comes. */
  lemma NewPages(g: Shadow, p: nat, n: nat)
    requires forall m | p / 4096 <= m < p / 4096 + n :: m !in g.owner
    ensures var g' := WithBig(g, p, n);
            && g'.owner.Keys == g.owner.Keys + PageSet(p / 4096, n) && g'.live == g.live && g'.big == g.big[p := n]
            && (forall m | m in g.owner :: m in g'.owner && g'.owner[m] == g.owner[m])
            && forall m | m in g'.owner && m !in g.owner :: g'.owner[m] == Owner.Big(p)
  {
  }

  /** The pages of a big allocation that goes. */
  lemma BigPages(h: Heap, g: Shadow, p: nat)
    requires Ok(h, g, {}) && p in g.big
    ensures WithoutBig(g, p).owner.Keys == g.owner.Keys - PageSet(p / 4096, g.big[p])
    ensures PageSet(p / 4096, g.big[p]) <= g.owner.Keys
    ensures WithoutBig(g, p).live == g.live && WithoutBig(g, p).big == g.big - {p}
  {
    hide Ok, LiveOk, ListsOk, RefOk;
    OkParts(h, g, {});
    OkBig(h, g, {}, p);
    forall n | n in g.owner && g.owner[n] == Owner.Big(p) ensures n in PageSet(p / 4096, g.big[p]) {
      assert OwnerIs(h, g, n);
    }
  }

  /** Callers hold the pages they were given, each its own. */
  ghost predicate CallsOk(g: Shadow, calls: map<nat, Call>) {
    && (forall t | t in calls :: calls[t].b < NSIZES && calls[t].sz <= Size(calls[t].b))
    && (forall t | t in calls && calls[t].Has? :: calls[t].page in g.owner && g.owner[calls[t].page] == Hand)
    && (forall t, u | t in calls && u in calls && calls[t].Has? && calls[u].Has? ::
          calls[t].page == calls[u].page ==> t == u)
    && (forall n | n in g.owner && g.owner[n] == Hand :: exists t :: InHandOf(calls, t, n))
  }

  predicate InHandOf(calls: map<nat, Call>, t: nat, n: nat) {
    t in calls && calls[t].Has? && calls[t].page == n
  }

  /** The pages with an owner are those that blocks, big allocations and calls have. */
  lemma OwnedPages(h: Heap, g: Shadow, x: Snapshot)
    requires Ok(h, g, {}) && CallsOk(g, x.calls) && x.blocks == g.live && x.bigs == g.big
    ensures g.owner.Keys == Taken(x)
  {
    hide Ok, Size, PagesIn, BlockOff;
    forall n ensures n in g.owner <==> n in Taken(x) {
      if n in g.owner {
        OwnedIsTaken(h, g, x, n);
      }
      if n in Taken(x) {
        TakenIsOwned(h, g, x, n);
      }
    }
  }

  lemma OwnedIsTaken(h: Heap, g: Shadow, x: Snapshot, n: nat)
    requires Ok(h, g, {}) && CallsOk(g, x.calls) && x.blocks == g.live && x.bigs == g.big && n in g.owner
    ensures n in Taken(x)
  {
    hide Ok, Size, BlockOff, InUse;
    OkParts(h, g, {});
    OwnerHas(h, g, n);
    match g.owner[n] {
      case Sub(r) => PageInUse(h, g, r);
      case Big(p) => assert n in PageSet(p / 4096, x.bigs[p]);
      case Hand =>
        var t :| InHandOf(x.calls, t, n);
    }
  }

  lemma OwnerHas(h: Heap, g: Shadow, n: nat)
    requires Ok(h, g, {}) && n in g.owner
    ensures Sized(h, g) && OwnerIs(h, g, n)
  {
  }

  lemma TakenIsOwned(h: Heap, g: Shadow, x: Snapshot, n: nat)
    requires Ok(h, g, {}) && CallsOk(g, x.calls) && x.blocks == g.live && x.bigs == g.big && n in Taken(x)
    ensures n in g.owner
  {
    hide Ok, Size, BlockOff, InUse;
    if n in PagesIn(x.blocks) {
      var a :| a in g.live && a / 4096 == n;
      OkLive(h, g, {}, a);
    } else if p :| p in x.bigs && n in PageSet(p / 4096, x.bigs[p]) {
      OkBig(h, g, {}, p);
    }
  }

  /** Every page is free, on its way back, or has its owner. */
  ghost predicate PagesOk(pages: set<nat>, pool: set<nat>, leaving: set<nat>, owned: set<nat>) {
    0 !in pages && pool + leaving + owned == pages && pool !! leaving !! owned
  }

  lemma PagesLeave(pages: set<nat>, pool: set<nat>, leaving: set<nat>, owned: set<nat>, gone: set<nat>)
    requires PagesOk(pages, pool, leaving, owned) && gone <= owned
    ensures PagesOk(pages, pool, leaving + gone, owned - gone)
  {
  }

  lemma PagesTaken(pages: set<nat>, pool: set<nat>, leaving: set<nat>, owned: set<nat>, got: set<nat>)
    requires PagesOk(pages, pool, leaving, owned) && got <= pool
    ensures PagesOk(pages, pool - got, leaving, owned + got) && 0 !in got && got !! owned
  {
  }

  lemma HandsKept(g: Shadow, g': Shadow, calls: map<nat, Call>)
    requires CallsOk(g, calls)
    requires forall n :: n in g.owner && g.owner[n] == Hand <==> n in g'.owner && g'.owner[n] == Hand
    ensures CallsOk(g', calls)
  {
    hide Size;
  }

  lemma CallBegun(g: Shadow, calls: map<nat, Call>, t: nat, sz: nat, b: nat)
    requires CallsOk(g, calls) && b < NSIZES && sz <= Size(b) && t !in calls
    ensures CallsOk(g, calls[t := Wants(sz, b)])
  {
    hide Size;
    var calls' := calls[t := Wants(sz, b)];
    forall n | n in g.owner && g.owner[n] == Hand ensures exists u :: InHandOf(calls', u, n) {
      var u :| InHandOf(calls, u, n);
      assert InHandOf(calls', u, n);
    }
  }

  lemma CallTaken(g: Shadow, calls: map<nat, Call>, t: nat, page: nat)
    requires CallsOk(g, calls) && t in calls && calls[t].Wants? && page !in g.owner
    ensures CallsOk(g.(owner := g.owner[page := Hand]), calls[t := Has(calls[t].sz, calls[t].b, page)])
  {
    hide Size;
    var g', calls' := g.(owner := g.owner[page := Hand]), calls[t := Has(calls[t].sz, calls[t].b, page)];
    forall n | n in g'.owner && g'.owner[n] == Hand ensures exists u :: InHandOf(calls', u, n) {
      if n == page {
        assert InHandOf(calls', t, n);
      } else {
        var u :| InHandOf(calls, u, n);
        assert InHandOf(calls', u, n);
      }
    }
  }

  lemma CallFacts(g: Shadow, calls: map<nat, Call>, t: nat)
    requires CallsOk(g, calls) && t in calls
    ensures calls[t].b < NSIZES && calls[t].sz <= Size(calls[t].b)
    ensures calls[t].Has? ==> calls[t].page in g.owner && g.owner[calls[t].page] == Hand
  {
  }

  lemma CallDone(g: Shadow, g': Shadow, calls: map<nat, Call>, t: nat)
    requires CallsOk(g, calls) && t in calls
    requires forall n :: n in g'.owner && g'.owner[n] == Hand <==>
                         n in g.owner && g.owner[n] == Hand && (calls[t].Has? ==> n != calls[t].page)
    ensures CallsOk(g', calls - {t})
  {
    hide Size;
    var calls' := calls - {t};
    forall n | n in g'.owner && g'.owner[n] == Hand ensures exists u :: InHandOf(calls', u, n) {
      var u :| InHandOf(calls, u, n);
      assert InHandOf(calls', u, n);
    }
  }

  /** Nothing taken away and no memory written. */
  lemma AllKept(x: Snapshot, y: Snapshot, a: nat)
    requires y.mem == x.mem && (a in x.blocks ==> a in y.blocks && y.blocks[a] == x.blocks[a])
    requires a in x.bigs ==> a in y.bigs && y.bigs[a] == x.bigs[a]
    ensures Keeps(x, y, a)
  {
  }

  lemma KeepsIf(x: Snapshot, y: Snapshot, a: nat)
    requires a in x.blocks ==> a in y.blocks && y.blocks[a] == x.blocks[a] && Same(x.mem, y.mem, a, x.blocks[a])
    requires a in x.bigs ==> a in y.bigs && y.bigs[a] == x.bigs[a] && Same(x.mem, y.mem, a, 4096 * x.bigs[a])
    ensures Keeps(x, y, a)
  {
  }

  class World {
    const heap: Allocator
    /** All the pages of the kernel heap, those alloc_kpages has to give, and those on their
        way to free_kpages. */
    ghost const pages: set<nat>
    var pool: set<nat>
    var leaving: set<nat>
    var calls: map<nat, Call>
    var blocks: map<nat, nat>
    var bigs: map<nat, nat>

    /** The allocator is sound, what the callers think they have is what it has given them,
        and no page is lost. */
    ghost predicate Valid()
      reads this, heap
    {
      && heap.Valid() && blocks == heap.g.live && bigs == heap.g.big
      && PagesOk(pages, pool, leaving, heap.g.owner.Keys) && CallsOk(heap.g, calls)
    }

    ghost function Now(): Snapshot
      reads this, heap
    {
      Snapshot(blocks, bigs, heap.mem, calls, pool, leaving)
    }

    constructor (pages: set<nat>)
      requires 0 !in pages
      ensures Valid() && fresh(heap) && blocks == map[] && bigs == map[] && calls == map[]
      ensures this.pages == pages == pool
    {
      heap := new Allocator();
      this.pages, pool, leaving := pages, pages, {};
      calls, blocks, bigs := map[], map[], map[];
    }

    /** subpage_kmalloc as far as it goes with the lock. */
    method TryCall(t: nat, sz: nat) returns (ptr: nat)
      requires Valid() && sz < 2048 && t !in calls
      modifies this, heap
      ensures Valid() && Did(Try(t, sz), old(Now()), Now(), ptr)
    {
      hide Ok, Size, Sound, Keeps, CallsOk, PagesOk;
      ghost var x, g0 := Now(), heap.g;
      var b := heap.BlockType(sz);
      ptr := heap.TryAlloc(b);
      if ptr != 0 {
        blocks := blocks[ptr := Size(b)];
        FreeFacts(heap.H(), heap.g, ptr);
        HandsKept(g0, heap.g, calls);
      } else {
        CallBegun(heap.g, calls, t, sz, b);
        calls := calls[t := Wants(sz, b)];
      }
      forall a ensures Keeps(x, Now(), a) {
        AllKept(x, Now(), a);
      }
      SoundHeap(heap.H(), heap.g, Now());
    }

    /** alloc_kpages, without the lock. If it fails so does the call. */
    method TakeCall(t: nat, page: nat)
      requires Valid() && t in calls && calls[t].Wants?
      modifies this, heap`g
      ensures Valid() && Did(Take(t, page), old(Now()), Now(), 0)
      ensures t in calls <==> page in old(pool)
      ensures t in calls ==> calls[t] == Has(old(calls)[t].sz, old(calls)[t].b, page)
    {
      hide Ok, Size, Sound, Keeps, CallsOk;
      ghost var x, g0 := Now(), heap.g;
      if page in pool {
        CallTaken(g0, calls, t, page);
        heap.TakePage(page);
        pool, calls := pool - {page}, calls[t := Has(calls[t].sz, calls[t].b, page)];
      } else {
        CallDone(g0, g0, calls, t);
        calls := calls - {t};
      }
      forall a ensures Keeps(x, Now(), a) {
        AllKept(x, Now(), a);
      }
      SoundHeap(heap.H(), heap.g, Now());
    }

    /** The rest of subpage_kmalloc, with the lock again. */
    method FinishCall(t: nat) returns (ptr: nat)
      requires Valid() && t in calls && calls[t].Has?
      modifies this, heap
      ensures Valid() && Did(Finish(t), old(Now()), Now(), ptr)
    {
      hide Ok, Size, InUse, Sound, CallsOk;
      ghost var h0, g0, x := heap.H(), heap.g, Now();
      CallFacts(g0, calls, t);
      var b, page := calls[t].b, calls[t].page;
      ptr := heap.AllocFresh(page, b);
      CallDone(g0, heap.g, calls, t);
      calls := calls - {t};
      if ptr != 0 {
        blocks := blocks[ptr := Size(b)];
        FreeFacts(heap.H(), heap.g, ptr);
      } else {
        leaving := leaving + {page};
      }
      forall a ensures Keeps(old(Now()), Now(), a) {
        PageApart(h0, g0, page, heap.mem, a);
      }
      SoundHeap(heap.H(), heap.g, Now());
    }

    /** kmalloc of whole pages, which needs no lock. */
    method BigCall(sz: nat, where: nat) returns (ptr: nat)
      requires Valid() && 2048 <= sz < 0x1_0000_0000
      modifies this, heap
      ensures Valid() && Did(Step.Big(sz, where), old(Now()), Now(), ptr)
    {
      hide Ok, Sound, Keeps, CallsOk, PagesOk, WithBig, PagesFor;
      ghost var x, g0 := Now(), heap.g;
      ptr := 0;
      if where != 0 && where % 4096 == 0 && PageSet(where / 4096, PagesFor(sz)) <= pool {
        var got := PageSet(where / 4096, PagesFor(sz));
        PagesTaken(pages, pool, leaving, g0.owner.Keys, got);
        ptr := heap.BigKmalloc(sz, where);
        if sz <= 0xffff_f000 {
          NewPages(g0, ptr, PagesFor(sz));
          bigs, pool := bigs[ptr := PagesFor(sz)], pool - got;
          FreeFacts(heap.H(), heap.g, ptr);
          HandsKept(g0, heap.g, calls);
        }
      }
      forall a ensures Keeps(x, Now(), a) {
        AllKept(x, Now(), a);
      }
      SoundHeap(heap.H(), heap.g, Now());
    }

    /** kfree of anything that has been given out, up to the call of free_kpages. */
    method FreeCall(ptr: nat)
      requires Valid() && (ptr in blocks || ptr in bigs)
      modifies this, heap
      ensures Valid() && Did(Free(ptr), old(Now()), Now(), 0)
    {
      hide Ok, Sound, CallsOk, WithoutBig, PagesOk, Keeps;
      ghost var h0, g0, x := heap.H(), heap.g, Now();
      FreeFacts(h0, g0, ptr);
      var bigPath, page := heap.Kfree(ptr);
      HandsKept(g0, heap.g, calls);
      if ptr in bigs {
        BigPages(h0, g0, ptr);
        var gone := PageSet(ptr / 4096, bigs[ptr]);
        PagesLeave(pages, pool, leaving, g0.owner.Keys, gone);
        leaving, bigs := leaving + gone, bigs - {ptr};
        assert blocks - {ptr} == blocks;
        forall a | a != ptr ensures Keeps(x, Now(), a) {
          AllKept(x, Now(), a);
        }
      } else {
        var gone := if page != 0 then {page} else {};
        assert heap.g.owner.Keys == g0.owner.Keys - gone;
        PagesLeave(pages, pool, leaving, g0.owner.Keys, gone);
        leaving, blocks := leaving + gone, blocks - {ptr};
        assert bigs - {ptr} == bigs;
        forall a | a != ptr ensures Keeps(x, Now(), a) {
          BlockApart(h0, g0, ptr, heap.mem, a);
          KeepsIf(x, Now(), a);
        }
      }
      SoundHeap(heap.H(), heap.g, Now());
    }

    /** free_kpages, without the lock. */
    method GiveBackCall(page: nat)
      requires Valid() && page in leaving
      modifies this`pool, this`leaving
      ensures Valid() && Did(GiveBack(page), old(Now()), Now(), 0)
    {
      hide Ok, Sound;
      pool, leaving := pool + {page}, leaving - {page};
      SoundHeap(heap.H(), heap.g, Now());
    }

    /** A caller writes into what it has. */
    method WriteCall(ptr: nat, at: nat, value: nat)
      requires Valid() && (ptr in blocks || ptr in bigs)
      requires ptr <= at < ptr + if ptr in blocks then blocks[ptr] else 4096 * bigs[ptr]
      modifies heap
      ensures Valid() && Did(Write(ptr, at, value), old(Now()), Now(), 0)
    {
      hide Ok, Sound;
      ghost var h0, g0 := heap.H(), heap.g;
      if ptr in blocks {
        heap.Write(ptr, at, value);
        forall a | a != ptr ensures Keeps(old(Now()), Now(), a) {
          BlockApart(h0, g0, ptr, heap.mem, a);
        }
      } else {
        heap.WriteBig(ptr, at, value);
        forall a | a != ptr ensures Keeps(old(Now()), Now(), a) {
          PagesApart(h0, g0, ptr, heap.mem, a);
        }
      }
      SoundHeap(heap.H(), heap.g, Now());
    }

    lemma WholeNow()
      requires Valid()
      ensures Whole(Now(), pages)
    {
      hide Ok, CallsOk, Taken;
      OwnedPages(heap.H(), heap.g, Now());
    }

    lemma Nothing(s: Step)
      requires Valid() && Effect(s, Now(), Now(), 0)
      ensures Did(s, Now(), Now(), 0)
    {
      hide Ok, Sound, Effect;
      SoundHeap(heap.H(), heap.g, Now());
    }

    /** One step of any caller. */
    method Do(s: Step) returns (r: nat)
      requires Valid()
      modifies this, heap
      ensures Valid() && Did(s, old(Now()), Now(), r)
    {
      hide Ok, Did, CallsOk, PagesOk;
      r := 0;
      if s.Try? && s.t !in calls && s.sz < 2048 {
        r := TryCall(s.t, s.sz);
      } else if s.Take? && s.t in calls && calls[s.t].Wants? {
        TakeCall(s.t, s.page);
      } else if s.Finish? && s.t in calls && calls[s.t].Has? {
        r := FinishCall(s.t);
      } else if s.Big? && 2048 <= s.sz < 0x1_0000_0000 {
        r := BigCall(s.sz, s.where);
      } else if s.Free? && (s.ptr in blocks || s.ptr in bigs) {
        FreeCall(s.ptr);
      } else if s.GiveBack? && s.page in leaving {
        GiveBackCall(s.page);
      } else if s.Write? && ((s.ptr in blocks && s.ptr <= s.at < s.ptr + blocks[s.ptr])
                             || (s.ptr !in blocks && s.ptr in bigs && s.ptr <= s.at < s.ptr + 4096 * bigs[s.ptr])) {
        WriteCall(s.ptr, s.at, s.value);
      } else {
        Idle(s);
      }
    }

    lemma Idle(s: Step)
      requires Valid()
      requires s.Try? ==> s.t in calls || s.sz >= 2048
      requires s.Take? ==> !(s.t in calls && calls[s.t].Wants?)
      requires s.Finish? ==> !(s.t in calls && calls[s.t].Has?)
      requires s.Free? ==> s.ptr !in blocks && s.ptr !in bigs
      requires s.Big? ==> !(2048 <= s.sz < 0x1_0000_0000)
      requires s.GiveBack? ==> s.page !in leaving
      requires s.Write? && s.ptr in blocks ==> !(s.ptr <= s.at < s.ptr + blocks[s.ptr])
      requires s.Write? && s.ptr !in blocks && s.ptr in bigs ==> !(s.ptr <= s.at < s.ptr + 4096 * bigs[s.ptr])
      ensures Did(s, Now(), Now(), 0)
    {
      hide Ok, Did;
      SoundHeap(heap.H(), heap.g, Now());
      if s.Write? {
        assert SoundAt(Now(), s.ptr);
      }
      if s.Free? {
        assert blocks - {s.ptr} == blocks && bigs - {s.ptr} == bigs;
      }
      Nothing(s);
    }

    /** Any run, with what every step returned and left. */
    method Run(steps: seq<Step>) returns (rs: seq<nat>, ghost xs: seq<Snapshot>)
      requires Valid()
      modifies this, heap
      ensures Valid() && Trace(steps, xs, rs) && xs[0] == old(Now()) && xs[|steps|] == Now()
      ensures forall i | 0 <= i <= |steps| :: Whole(xs[i], pages)
    {
      hide Ok, Did, CallsOk, PagesOk, Whole;
      rs, xs := [], [Now()];
      WholeNow();
      var i := 0;
      while i < |steps|
        invariant 0 <= i <= |steps| && Valid() && |rs| == i && |xs| == i + 1 && xs[0] == old(Now()) && xs[i] == Now()
        invariant forall j | 0 <= j < i :: Did(steps[j], xs[j], xs[j + 1], rs[j])
        invariant forall j | 0 <= j <= i :: Whole(xs[j], pages)
      {
        var r := Do(steps[i]);
        WholeNow();
        rs, xs, i := rs + [r], xs + [Now()], i + 1;
      }
    }
  }
}
