/** The data of the subpage allocator (vm/kmalloc.c) and what it means: which blocks of
    which page are free, and which pages belong to whom.
  */
module KHeap {
  import opened Bytes

  const PAGE: nat := 4096
  const NSIZES: nat := 8
  const NPAGEREFS: nat := 256
  const INVALID: nat := 0xffff
  const NULL: int := -1

  /** sizes[] */
  function Size(b: nat): (s: nat)
    ensures 16 <= s <= 2048 && 4096 % s == 0 && s * (4096 / s) == 4096 && 2 <= 4096 / s <= 256
  {
    if b == 0 then 16 else if b == 1 then 32 else if b == 2 then 64 else if b == 3 then 128
    else if b == 4 then 256 else if b == 5 then 512 else if b == 6 then 1024 else 2048
  }

  function Blocks(b: nat): (n: nat)
    ensures 2 <= n <= 256 && Size(b) * n == 4096
  {
    4096 / Size(b)
  }

  /** struct pageref; pointers are indices into pagerefs[], or NULL. */
  datatype PageRef = PageRef(nextSame: int, nextAll: int, pab: nat, offset: nat, nfree: nat)

  /** The words the allocator keeps in its heap blocks, pagerefs[], pagerefs_inuse[],
      sizebases[] and allbase. */
  datatype Heap = Heap(mem: map<nat, nat>, refs: seq<PageRef>, inuse: seq<nat>, sizebases: seq<int>, allbase: int)

  /** Whose a page is that alloc_kpages has handed out: of pageref r, of the big
      allocation at p, or in the hand of a call of kmalloc that has dropped the lock. */
  datatype Owner = Sub(r: nat) | Big(p: nat) | Hand

  /** What the heap stands for: the free offsets of each page in list order, the lists
      of pagerefs, the owners of pages, the live blocks with their sizes and the big
      allocations with their numbers of pages. */
  datatype Shadow = Shadow(
    free: seq<seq<nat>>, same: seq<seq<nat>>, all: seq<nat>,
    owner: map<nat, Owner>, live: map<nat, nat>, big: map<nat, nat>)

  function Word(mem: map<nat, nat>, a: nat): nat {
    if a in mem then mem[a] else 0
  }

  /** PR_PAGEADDR, as a page number, PR_BLOCKTYPE and MKPAB. */
  function PageOf(pr: PageRef): nat {
    pr.pab / 4096
  }

  function TypeOf(pr: PageRef): nat {
    pr.pab % 4096
  }

  function MkPab(pa: nat, blk: nat): (pab: nat)
    ensures blk < 4096 ==> pab / 4096 == pa / 4096 && pab % 4096 == blk
  {
    pa / 4096 * 4096 + blk % 4096
  }

  ghost predicate Sized(h: Heap, g: Shadow) {
    && |h.refs| == NPAGEREFS && |h.inuse| == 8 && (forall i | 0 <= i < 8 :: h.inuse[i] < 0x1_0000_0000)
    && |h.sizebases| == NSIZES && |g.free| == NPAGEREFS && |g.same| == NSIZES
  }

  predicate InUse(inuse: seq<nat>, r: nat) {
    r < NPAGEREFS && r / 32 < |inuse| && Bit(inuse[r / 32], r % 32)
  }

  /** x is a multiple of Size(b). */
  predicate Aligned(b: nat, x: nat) {
    x % Size(b) == 0
  }

  predicate BlockOff(b: nat, off: nat) {
    off < 4096 && Aligned(b, off)
  }

  // --- One page -------------------------------------------------------------------

  predicate Linked(mem: map<nat, nat>, page: nat, f: seq<nat>, i: nat)
    requires i < |f|
  {
    Word(mem, 4096 * page + f[i]) == if i + 1 < |f| then 4096 * page + f[i + 1] else 0
  }

  /** The free list of a page: starts at freelist_offset, threaded through the blocks,
      without repetition. */
  ghost predicate FreeOk(mem: map<nat, nat>, pr: PageRef, f: seq<nat>) {
    && pr.nfree == |f| && pr.offset == (if f == [] then INVALID else f[0])
    && (forall i | 0 <= i < |f| :: BlockOff(TypeOf(pr), f[i]))
    && (forall i, j | 0 <= i < j < |f| :: f[i] != f[j])
    && (forall i | 0 <= i < |f| :: Linked(mem, PageOf(pr), f, i))
  }

  /** A page in use has a type, is owned, and has a live block unless it is in `full`. */
  ghost predicate RefOk(h: Heap, g: Shadow, r: nat, full: set<nat>)
    requires Sized(h, g) && r < NPAGEREFS
  {
    && TypeOf(h.refs[r]) < NSIZES && FreeOk(h.mem, h.refs[r], g.free[r])
    && PageOf(h.refs[r]) in g.owner && g.owner[PageOf(h.refs[r])] == Sub(r)
    && |g.free[r]| <= Blocks(TypeOf(h.refs[r])) && (r !in full ==> |g.free[r]| < Blocks(TypeOf(h.refs[r])))
  }

  /** Live blocks are exactly the blocks of pages in use that are not free. */
  ghost predicate LiveHas(h: Heap, g: Shadow, a: nat)
    requires Sized(h, g)
  {
    && a / 4096 in g.owner && g.owner[a / 4096].Sub?
    && var r := g.owner[a / 4096].r;
       && r < NPAGEREFS && BlockOff(TypeOf(h.refs[r]), a % 4096) && a % 4096 !in g.free[r] && a in g.live
       && g.live[a] == Size(TypeOf(h.refs[r]))
  }

  ghost predicate LiveOk(h: Heap, g: Shadow)
    requires Sized(h, g)
  {
    && (forall a | a in g.live :: LiveHas(h, g, a))
    && (forall r: nat, off: nat | InUse(h.inuse, r) :: LiveAll(h, g, r, off))
  }

  ghost predicate LiveAll(h: Heap, g: Shadow, r: nat, off: nat)
    requires Sized(h, g) && r < NPAGEREFS
  {
    BlockOff(TypeOf(h.refs[r]), off) && off !in g.free[r] ==> 4096 * PageOf(h.refs[r]) + off in g.live
  }

  ghost predicate OwnerIs(h: Heap, g: Shadow, n: nat)
    requires Sized(h, g) && n in g.owner
  {
    && n > 0
    && match g.owner[n]
       case Sub(r) => InUse(h.inuse, r) && PageOf(h.refs[r]) == n
       case Big(p) => p in g.big && p / 4096 <= n < p / 4096 + g.big[p]
       case Hand => true
  }

  ghost predicate OwnersOk(h: Heap, g: Shadow)
    requires Sized(h, g)
  {
    && (forall n | n in g.owner :: OwnerIs(h, g, n))
    && (forall p | p in g.big :: p % 4096 == 0 && g.big[p] > 0)
    && (forall p, n | p in g.big && p / 4096 <= n < p / 4096 + g.big[p] :: n in g.owner && g.owner[n] == Big(p))
  }

  // --- The lists of pagerefs --------------------------------------------------------

  predicate Next(nexts: seq<int>, l: seq<nat>, i: nat)
    requires i < |l|
  {
    l[i] < |nexts| && nexts[l[i]] == if i + 1 < |l| then l[i + 1] else NULL
  }

  ghost predicate Chain(nexts: seq<int>, head: int, l: seq<nat>) {
    && head == (if l == [] then NULL else l[0])
    && (forall i | 0 <= i < |l| :: Next(nexts, l, i))
    && (forall i, j | 0 <= i < j < |l| :: l[i] != l[j])
  }

  function Sames(refs: seq<PageRef>): (s: seq<int>)
    ensures |s| == |refs| && forall r | 0 <= r < |refs| :: s[r] == refs[r].nextSame
  {
    seq(|refs|, r requires 0 <= r < |refs| => refs[r].nextSame)
  }

  function Alls(refs: seq<PageRef>): (s: seq<int>)
    ensures |s| == |refs| && forall r | 0 <= r < |refs| :: s[r] == refs[r].nextAll
  {
    seq(|refs|, r requires 0 <= r < |refs| => refs[r].nextAll)
  }

  /** The size lists and the all-list hold exactly the pagerefs in use. */
  ghost predicate ListsOk(h: Heap, g: Shadow)
    requires Sized(h, g)
  {
    && Chain(Alls(h.refs), h.allbase, g.all)
    && (forall b | 0 <= b < NSIZES :: Chain(Sames(h.refs), h.sizebases[b], g.same[b]))
    && (forall r: nat :: r in g.all <==> InUse(h.inuse, r))
    && (forall b, r: nat | 0 <= b < NSIZES :: r in g.same[b] <==> InUse(h.inuse, r) && TypeOf(h.refs[r]) == b)
  }

  ghost predicate Ok(h: Heap, g: Shadow, full: set<nat>) {
    && Sized(h, g)
    && (forall r: nat | InUse(h.inuse, r) :: RefOk(h, g, r, full))
    && LiveOk(h, g) && OwnersOk(h, g) && ListsOk(h, g)
  }

  // --- Blocks and addresses ---------------------------------------------------------

  lemma AddrSplit(p: nat, x: nat)
    requires x < 4096
    ensures (4096 * p + x) / 4096 == p && (4096 * p + x) % 4096 == x
  {
  }

  lemma AddrJoin(a: nat)
    ensures 4096 * (a / 4096) + a % 4096 == a
  {
  }

  lemma Multiple(x: nat, s: nat)
    requires s > 0 && x % s == 0
    ensures x == s * (x / s)
  {
  }

  lemma ModMul(x: nat, s: nat)
    requires s > 0
    ensures (s * x) % s == 0
  {
    var y := s * x;
    NoRemainder(s, x, y / s, y % s);
  }

  lemma {:induction false} Scale(s: nat, d: nat)
    ensures s * d >= 0 && (d > 0 ==> s * d >= s)
  {
    if d > 0 {
      Scale(s, d - 1);
      assert s * d == s * (d - 1) + s;
    }
  }

  lemma Mono(s: nat, p: nat, q: nat)
    requires p <= q
    ensures s * p <= s * q && (p < q ==> s * p + s <= s * q)
  {
    Scale(s, q - p);
    assert s * (q - p) == s * q - s * p;
  }

  lemma NoRemainder(s: nat, x: nat, q: nat, r: nat)
    requires r < s && s * x == s * q + r
    ensures r == 0
  {
    Mono(s, if x <= q then x else q, if x <= q then q else x);
  }

  lemma MulLess(p: nat, q: nat, s: nat)
    requires s * p < s * q
    ensures s * p + s <= s * q
  {
    Mono(s, if p <= q then p else q, if p <= q then q else p);
  }

  /** A block lies within its page, and different blocks do not overlap. */
  lemma BlockFits(b: nat, off: nat)
    requires BlockOff(b, off)
    ensures off + Size(b) <= 4096
  {
    var s := Size(b);
    Multiple(off, s);
    MulLess(off / s, 4096 / s, s);
  }

  lemma BlocksApart(b: nat, x: nat, y: nat)
    requires BlockOff(b, x) && BlockOff(b, y) && x < y
    ensures x + Size(b) <= y
  {
    var s := Size(b);
    Multiple(x, s);
    Multiple(y, s);
    MulLess(x / s, y / s, s);
  }

  lemma AlignedInPage(b: nat, p: nat, off: nat)
    requires BlockOff(b, off)
    ensures Aligned(b, 4096 * p + off)
  {
    hide Size;
    var s := Size(b);
    var k, m := 4096 / s, off / s;
    Multiple(off, s);
    assert 4096 * p == (s * k) * p == s * (k * p);
    assert s * (k * p) + s * m == s * (k * p + m);
    ModMul(k * p + m, s);
  }

  lemma OkLive(h: Heap, g: Shadow, full: set<nat>, a: nat)
    requires Ok(h, g, full) && a in g.live
    ensures Sized(h, g) && LiveHas(h, g, a) && OwnerIs(h, g, a / 4096)
  {
    hide ListsOk, RefOk;
    assert LiveHas(h, g, a);
  }

  /** No two live blocks overlap. */
  lemma LiveApart(h: Heap, g: Shadow, full: set<nat>, a: nat, b: nat)
    requires Ok(h, g, full) && a in g.live && b in g.live && a < b
    ensures a + g.live[a] <= b
  {
    hide Ok, BlockOff, Size;
    OkLive(h, g, full, a);
    OkLive(h, g, full, b);
    var t := TypeOf(h.refs[g.owner[a / 4096].r]);
    BlockFits(t, a % 4096);
    if a / 4096 == b / 4096 {
      BlocksApart(t, a % 4096, b % 4096);
    }
  }

  lemma OkBig(h: Heap, g: Shadow, full: set<nat>, p: nat)
    requires Ok(h, g, full) && p in g.big
    ensures p % 4096 == 0 && g.big[p] > 0 && p / 4096 in g.owner && p > 0
    ensures forall n | p / 4096 <= n < p / 4096 + g.big[p] :: n in g.owner && g.owner[n] == Big(p)
  {
    hide ListsOk, RefOk, LiveOk;
    assert p / 4096 in g.owner && OwnerIs(h, g, p / 4096);
  }

  /** A live block and a big allocation do not overlap, nor do two big allocations. */
  lemma BigApart(h: Heap, g: Shadow, full: set<nat>, p: nat, a: nat)
    requires Ok(h, g, full) && p in g.big
    ensures a in g.live ==> a + g.live[a] <= p || p + 4096 * g.big[p] <= a
    ensures a in g.big && a != p ==> a + 4096 * g.big[a] <= p || p + 4096 * g.big[p] <= a
  {
    hide Ok, BlockOff, Size;
    OkBig(h, g, full, p);
    if a in g.live {
      OkLive(h, g, full, a);
      BlockFits(TypeOf(h.refs[g.owner[a / 4096].r]), a % 4096);
      assert !(p / 4096 <= a / 4096 < p / 4096 + g.big[p]);
    }
    if a in g.big && a != p {
      OkBig(h, g, full, a);
      var n := if a / 4096 <= p / 4096 then p / 4096 else a / 4096;
      assert p / 4096 <= n < p / 4096 + g.big[p] ==> g.owner[n] == Big(p);
      assert a / 4096 <= n < a / 4096 + g.big[a] ==> g.owner[n] == Big(a);
    }
  }

  /** A live block is aligned to its size. */
  lemma LiveAligned(h: Heap, g: Shadow, full: set<nat>, a: nat)
    requires Ok(h, g, full) && a in g.live
    ensures g.live[a] > 0 && a % g.live[a] == 0 && a > 0
  {
    hide Ok, BlockOff, Size;
    OkLive(h, g, full, a);
    var t := TypeOf(h.refs[g.owner[a / 4096].r]);
    AddrJoin(a);
    AlignedInPage(t, a / 4096, a % 4096);
  }

  // --- Taking a block off a free list, and putting one on ------------------------------

  /** Only the free list of pageref r differs, and perhaps words of memory. */
  ghost predicate SameBut(h: Heap, g: Shadow, h': Heap, g': Shadow, r: nat) {
    && Sized(h, g) && Sized(h', g') && r < NPAGEREFS
    && h'.inuse == h.inuse && h'.sizebases == h.sizebases && h'.allbase == h.allbase
    && h'.refs == h.refs[r := h.refs[r].(offset := h'.refs[r].offset, nfree := h'.refs[r].nfree)]
    && g' == g.(free := g.free[r := g'.free[r]], live := g'.live)
  }

  lemma SameButLists(h: Heap, g: Shadow, h': Heap, g': Shadow, r: nat)
    requires SameBut(h, g, h', g', r) && ListsOk(h, g)
    ensures ListsOk(h', g')
  {
    assert Sames(h'.refs) == Sames(h.refs) && Alls(h'.refs) == Alls(h.refs);
    hide Chain;
  }

  lemma SameButOwners(h: Heap, g: Shadow, h': Heap, g': Shadow, r: nat)
    requires SameBut(h, g, h', g', r) && OwnersOk(h, g)
    ensures OwnersOk(h', g')
  {
    forall n | n in g'.owner ensures OwnerIs(h', g', n) {
      assert OwnerIs(h, g, n);
    }
  }

  /** Memory has changed at most inside the block at offset off of page p. */
  ghost predicate OnlyBlock(mem: map<nat, nat>, mem': map<nat, nat>, a: nat, size: nat) {
    forall x: nat | !(a <= x < a + size) :: Word(mem', x) == Word(mem, x)
  }

  /** A free list that does not contain the block is not disturbed. */
  lemma FreeUndisturbed(mem: map<nat, nat>, mem': map<nat, nat>, pr: PageRef, f: seq<nat>, page: nat, b: nat, off: nat)
    requires FreeOk(mem, pr, f) && BlockOff(b, off) && OnlyBlock(mem, mem', 4096 * page + off, Size(b))
    requires PageOf(pr) == page ==> TypeOf(pr) == b && off !in f
    ensures FreeOk(mem', pr, f)
  {
    forall i | 0 <= i < |f| ensures Linked(mem', PageOf(pr), f, i) {
      assert Linked(mem, PageOf(pr), f, i) && BlockOff(TypeOf(pr), f[i]);
      BlockFits(b, off);
      Outside(PageOf(pr), TypeOf(pr), f[i], page, b, off);
    }
  }

  lemma Outside(p: nat, b: nat, x: nat, q: nat, c: nat, off: nat)
    requires BlockOff(b, x) && BlockOff(c, off) && (p == q ==> b == c && x != off)
    ensures var a := 4096 * p + x; !(4096 * q + off <= a < 4096 * q + off + Size(c))
  {
    BlockFits(c, off);
    hide Size;
    if p == q {
      BlocksApart(b, if x < off then x else off, if x < off then off else x);
    }
  }

  /** The block at doalloc: the head of the free list goes, and its word becomes the new
      head. */
  function Popped(h: Heap, r: nat): Heap
    requires r < |h.refs| && h.refs[r].nfree > 0
  {
    var pr := h.refs[r];
    var next := Word(h.mem, 4096 * PageOf(pr) + pr.offset);
    h.(refs := h.refs[r := pr.(nfree := pr.nfree - 1,
                               offset := if next != 0 && next >= 4096 * PageOf(pr)
                                         then next - 4096 * PageOf(pr) else INVALID)])
  }

  ghost function PoppedG(h: Heap, g: Shadow, r: nat): Shadow
    requires r < |h.refs| && r < |g.free| && g.free[r] != []
  {
    g.(free := g.free[r := g.free[r][1..]],
       live := g.live[4096 * PageOf(h.refs[r]) + g.free[r][0] := Size(TypeOf(h.refs[r]))])
  }

  lemma PopFree(h: Heap, g: Shadow, r: nat)
    requires Sized(h, g) && r < NPAGEREFS && FreeOk(h.mem, h.refs[r], g.free[r]) && g.free[r] != []
    requires PageOf(h.refs[r]) > 0
    ensures h.refs[r].nfree > 0 && h.refs[r].offset == g.free[r][0] < 4096
    ensures FreeOk(h.mem, Popped(h, r).refs[r], g.free[r][1..])
    ensures var next := Word(h.mem, 4096 * PageOf(h.refs[r]) + h.refs[r].offset);
            && (next != 0 ==> h.refs[r].nfree > 1 && 0 <= next - 4096 * PageOf(h.refs[r]) < 4096)
            && (next == 0 ==> h.refs[r].nfree == 1)
  {
    var f, pr := g.free[r], h.refs[r];
    assert Linked(h.mem, PageOf(pr), f, 0) && BlockOff(TypeOf(pr), f[0]);
    assert |f| > 1 ==> BlockOff(TypeOf(pr), f[1]);
    forall i | 0 <= i < |f| - 1 ensures Linked(h.mem, PageOf(pr), f[1..], i) {
      assert Linked(h.mem, PageOf(pr), f, i + 1);
    }
  }

  lemma PopOk(h: Heap, g: Shadow, full: set<nat>, r: nat)
    requires Ok(h, g, full) && InUse(h.inuse, r) && g.free[r] != []
    ensures h.refs[r].nfree > 0 && h.refs[r].offset == g.free[r][0]
    ensures Ok(Popped(h, r), PoppedG(h, g, r), full - {r})
    ensures var a := 4096 * PageOf(h.refs[r]) + g.free[r][0]; a !in g.live && a > 0
  {
    hide ListsOk, OwnersOk, LiveOk;
    assert RefOk(h, g, r, full);
    OwnedPage(h, g, full, r);
    PopFree(h, g, r);
    var h', g' := Popped(h, r), PoppedG(h, g, r);
    SameButLists(h, g, h', g', r);
    SameButOwners(h, g, h', g', r);
    PopLive(h, g, full, r);
    forall s: nat | InUse(h'.inuse, s) ensures RefOk(h', g', s, full - {r}) {
      assert RefOk(h, g, s, full);
    }
  }

  lemma OwnedPage(h: Heap, g: Shadow, full: set<nat>, r: nat)
    requires Ok(h, g, full) && InUse(h.inuse, r)
    ensures Sized(h, g) && RefOk(h, g, r, full) && PageOf(h.refs[r]) > 0
    ensures PageOf(h.refs[r]) in g.owner && g.owner[PageOf(h.refs[r])] == Sub(r)
    ensures forall n | n in g.owner && g.owner[n] == Sub(r) :: n == PageOf(h.refs[r])
    ensures forall s: nat | InUse(h.inuse, s) && PageOf(h.refs[s]) == PageOf(h.refs[r]) :: s == r
  {
    hide ListsOk, LiveOk, FreeOk;
    assert RefOk(h, g, r, full) && OwnerIs(h, g, PageOf(h.refs[r]));
    forall n | n in g.owner && g.owner[n] == Sub(r) ensures n == PageOf(h.refs[r]) {
      assert OwnerIs(h, g, n);
    }
    forall s: nat | InUse(h.inuse, s) && PageOf(h.refs[s]) == PageOf(h.refs[r]) ensures s == r {
      assert RefOk(h, g, s, full);
    }
  }

  /** h, g and h', g' agree except that block off of pageref r is free in the first and
      live in the second. */
  ghost predicate Toggled(h: Heap, g: Shadow, h': Heap, g': Shadow, r: nat, off: nat) {
    && SameBut(h, g, h', g', r) && InUse(h.inuse, r) && BlockOff(TypeOf(h.refs[r]), off)
    && PageOf(h.refs[r]) in g.owner && g.owner[PageOf(h.refs[r])] == Sub(r)
    && (forall n | n in g.owner && g.owner[n] == Sub(r) :: n == PageOf(h.refs[r]))
    && (forall x :: x in g.free[r] <==> x in g'.free[r] || x == off) && off !in g'.free[r]
    && var a := 4096 * PageOf(h.refs[r]) + off;
       && a !in g.live && g'.live == g.live[a := Size(TypeOf(h.refs[r]))]
  }

  lemma ToggledHas(h: Heap, g: Shadow, h': Heap, g': Shadow, r: nat, off: nat, x: nat)
    requires Toggled(h, g, h', g', r, off) && x != 4096 * PageOf(h.refs[r]) + off
    ensures LiveHas(h, g, x) <==> LiveHas(h', g', x)
  {
    hide Size, Aligned;
    AddrSplit(PageOf(h.refs[r]), off);
    AddrJoin(x);
  }

  lemma ToggledNew(h: Heap, g: Shadow, h': Heap, g': Shadow, r: nat, off: nat)
    requires Toggled(h, g, h', g', r, off)
    ensures LiveHas(h', g', 4096 * PageOf(h.refs[r]) + off)
  {
    hide Size, Aligned;
    AddrSplit(PageOf(h.refs[r]), off);
  }

  lemma ToggledOn(h: Heap, g: Shadow, h': Heap, g': Shadow, r: nat, off: nat)
    requires Toggled(h, g, h', g', r, off) && LiveOk(h, g)
    ensures LiveOk(h', g')
  {
    hide LiveHas, BlockOff, Size;
    forall x | x in g'.live ensures LiveHas(h', g', x) {
      if x == 4096 * PageOf(h.refs[r]) + off {
        ToggledNew(h, g, h', g', r, off);
      } else {
        assert LiveHas(h, g, x);
        ToggledHas(h, g, h', g', r, off, x);
      }
    }
    forall s: nat, y: nat | InUse(h'.inuse, s) ensures LiveAll(h', g', s, y) {
      assert LiveAll(h, g, s, y);
    }
  }

  lemma ToggledOff(h: Heap, g: Shadow, h': Heap, g': Shadow, r: nat, off: nat)
    requires Toggled(h, g, h', g', r, off) && LiveOk(h', g')
    requires forall s: nat | InUse(h.inuse, s) :: PageOf(h.refs[s]) in g.owner && g.owner[PageOf(h.refs[s])] == Sub(s)
    ensures LiveOk(h, g)
  {
    hide LiveHas, Aligned, Size;
    forall x | x in g.live ensures LiveHas(h, g, x) {
      assert LiveHas(h', g', x);
      ToggledHas(h, g, h', g', r, off, x);
    }
    forall s: nat, y: nat | InUse(h.inuse, s) ensures LiveAll(h, g, s, y) {
      assert LiveAll(h', g', s, y);
      if BlockOff(TypeOf(h.refs[s]), y) && y !in g.free[s] {
        DifferentBlock(h, g, h', g', r, off, s, y);
      }
    }
  }

  lemma DifferentBlock(h: Heap, g: Shadow, h': Heap, g': Shadow, r: nat, off: nat, s: nat, y: nat)
    requires Toggled(h, g, h', g', r, off) && s < NPAGEREFS && y < 4096 && y !in g.free[s]
    requires 4096 * PageOf(h'.refs[s]) + y in g'.live && LiveHas(h', g', 4096 * PageOf(h'.refs[s]) + y)
    requires PageOf(h'.refs[s]) in g'.owner && g'.owner[PageOf(h'.refs[s])] == Sub(s)
    ensures 4096 * PageOf(h.refs[s]) + y in g.live
  {
    AddrSplit(PageOf(h.refs[s]), y);
    AddrSplit(PageOf(h.refs[r]), off);
  }

  lemma PopLive(h: Heap, g: Shadow, full: set<nat>, r: nat)
    requires Ok(h, g, full) && InUse(h.inuse, r) && g.free[r] != [] && h.refs[r].nfree > 0
    ensures Sized(Popped(h, r), PoppedG(h, g, r)) && LiveOk(Popped(h, r), PoppedG(h, g, r))
    ensures 4096 * PageOf(h.refs[r]) + g.free[r][0] !in g.live
  {
    hide Ok, ListsOk, OwnersOk, LiveOk, Size, FreeOk, RefOk, BlockOff;
    OkParts(h, g, full);
    OwnedPage(h, g, full, r);
    var f, h', g' := g.free[r], Popped(h, r), PoppedG(h, g, r);
    FreeHead(h, g, full, r);
    NotLive(h, g, full, r, f[0]);
    ToggledOn(h, g, h', g', r, f[0]);
  }

  lemma OkParts(h: Heap, g: Shadow, full: set<nat>)
    requires Ok(h, g, full)
    ensures Sized(h, g) && LiveOk(h, g) && OwnersOk(h, g) && ListsOk(h, g)
  {
    hide LiveOk, OwnersOk, ListsOk, RefOk;
  }

  lemma FreeHead(h: Heap, g: Shadow, full: set<nat>, r: nat)
    requires Ok(h, g, full) && InUse(h.inuse, r) && g.free[r] != []
    ensures var f := g.free[r];
            && BlockOff(TypeOf(h.refs[r]), f[0]) && f[0] < 4096 && f[0] !in f[1..]
            && forall x :: x in f <==> x in f[1..] || x == f[0]
  {
    hide LiveOk, OwnersOk, ListsOk, Aligned;
    assert RefOk(h, g, r, full);
    var f := g.free[r];
    assert f == [f[0]] + f[1..];
  }

  /** A free block is not live. */
  lemma NotLive(h: Heap, g: Shadow, full: set<nat>, r: nat, off: nat)
    requires Ok(h, g, full) && InUse(h.inuse, r) && off in g.free[r] && off < 4096
    ensures 4096 * PageOf(h.refs[r]) + off !in g.live
  {
    hide Ok, BlockOff, FreeOk;
    OwnedPage(h, g, full, r);
    AddrSplit(PageOf(h.refs[r]), off);
    if 4096 * PageOf(h.refs[r]) + off in g.live {
      OkLive(h, g, full, 4096 * PageOf(h.refs[r]) + off);
    }
  }

  /** Whoever holds a block may write what they like into it. */
  lemma ScribbleOk(h: Heap, g: Shadow, full: set<nat>, a: nat, mem: map<nat, nat>)
    requires Ok(h, g, full) && a in g.live && OnlyBlock(h.mem, mem, a, g.live[a])
    ensures Ok(h.(mem := mem), g, full)
  {
    hide LiveOk, OwnersOk, ListsOk, FreeOk, BlockOff;
    OkLive(h, g, full, a);
    var h' := h.(mem := mem);
    var r := g.owner[a / 4096].r;
    AddrJoin(a);
    forall s: nat | InUse(h'.inuse, s) ensures RefOk(h', g, s, full) {
      assert RefOk(h, g, s, full);
      FreeUndisturbed(h.mem, mem, h.refs[s], g.free[s], a / 4096, TypeOf(h.refs[r]), a % 4096);
    }
    SameLive(h, h', g);
    SameOwners(h, h', g);
    SameLists(h, h', g);
  }

  /** And so may the holder of a big allocation. */
  lemma BigScribbleOk(h: Heap, g: Shadow, full: set<nat>, p: nat, mem: map<nat, nat>)
    requires Ok(h, g, full) && p in g.big && OnlyBlock(h.mem, mem, p, 4096 * g.big[p])
    ensures Ok(h.(mem := mem), g, full)
  {
    hide LiveOk, OwnersOk, ListsOk, FreeOk, BlockOff;
    OkBig(h, g, full, p);
    var h' := h.(mem := mem);
    forall s: nat | InUse(h'.inuse, s) ensures RefOk(h', g, s, full) {
      OwnedPage(h, g, full, s);
      assert RefOk(h, g, s, full);
      OtherPages(h.mem, mem, h.refs[s], g.free[s], p / 4096, g.big[p]);
    }
    SameLive(h, h', g);
    SameOwners(h, h', g);
    SameLists(h, h', g);
  }

  lemma OtherPages(mem: map<nat, nat>, mem': map<nat, nat>, pr: PageRef, f: seq<nat>, p: nat, n: nat)
    requires FreeOk(mem, pr, f) && !(p <= PageOf(pr) < p + n) && OnlyBlock(mem, mem', 4096 * p, 4096 * n)
    ensures FreeOk(mem', pr, f)
  {
    forall i | 0 <= i < |f| ensures Linked(mem', PageOf(pr), f, i) {
      assert Linked(mem, PageOf(pr), f, i) && BlockOff(TypeOf(pr), f[i]);
    }
  }

  lemma SameLive(h: Heap, h': Heap, g: Shadow)
    requires Sized(h, g) && LiveOk(h, g) && h' == h.(mem := h'.mem)
    ensures LiveOk(h', g)
  {
    hide BlockOff, Size;
    forall a | a in g.live ensures LiveHas(h', g, a) {
      assert LiveHas(h, g, a);
    }
    forall s: nat, y: nat | InUse(h'.inuse, s) ensures LiveAll(h', g, s, y) {
      assert LiveAll(h, g, s, y);
    }
  }

  lemma SameOwners(h: Heap, h': Heap, g: Shadow)
    requires Sized(h, g) && OwnersOk(h, g) && h' == h.(mem := h'.mem)
    ensures OwnersOk(h', g)
  {
    forall n | n in g.owner ensures OwnerIs(h', g, n) {
      assert OwnerIs(h, g, n);
    }
  }

  lemma SameLists(h: Heap, h': Heap, g: Shadow)
    requires Sized(h, g) && ListsOk(h, g) && h' == h.(mem := h'.mem)
    ensures ListsOk(h', g)
  {
    hide Chain;
  }

  /** subpage_kfree: the block becomes the head of its page's free list. */
  function Pushed(h: Heap, r: nat, off: nat): Heap
    requires r < |h.refs|
  {
    var pr := h.refs[r];
    h.(mem := h.mem[4096 * PageOf(pr) + off := if pr.offset == INVALID then 0 else 4096 * PageOf(pr) + pr.offset],
       refs := h.refs[r := pr.(offset := off, nfree := pr.nfree + 1)])
  }

  ghost function PushedG(g: Shadow, r: nat, off: nat, a: nat): Shadow
    requires r < |g.free|
  {
    g.(free := g.free[r := [off] + g.free[r]], live := g.live - {a})
  }

  lemma PushFree(h: Heap, r: nat, f: seq<nat>, off: nat)
    requires r < |h.refs| && FreeOk(h.mem, h.refs[r], f) && off !in f && BlockOff(TypeOf(h.refs[r]), off)
    ensures FreeOk(Pushed(h, r, off).mem, Pushed(h, r, off).refs[r], [off] + f)
  {
    var pr, h', f' := h.refs[r], Pushed(h, r, off), [off] + f;
    var p := PageOf(pr);
    assert forall i | 0 <= i < |f| :: BlockOff(TypeOf(pr), f[i]) && f[i] < 4096;
    hide BlockOff;
    forall i | 0 <= i < |f'| ensures Linked(h'.mem, p, f', i) {
      if i > 0 {
        assert Linked(h.mem, p, f, i - 1) && f[i - 1] != off && f'[i] == f[i - 1];
      } else {
        assert f != [] ==> f'[1] == f[0];
      }
    }
  }

  lemma OkIs(h: Heap, g: Shadow, full: set<nat>)
    requires Sized(h, g) && (forall r: nat | InUse(h.inuse, r) :: RefOk(h, g, r, full))
    requires LiveOk(h, g) && OwnersOk(h, g) && ListsOk(h, g)
    ensures Ok(h, g, full)
  {
    hide RefOk, LiveOk, OwnersOk, ListsOk;
  }

  lemma OkRef(h: Heap, g: Shadow, full: set<nat>, r: nat)
    requires Ok(h, g, full) && InUse(h.inuse, r)
    ensures Sized(h, g) && RefOk(h, g, r, full)
  {
    hide RefOk, LiveOk, OwnersOk, ListsOk;
  }

  lemma PushOk(h: Heap, g: Shadow, a: nat)
    requires Ok(h, g, {}) && a in g.live
    ensures Sized(h, g) && LiveHas(h, g, a)
    ensures var r := g.owner[a / 4096].r;
            && h.refs[r].nfree < Blocks(TypeOf(h.refs[r])) && InUse(h.inuse, r) && PageOf(h.refs[r]) == a / 4096
            && Ok(Pushed(h, r, a % 4096), PushedG(g, r, a % 4096, a), {r})
  {
    hide Ok, LiveOk, OwnersOk, ListsOk, FreeOk, BlockOff, Size, Blocks;
    OkLive(h, g, {}, a);
    var r, off := g.owner[a / 4096].r, a % 4096;
    OwnedPage(h, g, {}, r);
    OkParts(h, g, {});
    AddrJoin(a);
    var h', g' := Pushed(h, r, off), PushedG(g, r, off, a);
    FreeCount(h.mem, h.refs[r], g.free[r]);
    PushFree(h, r, g.free[r], off);
    forall s: nat | InUse(h'.inuse, s) ensures RefOk(h', g', s, {r}) {
      OkRef(h, g, {}, s);
      if s != r {
        FreeUndisturbed(h.mem, h'.mem, h.refs[s], g.free[s], a / 4096, TypeOf(h.refs[r]), off);
      }
    }
    SameButLists(h, g, h', g', r);
    SameButOwners(h, g, h', g', r);
    PushLive(h, g, a);
    OkIs(h', g', {r});
  }

  lemma FreeCount(mem: map<nat, nat>, pr: PageRef, f: seq<nat>)
    requires FreeOk(mem, pr, f)
    ensures pr.nfree == |f|
  {
  }

  lemma PushLive(h: Heap, g: Shadow, a: nat)
    requires Ok(h, g, {}) && a in g.live
    ensures Sized(h, g) && LiveHas(h, g, a)
    ensures var r := g.owner[a / 4096].r;
            && Sized(Pushed(h, r, a % 4096), PushedG(g, r, a % 4096, a))
            && LiveOk(Pushed(h, r, a % 4096), PushedG(g, r, a % 4096, a))
  {
    hide Ok, LiveOk, OwnersOk, ListsOk, FreeOk, Size, RefOk, Aligned;
    OkLive(h, g, {}, a);
    var r, off := g.owner[a / 4096].r, a % 4096;
    OwnedPage(h, g, {}, r);
    AllOwned(h, g, {});
    OkParts(h, g, {});
    AddrJoin(a);
    var h', g' := Pushed(h, r, off), PushedG(g, r, off, a);
    assert g.live == g'.live[a := Size(TypeOf(h.refs[r]))];
    ToggledOff(h', g', h, g, r, off);
  }

  lemma AllOwned(h: Heap, g: Shadow, full: set<nat>)
    requires Ok(h, g, full)
    ensures forall s: nat | InUse(h.inuse, s) :: PageOf(h.refs[s]) in g.owner && g.owner[PageOf(h.refs[s])] == Sub(s)
  {
    hide LiveOk, OwnersOk, ListsOk, FreeOk;
    forall s: nat | InUse(h.inuse, s) ensures PageOf(h.refs[s]) in g.owner && g.owner[PageOf(h.refs[s])] == Sub(s) {
      assert RefOk(h, g, s, full);
    }
  }

  // --- Full pages -----------------------------------------------------------------------

  ghost function Indices(b: nat, f: seq<nat>): set<nat> {
    set i | 0 <= i < |f| :: f[i] / Size(b)
  }

  ghost function Below(n: nat): (s: set<nat>)
    ensures |s| == n && forall k: nat :: k in s <==> k < n
  {
    if n == 0 then {} else Below(n - 1) + {n - 1}
  }

  lemma BlockIndex(b: nat, off: nat)
    requires BlockOff(b, off)
    ensures off / Size(b) < Blocks(b) && off == Size(b) * (off / Size(b))
  {
    BlockFits(b, off);
    Multiple(off, Size(b));
    IndexBelow(Size(b), off / Size(b), Blocks(b));
  }

  lemma IndexBelow(s: nat, k: nat, n: nat)
    requires s > 0 && s * k + s <= s * n
    ensures k < n
  {
    if k >= n {
      Mono(s, n, k);
    }
  }

  lemma {:induction false} IndicesSize(b: nat, f: seq<nat>)
    requires forall i | 0 <= i < |f| :: BlockOff(b, f[i])
    requires forall i, j | 0 <= i < j < |f| :: f[i] != f[j]
    ensures |Indices(b, f)| == |f| && Indices(b, f) <= Below(Blocks(b))
  {
    hide Size, BlockOff, Blocks, Indices;
    if f != [] {
      var n := |f| - 1;
      var g := f[..n];
      IndicesSize(b, g);
      BlockIndex(b, f[n]);
      if f[n] / Size(b) in Indices(b, g) {
        IndexIn(b, g, f[n]);
      }
      IndicesLast(b, f);
    } else {
      NoIndices(b);
    }
  }

  lemma NoIndices(b: nat)
    ensures Indices(b, []) == {}
  {
  }

  lemma IndicesLast(b: nat, f: seq<nat>)
    requires f != []
    ensures Indices(b, f) == Indices(b, f[..|f| - 1]) + {f[|f| - 1] / Size(b)}
  {
    hide Size;
    var n := |f| - 1;
    assert forall i | 0 <= i < n :: f[i] == f[..n][i];
  }

  lemma SubsetSize(x: set<nat>, y: set<nat>)
    requires x <= y
    ensures |x| <= |y| && (|x| == |y| ==> x == y) && (|x| < |y| ==> y - x != {})
  {
    assert y == x + (y - x);
    assert |y| == |x| + |y - x|;
    assert |y - x| == 0 ==> y - x == {};
  }

  /** A free list as long as the page has blocks contains them all; a shorter one does
      not. */
  lemma AllOrSome(b: nat, f: seq<nat>)
    requires forall i | 0 <= i < |f| :: BlockOff(b, f[i])
    requires forall i, j | 0 <= i < j < |f| :: f[i] != f[j]
    ensures |f| <= Blocks(b)
    ensures |f| == Blocks(b) ==> forall off: nat | BlockOff(b, off) :: off in f
    ensures |f| < Blocks(b) ==> exists off: nat :: BlockOff(b, off) && off !in f
  {
    hide Size, Blocks, BlockOff, Indices, Below;
    IndicesSize(b, f);
    IndicesBound(b, f);
    if |f| == Blocks(b) {
      EveryBlock(b, f);
    } else {
      var off := SomeMissing(b, f);
    }
  }

  lemma IndicesBound(b: nat, f: seq<nat>)
    requires Indices(b, f) <= Below(Blocks(b))
    ensures |Indices(b, f)| <= Blocks(b) && (|Indices(b, f)| == Blocks(b) ==> Indices(b, f) == Below(Blocks(b)))
  {
    hide Size, Blocks, BlockOff, Indices;
    SubsetSize(Indices(b, f), Below(Blocks(b)));
  }

  lemma SomeMissing(b: nat, f: seq<nat>) returns (off: nat)
    requires Indices(b, f) <= Below(Blocks(b)) && |Indices(b, f)| < Blocks(b)
    ensures BlockOff(b, off) && off !in f
  {
    hide Size, Blocks, BlockOff, Indices;
    SubsetSize(Indices(b, f), Below(Blocks(b)));
    var k :| k in Below(Blocks(b)) - Indices(b, f);
    off := MissingBlock(b, f, k);
  }

  lemma EveryBlock(b: nat, f: seq<nat>)
    requires (forall i | 0 <= i < |f| :: BlockOff(b, f[i])) && Indices(b, f) == Below(Blocks(b))
    ensures forall off: nat | BlockOff(b, off) :: off in f
  {
    hide Size, Blocks, BlockOff, Indices;
    forall off: nat | BlockOff(b, off) ensures off in f {
      BlockIndex(b, off);
      IndexIn(b, f, off);
    }
  }

  lemma MissingBlock(b: nat, f: seq<nat>, k: nat) returns (off: nat)
    requires k < Blocks(b) && k !in Indices(b, f)
    ensures BlockOff(b, off) && off !in f
  {
    hide Size, Blocks, BlockOff, Indices;
    BlockOfIndex(b, k);
    off := Size(b) * k;
    if off in f {
      InIndex(b, f, off);
    }
  }

  lemma IndexIn(b: nat, f: seq<nat>, off: nat)
    requires (forall i | 0 <= i < |f| :: BlockOff(b, f[i])) && BlockOff(b, off) && off / Size(b) in Indices(b, f)
    ensures off in f
  {
    hide Size;
    var i :| 0 <= i < |f| && f[i] / Size(b) == off / Size(b);
    BlockIndex(b, f[i]);
    BlockIndex(b, off);
  }

  lemma InIndex(b: nat, f: seq<nat>, off: nat)
    requires off in f
    ensures off / Size(b) in Indices(b, f)
  {
    var i :| 0 <= i < |f| && f[i] == off;
    assert f[i] / Size(b) in Indices(b, f);
  }

  lemma BlockOfIndex(b: nat, k: nat)
    requires k < Blocks(b)
    ensures BlockOff(b, Size(b) * k) && Size(b) * k / Size(b) == k
  {
    var s := Size(b);
    Mono(s, k, Blocks(b));
    ModMul(k, s);
    Multiple(s * k, s);
    SameFactor(s, k, s * k / s);
  }

  lemma SameFactor(s: nat, x: nat, y: nat)
    requires s > 0 && s * x == s * y
    ensures x == y
  {
    Mono(s, if x <= y then x else y, if x <= y then y else x);
  }

  // --- Changing the lists -----------------------------------------------------------------

  lemma ChainFrame(nexts: seq<int>, nexts': seq<int>, head: int, l: seq<nat>)
    requires Chain(nexts, head, l) && |nexts'| == |nexts|
    requires forall x | x in l && x < |nexts| :: nexts'[x] == nexts[x]
    ensures Chain(nexts', head, l)
  {
    forall i | 0 <= i < |l| ensures Next(nexts', l, i) {
      assert Next(nexts, l, i) && l[i] in l;
    }
  }

  lemma ChainPush(nexts: seq<int>, head: int, l: seq<nat>, r: nat)
    requires Chain(nexts, head, l) && r < |nexts| && r !in l
    ensures Chain(nexts[r := head], r, [r] + l)
  {
    var l', nexts' := [r] + l, nexts[r := head];
    forall i | 0 <= i < |l'| ensures Next(nexts', l', i) {
      if i > 0 {
        assert Next(nexts, l, i - 1) && l'[i] == l[i - 1];
      }
    }
  }

  /** Unlinking the i-th element, as remove_lists does through a pointer to the pointer
      that leads to it. */
  lemma ChainRemove(nexts: seq<int>, head: int, l: seq<nat>, i: nat)
    requires Chain(nexts, head, l) && i < |l|
    ensures l[i] < |nexts| && (i > 0 ==> l[i - 1] < |nexts|)
    ensures var l' := l[..i] + l[i + 1..];
            && Chain(if i == 0 then nexts else nexts[l[i - 1] := nexts[l[i]]], if i == 0 then nexts[l[0]] else head, l')
            && forall x :: x in l' <==> x in l && x != l[i]
  {
    assert Next(nexts, l, i) && (i > 0 ==> Next(nexts, l, i - 1));
    var l' := l[..i] + l[i + 1..];
    var nexts' := if i == 0 then nexts else nexts[l[i - 1] := nexts[l[i]]];
    assert forall k | 0 <= k < |l'| :: l'[k] == l[if k < i then k else k + 1];
    forall k | 0 <= k < |l'| ensures Next(nexts', l', k) {
      assert Next(nexts, l, if k < i then k else k + 1);
    }
    forall x ensures x in l' <==> x in l && x != l[i] {
      if x in l && x != l[i] {
        var k :| 0 <= k < |l| && l[k] == x;
        assert l'[if k < i then k else k - 1] == x;
      }
    }
  }

  /** h' is h with the page of pageref r gone from the lists and the bitmap. */
  ghost predicate Dropped(h: Heap, g: Shadow, h': Heap, g': Shadow, r: nat) {
    && Sized(h, g) && Sized(h', g') && r < NPAGEREFS && h'.mem == h.mem
    && (forall s | 0 <= s < NPAGEREFS ::
          && h'.refs[s].pab == h.refs[s].pab && h'.refs[s].offset == h.refs[s].offset
          && h'.refs[s].nfree == h.refs[s].nfree)
    && (forall s: nat :: InUse(h'.inuse, s) <==> InUse(h.inuse, s) && s != r)
    && g' == g.(same := g'.same, all := g'.all, owner := g.owner - {PageOf(h.refs[r])})
  }

  /** The page goes back when its last block is freed. */
  lemma DropOk(h: Heap, g: Shadow, h': Heap, g': Shadow, r: nat)
    requires Ok(h, g, {r}) && InUse(h.inuse, r) && Dropped(h, g, h', g', r)
    requires |g.free[r]| == Blocks(TypeOf(h.refs[r]))
    requires ListsOk(h', g')
    ensures Ok(h', g', {})
    ensures forall a | a in g.live :: a / 4096 != PageOf(h.refs[r])
  {
    hide Ok, LiveOk, OwnersOk, ListsOk, Size, Blocks, FreeOk, BlockOff;
    OwnedPage(h, g, {r}, r);
    OkParts(h, g, {r});
    EmptyPage(h, g, {r}, r);
    forall s: nat | InUse(h'.inuse, s) ensures RefOk(h', g', s, {}) {
      OkRef(h, g, {r}, s);
      SameFree(h.mem, h.refs[s], h'.refs[s], g.free[s]);
    }
    DropLive(h, g, h', g', r);
    DropOwners(h, g, h', g', r);
    OkIs(h', g', {});
  }

  lemma SameFree(mem: map<nat, nat>, pr: PageRef, pr': PageRef, f: seq<nat>)
    requires FreeOk(mem, pr, f) && pr'.pab == pr.pab && pr'.offset == pr.offset && pr'.nfree == pr.nfree
    ensures FreeOk(mem, pr', f)
  {
    hide BlockOff;
    forall i | 0 <= i < |f| ensures Linked(mem, PageOf(pr'), f, i) && BlockOff(TypeOf(pr'), f[i]) {
      assert Linked(mem, PageOf(pr), f, i);
    }
  }

  /** A page whose blocks are all free has no live block; one with fewer has some. */
  lemma EmptyPage(h: Heap, g: Shadow, full: set<nat>, r: nat)
    requires Ok(h, g, full) && InUse(h.inuse, r)
    ensures |g.free[r]| == Blocks(TypeOf(h.refs[r])) <==> forall a | a in g.live :: a / 4096 != PageOf(h.refs[r])
  {
    hide Ok, OwnersOk, ListsOk, Size, Blocks, Aligned;
    OwnedPage(h, g, full, r);
    OkParts(h, g, full);
    var b, f, p := TypeOf(h.refs[r]), g.free[r], PageOf(h.refs[r]);
    AllOrSome(b, f);
    if |f| == Blocks(b) {
      forall a | a in g.live ensures a / 4096 != p {
        OkLive(h, g, full, a);
      }
    } else {
      var off: nat :| BlockOff(b, off) && off !in f;
      AddrSplit(p, off);
      assert LiveAll(h, g, r, off);
    }
  }

  lemma DropLive(h: Heap, g: Shadow, h': Heap, g': Shadow, r: nat)
    requires Dropped(h, g, h', g', r) && LiveOk(h, g) && (forall a | a in g.live :: a / 4096 != PageOf(h.refs[r]))
    ensures LiveOk(h', g')
  {
    hide BlockOff, Size;
    forall a | a in g'.live ensures LiveHas(h', g', a) {
      assert LiveHas(h, g, a);
    }
    forall s: nat, off: nat | InUse(h'.inuse, s) ensures LiveAll(h', g', s, off) {
      assert LiveAll(h, g, s, off);
    }
  }

  lemma DropOwners(h: Heap, g: Shadow, h': Heap, g': Shadow, r: nat)
    requires Dropped(h, g, h', g', r) && OwnersOk(h, g) && PageOf(h.refs[r]) in g.owner
    requires g.owner[PageOf(h.refs[r])] == Sub(r)
    requires forall n | n in g.owner && g.owner[n] == Sub(r) :: n == PageOf(h.refs[r])
    ensures OwnersOk(h', g')
  {
    forall n | n in g'.owner ensures OwnerIs(h', g', n) {
      assert OwnerIs(h, g, n);
    }
  }

  /** The free list of a fresh page, from the last block down to the first. */
  ghost function Fresh(b: nat): (f: seq<nat>)
    ensures |f| == Blocks(b) && forall i | 0 <= i < |f| :: f[i] == Size(b) * (Blocks(b) - 1 - i)
  {
    seq(Blocks(b), i requires 0 <= i < Blocks(b) => Size(b) * (Blocks(b) - 1 - i))
  }

  lemma FreshOffsets(b: nat)
    ensures forall i | 0 <= i < |Fresh(b)| :: BlockOff(b, Fresh(b)[i])
    ensures forall i, j | 0 <= i < j < |Fresh(b)| :: Fresh(b)[i] != Fresh(b)[j]
  {
    hide Size, Blocks;
    var f, n := Fresh(b), Blocks(b);
    forall i | 0 <= i < |f| ensures BlockOff(b, f[i]) {
      BlockOfIndex(b, n - 1 - i);
    }
    forall i, j | 0 <= i < j < |f| ensures f[i] != f[j] {
      BlockOfIndex(b, n - 1 - i);
      BlockOfIndex(b, n - 1 - j);
    }
  }

  /** h' is h with pageref r set up for page p, all of whose blocks are free. */
  ghost predicate Made(h: Heap, g: Shadow, h': Heap, g': Shadow, r: nat, p: nat, b: nat) {
    && Sized(h, g) && Sized(h', g') && r < NPAGEREFS && b < NSIZES && !InUse(h.inuse, r)
    && p in g.owner && g.owner[p] == Hand
    && (forall s | 0 <= s < NPAGEREFS && s != r :: h'.refs[s] == h.refs[s])
    && TypeOf(h'.refs[r]) == b && PageOf(h'.refs[r]) == p && FreeOk(h'.mem, h'.refs[r], Fresh(b))
    && OnlyBlock(h.mem, h'.mem, 4096 * p, 4096)
    && (forall s: nat :: InUse(h'.inuse, s) <==> InUse(h.inuse, s) || s == r)
    && g' == g.(free := g.free[r := Fresh(b)], same := g'.same, all := g'.all, owner := g.owner[p := Sub(r)])
  }

  lemma MadeOk(h: Heap, g: Shadow, h': Heap, g': Shadow, r: nat, p: nat, b: nat)
    requires Ok(h, g, {}) && Made(h, g, h', g', r, p, b) && ListsOk(h', g')
    ensures Ok(h', g', {r})
  {
    hide Ok, LiveOk, OwnersOk, ListsOk, Size, Blocks, FreeOk, BlockOff, Fresh;
    OkParts(h, g, {});
    assert |Fresh(b)| == Blocks(b);
    forall s: nat | InUse(h'.inuse, s) ensures RefOk(h', g', s, {r}) {
      if s != r {
        OkRef(h, g, {}, s);
        OtherPage(h.mem, h'.mem, h.refs[s], g.free[s], p);
      }
    }
    MadeOwners(h, g, h', g', r, p, b);
    MadeLive(h, g, h', g', r, p, b);
    OkIs(h', g', {r});
  }

  lemma OtherPage(mem: map<nat, nat>, mem': map<nat, nat>, pr: PageRef, f: seq<nat>, p: nat)
    requires FreeOk(mem, pr, f) && PageOf(pr) != p && OnlyBlock(mem, mem', 4096 * p, 4096)
    ensures FreeOk(mem', pr, f)
  {
    forall i | 0 <= i < |f| ensures Linked(mem', PageOf(pr), f, i) {
      assert Linked(mem, PageOf(pr), f, i) && BlockOff(TypeOf(pr), f[i]);
    }
  }

  lemma MadeLive(h: Heap, g: Shadow, h': Heap, g': Shadow, r: nat, p: nat, b: nat)
    requires Made(h, g, h', g', r, p, b) && LiveOk(h, g)
    requires forall n | n in g.owner :: g.owner[n] != Sub(r)
    ensures LiveOk(h', g')
  {
    hide Size, FreeOk, Fresh, BlockOff, Blocks;
    AllOrSomeFresh(b);
    forall a | a in g'.live ensures LiveHas(h', g', a) {
      assert LiveHas(h, g, a);
    }
    forall s: nat, off: nat | InUse(h'.inuse, s) ensures LiveAll(h', g', s, off) {
      assert s != r ==> LiveAll(h, g, s, off);
    }
  }

  lemma AllOrSomeFresh(b: nat)
    ensures forall off: nat | BlockOff(b, off) :: off in Fresh(b)
  {
    hide Size, Blocks, BlockOff;
    FreshOffsets(b);
    AllOrSome(b, Fresh(b));
  }

  lemma MadeOwners(h: Heap, g: Shadow, h': Heap, g': Shadow, r: nat, p: nat, b: nat)
    requires Made(h, g, h', g', r, p, b) && OwnersOk(h, g)
    ensures OwnersOk(h', g') && forall n | n in g.owner :: g.owner[n] != Sub(r)
  {
    hide Size, FreeOk, Fresh, BlockOff;
    assert OwnerIs(h, g, p);
    forall n | n in g'.owner ensures OwnerIs(h', g', n) {
      assert n != p ==> OwnerIs(h, g, n);
    }
    forall n | n in g.owner ensures g.owner[n] != Sub(r) {
      assert OwnerIs(h, g, n);
    }
  }
}
