/** vm/kmalloc.c: kmalloc and kfree.

    Each method is one stretch of code under kmalloc_spinlock, or outside it. Other
    threads may run any of them where a call has dropped the lock, which is why
    `AllocFresh` relies on nothing but the invariant and on the page it brings along.
    alloc_kpages is a parameter: it hands out pages that are not in use, or fails.
  */
module Kmalloc {
  import opened Bytes
  import opened KHeap
  import opened KSpace

  class Allocator {
    var mem: map<nat, nat>
    var refs: seq<PageRef>
    var inuse: seq<nat>
    var sizebases: seq<int>
    var allbase: int
    ghost var g: Shadow

    function H(): Heap
      reads this
    {
      Heap(mem, refs, inuse, sizebases, allbase)
    }

    ghost predicate Valid()
      reads this
    {
      Ok(H(), g, {})
    }

    /** The allocator's static data at boot. */
    constructor ()
      ensures Valid() && g.live == map[] && g.big == map[] && g.owner == map[]
    {
      mem := map[];
      refs := seq(256, _ => PageRef(NULL, NULL, 0, 0, 0));
      inuse := seq(8, _ => 0);
      sizebases := seq(8, _ => NULL);
      allbase := NULL;
      g := Shadow(seq(256, _ => []), seq(8, _ => []), [], map[], map[], map[]);
      new;
      forall r: nat ensures !InUse(inuse, r) {
        BitOfZero(r % 32);
      }
    }

    /** allocpageref: the lowest free pageref. That a word with a clear bit yields one is the
        `assert false`. */
    method AllocPageref() returns (r: int)
      requires |inuse| == 8 && forall i | 0 <= i < 8 :: inuse[i] < 0x1_0000_0000
      modifies this`inuse
      ensures |inuse| == 8 && forall i | 0 <= i < 8 :: inuse[i] < 0x1_0000_0000
      ensures r == NULL ==> inuse == old(inuse) && forall s: nat | s < NPAGEREFS :: InUse(inuse, s)
      ensures r != NULL ==>
                && 0 <= r < NPAGEREFS && !InUse(old(inuse), r) && (forall s: nat | s < r :: InUse(old(inuse), s))
                && forall s: nat :: InUse(inuse, s) <==> InUse(old(inuse), s) || s == r
    {
      var i := 0;
      while i < 8
        invariant 0 <= i <= 8 && inuse == old(inuse)
        invariant forall s: nat | s < 32 * i :: InUse(inuse, s)
      {
        WordFull(inuse[i]);
        if inuse[i] != 0xffff_ffff {
          var j := 0;
          while j < 32
            invariant 0 <= j <= 32 && inuse == old(inuse)
            invariant forall k | 0 <= k < j :: Bit(inuse[i], k)
          {
            if !Bit(inuse[i], j) {
              r := i * 32 + j;
              MarkOne(inuse, r);
              inuse := Marked(inuse, r);
              return;
            }
            j := j + 1;
          }
          assert false;
        }
        WordUsed(inuse, i);
        i := i + 1;
      }
      r := NULL;
    }

    /** freepageref */
    method FreePageref(r: nat)
      requires |inuse| == 8 && (forall i | 0 <= i < 8 :: inuse[i] < 0x1_0000_0000) && InUse(inuse, r)
      modifies this`inuse
      ensures |inuse| == 8 && forall i | 0 <= i < 8 :: inuse[i] < 0x1_0000_0000
      ensures forall s: nat :: InUse(inuse, s) <==> InUse(old(inuse), s) && s != r
    {
      ClearOne(inuse, r);
      inuse := Cleared(inuse, r);
    }

    /** blocktype: the smallest size that is enough. */
    method BlockType(sz: nat) returns (b: nat)
      requires sz <= 2048
      ensures Smallest(b, sz)
    {
      b := 0;
      while b < NSIZES
        invariant 0 <= b <= NSIZES && (b > 0 ==> Size(b - 1) < sz)
      {
        if sz <= Size(b) {
          return;
        }
        b := b + 1;
      }
    }

    /** The code at doalloc: the first block of a page's free list is handed out. The
        KASSERTs are the assertions. */
    method PopBlock(r: nat, ghost full: set<nat>) returns (ptr: nat)
      requires Ok(H(), g, full) && InUse(inuse, r) && g.free[r] != []
      modifies this
      ensures Ok(H(), g, full - {r}) && ptr > 0 && ptr !in old(g).live
      ensures mem == old(mem) && r < |old(refs)| && ptr / 4096 == PageOf(old(refs)[r])
      ensures g == old(g).(free := g.free, live := old(g).live[ptr := Size(TypeOf(old(refs)[r]))])
    {
      hide Ok, Size;
      PopOk(H(), g, full, r);
      OwnedPage(H(), g, full, r);
      PopFree(H(), g, r);
      var pr := refs[r];
      assert pr.offset < PAGE;
      var prpage := 4096 * PageOf(pr);
      ptr := prpage + pr.offset;
      var fl := Word(mem, ptr);
      AddrSplit(PageOf(pr), pr.offset);
      if fl != 0 {
        assert pr.nfree - 1 > 0 && fl - prpage < PAGE;
        refs := refs[r := pr.(nfree := pr.nfree - 1, offset := fl - prpage)];
      } else {
        assert pr.nfree - 1 == 0;
        refs := refs[r := pr.(nfree := pr.nfree - 1, offset := INVALID)];
      }
      g := PoppedG(old(H()), g, r);
    }

    /** The first half of subpage_kmalloc: a block from a page that has one free, or 0 exactly if
        no page with blocks of that size has room for another. */
    method TryAlloc(b: nat) returns (ptr: nat)
      requires Valid() && b < NSIZES
      modifies this
      ensures Valid() && mem == old(mem)
      ensures ptr == 0 <==> !HasHole(old(g).live, Size(b))
      ensures ptr == 0 ==> H() == old(H()) && g == old(g)
      ensures ptr != 0 ==> ptr !in old(g).live && g == old(g).(free := g.free, live := old(g).live[ptr := Size(b)])
      ensures ptr != 0 ==> ptr / 4096 in PagesIn(old(g).live)
    {
      hide Ok, Size, InUse, ListsOk, FreeOk, RefOk, HasHole, PagesIn;
      OkParts(H(), g, {});
      SameList(H(), g, b);
      HoleExactly(H(), g, b);
      var pr := sizebases[b];
      ghost var i := 0;
      ptr := 0;
      while pr != NULL
        invariant H() == old(H()) && g == old(g) && 0 <= i <= |g.same[b]|
        invariant pr == (if i < |g.same[b]| then g.same[b][i] else NULL)
        invariant forall k | 0 <= k < i :: g.same[b][k] < NPAGEREFS && refs[g.same[b][k]].nfree == 0
        decreases |g.same[b]| - i
      {
        SameMember(H(), g, {}, b, i);
        assert TypeOf(refs[pr]) == b;
        if refs[pr].nfree > 0 {
          PageInUse(H(), g, pr);
          ptr := PopBlock(pr, {});
          ghost var none: set<nat> := {};
          assert none - {pr} == none;
          return;
        }
        pr := refs[pr].nextSame;
        i := i + 1;
      }
    }

    /** Threads the free list through a fresh page, first block last. */
    method ThreadPage(p: nat, b: nat)
      requires b < NSIZES
      modifies this`mem
      ensures OnlyBlock(old(mem), mem, 4096 * p, 4096)
      ensures forall k: nat | k < Blocks(b) :: Threaded(mem, p, b, k)
    {
      hide Size, Blocks, Threaded, BlockAddr, OnlyBlock;
      var n := Blocks(b);
      ghost var m0 := mem;
      BlockAddrIn(p, b, 0);
      OnlyBlockStep(m0, mem, p, BlockAddr(p, b, 0), 0);
      FirstThreaded(mem, p, b);
      mem := mem[BlockAddr(p, b, 0) := 0];
      var i := 1;
      while i < n
        invariant 1 <= i <= n && OnlyBlock(m0, mem, 4096 * p, 4096)
        invariant forall k: nat | k < i :: Threaded(mem, p, b, k)
      {
        BlockAddrIn(p, b, i);
        ThreadStep(mem, p, b, i);
        OnlyBlockStep(m0, mem, p, BlockAddr(p, b, i), BlockAddr(p, b, i - 1));
        mem := mem[BlockAddr(p, b, i) := BlockAddr(p, b, i - 1)];
        i := i + 1;
      }
    }

    /** The second half of subpage_kmalloc, with the lock taken again: the page p that
        alloc_kpages gave becomes a page of blocks of type b, and its first block is
        handed out. Without a free pageref the page goes back and 0 is returned. */
    method AllocFresh(p: nat, b: nat) returns (ptr: nat)
      requires Valid() && b < NSIZES && p in g.owner && g.owner[p] == Hand
      modifies this
      ensures Valid() && g.big == old(g).big && OnlyBlock(old(mem), mem, 4096 * p, 4096)
      ensures ptr == 0 <==> |PagesIn(old(g).live)| == NPAGEREFS
      ensures ptr == 0 ==> g.live == old(g).live && g.owner == old(g).owner - {p}
      ensures ptr != 0 ==> ptr !in old(g).live && ptr / 4096 == p && g.live == old(g).live[ptr := Size(b)]
      ensures ptr != 0 ==> p in g.owner && g.owner[p].Sub? && g.owner == old(g).owner[p := g.owner[p]]
    {
      hide Ok, Size, Blocks, InUse, ListsOk, FreeOk, RefOk, LiveOk, OwnersOk, Fresh, PagesIn;
      OkParts(H(), g, {});
      ghost var h0, g0 := H(), g;
      PagesExactly(H(), g);
      var r := AllocPageref();
      if r == NULL {
        GivenBack(H(), g, p);
        g := g.(owner := g.owner - {p});
        return 0;
      }
      SetUp(r, p, b, h0, g0);
      ptr := PopBlock(r, {r});
      ghost var full: set<nat> := {r};
      assert full - {r} == {};
    }

    /** Pageref r is filled in for page p and put on its lists. */
    method SetUp(r: nat, p: nat, b: nat, ghost h0: Heap, ghost g0: Shadow)
      requires Ok(h0, g0, {}) && Sized(h0, g0) && h0 == H().(inuse := h0.inuse) && g0 == g && b < NSIZES
      requires p in g.owner && g.owner[p] == Hand
      requires r < NPAGEREFS && !InUse(h0.inuse, r)
      requires (forall s: nat :: InUse(inuse, s) <==> InUse(h0.inuse, s) || s == r)
      requires |inuse| == 8 && forall i | 0 <= i < 8 :: inuse[i] < 0x1_0000_0000
      modifies this
      ensures Ok(H(), g, {r}) && InUse(inuse, r) && TypeOf(refs[r]) == b && PageOf(refs[r]) == p && g.free[r] != []
      ensures g.big == g0.big && g.live == g0.live && g.owner == g0.owner[p := Sub(r)]
      ensures OnlyBlock(old(mem), mem, 4096 * p, 4096)
    {
      hide Ok, Size, Blocks, InUse, ListsOk, FreeOk, RefOk, LiveOk, OwnersOk, Fresh;
      OkParts(h0, g0, {});
      ThreadPage(p, b);
      refs := refs[r := PageRef(sizebases[b], allbase, MkPab(4096 * p, b), Size(b) * (Blocks(b) - 1), Blocks(b))];
      assert TypeOf(refs[r]) == b && PageOf(refs[r]) == p;
      sizebases := sizebases[b := r];
      allbase := r;
      g := g.(free := g.free[r := Fresh(b)], same := g.same[b := [r] + g.same[b]], all := [r] + g.all,
              owner := g.owner[p := Sub(r)]);
      FreshFree(mem, refs[r], p, b);
      MadeLists(h0, g0, H(), g, r, p, b);
      MadeOk(h0, g0, H(), g, r, p, b);
    }

    /** The first loop of remove_lists: `prev` is the pageref whose link leads to `guy`, or
        NULL for the base. */
    method UnlinkSame(r: nat, b: nat, ghost l: seq<nat>) returns (ghost l': seq<nat>)
      requires |refs| == NPAGEREFS && |sizebases| == NSIZES && b < NSIZES
      requires Chain(Sames(refs), sizebases[b], l) && r in l
      modifies this`refs, this`sizebases
      ensures |refs| == NPAGEREFS && |sizebases| == NSIZES && Chain(Sames(refs), sizebases[b], l')
      ensures (forall x :: x in l' <==> x in l && x != r)
      ensures (forall c | 0 <= c < NSIZES && c != b :: sizebases[c] == old(sizebases)[c])
      ensures forall s | 0 <= s < NPAGEREFS ::
                refs[s] == old(refs)[s].(nextSame := refs[s].nextSame) && (s !in l ==> refs[s] == old(refs)[s])
    {
      hide Chain;
      ghost var i := 0;
      ChainHead(Sames(refs), sizebases[b], l);
      var prev, guy := NULL, sizebases[b];
      while guy != NULL
        invariant refs == old(refs) && sizebases == old(sizebases) && 0 <= i <= |l|
        invariant (forall k | 0 <= k < i :: l[k] != r)
        invariant guy == (if i < |l| then l[i] else NULL) && prev == (if i == 0 then NULL else l[i - 1])
        decreases |l| - i
      {
        ChainAt(Sames(refs), sizebases[b], l, i);
        if guy == r {
          ChainRemove(Sames(refs), sizebases[b], l, i);
          l' := l[..i] + l[i + 1..];
          ghost var nexts := Sames(refs);
          if prev == NULL {
            sizebases := sizebases[b := refs[r].nextSame];
          } else {
            refs := refs[prev := refs[prev].(nextSame := refs[r].nextSame)];
            assert Sames(refs) == nexts[prev := nexts[r]];
          }
          return;
        }
        prev := guy;
        guy := refs[guy].nextSame;
        i := i + 1;
      }
      assert false;
    }

    /** The second loop. */
    method UnlinkAll(r: nat, ghost l: seq<nat>) returns (ghost l': seq<nat>)
      requires |refs| == NPAGEREFS && Chain(Alls(refs), allbase, l) && r in l
      modifies this`refs, this`allbase
      ensures |refs| == NPAGEREFS && Chain(Alls(refs), allbase, l') && (forall x :: x in l' <==> x in l && x != r)
      ensures forall s | 0 <= s < NPAGEREFS :: refs[s] == old(refs)[s].(nextAll := refs[s].nextAll)
    {
      hide Chain;
      ghost var i := 0;
      ChainHead(Alls(refs), allbase, l);
      var prev, guy := NULL, allbase;
      while guy != NULL
        invariant refs == old(refs) && allbase == old(allbase) && 0 <= i <= |l| && (forall k | 0 <= k < i :: l[k] != r)
        invariant guy == (if i < |l| then l[i] else NULL) && prev == (if i == 0 then NULL else l[i - 1])
        decreases |l| - i
      {
        ChainAt(Alls(refs), allbase, l, i);
        if guy == r {
          ChainRemove(Alls(refs), allbase, l, i);
          l' := l[..i] + l[i + 1..];
          ghost var nexts := Alls(refs);
          if prev == NULL {
            allbase := refs[r].nextAll;
          } else {
            refs := refs[prev := refs[prev].(nextAll := refs[r].nextAll)];
            assert Alls(refs) == nexts[prev := nexts[r]];
          }
          return;
        }
        prev := guy;
        guy := refs[guy].nextAll;
        i := i + 1;
      }
      assert false;
    }

    /** remove_lists and freepageref, for a page all of whose blocks are free. */
    method DropPage(r: nat)
      requires Ok(H(), g, {r}) && InUse(inuse, r) && |g.free[r]| == Blocks(TypeOf(refs[r]))
      modifies this
      ensures Valid() && g.live == old(g).live && g.big == old(g).big && |old(refs)| == NPAGEREFS && mem == old(mem)
      ensures g.owner == old(g).owner - {PageOf(old(refs)[r])}
      ensures forall a | a in g.live :: a / 4096 != PageOf(old(refs)[r])
    {
      hide Ok, Size, Blocks, InUse, ListsOk, FreeOk, RefOk, LiveOk, OwnersOk, Chain;
      OkParts(H(), g, {r});
      OwnedType(H(), g, {r}, r);
      ghost var h0, g0, b := H(), g, TypeOf(refs[r]);
      ListFacts(H(), g);
      ghost var l := UnlinkSame(r, TypeOf(refs[r]), g.same[b]);
      ghost var h1 := H();
      assert Alls(refs) == Alls(h0.refs);
      ghost var m := UnlinkAll(r, g.all);
      FreePageref(r);
      g := g.(same := g.same[b := l], all := m, owner := g.owner - {PageOf(h0.refs[r])});
      DroppedLists(h0, g0, h1, H(), g, r, b);
      DropOk(h0, g0, H(), g, r);
    }

    /** fill_deadbeef */
    method FillDeadbeef(ptr: nat, len: nat)
      modifies this`mem
      ensures OnlyBlock(old(mem), mem, ptr, len)
    {
      var i := 0;
      while i < len / 4
        invariant 0 <= i <= len / 4 && OnlyBlock(old(mem), mem, ptr, len)
      {
        mem := mem[ptr + 4 * i := 0xdead_beef];
        i := i + 1;
      }
    }

    /** Whoever was given a block writes into it. */
    method Write(ptr: nat, at: nat, value: nat)
      requires Valid() && ptr in g.live && ptr <= at < ptr + g.live[ptr]
      modifies this`mem
      ensures Valid() && Word(mem, at) == value && OnlyBlock(old(mem), mem, ptr, g.live[ptr])
    {
      hide Ok;
      ScribbleOk(H(), g, {}, ptr, mem[at := value]);
      mem := mem[at := value];
    }

    /** Whoever was given whole pages writes into them. */
    method WriteBig(ptr: nat, at: nat, value: nat)
      requires Valid() && ptr in g.big && ptr <= at < ptr + 4096 * g.big[ptr]
      modifies this`mem
      ensures Valid() && Word(mem, at) == value && OnlyBlock(old(mem), mem, ptr, 4096 * g.big[ptr])
    {
      hide Ok;
      BigScribbleOk(H(), g, {}, ptr, mem[at := value]);
      mem := mem[at := value];
    }

    /** The loop of subpage_kfree: the pageref whose page ptr is on, or NULL. */
    method FindPage(ptr: nat) returns (pr: int)
      requires Valid()
      ensures pr == NULL ==> ptr / 4096 !in g.owner || !g.owner[ptr / 4096].Sub?
      ensures pr != NULL ==>
                && 0 <= pr && InUse(inuse, pr) && PageOf(refs[pr]) == ptr / 4096 && ptr / 4096 in g.owner
                && g.owner[ptr / 4096] == Sub(pr)
    {
      hide Ok, InUse, ListsOk, RefOk, OwnersOk, LiveOk;
      OkParts(H(), g, {});
      AllList(H(), g, ptr / 4096);
      pr := allbase;
      ghost var i := 0;
      while pr != NULL
        invariant 0 <= i <= |g.all| && pr == (if i < |g.all| then g.all[i] else NULL)
        invariant forall k | 0 <= k < i :: g.all[k] < NPAGEREFS && PageOf(refs[g.all[k]]) != ptr / 4096
        decreases |g.all| - i
      {
        AllMember(H(), g, {}, i);
        assert TypeOf(refs[pr]) < NSIZES;
        if ptr / 4096 == PageOf(refs[pr]) {
          OwnedPage(H(), g, {}, pr);
          return;
        }
        pr := refs[pr].nextAll;
        i := i + 1;
      }
    }

    /** subpage_kfree: a block goes back on its page's free list; with the last block the
        page is returned, as the result `page`, to free_kpages. A pointer that is on none
        of our pages is left alone. The panic for a misplaced pointer is the first
        assertion. */
    method SubpageKfree(ptr: nat) returns (found: bool, page: nat)
      requires Valid() && (ptr in g.live || ptr in g.big)
      modifies this
      ensures Valid() && found == (ptr in old(g).live) && g.big == old(g).big
      ensures !found ==> g == old(g) && H() == old(H())
      ensures found ==>
                g.live == old(g).live - {ptr} && g.owner == if page != 0 then old(g).owner - {page} else old(g).owner
      ensures found ==> OnlyBlock(old(mem), mem, ptr, old(g).live[ptr]) && ptr / 4096 in old(g).owner
      ensures found ==>
                (page == 0 || page == ptr / 4096) && (page != 0 <==> forall a | a in g.live :: a / 4096 != ptr / 4096)
    {
      hide Ok, Size, Blocks, InUse, ListsOk, FreeOk, LiveOk, OwnersOk;
      page := 0;
      FreeFacts(H(), g, ptr);
      var pr := FindPage(ptr);
      if pr == NULL {
        return false, 0;
      }
      found := true;
      OwnedType(H(), g, {}, pr);
      OkLive(H(), g, {}, ptr);
      var b, offset := TypeOf(refs[pr]), ptr % 4096;
      assert offset < PAGE && offset % Size(b) == 0;
      ghost var m := mem;
      FillDeadbeef(ptr, Size(b));
      ScribbleOk(old(H()), g, {}, ptr, mem);
      PushOk(H(), g, ptr);
      AddrJoin(ptr);
      var p := refs[pr];
      mem := mem[ptr := if p.offset == INVALID then 0 else 4096 * PageOf(p) + p.offset];
      refs := refs[pr := p.(offset := offset, nfree := p.nfree + 1)];
      g := PushedG(g, pr, offset, ptr);
      assert p.nfree + 1 <= Blocks(b);
      OwnedType(H(), g, {pr as nat}, pr);
      EmptyPage(H(), g, {pr as nat}, pr);
      if p.nfree + 1 == Blocks(b) {
        OwnedPage(H(), g, {pr as nat}, pr);
        page := PageOf(p);
        DropPage(pr);
      } else {
        NotFull(H(), g, pr);
      }
    }

    /** kfree: the subpage allocator is tried first and takes exactly its own blocks. `page`
        is a page of blocks that goes back, or 0. */
    method Kfree(ptr: nat) returns (bigPath: bool, page: nat)
      requires Valid() && (ptr == 0 || ptr in g.live || ptr in g.big)
      modifies this
      ensures Valid() && (ptr == 0 ==> g == old(g)) && (ptr != 0 ==> (bigPath <==> ptr in old(g).big))
      ensures ptr in old(g).live ==> g.live == old(g).live - {ptr} && g.big == old(g).big
      ensures ptr in old(g).live ==> g.owner == if page != 0 then old(g).owner - {page} else old(g).owner
      ensures ptr in old(g).live ==> ptr / 4096 in old(g).owner && (page == 0 || page == ptr / 4096)
      ensures ptr in old(g).live ==> (page != 0 <==> forall a | a in g.live :: a / 4096 != ptr / 4096)
      ensures if ptr in old(g).live then OnlyBlock(old(mem), mem, ptr, old(g).live[ptr]) else mem == old(mem)
      ensures ptr in old(g).big ==> g == WithoutBig(old(g), ptr)
      ensures forall n | n in old(g).owner && old(g).owner[n] == Hand :: n in g.owner && g.owner[n] == Hand
      ensures forall n | n in g.owner :: n in old(g).owner && g.owner[n] == old(g).owner[n]
    {
      hide Ok, OnlyBlock;
      bigPath, page := false, 0;
      if ptr == 0 {
        NullNotLive(H(), g);
        return;
      }
      FreeFacts(H(), g, ptr);
      var found;
      found, page := SubpageKfree(ptr);
      if !found {
        assert ptr % PAGE == 0;
        bigPath := true;
        BigGone(H(), g, ptr);
        g := WithoutBig(g, ptr);
      } else {
        FreeFacts(old(H()), old(g), ptr);
      }
    }

    /** alloc_kpages has handed out page p; the lock is not held. */
    ghost method TakePage(p: nat)
      requires Valid() && p !in g.owner && p > 0
      modifies this`g
      ensures Valid() && g == old(g).(owner := old(g).owner[p := Hand])
    {
      PageTaken(H(), g, p);
      g := g.(owner := g.owner[p := Hand]);
    }

    /** kmalloc of whole pages. alloc_kpages answers with `where`: 0, or the address of as
        many fresh pages as asked for. A request above 0xfffff000 bytes asks for no page
        at all, and whatever address comes back has none behind it. */
    method BigKmalloc(sz: nat, where: nat) returns (ptr: nat)
      requires Valid() && 2048 <= sz < 0x1_0000_0000
      requires where != 0 ==>
                 where % 4096 == 0 && forall n | where / 4096 <= n < where / 4096 + PagesFor(sz) :: n !in g.owner
      modifies this`g
      ensures Valid() && ptr == where && (ptr == 0 || sz > 0xffff_f000 ==> g == old(g))
      ensures ptr != 0 && sz <= 0xffff_f000 ==>
                ptr !in old(g).big && g == WithBig(old(g), ptr, PagesFor(sz)) && sz <= 4096 * PagesFor(sz)
    {
      var npages := PagesFor(sz);
      EnoughPages(sz);
      ptr := where;
      if ptr != 0 && npages > 0 {
        BigTaken(H(), g, where, npages);
        g := WithBig(g, where, npages);
      }
    }

    /** kmalloc, with nothing happening in the unlocked window. A small request gets a new block of the
        smallest size that is enough. It gets 0 exactly if all the pages with blocks of that size are
        full and there is no page, or no record for one. A big request gets whatever alloc_kpages
        gave; but one whose page count overflows gets an address and no memory. */
    method Kmalloc(sz: nat, where: nat) returns (ptr: nat)
      requires Valid() && sz < 0x1_0000_0000
      requires where != 0 ==>
                 && where % 4096 == 0
                 && forall n | where / 4096 <= n < where / 4096 + (if sz >= 2048 then PagesFor(sz) else 1) ::
                      n !in g.owner
      modifies this
      ensures Valid()
      ensures ptr == 0 || sz > 0xffff_f000 ==> g.live == old(g).live && g.big == old(g).big
      ensures sz < 2048 ==>
                forall b | Smallest(b, sz) ::
                  && (ptr == 0 <==> !HasHole(old(g).live, Size(b)) &&
                                    (where == 0 || |PagesIn(old(g).live)| == NPAGEREFS))
                  && (ptr != 0 ==> ptr !in old(g).live && g.live == old(g).live[ptr := Size(b)] && g.big == old(g).big)
      ensures sz >= 2048 ==> ptr == where
      ensures ptr != 0 && 2048 <= sz <= 0xffff_f000 ==>
                && ptr !in old(g).big && ptr in g.big && sz <= 4096 * g.big[ptr]
                && g.big == old(g).big[ptr := g.big[ptr]] && g.live == old(g).live
      ensures forall n | n in old(g).owner && old(g).owner[n] == Hand :: n in g.owner && g.owner[n] == Hand
    {
      hide Ok, Size, InUse, HasHole, PagesIn, Smallest;
      if sz >= 2048 {
        ptr := BigKmalloc(sz, where);
        return;
      }
      var b := BlockType(sz);
      forall c | Smallest(c, sz) ensures c == b {
        SmallestOne(b, c, sz);
      }
      SmallestType(b, sz);
      ptr := TryAlloc(b);
      if ptr == 0 && where != 0 {
        TakePage(where / 4096);
        ptr := AllocFresh(where / 4096, b);
      }
    }
  }

  lemma SmallestType(b: nat, sz: nat)
    requires Smallest(b, sz)
    ensures b < NSIZES && sz <= Size(b)
  {
  }

  /** A page with free blocks has live ones too. */
  lemma PageInUse(h: Heap, g: Shadow, r: nat)
    requires Ok(h, g, {}) && InUse(h.inuse, r)
    ensures r < |h.refs| && PageOf(h.refs[r]) in PagesIn(g.live)
  {
    hide Ok, Blocks, Size, InUse;
    OkParts(h, g, {});
    OkRef(h, g, {}, r);
    EmptyPage(h, g, {}, r);
  }

  /** The page count of a big request, in 32-bit arithmetic. */
  function PagesFor(sz: nat): nat {
    (sz + 4095) % 0x1_0000_0000 / 4096
  }

  /** Exactly the requests above 0xfffff000 bytes overflow, and then get no page at all. */
  lemma EnoughPages(sz: nat)
    requires 2048 <= sz < 0x1_0000_0000
    ensures 4096 * PagesFor(sz) >= sz <==> sz <= 0xffff_f000
    ensures sz <= 0xffff_f000 ==> PagesFor(sz) > 0
    ensures sz > 0xffff_f000 ==> PagesFor(sz) == 0
  {
  }

  lemma OverflowExample()
    ensures PagesFor(0xffff_ffff) == 0
  {
  }

  ghost function WithBig(g: Shadow, p: nat, n: nat): Shadow {
    g.(big := g.big[p := n],
       owner := map m | m in g.owner.Keys + PageSet(p / 4096, n) ::
                  if p / 4096 <= m < p / 4096 + n then Big(p) else g.owner[m])
  }

  function PageSet(p: nat, n: nat): (s: set<nat>)
    ensures forall m :: m in s <==> p <= m < p + n
  {
    if n == 0 then {} else PageSet(p, n - 1) + {p + n - 1}
  }

  lemma AllList(h: Heap, g: Shadow, n: nat)
    requires Sized(h, g) && ListsOk(h, g) && OwnersOk(h, g)
    ensures h.allbase == if g.all == [] then NULL else g.all[0]
    ensures n in g.owner && g.owner[n].Sub? ==>
              g.owner[n].r in g.all && g.owner[n].r < NPAGEREFS && PageOf(h.refs[g.owner[n].r]) == n
  {
    assert n in g.owner ==> OwnerIs(h, g, n);
  }

  /** Where a pointer that may be freed lies. */
  lemma FreeFacts(h: Heap, g: Shadow, ptr: nat)
    requires Ok(h, g, {}) && (ptr in g.live || ptr in g.big)
    ensures ptr / 4096 in g.owner && (ptr in g.live <==> g.owner[ptr / 4096].Sub?)
    ensures (ptr in g.big <==> g.owner[ptr / 4096].Big?)
    ensures ptr in g.big ==> ptr % 4096 == 0 && ptr !in g.live
  {
    hide Ok, BlockOff;
    if ptr in g.live {
      OkLive(h, g, {}, ptr);
    }
    if ptr in g.big {
      OkBig(h, g, {}, ptr);
      assert g.owner[ptr / 4096] == Big(ptr);
    }
  }

  lemma NullNotLive(h: Heap, g: Shadow)
    requires Ok(h, g, {})
    ensures 0 !in g.live && 0 !in g.big
  {
    hide Ok;
    if 0 in g.live {
      LiveAligned(h, g, {}, 0);
    }
    OkParts(h, g, {});
    if 0 in g.big {
      OkBig(h, g, {}, 0);
    }
  }

  lemma NotFull(h: Heap, g: Shadow, r: nat)
    requires Ok(h, g, {r}) && InUse(h.inuse, r) && |g.free[r]| < Blocks(TypeOf(h.refs[r]))
    ensures Ok(h, g, {})
  {
    hide Ok, LiveOk, OwnersOk, ListsOk, FreeOk;
    OkParts(h, g, {r});
    forall s: nat | InUse(h.inuse, s) ensures RefOk(h, g, s, {}) {
      OkRef(h, g, {r}, s);
    }
    OkIs(h, g, {});
  }

  lemma BigGone(h: Heap, g: Shadow, p: nat)
    requires Ok(h, g, {}) && p in g.big
    ensures Ok(h, WithoutBig(g, p), {})
  {
    hide Ok, ListsOk, FreeOk, LiveOk, OwnersOk, Blocks;
    OkParts(h, g, {});
    var g' := WithoutBig(g, p);
    forall s: nat | InUse(h.inuse, s) ensures RefOk(h, g', s, {}) {
      OkRef(h, g, {}, s);
    }
    OwnerLive(h, g, g');
    OwnerLists(h, g, g');
    GoneOwners(h, g, p);
    OkIs(h, g', {});
  }

  ghost function WithoutBig(g: Shadow, p: nat): Shadow {
    g.(big := g.big - {p}, owner := map n | n in g.owner && g.owner[n] != Big(p) :: g.owner[n])
  }

  lemma GoneOwners(h: Heap, g: Shadow, p: nat)
    requires Sized(h, g) && OwnersOk(h, g)
    ensures OwnersOk(h, WithoutBig(g, p))
  {
    var g' := WithoutBig(g, p);
    forall n | n in g'.owner ensures OwnerIs(h, g', n) {
      assert OwnerIs(h, g, n);
    }
    forall q, n | q in g'.big && q / 4096 <= n < q / 4096 + g'.big[q] ensures n in g'.owner && g'.owner[n] == Big(q) {
      assert n in g.owner && g.owner[n] == Big(q);
    }
  }

  lemma PageTaken(h: Heap, g: Shadow, p: nat)
    requires Ok(h, g, {}) && p !in g.owner && p > 0
    ensures Ok(h, g.(owner := g.owner[p := Hand]), {})
  {
    hide Ok, ListsOk, FreeOk, LiveOk, Blocks;
    OkParts(h, g, {});
    var g' := g.(owner := g.owner[p := Hand]);
    forall s: nat | InUse(h.inuse, s) ensures RefOk(h, g', s, {}) {
      OkRef(h, g, {}, s);
    }
    OwnerLive(h, g, g');
    OwnerLists(h, g, g');
    assert OwnersOk(h, g') by {
      forall n | n in g'.owner ensures OwnerIs(h, g', n) {
        assert n != p ==> OwnerIs(h, g, n);
      }
    }
    OkIs(h, g', {});
  }

  lemma BigTaken(h: Heap, g: Shadow, p: nat, n: nat)
    requires Ok(h, g, {}) && p > 0 && p % 4096 == 0 && n > 0 && forall m | p / 4096 <= m < p / 4096 + n :: m !in g.owner
    ensures Ok(h, WithBig(g, p, n), {}) && p !in g.big
  {
    hide Ok, ListsOk, FreeOk, LiveOk, OwnersOk, Blocks;
    OkParts(h, g, {});
    if p in g.big {
      OkBig(h, g, {}, p);
    }
    var g' := WithBig(g, p, n);
    forall s: nat | InUse(h.inuse, s) ensures RefOk(h, g', s, {}) {
      OkRef(h, g, {}, s);
    }
    OwnerLive(h, g, g');
    OwnerLists(h, g, g');
    TakenOwners(h, g, p, n);
    OkIs(h, g', {});
  }

  lemma TakenOwners(h: Heap, g: Shadow, p: nat, n: nat)
    requires Sized(h, g) && OwnersOk(h, g) && p > 0 && p % 4096 == 0 && n > 0 && p !in g.big
    requires forall m | p / 4096 <= m < p / 4096 + n :: m !in g.owner
    ensures OwnersOk(h, WithBig(g, p, n))
  {
    var g' := WithBig(g, p, n);
    forall m | m in g'.owner ensures OwnerIs(h, g', m) {
      assert m in g.owner ==> OwnerIs(h, g, m);
    }
    forall q, m | q in g'.big && q / 4096 <= m < q / 4096 + g'.big[q] ensures m in g'.owner && g'.owner[m] == Big(q) {
      assert q != p ==> m in g.owner && g.owner[m] == Big(q);
    }
  }

  lemma WordRange()
    ensures Pow2(32) == 0x1_0000_0000
  {
    assert Pow2(4) == 16;
    assert Pow2(8) == 0x100;
    assert Pow2(10) == 0x400;
    assert Pow2(12) == 0x1000;
    assert Pow2(14) == 0x4000;
    assert Pow2(16) == 0x1_0000;
    assert Pow2(18) == 0x4_0000;
    assert Pow2(20) == 0x10_0000;
    assert Pow2(22) == 0x40_0000;
    assert Pow2(24) == 0x100_0000;
    assert Pow2(26) == 0x400_0000;
    assert Pow2(28) == 0x1000_0000;
    assert Pow2(30) == 0x4000_0000;
  }

  lemma WordFull(w: nat)
    requires w < 0x1_0000_0000
    ensures w == 0xffff_ffff <==> forall k | 0 <= k < 32 :: Bit(w, k)
  {
    WordRange();
    AllBitsSet(w, 32);
  }

  lemma WordBits(w: nat, j: nat)
    requires w < 0x1_0000_0000 && j < 32
    ensures SetBit(w, j) < 0x1_0000_0000 && ClearBit(w, j) < 0x1_0000_0000
  {
    hide SetBit, ClearBit, Pow2;
    WordRange();
    BitsStayInRange(w, j, 32);
  }

  function Marked(inuse: seq<nat>, r: nat): seq<nat>
    requires r / 32 < |inuse|
  {
    inuse[r / 32 := SetBit(inuse[r / 32], r % 32)]
  }

  function Cleared(inuse: seq<nat>, r: nat): seq<nat>
    requires r / 32 < |inuse|
  {
    inuse[r / 32 := ClearBit(inuse[r / 32], r % 32)]
  }

  lemma MarkOne(inuse: seq<nat>, r: nat)
    requires |inuse| == 8 && r < NPAGEREFS && inuse[r / 32] < 0x1_0000_0000
    ensures Marked(inuse, r)[r / 32] < 0x1_0000_0000
    ensures forall s: nat :: InUse(Marked(inuse, r), s) <==> InUse(inuse, s) || s == r
  {
    hide SetBit, Bit;
    WordBits(inuse[r / 32], r % 32);
    forall s: nat ensures InUse(Marked(inuse, r), s) <==> InUse(inuse, s) || s == r {
      BitOfSetBit(inuse[r / 32], r % 32, s % 32);
      assert s == 32 * (s / 32) + s % 32 && r == 32 * (r / 32) + r % 32;
    }
  }

  lemma ClearOne(inuse: seq<nat>, r: nat)
    requires |inuse| == 8 && r < NPAGEREFS && inuse[r / 32] < 0x1_0000_0000
    ensures Cleared(inuse, r)[r / 32] < 0x1_0000_0000
    ensures forall s: nat :: InUse(Cleared(inuse, r), s) <==> InUse(inuse, s) && s != r
  {
    hide ClearBit, Bit;
    WordBits(inuse[r / 32], r % 32);
    forall s: nat ensures InUse(Cleared(inuse, r), s) <==> InUse(inuse, s) && s != r {
      BitOfClearBit(inuse[r / 32], r % 32, s % 32);
      assert s == 32 * (s / 32) + s % 32 && r == 32 * (r / 32) + r % 32;
    }
  }

  lemma WordUsed(inuse: seq<nat>, i: nat)
    requires i < |inuse| == 8 && (forall s: nat | s < 32 * i :: InUse(inuse, s))
    requires forall k | 0 <= k < 32 :: Bit(inuse[i], k)
    ensures forall s: nat | s < 32 * (i + 1) :: InUse(inuse, s)
  {
    forall s: nat | 32 * i <= s < 32 * (i + 1) ensures InUse(inuse, s) {
      assert s / 32 == i && 0 <= s % 32 < 32;
    }
  }

  /** The address of block k of page p. */
  function BlockAddr(p: nat, b: nat, k: nat): nat {
    4096 * p + Size(b) * k
  }

  ghost predicate Threaded(mem: map<nat, nat>, p: nat, b: nat, k: nat) {
    Word(mem, BlockAddr(p, b, k)) == if k == 0 then 0 else BlockAddr(p, b, k - 1)
  }

  lemma BlockAddrIn(p: nat, b: nat, k: nat)
    requires k < Blocks(b)
    ensures 4096 * p <= BlockAddr(p, b, k) < 4096 * p + 4096
  {
    hide Size, Aligned;
    BlockOfIndex(b, k);
  }

  lemma OnlyBlockStep(m0: map<nat, nat>, m: map<nat, nat>, p: nat, x: nat, v: nat)
    requires (m == m0 || OnlyBlock(m0, m, 4096 * p, 4096)) && 4096 * p <= x < 4096 * p + 4096
    ensures OnlyBlock(m0, m[x := v], 4096 * p, 4096)
  {
  }

  lemma FirstThreaded(was: map<nat, nat>, p: nat, b: nat)
    ensures Threaded(was[BlockAddr(p, b, 0) := 0], p, b, 0)
  {
    hide BlockAddr;
  }

  lemma ThreadStep(was: map<nat, nat>, p: nat, b: nat, i: nat)
    requires 0 < i < Blocks(b) && forall k: nat | k < i :: Threaded(was, p, b, k)
    ensures var mem := was[BlockAddr(p, b, i) := BlockAddr(p, b, i - 1)];
            forall k: nat | k < i + 1 :: Threaded(mem, p, b, k)
  {
    hide Blocks, BlockAddr;
    var mem := was[BlockAddr(p, b, i) := BlockAddr(p, b, i - 1)];
    forall k: nat | k < i + 1 ensures Threaded(mem, p, b, k) {
      if k < i {
        assert Threaded(was, p, b, k);
        BlockAddrApart(p, b, k, i);
      }
    }
  }

  lemma BlockAddrApart(p: nat, b: nat, k: nat, i: nat)
    requires k < i
    ensures BlockAddr(p, b, k) < BlockAddr(p, b, i)
  {
    hide Size;
    Mono(Size(b), k, i);
  }

  /** What the lists of a well-formed heap say, one entry at a time. */
  lemma SameList(h: Heap, g: Shadow, b: nat)
    requires Sized(h, g) && ListsOk(h, g) && b < NSIZES
    ensures h.sizebases[b] == if g.same[b] == [] then NULL else g.same[b][0]
    ensures forall r: nat | InUse(h.inuse, r) && TypeOf(h.refs[r]) == b :: r in g.same[b]
  {
  }

  lemma SameMember(h: Heap, g: Shadow, full: set<nat>, b: nat, i: nat)
    requires Ok(h, g, full) && b < NSIZES && i < |g.same[b]|
    ensures Sized(h, g) && g.same[b][i] < NPAGEREFS
    ensures var r := g.same[b][i];
            && InUse(h.inuse, r) && TypeOf(h.refs[r]) == b && h.refs[r].nfree == |g.free[r]|
            && h.refs[r].nextSame == if i + 1 < |g.same[b]| then g.same[b][i + 1] else NULL
  {
    hide LiveOk, OwnersOk;
    var r := g.same[b][i];
    assert Next(Sames(h.refs), g.same[b], i) && r in g.same[b];
    assert RefOk(h, g, r, full);
  }

  lemma AllMember(h: Heap, g: Shadow, full: set<nat>, i: nat)
    requires Ok(h, g, full) && i < |g.all|
    ensures Sized(h, g) && g.all[i] < NPAGEREFS
    ensures var r := g.all[i];
            && InUse(h.inuse, r) && TypeOf(h.refs[r]) < NSIZES && h.refs[r].nfree == |g.free[r]|
            && h.refs[r].nextAll == if i + 1 < |g.all| then g.all[i + 1] else NULL
  {
    hide LiveOk, OwnersOk;
    var r := g.all[i];
    assert Next(Alls(h.refs), g.all, i) && r in g.all;
    assert RefOk(h, g, r, full);
  }

  /** A page in hand that is given back, or taken. */
  lemma GivenBack(h: Heap, g: Shadow, p: nat)
    requires Ok(h, g, {}) && p in g.owner && g.owner[p] == Hand
    ensures Ok(h, g.(owner := g.owner - {p}), {})
  {
    hide Ok, ListsOk, FreeOk, LiveOk, OwnersOk, Blocks;
    OkParts(h, g, {});
    var g' := g.(owner := g.owner - {p});
    forall s: nat | InUse(h.inuse, s) ensures RefOk(h, g', s, {}) {
      OkRef(h, g, {}, s);
    }
    OwnerLive(h, g, g');
    OwnerLists(h, g, g');
    BackOwners(h, g, p);
    OkIs(h, g', {});
  }

  lemma OwnerLive(h: Heap, g: Shadow, g': Shadow)
    requires Sized(h, g) && LiveOk(h, g) && g' == g.(owner := g'.owner, big := g'.big)
    requires forall n | n in g.owner && g.owner[n].Sub? :: n in g'.owner && g'.owner[n] == g.owner[n]
    ensures LiveOk(h, g')
  {
    hide BlockOff, Size;
    forall a | a in g'.live ensures LiveHas(h, g', a) {
      assert LiveHas(h, g, a);
    }
    forall s: nat, off: nat | InUse(h.inuse, s) ensures LiveAll(h, g', s, off) {
      assert LiveAll(h, g, s, off);
    }
  }

  lemma OwnerLists(h: Heap, g: Shadow, g': Shadow)
    requires Sized(h, g) && ListsOk(h, g) && g' == g.(owner := g'.owner, big := g'.big)
    ensures ListsOk(h, g')
  {
    hide Chain;
  }

  lemma BackOwners(h: Heap, g: Shadow, p: nat)
    requires Sized(h, g) && OwnersOk(h, g) && p in g.owner && g.owner[p] == Hand
    ensures OwnersOk(h, g.(owner := g.owner - {p}))
  {
    var g' := g.(owner := g.owner - {p});
    forall n | n in g'.owner ensures OwnerIs(h, g', n) {
      assert OwnerIs(h, g, n);
    }
  }

  /** The freshly threaded page has the free list `Fresh`. */
  lemma FreshFree(mem: map<nat, nat>, pr: PageRef, p: nat, b: nat)
    requires b < NSIZES && TypeOf(pr) == b && PageOf(pr) == p && pr.nfree == Blocks(b)
    requires pr.offset == Size(b) * (Blocks(b) - 1)
    requires forall k: nat | k < Blocks(b) :: Threaded(mem, p, b, k)
    ensures FreeOk(mem, pr, Fresh(b))
  {
    hide Size, BlockOff, Blocks, Fresh;
    FreshOffsets(b);
    var f, n := Fresh(b), Blocks(b);
    forall i | 0 <= i < |f| ensures Linked(mem, p, f, i) {
      assert Threaded(mem, p, b, n - 1 - i);
      assert f[i] == Size(b) * (n - 1 - i);
      assert i + 1 < n ==> f[i + 1] == Size(b) * (n - 1 - (i + 1));
    }
  }

  lemma MadeLists(h: Heap, g: Shadow, h': Heap, g': Shadow, r: nat, p: nat, b: nat)
    requires Made(h, g, h', g', r, p, b) && ListsOk(h, g)
    requires h'.refs[r].nextSame == h.sizebases[b] && h'.refs[r].nextAll == h.allbase
    requires h'.sizebases == h.sizebases[b := r] && h'.allbase == r
    requires g'.same == g.same[b := [r] + g.same[b]] && g'.all == [r] + g.all
    ensures ListsOk(h', g')
  {
    hide Chain, FreeOk, Fresh, Size;
    assert Sames(h'.refs) == Sames(h.refs)[r := h.sizebases[b]];
    assert Alls(h'.refs) == Alls(h.refs)[r := h.allbase];
    assert r !in g.all && r !in g.same[b];
    ChainPush(Alls(h.refs), h.allbase, g.all, r);
    ChainPush(Sames(h.refs), h.sizebases[b], g.same[b], r);
    forall c | 0 <= c < NSIZES ensures Chain(Sames(h'.refs), h'.sizebases[c], g'.same[c]) {
      if c != b {
        ChainFrame(Sames(h.refs), Sames(h'.refs), h.sizebases[c], g.same[c]);
      }
    }
    forall c, s: nat | 0 <= c < NSIZES ensures s in g'.same[c] <==> InUse(h'.inuse, s) && TypeOf(h'.refs[s]) == c {
      assert s in g.same[c] <==> InUse(h.inuse, s) && TypeOf(h.refs[s]) == c;
    }
  }

  lemma ChainHead(nexts: seq<int>, head: int, l: seq<nat>)
    requires Chain(nexts, head, l)
    ensures head == if l == [] then NULL else l[0]
  {
  }

  lemma ChainAt(nexts: seq<int>, head: int, l: seq<nat>, i: nat)
    requires Chain(nexts, head, l) && i < |l|
    ensures l[i] < |nexts| && nexts[l[i]] == if i + 1 < |l| then l[i + 1] else NULL
  {
    assert Next(nexts, l, i);
  }

  lemma OwnedType(h: Heap, g: Shadow, full: set<nat>, r: nat)
    requires Ok(h, g, full) && InUse(h.inuse, r)
    ensures Sized(h, g) && r < NPAGEREFS && TypeOf(h.refs[r]) < NSIZES && h.refs[r].nfree == |g.free[r]|
  {
    hide LiveOk, OwnersOk, ListsOk;
    assert RefOk(h, g, r, full);
  }

  lemma ListFacts(h: Heap, g: Shadow)
    requires Sized(h, g) && ListsOk(h, g)
    ensures Chain(Alls(h.refs), h.allbase, g.all)
    ensures (forall b | 0 <= b < NSIZES :: Chain(Sames(h.refs), h.sizebases[b], g.same[b]))
    ensures forall r: nat :: r in g.all <==> InUse(h.inuse, r)
    ensures forall b, r: nat | 0 <= b < NSIZES :: r in g.same[b] <==> InUse(h.inuse, r) && TypeOf(h.refs[r]) == b
  {
    hide Chain;
  }

  lemma DroppedLists(h: Heap, g: Shadow, h1: Heap, h': Heap, g': Shadow, r: nat, b: nat)
    requires Sized(h, g) && ListsOk(h, g) && Dropped(h, g, h', g', r) && b < NSIZES && TypeOf(h.refs[r]) == b
    requires |h1.refs| == NPAGEREFS && |h1.sizebases| == NSIZES && h1.sizebases == h'.sizebases
    requires forall s | 0 <= s < NPAGEREFS ::
               && h1.refs[s] == h.refs[s].(nextSame := h1.refs[s].nextSame)
               && (s !in g.same[b] ==> h1.refs[s] == h.refs[s])
    requires forall s | 0 <= s < NPAGEREFS :: h'.refs[s] == h1.refs[s].(nextAll := h'.refs[s].nextAll)
    requires forall c | 0 <= c < NSIZES && c != b :: h1.sizebases[c] == h.sizebases[c]
    requires Chain(Sames(h1.refs), h1.sizebases[b], g'.same[b])
    requires forall x :: x in g'.same[b] <==> x in g.same[b] && x != r
    requires Chain(Alls(h'.refs), h'.allbase, g'.all) && forall x :: x in g'.all <==> x in g.all && x != r
    requires g'.same == g.same[b := g'.same[b]]
    ensures ListsOk(h', g')
  {
    hide Chain;
    assert Sames(h'.refs) == Sames(h1.refs);
    forall c | 0 <= c < NSIZES ensures Chain(Sames(h'.refs), h'.sizebases[c], g'.same[c]) {
      if c != b {
        forall x | x in g.same[c] && x < NPAGEREFS ensures Sames(h'.refs)[x] == Sames(h.refs)[x] {
          assert x !in g.same[b];
        }
        ChainFrame(Sames(h.refs), Sames(h'.refs), h.sizebases[c], g.same[c]);
      }
    }
    forall c, s: nat | 0 <= c < NSIZES ensures s in g'.same[c] <==> InUse(h'.inuse, s) && TypeOf(h'.refs[s]) == c {
      assert s in g.same[c] <==> InUse(h.inuse, s) && TypeOf(h.refs[s]) == c;
    }
  }
}
