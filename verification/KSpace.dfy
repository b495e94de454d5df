/** What free memory the subpage allocator (vm/kmalloc.c) has, told from the blocks it has handed
    out alone.
  */
module KSpace {
  import opened KHeap

  /** The smallest block size that is enough for sz bytes. */
  ghost predicate Smallest(b: nat, sz: nat) {
    b < NSIZES && sz <= Size(b) && (b > 0 ==> Size(b - 1) < sz)
  }

  lemma SizesDiffer(b: nat, c: nat)
    requires b < NSIZES && c < NSIZES && Size(b) == Size(c)
    ensures b == c
  {
  }

  lemma SmallestOne(b: nat, c: nat, sz: nat)
    requires Smallest(b, sz) && Smallest(c, sz)
    ensures b == c
  {
  }

  /** c is a place for a block of size s, on the page of such a block, and nobody has it. */
  ghost predicate Hole(live: map<nat, nat>, s: nat, a: nat, c: nat) {
    a in live && live[a] == s && c / 4096 == a / 4096 && s > 0 && c % s == 0 && c !in live
  }

  ghost predicate HasHole(live: map<nat, nat>, s: nat) {
    exists a, c: nat :: Hole(live, s, a, c)
  }

  /** The pages with blocks. */
  ghost function PagesIn(live: map<nat, nat>): set<nat> {
    set a | a in live :: a / 4096
  }

  /** Some page of the type has a free block. */
  ghost predicate HasFree(h: Heap, b: nat) {
    exists r: nat :: InUse(h.inuse, r) && r < |h.refs| && TypeOf(h.refs[r]) == b && h.refs[r].nfree > 0
  }

  lemma FreeIsHole(h: Heap, g: Shadow, r: nat)
    requires Ok(h, g, {}) && InUse(h.inuse, r) && r < |h.refs| && h.refs[r].nfree > 0
    ensures TypeOf(h.refs[r]) < NSIZES && HasHole(g.live, Size(TypeOf(h.refs[r])))
  {
    hide Ok, Size, Blocks, OwnersOk, ListsOk, LiveOk;
    OwnedPage(h, g, {}, r);
    OkParts(h, g, {});
    OkRef(h, g, {}, r);
    EmptyPage(h, g, {}, r);
    var p, b, off := PageOf(h.refs[r]), TypeOf(h.refs[r]), g.free[r][0];
    var a :| a in g.live && a / 4096 == p;
    OkLive(h, g, {}, a);
    AddrSplit(p, off);
    AlignedInPage(b, p, off);
    NotLive(h, g, {}, r, off);
    assert Hole(g.live, Size(b), a, 4096 * p + off);
  }

  lemma HoleIsFree(h: Heap, g: Shadow, b: nat, a: nat, c: nat)
    requires Ok(h, g, {}) && b < NSIZES && Hole(g.live, Size(b), a, c)
    ensures HasFree(h, b)
  {
    hide Ok, Blocks, OwnersOk, ListsOk;
    OkLive(h, g, {}, a);
    OkParts(h, g, {});
    var r := g.owner[a / 4096].r;
    OkRef(h, g, {}, r);
    SizesDiffer(b, TypeOf(h.refs[r]));
    InPage(b, c);
    AddrJoin(c);
    assert LiveAll(h, g, r, c % 4096);
    assert c % 4096 in g.free[r];
  }

  lemma InPage(b: nat, c: nat)
    requires c % Size(b) == 0
    ensures BlockOff(b, c % 4096)
  {
    var s := Size(b);
    var p, off := c / 4096, c % 4096;
    AddrJoin(c);
    Multiple(c, s);
    var k := 4096 / s;
    assert off == s * (c / s) - s * (k * p) == s * (c / s - k * p) by {
      assert 4096 * p == s * k * p == s * (k * p);
    }
    Positive(s, c / s - k * p, off);
    ModMul(c / s - k * p, s);
  }

  lemma Positive(s: nat, d: int, x: nat)
    requires s > 0 && x == s * d
    ensures d >= 0
  {
  }

  lemma HoleExactly(h: Heap, g: Shadow, b: nat)
    requires Ok(h, g, {}) && b < NSIZES
    ensures HasFree(h, b) <==> HasHole(g.live, Size(b))
  {
    hide Ok, Hole, Size;
    if HasFree(h, b) {
      var r: nat :| InUse(h.inuse, r) && r < |h.refs| && TypeOf(h.refs[r]) == b && h.refs[r].nfree > 0;
      FreeIsHole(h, g, r);
    }
    if HasHole(g.live, Size(b)) {
      var a, c: nat :| Hole(g.live, Size(b), a, c);
      HoleIsFree(h, g, b, a, c);
    }
  }

  // --- Page records -----------------------------------------------------------------------

  ghost function Records(inuse: seq<nat>): set<nat> {
    set r: nat | r < NPAGEREFS && InUse(inuse, r)
  }

  ghost function PagesOf(refs: seq<PageRef>, s: set<nat>): set<nat> {
    set r | r in s && r < |refs| :: PageOf(refs[r])
  }

  lemma {:induction false} OneEach(refs: seq<PageRef>, s: set<nat>)
    requires forall r | r in s :: r < |refs|
    requires forall r, q | r in s && q in s && PageOf(refs[r]) == PageOf(refs[q]) :: r == q
    ensures |PagesOf(refs, s)| == |s|
  {
    hide PageOf;
    if s == {} {
      assert PagesOf(refs, s) == {};
    } else {
      var r :| r in s;
      OneEach(refs, s - {r});
      assert PagesOf(refs, s) == PagesOf(refs, s - {r}) + {PageOf(refs[r])};
    }
  }

  /** Every page with blocks has exactly one record. */
  lemma PagesExactly(h: Heap, g: Shadow)
    requires Ok(h, g, {})
    ensures |PagesIn(g.live)| == |Records(h.inuse)|
    ensures |PagesIn(g.live)| == NPAGEREFS <==> forall r: nat | r < NPAGEREFS :: InUse(h.inuse, r)
  {
    hide Ok, InUse, PagesIn, PagesOf, PageOf;
    var s := Records(h.inuse);
    OkParts(h, g, {});
    forall r, q | r in s && q in s && PageOf(h.refs[r]) == PageOf(h.refs[q]) ensures r == q {
      OwnedPage(h, g, {}, r);
      OwnedPage(h, g, {}, q);
    }
    OneEach(h.refs, s);
    forall p ensures p in PagesIn(g.live) <==> p in PagesOf(h.refs, s) {
      PageHasRecord(h, g, p);
    }
    assert PagesIn(g.live) == PagesOf(h.refs, s);
    FullSet(s, NPAGEREFS);
    assert forall r: nat | r < NPAGEREFS :: r in s <==> InUse(h.inuse, r);
  }

  lemma PageHasRecord(h: Heap, g: Shadow, p: nat)
    requires Ok(h, g, {})
    ensures Sized(h, g) && (p in PagesIn(g.live) <==> p in PagesOf(h.refs, Records(h.inuse)))
  {
    hide Ok, Blocks, Size, BlockOff;
    OkParts(h, g, {});
    if p in PagesIn(g.live) {
      var a :| a in g.live && a / 4096 == p;
      OkLive(h, g, {}, a);
      assert g.owner[p].r in Records(h.inuse);
    }
    if p in PagesOf(h.refs, Records(h.inuse)) {
      var r :| r in Records(h.inuse) && PageOf(h.refs[r]) == p;
      OkRef(h, g, {}, r);
      EmptyPage(h, g, {}, r);
    }
  }

  lemma FullSet(s: set<nat>, n: nat)
    requires forall r | r in s :: r < n
    ensures |s| == n <==> forall r: nat | r < n :: r in s
  {
    var all := Below(n);
    assert all == s + (all - s);
    assert |all - s| == n - |s|;
    assert all - s == {} <==> forall r: nat | r < n :: r in s;
  }
}

