/** Where the space of a filesystem goes: every block is free, or is referred to exactly once by
    the system or by a file, so what is free can be told from what the files have. With it, exactly
    when an operation fails for want of space.
  */
module SfsSpace {
  import opened Errno
  import opened SfsLayout
  import opened SfsVolume
  import opened SfsTable
  import opened SfsDir
  import opened SfsView
  import opened Sfs

  /** All the references to blocks in a filesystem with these files. */
  ghost function Uses(nblocks: nat, maps: map<nat, Extent>): set<Ref> {
    {Super} + (set j: nat | j < BitBlocks(nblocks) :: FreeMap(j))
    + (set n | n in maps :: Ino(n)) + (set n | n in maps && maps[n].indirect :: Ind(n))
    + (set n, fb | n in maps && fb in maps[n].blocks :: Data(n, fb))
  }

  ghost predicate IsUse(nblocks: nat, maps: map<nat, Extent>, r: Ref) {
    match r
    case Super => true
    case FreeMap(j) => j < BitBlocks(nblocks)
    case Ino(n) => n in maps
    case Ind(n) => n in maps && maps[n].indirect
    case Data(n, fb) => n in maps && fb in maps[n].blocks
  }

  lemma UseIs(nblocks: nat, maps: map<nat, Extent>, r: Ref)
    ensures r in Uses(nblocks, maps) <==> IsUse(nblocks, maps, r)
  {
  }

  lemma UsesAre(v: Volume, r: Ref)
    requires Owned(v)
    ensures r in Uses(v.nblocks, Maps(v)) <==> r in v.owner.Values
  {
    if r in v.owner.Values {
      var b :| b in v.owner && v.owner[b] == r;
      assert Refers(v, r, b);
    }
    if r in Uses(v.nblocks, Maps(v)) {
      var b: nat :=
        match r
        case Super => SB_LOCATION
        case FreeMap(j) => MAP_LOCATION + j
        case Ino(n) => n
        case Ind(n) => v.inodes[n].indirect
        case Data(n, fb) => Mapped(v, n, fb);
      assert Refers(v, r, b);
      assert v.owner[b] == r;
    }
  }

  lemma {:induction false} OneEach(f: map<nat, Ref>)
    requires forall b, c | b in f && c in f && f[b] == f[c] :: b == c
    ensures |f.Values| == |f|
  {
    if f == map[] {
      assert f.Values == {};
    } else {
      var b :| b in f;
      var g := f - {b};
      OneEach(g);
      assert f.Keys == g.Keys + {b};
      assert f.Values == g.Values + {f[b]} by {
        forall r | r in f.Values ensures r in g.Values || r == f[b] {
          var c :| c in f && f[c] == r;
          assert c != b ==> c in g && g[c] == r;
        }
      }
      assert f[b] !in g.Values;
    }
  }

  /** A block in use has exactly one reference, and every reference has its own block. */
  lemma UsedExactly(v: Volume)
    requires Owned(v)
    ensures |v.owner| == |Uses(v.nblocks, Maps(v))|
  {
    forall b, c | b in v.owner && c in v.owner && v.owner[b] == v.owner[c] ensures b == c {
      assert Refers(v, v.owner[b], b) && Refers(v, v.owner[c], c);
    }
    OneEach(v.owner);
    forall r ensures r in Uses(v.nblocks, Maps(v)) <==> r in v.owner.Values {
      UsesAre(v, r);
    }
    hide Uses, Maps;
    assert Uses(v.nblocks, Maps(v)) == v.owner.Values;
  }

  ghost predicate ExtentOk(e: Extent) {
    forall g | g in e.blocks :: g < MAXBLOCKS && (g >= NDIRECT ==> e.indirect)
  }

  /** All the blocks are accounted for. */
  ghost predicate Accounted(nblocks: nat, w: FsView, free: set<nat>) {
    && |free| + |Uses(nblocks, w.maps)| == nblocks && ROOT_LOCATION in w.maps
    && (forall n | n in w.maps :: ExtentOk(w.maps[n])) && |w.names| <= w.slots <= MAXSLOTS
  }

  lemma SpaceExactly(fs: Sfs)
    requires fs.Valid()
    ensures Accounted(fs.nblocks, fs.View(), fs.Free())
  {
    hide Coherent, Shaped, SystemBlocks, Tree, Contents, Names, Refs, Owned, Uses, Maps, ExtentOk, ExtentOf;
    SpaceParts(fs.V(), fs.vnodes, fs.freemap.Marked());
    TreeFacts(fs.V(), LoadedInos(fs.vnodes));
    FullExactly(Dir(fs.V()));
    UsedExactly(fs.V());
    FreeCount(fs);
    MapsAt(fs.V(), ROOT_LOCATION);
    ExtentsOk(fs.V());
  }

  lemma ExtentsOk(v: Volume)
    ensures forall n | n in Maps(v) :: ExtentOk(Maps(v)[n])
  {
  }

  lemma SpaceParts(v: Volume, vs: seq<Vnode>, marked: set<nat>)
    requires Coherent(v, vs, marked, {}) && Tree(v, LoadedInos(vs))
    ensures Owned(v) && ROOT_LOCATION in v.inodes && forall b | b in v.owner :: b < v.nblocks
  {
  }

  lemma FreeCount(fs: Sfs)
    requires forall b | b in fs.owner :: b < fs.nblocks
    ensures fs.nblocks == |fs.Free()| + |fs.owner|
  {
    var all := Below(fs.nblocks);
    assert all == fs.Free() + fs.owner.Keys;
    assert fs.Free() !! fs.owner.Keys;
  }

  ghost function Below(n: nat): (s: set<nat>)
    ensures |s| == n && forall k: nat :: k in s <==> k < n
  {
    if n == 0 then {} else Below(n - 1) + {n - 1}
  }

  // --- What a file takes --------------------------------------------------------------

  ghost function DataRefs(n: nat, blocks: set<nat>): set<Ref> {
    set fb | fb in blocks :: Data(n, fb)
  }

  lemma {:induction false} DataCount(n: nat, blocks: set<nat>)
    ensures |DataRefs(n, blocks)| == |blocks|
  {
    if blocks == {} {
      assert DataRefs(n, blocks) == {};
    } else {
      var fb :| fb in blocks;
      DataCount(n, blocks - {fb});
      assert DataRefs(n, blocks) == DataRefs(n, blocks - {fb}) + {Data(n, fb)};
    }
  }

  ghost function OwnRefs(n: nat, e: Extent): set<Ref> {
    {Ino(n)} + (if e.indirect then {Ind(n)} else {}) + DataRefs(n, e.blocks)
  }

  function One(b: bool): nat {
    if b then 1 else 0
  }

  lemma OwnCount(n: nat, e: Extent)
    ensures |OwnRefs(n, e)| == 1 + One(e.indirect) + |e.blocks|
  {
    DataCount(n, e.blocks);
    var s := {Ino(n)} + if e.indirect then {Ind(n)} else {};
    assert |s| == 1 + One(e.indirect) && s !! DataRefs(n, e.blocks);
  }

  lemma OwnIs(n: nat, e: Extent, r: Ref)
    ensures r in OwnRefs(n, e) <==>
              r == Ino(n) || (r == Ind(n) && e.indirect) || (r.Data? && r.n == n && r.fb in e.blocks)
  {
  }

  /** A file takes its inode, its blocks of data and perhaps an indirect block. */
  lemma FileTakes(nblocks: nat, maps: map<nat, Extent>, n: nat)
    requires n in maps
    ensures |Uses(nblocks, maps)| ==
            |Uses(nblocks, maps - {n})| + 1 + One(maps[n].indirect) + |maps[n].blocks|
  {
    hide Uses, OwnRefs;
    var rest := maps - {n};
    forall r
      ensures r in Uses(nblocks, maps) <==> r in Uses(nblocks, rest) || r in OwnRefs(n, maps[n])
      ensures !(r in Uses(nblocks, rest) && r in OwnRefs(n, maps[n]))
    {
      UseIs(nblocks, maps, r);
      UseIs(nblocks, rest, r);
      OwnIs(n, maps[n], r);
    }
    OwnCount(n, maps[n]);
    assert Uses(nblocks, maps) == Uses(nblocks, rest) + OwnRefs(n, maps[n]);
    assert Uses(nblocks, rest) !! OwnRefs(n, maps[n]);
  }

  /** When the blocks of one file change. */
  lemma UsesChange(nblocks: nat, maps: map<nat, Extent>, n: nat, e': Extent)
    requires n in maps
    ensures |Uses(nblocks, maps[n := e'])| - |Uses(nblocks, maps)| ==
            |e'.blocks| - |maps[n].blocks| + One(e'.indirect) - One(maps[n].indirect)
  {
    hide Uses;
    FileTakes(nblocks, maps, n);
    FileTakes(nblocks, maps[n := e'], n);
    assert maps[n := e'] - {n} == maps - {n};
  }

  // --- When space runs out ---------------------------------------------------------------

  /** How many more blocks a file needs to have all those in fbs. */
  ghost function Needed(e: Extent, fbs: set<nat>): nat {
    |fbs - e.blocks| + One(!e.indirect && exists g | g in fbs :: g >= NDIRECT)
  }

  /** What a transfer of `len` bytes at `off`, stopped after m, has done to the blocks of the file,
      on a volume that is full afterwards or not. */
  ghost predicate Stops(e: Extent, e': Extent, off: nat, len: nat, m: nat, result: Errno, full: bool) {
    && Filled(e, e', off, m, result == OK) && (result == OK || result == ENOSPC || result == EFBIG)
    && m <= len && (result == OK ==> m == len && !Beyond(off, len)) && (m > 0 ==> off + m <= MAXFILE)
    && (result != OK ==> Overlaps((off + m) / 512, off, len) && (m > 0 ==> (off + m) % 512 == 0))
    && (result == EFBIG ==> off + m >= MAXFILE)
    && (result == ENOSPC ==> off + m < MAXFILE && (off + m) / 512 !in e'.blocks && full)
  }

  /** A transfer that needs more blocks than are free, and only such a one, fails for want of
      space. */
  lemma StopsExactly(nblocks: nat, maps: map<nat, Extent>, n: nat, e': Extent, off: nat, len: nat, m: nat,
                     result: Errno)
    requires n in maps && ExtentOk(maps[n]) && ExtentOk(e')
    requires |Uses(nblocks, maps)| <= nblocks && |Uses(nblocks, maps[n := e'])| <= nblocks
    requires Stops(maps[n], e', off, len, m, result, |Uses(nblocks, maps[n := e'])| == nblocks)
    ensures result == ENOSPC <==> |Uses(nblocks, maps)| + Needed(maps[n], Spread(off, len)) > nblocks
  {
    UsesChange(nblocks, maps, n, e');
    hide Uses;
    if result == ENOSPC {
      TooMany(maps[n], e', off, len, m);
    } else {
      Enough(maps[n], e', off, len, m, result);
    }
  }

  /** The blocks were all got, or the file is as large as a file can be. */
  lemma Enough(e: Extent, e': Extent, off: nat, len: nat, m: nat, result: Errno)
    requires ExtentOk(e) && ExtentOk(e') && (result == OK || result == EFBIG) && Stops(e, e', off, len, m, result, true)
    ensures |e'.blocks| - |e.blocks| + One(e'.indirect) - One(e.indirect) == Needed(e, Spread(off, len))
  {
    hide Overlaps, Spread, Beyond;
    var fbs := Spread(off, len);
    if result == EFBIG {
      SpreadStopped(off, len, m);
    }
    assert e'.blocks == e.blocks + fbs;
    assert e'.blocks == e.blocks + (fbs - e.blocks) && e.blocks !! (fbs - e.blocks);
    if e'.indirect && !e.indirect {
      var g := if off / 512 >= NDIRECT then off / 512 else NDIRECT;
      IndirectPart(off, len, m, result == OK);
      InSpread(g, off, len);
    } else if !e.indirect {
      forall g | g in fbs ensures g < NDIRECT {
        assert g in e'.blocks;
      }
    }
  }

  lemma InSpread(g: nat, off: nat, len: nat)
    ensures g in Spread(off, len) <==> g < MAXBLOCKS && Overlaps(g, off, len)
  {
  }

  /** Up to the end of the largest file there is nothing left to allocate. */
  lemma SpreadStopped(off: nat, len: nat, m: nat)
    requires m <= len && off + m >= MAXFILE
    ensures Spread(off, len) == if m > 0 then Spread(off, m) else {}
  {
    forall g | g in Spread(off, len) ensures m > 0 && g in Spread(off, m) {
    }
  }

  lemma StopsBeyond(e: Extent, e': Extent, off: nat, len: nat, m: nat, result: Errno, full: bool)
    requires Stops(e, e', off, len, m, result, full)
    ensures result == EFBIG <==> result != ENOSPC && Beyond(off, len)
    ensures (result == OK ==> m == len) && (result == EFBIG ==> off + m == Max(off, MAXFILE))
  {
    hide Filled;
    if result == EFBIG {
      StoppedBeyond(off, len, off + m);
    }
  }

  lemma IndirectPart(off: nat, len: nat, m: nat, ok: bool)
    requires m <= len && off < MAXFILE && if ok then m == len && NeedsIndirect(off, len) else off + m >= MAXFILE
    ensures var g := if off / 512 >= NDIRECT then off / 512 else NDIRECT; g < MAXBLOCKS && Overlaps(g, off, len)
  {
  }

  /** One block at least is missing. */
  lemma TooMany(e: Extent, e': Extent, off: nat, len: nat, m: nat)
    requires ExtentOk(e) && ExtentOk(e') && Stops(e, e', off, len, m, ENOSPC, true)
    ensures |e'.blocks| - |e.blocks| + One(e'.indirect) - One(e.indirect) < Needed(e, Spread(off, len))
  {
    hide Spread, Overlaps;
    var fbs, b := Spread(off, len), (off + m) / 512;
    var got := e'.blocks - e.blocks;
    StopBlock(off, len, m);
    assert e'.blocks == e.blocks + got && e.blocks !! got;
    assert got <= Spread(off, m);
    assert got + {b} <= fbs - e.blocks;
    assert |got + {b}| == |got| + 1;
    SubsetSize(got + {b}, fbs - e.blocks);
  }

  lemma StopBlock(off: nat, len: nat, m: nat)
    requires m <= len && off + m < MAXFILE && Overlaps((off + m) / 512, off, len)
    ensures (off + m) / 512 in Spread(off, len) && Spread(off, m) <= Spread(off, len)
    ensures off + m >= NDIRECT * 512 ==> (off + m) / 512 >= NDIRECT
  {
  }

  lemma SubsetSize(s: set<nat>, t: set<nat>)
    requires s <= t
    ensures |s| <= |t|
  {
    assert t == s + (t - s);
  }
}
