/** The table of loaded vnodes (fs/sfs/sfs_vnode.c) and its agreement with the volume and
    the free map, with the effect of each step on all three.
  */
module SfsTable {
  import opened Bytes
  import opened Errno
  import opened Uios
  import opened SfsLayout
  import opened SfsVolume

  /** struct sfs_vnode, with the reference count of its abstract vnode. */
  datatype Vnode = Vnode(ino: nat, inode: Inode, dirty: bool, refcount: nat)

  function LoadedInos(vs: seq<Vnode>): set<nat> {
    set k | 0 <= k < |vs| :: vs[k].ino
  }

  /** The vnode table agrees with the volume: at most one vnode per inode, each
      holding the current inode; a clean one equals its disk block, and so does the
      inode of a file that is not loaded. */
  ghost predicate Cached(v: Volume, vs: seq<Vnode>)
    requires Shaped(v) && Owned(v)
  {
    && (forall k | 0 <= k < |vs| :: Holds(v, vs[k]))
    && Distinct(vs)
    && (forall n | n in v.inodes && n !in LoadedInos(vs) :: OnDisk(v, n) == v.inodes[n])
  }

  ghost predicate Holds(v: Volume, x: Vnode)
    requires Shaped(v)
  {
    && x.ino in v.inodes && v.inodes[x.ino] == x.inode && x.refcount > 0
    && (!x.dirty ==> OnDisk(v, x.ino) == x.inode)
  }

  ghost predicate Distinct(vs: seq<Vnode>) {
    forall j, k | 0 <= j < k < |vs| :: vs[j].ino != vs[k].ino
  }

  ghost function OnDisk(v: Volume, n: nat): Inode
    requires Shaped(v)
  {
    if n < |v.disk| then DecodeInode(v.disk[n]) else DecodeInode(ZeroBlock())
  }

  /** The free map: the owned blocks and those past the end of the volume. */
  ghost function MapBits(v: Volume): set<nat> {
    set i: nat | i < 4096 * BitBlocks(v.nblocks) && (i in v.owner || v.nblocks <= i)
  }

  /** The volume is well formed, the table agrees with it, and the free map marks
      the owned blocks and those in `extra`. */
  ghost predicate Coherent(v: Volume, vs: seq<Vnode>, marked: set<nat>, extra: set<nat>) {
    && Shaped(v) && Owned(v) && Cached(v, vs)
    && marked == MapBits(v) + extra && extra !! MapBits(v)
  }

  /** The superblock describes the volume and, unless the free map is dirty, the map
      blocks hold its bytes. */
  ghost predicate SystemBlocks(disk: seq<Block>, nblocks: nat, dirty: bool, bits: seq<byte>) {
    && 0 < |disk| && WordAt(disk[SB_LOCATION], 0) == SFS_MAGIC && WordAt(disk[SB_LOCATION], 1) == nblocks
    && (!dirty ==> MapOnDisk(disk, BitBlocks(nblocks), bits))
  }

  ghost predicate MapOnDisk(disk: seq<Block>, count: nat, bits: seq<byte>) {
    && MAP_LOCATION + count <= |disk| && 512 * count <= |bits|
    && forall j: nat | j < count :: MapBlock(disk, bits, j)
  }

  ghost predicate MapBlock(disk: seq<Block>, bits: seq<byte>, j: nat) {
    MAP_LOCATION + j < |disk| && 512 * j + 512 <= |bits| && disk[MAP_LOCATION + j] == bits[512 * j..512 * j + 512]
  }

  /** Rewriting a block of a file or an inode. */
  lemma SystemBlocksKept(v: Volume, b: nat, blk: Block, dirty: bool, bits: seq<byte>)
    requires Owned(v) && SystemBlocks(v.disk, v.nblocks, dirty, bits) && b < |v.disk|
    requires b in v.owner ==> !v.owner[b].Super? && !v.owner[b].FreeMap?
    ensures SystemBlocks(v.disk[b := blk], v.nblocks, dirty, bits)
  {
    assert Refers(v, Super, 0);
    var disk := v.disk[b := blk];
    forall j: nat | j < BitBlocks(v.nblocks) && MapBlock(v.disk, bits, j) ensures MapBlock(disk, bits, j) {
      assert Refers(v, FreeMap(j), MAP_LOCATION + j);
    }
  }

  lemma IndirectKept(v: Volume, vs: seq<Vnode>, marked: set<nat>, extra: set<nat>, n: nat, blk: Block, dirty: bool,
                     bits: seq<byte>)
    requires Coherent(v, vs, marked, extra) && SystemBlocks(v.disk, v.nblocks, dirty, bits)
    requires n in v.inodes && v.inodes[n].indirect != 0
    ensures var id := v.inodes[n].indirect; id < |v.disk| && SystemBlocks(v.disk[id := blk], v.nblocks, dirty, bits)
  {
    assert Refers(v, Ind(n), v.inodes[n].indirect);
    SystemBlocksKept(v, v.inodes[n].indirect, blk, dirty, bits);
  }

  lemma DataBlockKept(v: Volume, vs: seq<Vnode>, marked: set<nat>, n: nat, fb: nat, blk: Block, dirty: bool,
                      bits: seq<byte>)
    requires Coherent(v, vs, marked, {}) && SystemBlocks(v.disk, v.nblocks, dirty, bits)
    requires n in v.inodes && fb < MAXBLOCKS && Mapped(v, n, fb) != 0
    ensures Mapped(v, n, fb) < |v.disk| && SystemBlocks(v.disk[Mapped(v, n, fb) := blk], v.nblocks, dirty, bits)
  {
    BlockInUse(v, n, fb);
    SystemBlocksKept(v, Mapped(v, n, fb), blk, dirty, bits);
  }

  /** Entry k may differ in its inode and dirty flag; the others are the same. */
  ghost predicate OnlyVnode(vs: seq<Vnode>, vs': seq<Vnode>, k: nat) {
    && |vs'| == |vs|
    && (forall j | 0 <= j < |vs| && j != k :: vs'[j] == vs[j])
    && (k < |vs| ==> vs'[k].ino == vs[k].ino && vs'[k].refcount == vs[k].refcount)
  }

  /** Rewriting a block that is not an inode leaves the table in agreement. */
  lemma CachedWrite(v: Volume, vs: seq<Vnode>, b: nat, blk: Block)
    requires Shaped(v) && Owned(v) && Cached(v, vs) && b < |v.disk| && b !in v.inodes
    requires var v' := v.(disk := v.disk[b := blk]); Shaped(v') && Owned(v')
    ensures Cached(v.(disk := v.disk[b := blk]), vs)
  {
  }

  /** Changing the inode of entry k, and marking it dirty, leaves the table in
      agreement as long as no inode block is touched. */
  lemma CachedUpdate(v: Volume, vs: seq<Vnode>, k: nat, i: Inode, v': Volume)
    requires Shaped(v) && Owned(v) && Cached(v, vs) && k < |vs| && Shaped(v') && Owned(v')
    requires v'.inodes == v.inodes[vs[k].ino := i] && |v'.disk| == |v.disk|
    requires forall m | m in v.inodes && m < |v.disk| :: v'.disk[m] == v.disk[m]
    ensures Cached(v', vs[k := vs[k].(inode := i, dirty := true)])
    ensures OnlyVnode(vs, vs[k := vs[k].(inode := i, dirty := true)], k)
  {
    var vs' := vs[k := vs[k].(inode := i, dirty := true)];
    hide Owned, WellFormed, DecodeInode, LoadedInos;
    LoadedSame(vs, vs');
    IsLoaded(vs, k);
    forall j | 0 <= j < |vs'| ensures Holds(v', vs'[j]) {
      assert Holds(v, vs[j]) && Holds(v, vs[k]);
    }
  }

  lemma IsLoaded(vs: seq<Vnode>, k: nat)
    requires k < |vs|
    ensures vs[k].ino in LoadedInos(vs)
  {
  }

  lemma LoadedSame(vs: seq<Vnode>, vs': seq<Vnode>)
    requires |vs'| == |vs| && forall j | 0 <= j < |vs| :: vs'[j].ino == vs[j].ino
    ensures LoadedInos(vs') == LoadedInos(vs)
  {
    forall n ensures n in LoadedInos(vs') <==> n in LoadedInos(vs) {
      if n in LoadedInos(vs') {
        var j :| 0 <= j < |vs| && vs'[j].ino == n;
        assert vs[j].ino == n;
      }
      if n in LoadedInos(vs) {
        var j :| 0 <= j < |vs| && vs[j].ino == n;
        assert vs'[j].ino == n;
      }
    }
  }

  /** Block fb has been asked for, and is there if `got`; an indirect block may be new. */
  ghost predicate Expanded(e: Extent, e': Extent, fb: nat, got: bool) {
    && e'.blocks == e.blocks + (if got then {fb} else {})
    && (e.indirect ==> e'.indirect) && (e'.indirect && !e.indirect ==> NDIRECT <= fb < MAXBLOCKS)
  }

  /** Block fb may have been mapped into file n, entry k of the table, without any
      effect on what files contain. */
  ghost predicate Grew(v: Volume, vs: seq<Vnode>, v': Volume, vs': seq<Vnode>, k: nat, fb: nat, got: bool)
    requires k < |vs|
  {
    && SameSystemBlocks(v, v') && SameInodes(v, v', vs[k].ino) && OnlyVnode(vs, vs', k)
    && (forall m: nat | m != vs[k].ino :: ExtentOf(v', m) == ExtentOf(v, m))
    && Expanded(ExtentOf(v, vs[k].ino), ExtentOf(v', vs[k].ino), fb, got)
    && forall m: nat, g: nat :: FileBlock(v', m, g) == FileBlock(v, m, g)
  }

  lemma GrewTrans(v: Volume, vs: seq<Vnode>, v1: Volume, vs1: seq<Vnode>, v2: Volume, vs2: seq<Vnode>, k: nat,
                  fb: nat, got: bool)
    requires k < |vs| && NDIRECT <= fb < MAXBLOCKS && Grew(v, vs, v1, vs1, k, NDIRECT, false)
    requires k < |vs1| && Grew(v1, vs1, v2, vs2, k, fb, got)
    ensures Grew(v, vs, v2, vs2, k, fb, got)
  {
    hide ExtentOf, FileBlock;
  }

  /** Whichever block it is about: nothing has happened, or the block was there. */
  lemma GrewAs(v: Volume, vs: seq<Vnode>, v': Volume, vs': seq<Vnode>, k: nat, fb: nat)
    requires k < |vs| && v' == v && vs' == vs && Grew(v, vs, v, vs, k, 0, false)
    ensures Grew(v, vs, v', vs', k, fb, false)
    ensures fb < MAXBLOCKS && Mapped(v, vs[k].ino, fb) != 0 ==> Grew(v, vs, v', vs', k, fb, true)
  {
    hide FileBlock;
    assert fb < MAXBLOCKS && Mapped(v, vs[k].ino, fb) != 0 ==> fb in ExtentOf(v, vs[k].ino).blocks;
    assert ExtentOf(v, vs[k].ino).blocks + {} == ExtentOf(v, vs[k].ino).blocks;
  }

  /** A block given to its new owner is no longer extra. */
  lemma MapBitsGiven(v: Volume, b: nat, r: Ref)
    requires b < v.nblocks && b !in v.owner
    ensures MapBits(v.(owner := v.owner[b := r])) == MapBits(v) + {b}
  {
    MapBitsFull(v);
  }

  /** v is v0 with block b allocated and cleared. */
  ghost predicate Allocated(v0: Volume, v: Volume, b: nat) {
    b < |v0.disk| && v == v0.(disk := v0.disk[b := ZeroBlock()]) && Spare(v, b) && SameFiles(v0, v)
  }

  function Dirtied(vs: seq<Vnode>, k: nat, i: Inode): seq<Vnode>
    requires k < |vs|
  {
    vs[k := vs[k].(inode := i, dirty := true)]
  }

  /** Giving the allocated block b to file n changes no contents. */
  lemma GrewBlock(v0: Volume, v: Volume, vs: seq<Vnode>, k: nat, b: nat, r: Ref, i: Inode, v': Volume, fb: nat,
                  got: bool)
    requires Allocated(v0, v, b) && k < |vs| && vs[k].ino in v.inodes && v.inodes[vs[k].ino] == vs[k].inode
    requires i == vs[k].inode.(direct := i.direct, indirect := i.indirect)
    requires v'.nblocks == v.nblocks && v'.inodes == v.inodes[vs[k].ino := i] && v'.owner == v.owner[b := r]
    requires |v'.disk| == |v.disk|
    requires forall c | 0 <= c < |v.disk| && (c in v.owner ==> !v.owner[c].Ind?) :: v'.disk[c] == v.disk[c]
    requires forall m: nat, g: nat :: FileBlock(v', m, g) == FileBlock(v, m, g)
    requires forall m: nat | m != vs[k].ino :: ExtentOf(v', m) == ExtentOf(v, m)
    requires Expanded(ExtentOf(v, vs[k].ino), ExtentOf(v', vs[k].ino), fb, got)
    ensures Grew(v0, vs, v', Dirtied(vs, k, i), k, fb, got) && (i == vs[k].inode ==> Grew(v0, vs, v', vs, k, fb, got))
  {
    hide FileBlock, ExtentOf, Expanded;
  }

  lemma GiveDirect(v0: Volume, v: Volume, vs: seq<Vnode>, marked: set<nat>, k: nat, fb: nat, b: word, i: Inode)
    requires Coherent(v, vs, marked, {b}) && Allocated(v0, v, b)
    requires k < |vs| && fb < NDIRECT == |vs[k].inode.direct| && vs[k].inode.direct[fb] == 0 && vs[k].ino in v.inodes
    requires v.inodes[vs[k].ino] == vs[k].inode && i == vs[k].inode.(direct := vs[k].inode.direct[fb := b])
    ensures Coherent(WithDirect(v, vs[k].ino, fb, b), Dirtied(vs, k, i), marked, {})
    ensures Grew(v0, vs, WithDirect(v, vs[k].ino, fb, b), Dirtied(vs, k, i), k, fb, true)
    ensures Mapped(WithDirect(v, vs[k].ino, fb, b), vs[k].ino, fb) == b
  {
    hide FileBlock, Cached, Shaped, Owned, Refers, MapBits, Grew, ExtentOf;
    var n := vs[k].ino;
    LinkDirect(v, n, fb, b);
    CachedUpdate(v, vs, k, i, WithDirect(v, n, fb, b));
    MapBitsGiven(v, b, Data(n, fb));
    MapBitsOwner(WithDirect(v, n, fb, b), v.(owner := v.owner[b := Data(n, fb)]));
    GrewBlock(v0, v, vs, k, b, Data(n, fb), i, WithDirect(v, n, fb, b), fb, true);
  }

  lemma GiveIndirect(v0: Volume, v: Volume, vs: seq<Vnode>, marked: set<nat>, k: nat, b: word, i: Inode)
    requires Coherent(v, vs, marked, {b}) && Allocated(v0, v, b)
    requires k < |vs| && vs[k].inode.indirect == 0 && vs[k].ino in v.inodes
    requires v.inodes[vs[k].ino] == vs[k].inode && i == vs[k].inode.(indirect := b)
    ensures Coherent(WithIndirect(v, vs[k].ino, b), Dirtied(vs, k, i), marked, {})
    ensures Grew(v0, vs, WithIndirect(v, vs[k].ino, b), Dirtied(vs, k, i), k, NDIRECT, false)
  {
    hide FileBlock, Cached, Shaped, Owned, Refers, MapBits, Grew, ExtentOf;
    var n := vs[k].ino;
    LinkIndirect(v, n, b);
    CachedUpdate(v, vs, k, i, WithIndirect(v, n, b));
    MapBitsGiven(v, b, Ind(n));
    MapBitsOwner(WithIndirect(v, n, b), v.(owner := v.owner[b := Ind(n)]));
    GrewBlock(v0, v, vs, k, b, Ind(n), i, WithIndirect(v, n, b), NDIRECT, false);
  }

  lemma IndirectBlock(v0: Volume, v: Volume, n: nat, b: nat)
    requires Owned(v) && Shaped(v) && n in v.inodes && v.inodes[n].indirect != 0 && Allocated(v0, v, b)
    ensures var id := v.inodes[n].indirect;
            && id !in v.inodes && id < v.nblocks && id in v.owner && v.owner[id] == Ind(n)
            && id < |v.disk| && v.disk[id] == v0.disk[id]
  {
    var id := v.inodes[n].indirect;
    assert Refers(v, Ind(n), id);
    NotAnInode(v, id);
  }

  lemma GiveEntry(v0: Volume, v: Volume, vs: seq<Vnode>, marked: set<nat>, k: nat, e: nat, b: word)
    requires Coherent(v, vs, marked, {b}) && Allocated(v0, v, b) && k < |vs| && vs[k].ino in v.inodes
    requires v.inodes[vs[k].ino] == vs[k].inode && e < DBPERIDB
    requires vs[k].inode.indirect != 0 && Mapped(v, vs[k].ino, NDIRECT + e) == 0
    ensures vs[k].inode.indirect < v.nblocks && v.disk[vs[k].inode.indirect] == v0.disk[vs[k].inode.indirect]
    ensures var v' := WithEntry(v, vs[k].ino, e, b);
            && Coherent(v', vs, marked, {}) && Grew(v0, vs, v', vs, k, NDIRECT + e, true)
            && Mapped(v', vs[k].ino, NDIRECT + e) == b
  {
    hide FileBlock, Cached, Owned, Refers, MapBits, Grew, Mapped, ExtentOf;
    var n, id := vs[k].ino, vs[k].inode.indirect;
    IndirectBlock(v0, v, n, b);
    LinkEntry(v, n, e, b);
    var v' := WithEntry(v, n, e, b);
    CachedOther(v, vs, v', id);
    MapBitsGiven(v, b, Data(n, NDIRECT + e));
    MapBitsOwner(v', v.(owner := v'.owner));
    GrewBlock(v0, v, vs, k, b, Data(n, NDIRECT + e), vs[k].inode, v', NDIRECT + e, true);
  }

  lemma MapBitsOwner(v: Volume, v': Volume)
    requires v'.nblocks == v.nblocks && v'.owner == v.owner
    ensures MapBits(v') == MapBits(v)
  {
  }

  /** The table still agrees when the only rewritten block is not an inode. */
  lemma CachedOther(v: Volume, vs: seq<Vnode>, v': Volume, b: nat)
    requires Shaped(v) && Owned(v) && Cached(v, vs) && Shaped(v') && Owned(v')
    requires b !in v.inodes && v'.inodes == v.inodes && |v'.disk| == |v.disk|
    requires forall c | 0 <= c < |v.disk| && c != b :: v'.disk[c] == v.disk[c]
    ensures Cached(v', vs)
  {
  }

  lemma SpareBlock(v: Volume, b: nat)
    requires Owned(v) && b !in v.owner
    ensures b != 0 && b !in v.inodes
  {
    assert Refers(v, Super, 0);
    assert b in v.inodes ==> Refers(v, Ino(b), b);
  }

  lemma MapBitsFull(v: Volume)
    ensures v.nblocks <= 4096 * BitBlocks(v.nblocks)
    ensures (forall j: nat | j < 4096 * BitBlocks(v.nblocks) :: j in MapBits(v)) <==>
            (forall c: nat | c < v.nblocks :: c in v.owner)
  {
    if forall j: nat | j < 4096 * BitBlocks(v.nblocks) :: j in MapBits(v) {
      forall c: nat | c < v.nblocks ensures c in v.owner {
        assert c in MapBits(v);
      }
    }
  }


  /** What a read of `want` bytes at `off` hands back from a file holding c. */
  ghost predicate GaveBytes(c: seq<byte>, off: nat, want: nat, flat: seq<byte>, pos: nat, off': nat, flat': seq<byte>,
                            result: Errno) {
    && (off >= |c| ==> off' == off && flat' == flat && result == OK)
    && (off < |c| ==> off <= off' <= |c| && pos + (off' - off) <= |flat|)
    && (off < |c| ==> flat' == Store(flat, pos, c[off..off']))
    && (off < |c| ==>
          if Beyond(off, Min(off + want, |c|) - off) then result == EFBIG && off' == Max(off, MAXFILE)
          else result == OK && off' == Min(off + want, |c|))
  }

  /** A transfer that stops because the file is at its largest. */
  lemma StoppedBeyond(off: nat, len: nat, off': nat)
    requires off <= off' && (off < off' ==> off' <= MAXFILE) && off' >= MAXFILE && Overlaps(off' / 512, off, len)
    ensures Beyond(off, len) && off' == Max(off, MAXFILE)
  {
  }

  lemma GaveNothing(c: seq<byte>, off: nat, want: nat, flat: seq<byte>, pos: nat)
    requires off >= |c|
    ensures GaveBytes(c, off, want, flat, pos, off, flat, OK)
  {
  }

  lemma GaveContents(v: Volume, n: nat, off: nat, want: nat, flat: seq<byte>, pos: nat, off': nat, flat': seq<byte>,
                     result: Errno)
    requires n in v.inodes && off < v.inodes[n].size && off <= off'
    requires IoDid(READ, v, n, off, flat, pos, off' - off, v, flat') && off' <= v.inodes[n].size
    requires if Beyond(off, Min(off + want, v.inodes[n].size) - off) then result == EFBIG && off' == Max(off, MAXFILE)
             else result == OK && off' == Min(off + want, v.inodes[n].size)
    ensures GaveBytes(Contents(v, n), off, want, flat, pos, off', flat', result)
  {
    hide Contents, FileBytes, FileByte, Store, Wrote;
    ReadContents(v, n, off, off' - off);
  }

  lemma IoReadKeeps(v0: Volume, n: nat, off: nat, flat0: seq<byte>, pos: nat, m: nat, v: Volume, flat: seq<byte>)
    requires IoDid(READ, v0, n, off, flat0, pos, m, v, flat)
    ensures v == v0 && |flat| == |flat0|
  {
  }

  lemma ReadContents(v: Volume, n: nat, off: nat, m: nat)
    requires n in v.inodes && off + m <= v.inodes[n].size
    ensures FileBytes(v, n, off, m) == Contents(v, n)[off..off + m]
  {
    hide FileByte;
  }

  lemma VolumeBounds(v: Volume)
    requires Owned(v) && Shaped(v)
    ensures forall b | b in v.owner :: b < v.nblocks <= |v.disk|
  {
  }

  lemma WrittenGrown(v: Volume, v': Volume, n: nat, off: nat, data: seq<byte>)
    requires FileWritten(v, v', n, off, data)
    ensures Grown(ExtentOf(v, n), ExtentOf(v', n), off, |data|)
  {
  }

  lemma WroteSize(v: Volume, v': Volume, n: nat, off: nat, data: seq<byte>)
    requires Wrote(v, v', n, off, data) && n in v.inodes
    ensures n in v'.inodes && v'.inodes[n].size == v.inodes[n].size
  {
  }

  /** A change of size or link count, with the vnode marked dirty. */
  lemma SetMeta(v: Volume, vs: seq<Vnode>, marked: set<nat>, k: nat, i: Inode)
    requires Coherent(v, vs, marked, {}) && k < |vs| && WellFormed(i) && SameMapping(vs[k].inode, i)
    ensures Coherent(v.(inodes := v.inodes[vs[k].ino := i]), Dirtied(vs, k, i), marked, {})
    ensures OnlyVnode(vs, Dirtied(vs, k, i), k)
    ensures forall m: nat, g: nat :: FileBlock(v.(inodes := v.inodes[vs[k].ino := i]), m, g) == FileBlock(v, m, g)
    ensures forall m: nat :: ExtentOf(v.(inodes := v.inodes[vs[k].ino := i]), m) == ExtentOf(v, m)
  {
    VnodeFacts(v, vs, marked, {}, k);
    hide Shaped, Owned, Cached, MapBits, FileBlock, ExtentOf;
    SetInode(v, vs[k].ino, i);
    CachedUpdate(v, vs, k, i, v.(inodes := v.inodes[vs[k].ino := i]));
    MapBitsOwner(v, v.(inodes := v.inodes[vs[k].ino := i]));
  }

  lemma BlockEnd(off: nat, len: nat)
    requires off % 512 + len == 512
    ensures (off + len) % 512 == 0
  {
  }

  lemma WholeBlock(b: Block)
    requires |b| == BLOCKSIZE
    ensures b[0..0 + BLOCKSIZE] == b
  {
  }

  lemma StoreWhole(b: Block, data: seq<byte>)
    requires |b| == |data|
    ensures Store(b, 0, data) == data
  {
  }

  /** After a failure of sfs_bmap nothing has been transferred. */
  lemma GrewIo(rw: Direction, v0: Volume, vs0: seq<Vnode>, v: Volume, vs: seq<Vnode>, marked: set<nat>, k: nat,
               off: nat, flat: seq<byte>, pos: nat)
    requires k < |vs0| && Grew(v0, vs0, v, vs, k, off / BLOCKSIZE, false) && Coherent(v, vs, marked, {})
    requires pos <= |flat| && (rw == READ ==> v == v0)
    ensures IoDid(rw, v0, vs0[k].ino, off, flat, pos, 0, v, flat) && OnlyVnode(vs0, vs, k)
  {
    hide FileBlock, ExtentOf;
    StoreNothing(flat, pos);
    assert flat[pos..pos + 0] == [] && FileBytes(v, vs0[k].ino, off, 0) == [];
    WroteNothing(v0, v, vs0[k].ino, off);
  }

  lemma GrewOnly(v0: Volume, vs0: seq<Vnode>, v: Volume, vs: seq<Vnode>, k: nat, fb: nat, got: bool)
    requires k < |vs0| && Grew(v0, vs0, v, vs, k, fb, got)
    ensures OnlyVnode(vs0, vs, k)
    ensures ExtentOf(v, vs0[k].ino).indirect && !ExtentOf(v0, vs0[k].ino).indirect ==> NDIRECT <= fb < MAXBLOCKS
  {
  }

  /** The buffer read for a file block, zeros if there is none, is that file block. */
  lemma GotBlock(v0: Volume, vs0: seq<Vnode>, v: Volume, vs: seq<Vnode>, marked: set<nat>, k: nat, fb: nat, got: bool,
                 buf: Block)
    requires k < |vs0| && Grew(v0, vs0, v, vs, k, fb, got) && Coherent(v, vs, marked, {}) && fb < MAXBLOCKS
    requires var b := Mapped(v, vs0[k].ino, fb);
             (b != 0 ==> b < |v.disk|) && buf == if b != 0 then v.disk[b] else ZeroBlock()
    ensures buf == FileBlock(v0, vs0[k].ino, fb) && |buf| == BLOCKSIZE
  {
    assert FileBlock(v, vs0[k].ino, fb) == buf;
  }

  /** Part of a file block rewritten on disk: the file has been written there. */
  lemma StoredBlock(v0: Volume, vs0: seq<Vnode>, v: Volume, vs: seq<Vnode>, marked: set<nat>, k: nat, fb: nat,
                    skip: nat, data: seq<byte>)
    requires k < |vs0| && Grew(v0, vs0, v, vs, k, fb, true) && Coherent(v, vs, marked, {})
    requires fb < MAXBLOCKS && skip < BLOCKSIZE && 0 < skip + |data| <= BLOCKSIZE && Mapped(v, vs0[k].ino, fb) != 0
    ensures var b := Mapped(v, vs0[k].ino, fb);
            && b < |v.disk| && |v.disk[b]| == BLOCKSIZE
            && var v' := v.(disk := v.disk[b := Store(v.disk[b], skip, data)]);
               && Coherent(v', vs, marked, {}) && Wrote(v0, v', vs0[k].ino, fb * BLOCKSIZE + skip, data)
               && Mapped(v', vs0[k].ino, fb) != 0 && ExtentOf(v', vs0[k].ino) == ExtentOf(v, vs0[k].ino)
  {
    hide FileBlock, Cached, MapBits, Owned, Wrote, Store, ExtentOf, Expanded;
    var n := vs0[k].ino;
    var b := Mapped(v, n, fb);
    BlockInUse(v, n, fb);
    var v' := v.(disk := v.disk[b := Store(v.disk[b], skip, data)]);
    assert Refers(v, Data(n, fb), b);
    WriteData(v, n, fb, Store(v.disk[b], skip, data));
    NotAnInode(v, b);
    CachedOther(v, vs, v', b);
    MapBitsOwner(v, v');
    BlockHere(v, n, fb);
    InExtent(v, n, fb);
    InExtent(v', n, fb);
    OneBlock(ExtentOf(v0, n), ExtentOf(v', n), fb, skip, |data|);
    WroteBlock(v0, v', n, fb, skip, data);
  }

  lemma InExtent(v: Volume, n: nat, fb: nat)
    requires fb < MAXBLOCKS
    ensures fb in ExtentOf(v, n).blocks <==> Mapped(v, n, fb) != 0
  {
  }

  lemma OneBlock(e: Extent, e': Extent, fb: nat, skip: nat, len: nat)
    requires Expanded(e, e', fb, true) && skip < BLOCKSIZE && 0 < skip + len <= BLOCKSIZE && fb < MAXBLOCKS
    ensures Grown(e, e', fb * BLOCKSIZE + skip, len)
  {
    var off := fb * 512 + skip;
    forall g: nat ensures Overlaps(g, off, len) <==> g == fb {
    }
  }

  lemma BlockHere(v: Volume, n: nat, fb: nat)
    requires 0 < Mapped(v, n, fb) < |v.disk|
    ensures FileBlock(v, n, fb) == v.disk[Mapped(v, n, fb)]
  {
  }

  lemma NotAnInode(v: Volume, b: nat)
    requires Owned(v) && b in v.owner && !v.owner[b].Ino?
    ensures b !in v.inodes
  {
    assert b in v.inodes ==> Refers(v, Ino(b), b);
  }

  lemma IoWrote(v0: Volume, n: nat, fb: nat, skip: nat, flat: seq<byte>, pos: nat, len: nat, v: Volume)
    requires pos + len <= |flat| && Wrote(v0, v, n, fb * BLOCKSIZE + skip, flat[pos..pos + len])
    ensures IoDid(WRITE, v0, n, fb * BLOCKSIZE + skip, flat, pos, len, v, flat)
  {
  }

  lemma IoDidWrite(v0: Volume, n: nat, off: nat, flat0: seq<byte>, pos: nat, m: nat, v: Volume, flat: seq<byte>)
    requires IoDid(WRITE, v0, n, off, flat0, pos, m, v, flat)
    ensures pos + m <= |flat0| && flat == flat0 && Wrote(v0, v, n, off, flat0[pos..pos + m])
  {
  }

  lemma IoRead(v: Volume, n: nat, fb: nat, skip: nat, flat0: seq<byte>, pos: nat, len: nat, flat: seq<byte>)
    requires |FileBlock(v, n, fb)| == BLOCKSIZE && skip + len <= BLOCKSIZE && pos + len <= |flat0|
    requires flat == Store(flat0, pos, FileBlock(v, n, fb)[skip..skip + len])
    ensures IoDid(READ, v, n, fb * BLOCKSIZE + skip, flat0, pos, len, v, flat)
  {
    BlockBytes(v, n, fb, skip, len);
  }

  lemma BlockInUse(v: Volume, n: nat, fb: nat)
    requires Shaped(v) && Owned(v) && n in v.inodes && fb < MAXBLOCKS
    ensures var b := Mapped(v, n, fb);
            b != 0 ==> b in v.owner && v.owner[b] == Data(n, fb) && b < v.nblocks && |v.disk[b]| == BLOCKSIZE
  {
    var b := Mapped(v, n, fb);
    assert b != 0 ==> Refers(v, Data(n, fb), b);
  }

  /** What a coherent state says about entry k and its blocks. */
  lemma VnodeFacts(v: Volume, vs: seq<Vnode>, marked: set<nat>, extra: set<nat>, k: nat)
    requires Coherent(v, vs, marked, extra) && k < |vs|
    ensures Shaped(v) && Owned(v) && v.nblocks <= |v.disk| && v.nblocks < 0x80_0000
    ensures vs[k].ino in v.inodes && v.inodes[vs[k].ino] == vs[k].inode && WellFormed(vs[k].inode)
    ensures vs[k].inode.indirect != 0 ==>
              vs[k].inode.indirect < v.nblocks && |v.disk[vs[k].inode.indirect]| == BLOCKSIZE
    ensures Grew(v, vs, v, vs, k, 0, false)
  {
    assert vs[k].inode.indirect != 0 ==> Refers(v, Ind(vs[k].ino), vs[k].inode.indirect);
  }

  // --- Releasing blocks -------------------------------------------------------

  lemma SameButTrans(v: Volume, v1: Volume, v2: Volume, n: nat)
    requires SameBut(v, v1, n) && SameBut(v1, v2, n)
    ensures SameBut(v, v2, n)
  {
  }

  lemma SameButUnlinkDirect(v: Volume, n: nat, fb: nat)
    requires Shaped(v) && Owned(v) && n in v.inodes && fb < NDIRECT && v.inodes[n].direct[fb] != 0
    ensures SameBut(v, WithoutDirect(v, n, fb), n)
  {
    UnlinkDirect(v, n, fb);
    hide FileBlock, Owned, Shaped, ExtentOf;
  }

  lemma SameButUnlinkIndirect(v: Volume, n: nat)
    requires Shaped(v) && Owned(v) && n in v.inodes
    ensures SameBut(v, WithoutIndirect(v, n), n)
  {
    UnlinkIndirect(v, n);
    hide FileBlock, Owned, Shaped, ExtentOf;
  }

  lemma SameButRemove(v: Volume, n: nat)
    requires Shaped(v) && Owned(v) && n in v.inodes && NoBlocks(v.inodes[n])
    ensures SameBut(v, WithoutInode(v, n), n)
  {
    RemoveInode(v, n);
    hide FileBlock, Owned, Shaped, ExtentOf;
  }

  lemma MapBitsTaken(v: Volume, s: set<nat>)
    requires forall b | b in s :: b in v.owner && b < v.nblocks
    ensures s <= MapBits(v) && MapBits(v.(owner := v.owner - s)) == MapBits(v) - s
  {
    MapBitsFull(v);
  }

  lemma DropDirect(v: Volume, vs: seq<Vnode>, marked: set<nat>, k: nat, fb: nat)
    requires Coherent(v, vs, marked, {}) && k < |vs| && fb < NDIRECT == |vs[k].inode.direct|
    requires vs[k].inode.direct[fb] != 0
    ensures vs[k].ino in v.inodes && v.inodes[vs[k].ino] == vs[k].inode
    ensures var v', i := WithoutDirect(v, vs[k].ino, fb), vs[k].inode.(direct := vs[k].inode.direct[fb := 0]);
            && vs[k].inode.direct[fb] in marked
            && Coherent(v', Dirtied(vs, k, i), marked - {vs[k].inode.direct[fb] as nat}, {})
            && SameBut(v, v', vs[k].ino)
  {
    hide SameBut, FileBlock, Shaped, Owned, Cached, MapBits, Grew;
    VnodeFacts(v, vs, marked, {}, k);
    var n, b := vs[k].ino, vs[k].inode.direct[fb];
    var i := vs[k].inode.(direct := vs[k].inode.direct[fb := 0]);
    var v' := WithoutDirect(v, n, fb);
    UnlinkDirect(v, n, fb);
    SameButUnlinkDirect(v, n, fb);
    VolumeBounds(v);
    CachedUpdate(v, vs, k, i, v');
    MapBitsTaken(v, {b as nat});
    MapBitsOwner(v', v.(owner := v'.owner));
  }

  lemma IndirectBlocksOwned(v: Volume, n: nat)
    ensures forall b | b in IndirectBlocks(v, n) :: b in v.owner
  {
  }

  lemma DropIndirect(v: Volume, vs: seq<Vnode>, marked: set<nat>, k: nat)
    requires Coherent(v, vs, marked, {}) && k < |vs|
    ensures vs[k].ino in v.inodes && v.inodes[vs[k].ino] == vs[k].inode
    ensures var v', i := WithoutIndirect(v, vs[k].ino), vs[k].inode.(indirect := 0);
            && IndirectBlocks(v, vs[k].ino) <= marked
            && Coherent(v', Dirtied(vs, k, i), marked - IndirectBlocks(v, vs[k].ino), {}) && SameBut(v, v', vs[k].ino)
  {
    hide SameBut, FileBlock, Shaped, Owned, Cached, MapBits, IndirectBlocks, Grew;
    VnodeFacts(v, vs, marked, {}, k);
    var n, i := vs[k].ino, vs[k].inode.(indirect := 0);
    var v' := WithoutIndirect(v, n);
    UnlinkIndirect(v, n);
    SameButUnlinkIndirect(v, n);
    VolumeBounds(v);
    IndirectBlocksOwned(v, n);
    CachedUpdate(v, vs, k, i, v');
    MapBitsTaken(v, IndirectBlocks(v, n));
    MapBitsOwner(v', v.(owner := v'.owner));
  }

  /** A file whose inode maps nothing is all zeros, and empty if its size is 0. */
  lemma EmptyFile(v: Volume, n: nat)
    requires n in v.inodes && NoBlocks(v.inodes[n]) && v.inodes[n].size == 0
    ensures ZeroTail(v, n) && Contents(v, n) == []
  {
    forall p: nat ensures FileByte(v, n, p) == 0 {
      assert Mapped(v, n, p / BLOCKSIZE) == 0;
    }
  }

  // --- The vnode table --------------------------------------------------------

  function Without(vs: seq<Vnode>, k: nat): seq<Vnode>
    requires k < |vs|
  {
    vs[..k] + vs[k + 1..]
  }

  lemma LoadedAppend(vs: seq<Vnode>, x: Vnode)
    ensures LoadedInos(vs + [x]) == LoadedInos(vs) + {x.ino}
  {
    var ws := vs + [x];
    forall n | n in LoadedInos(vs) ensures n in LoadedInos(ws) {
      var j :| 0 <= j < |vs| && vs[j].ino == n;
      assert ws[j].ino == n;
    }
    assert ws[|vs|].ino == x.ino;
  }

  lemma LoadedWithout(vs: seq<Vnode>, k: nat)
    requires k < |vs| && Distinct(vs)
    ensures Distinct(Without(vs, k)) && LoadedInos(Without(vs, k)) == LoadedInos(vs) - {vs[k].ino}
  {
    var ws := Without(vs, k);
    assert forall j | 0 <= j < |ws| :: ws[j] == vs[if j < k then j else j + 1];
    forall n | n in LoadedInos(vs) && n != vs[k].ino ensures n in LoadedInos(ws) {
      var j :| 0 <= j < |vs| && vs[j].ino == n;
      assert ws[if j < k then j else j - 1].ino == n;
    }
    forall n | n in LoadedInos(ws) ensures n in LoadedInos(vs) && n != vs[k].ino {
      var j :| 0 <= j < |ws| && ws[j].ino == n;
      assert vs[if j < k then j else j + 1].ino == n;
    }
  }

  /** sfs_loadvnode of an inode that is not in the table. */
  lemma LoadEntry(v: Volume, vs: seq<Vnode>, marked: set<nat>, n: nat)
    requires Coherent(v, vs, marked, {}) && n in v.inodes && n !in LoadedInos(vs)
    ensures n < v.nblocks <= |v.disk| && |v.disk[n]| == BLOCKSIZE && n in v.owner
    ensures DecodeInode(v.disk[n]) == v.inodes[n]
    ensures Coherent(v, vs + [Vnode(n, v.inodes[n], false, 1)], marked, {})
  {
    assert Refers(v, Ino(n), n);
    var x := Vnode(n, v.inodes[n], false, 1);
    assert OnDisk(v, n) == v.inodes[n];
    LoadedAppend(vs, x);
    forall j | 0 <= j < |vs| ensures vs[j].ino != n {
      IsLoaded(vs, j);
    }
  }

  lemma RefChange(v: Volume, vs: seq<Vnode>, marked: set<nat>, k: nat, refs: nat)
    requires Coherent(v, vs, marked, {}) && k < |vs| && refs > 0
    ensures Coherent(v, vs[k := vs[k].(refcount := refs)], marked, {})
  {
    var vs' := vs[k := vs[k].(refcount := refs)];
    LoadedSame(vs, vs');
    hide LoadedInos;
    forall j | 0 <= j < |vs'| ensures Holds(v, vs'[j]) {
      assert Holds(v, vs[j]);
    }
  }

  /** sfs_sync_inode */
  lemma SyncEntry(v: Volume, vs: seq<Vnode>, marked: set<nat>, k: nat)
    requires Coherent(v, vs, marked, {}) && k < |vs|
    ensures WellFormed(vs[k].inode) && vs[k].ino < |v.disk|
    ensures var v' := v.(disk := v.disk[vs[k].ino := EncodeInode(vs[k].inode)]);
            && Coherent(v', vs[k := vs[k].(dirty := false)], marked, {}) && SameFiles(v, v')
  {
    hide LoadedInos, Owned, WellFormed, DecodeInode, EncodeInode, MapBits, SameFiles, Grew;
    VnodeFacts(v, vs, marked, {}, k);
    var n := vs[k].ino;
    InodeInUse(v, n);
    var v', vs' := v.(disk := v.disk[n := EncodeInode(vs[k].inode)]), vs[k := vs[k].(dirty := false)];
    WriteOther(v, n, EncodeInode(vs[k].inode));
    DecodeEncodeInode(vs[k].inode);
    LoadedSame(vs, vs');
    IsLoaded(vs, k);
    forall j | 0 <= j < |vs'| ensures Holds(v', vs'[j]) {
      assert Holds(v, vs[j]);
    }
    MapBitsOwner(v, v');
  }

  lemma InodeBlockKept(v: Volume, vs: seq<Vnode>, marked: set<nat>, extra: set<nat>, n: nat, blk: Block, dirty: bool,
                       bits: seq<byte>)
    requires Coherent(v, vs, marked, extra) && SystemBlocks(v.disk, v.nblocks, dirty, bits) && n in v.inodes
    ensures n < |v.disk| && SystemBlocks(v.disk[n := blk], v.nblocks, dirty, bits)
  {
    assert Refers(v, Ino(n), n);
    SystemBlocksKept(v, n, blk, dirty, bits);
  }

  /** A clean vnode leaves the table. */
  lemma DropClean(v: Volume, vs: seq<Vnode>, marked: set<nat>, k: nat)
    requires Coherent(v, vs, marked, {}) && k < |vs| && !vs[k].dirty
    ensures Coherent(v, Without(vs, k), marked, {})
  {
    LoadedWithout(vs, k);
    hide LoadedInos;
    assert Holds(v, vs[k]);
    var ws := Without(vs, k);
    forall j | 0 <= j < |ws| ensures Holds(v, ws[j]) {
      assert Holds(v, vs[if j < k then j else j + 1]);
    }
  }

  /** The vnode of an erased file leaves the table and its inode block is freed. */
  lemma DropErased(v: Volume, vs: seq<Vnode>, marked: set<nat>, k: nat)
    requires Coherent(v, vs, marked, {}) && k < |vs| && !vs[k].dirty && NoBlocks(vs[k].inode)
    ensures var n := vs[k].ino;
            && n in marked && Coherent(WithoutInode(v, n), Without(vs, k), marked - {n}, {})
            && SameBut(v, WithoutInode(v, n), n)
  {
    VnodeFacts(v, vs, marked, {}, k);
    var n := vs[k].ino;
    var v' := WithoutInode(v, n);
    assert Refers(v, Ino(n), n);
    RemoveInode(v, n);
    SameButRemove(v, n);
    DropClean(v, vs, marked, k);
    LoadedWithout(vs, k);
    var ws := Without(vs, k);
    hide SameBut, Without, LoadedInos, Owned, MapBits, FileBlock;
    forall j | 0 <= j < |ws| ensures Holds(v', ws[j]) {
      assert Holds(v, ws[j]);
      IsLoaded(ws, j);
    }
    MapBitsTaken(v, {n});
    MapBitsOwner(v', v.(owner := v.owner - {n}));
  }

  lemma CachedNew(v: Volume, vs: seq<Vnode>, b: nat, i: Inode)
    requires Shaped(v) && Owned(v) && Cached(v, vs) && Spare(v, b) && i == DecodeInode(ZeroBlock())
    requires b !in v.inodes && Shaped(WithInode(v, b, i)) && Owned(WithInode(v, b, i))
    ensures Cached(WithInode(v, b, i), vs) && b !in LoadedInos(vs)
  {
    forall j | 0 <= j < |vs| ensures Holds(WithInode(v, b, i), vs[j]) {
      assert Holds(v, vs[j]);
    }
  }

  lemma SameButAdd(v0: Volume, v: Volume, b: nat, i: Inode)
    requires Shaped(v) && Owned(v) && Allocated(v0, v, b) && WellFormed(i) && NoBlocks(i)
    ensures SameBut(v0, WithInode(v, b, i), b)
  {
    AddInode(v, b, i);
    hide FileBlock, Owned, Shaped, ExtentOf;
  }

  /** The block just allocated becomes the inode of a new file, still of no type. */
  lemma NewInode(v0: Volume, v: Volume, vs: seq<Vnode>, marked: set<nat>, b: nat)
    requires Coherent(v, vs, marked, {b}) && Allocated(v0, v, b)
    ensures var i := DecodeInode(ZeroBlock());
            var v' := WithInode(v, b, i);
            && Coherent(v', vs, marked, {}) && b !in v.inodes && b !in v0.inodes && b !in LoadedInos(vs)
            && NoBlocks(i) && i.size == 0 && i.typ == TYPE_INVAL && i.linkcount == 0 && SameBut(v0, v', b)
  {
    var i := DecodeInode(ZeroBlock());
    DecodeZero();
    AddInode(v, b, i);
    var v' := WithInode(v, b, i);
    CachedNew(v, vs, b, i);
    SameButAdd(v0, v, b, i);
    hide Owned, MapBits, FileBlock, LoadedInos, SameBut, Cached;
    MapBitsGiven(v, b, Ino(b));
    MapBitsOwner(v', v.(owner := v'.owner));
  }

  lemma SameButSame(v: Volume, n: nat)
    ensures SameBut(v, v, n)
  {
  }

  lemma SameFilesSame(v: Volume)
    ensures SameFiles(v, v)
  {
  }

  lemma SameButFiles(v: Volume, v': Volume, n: nat)
    requires SameFiles(v, v') && v'.nblocks == v.nblocks
    ensures SameBut(v, v', n)
  {
  }

  lemma SameButMeta(v: Volume, n: nat, i: Inode)
    requires n in v.inodes && SameMapping(v.inodes[n], i)
    ensures SameBut(v, v.(inodes := v.inodes[n := i]), n)
  {
    var v' := v.(inodes := v.inodes[n := i]);
    assert forall m: nat, g: nat :: Mapped(v', m, g) == Mapped(v, m, g);
  }

  lemma NoBlocksMeta(i: Inode, j: Inode)
    requires NoBlocks(i) && SameMapping(i, j)
    ensures NoBlocks(j)
  {
  }

  lemma SystemDirty(disk: seq<Block>, nblocks: nat, dirty: bool, bits: seq<byte>)
    requires SystemBlocks(disk, nblocks, dirty, bits)
    ensures forall bits' :: SystemBlocks(disk, nblocks, true, bits')
  {
  }

  lemma EntriesStep(ws: seq<word>, j: nat)
    requires j < |ws|
    ensures Entries(ws, j + 1) == Entries(ws, j) + (if ws[j] != 0 then {ws[j] as nat} else {})
  {
  }

  /** Entry j has not been released by the earlier ones. */
  lemma EntryNotYet(v: Volume, n: nat, ws: seq<word>, j: nat)
    requires j < |ws| && ws[j] != 0
    requires forall e | 0 <= e < |ws| && ws[e] != 0 :: ws[e] in v.owner && v.owner[ws[e]] == Data(n, NDIRECT + e)
    ensures ws[j] !in Entries(ws, j) && ws[j] in Entries(ws, |ws|)
  {
  }

  lemma EntryNotSelf(v: Volume, n: nat, ws: seq<word>)
    requires n in v.inodes
    requires forall e | 0 <= e < |ws| && ws[e] != 0 :: ws[e] != v.inodes[n].indirect
    ensures v.inodes[n].indirect !in Entries(ws, |ws|)
  {
  }

  lemma InodeInUse(v: Volume, n: nat)
    requires Owned(v) && n in v.inodes
    ensures n in v.owner && v.owner[n] == Ino(n) && n < v.nblocks
  {
    assert Refers(v, Ino(n), n);
  }

  lemma TableFacts(v: Volume, vs: seq<Vnode>, marked: set<nat>, extra: set<nat>, k: nat)
    requires Coherent(v, vs, marked, extra) && k < |vs|
    ensures Distinct(vs) && vs[k].refcount > 0
  {
    assert Holds(v, vs[k]);
  }

  lemma NotLoaded(vs: seq<Vnode>, n: nat)
    requires forall j | 0 <= j < |vs| :: vs[j].ino != n
    ensures n !in LoadedInos(vs)
  {
  }

  /** Where the vnode of inode n is in the table. */
  function IndexOf(vs: seq<Vnode>, n: nat): (k: nat)
    requires n in LoadedInos(vs)
    ensures k < |vs| && vs[k].ino == n
  {
    assert LoadedInos(vs) == (if vs == [] then {} else {vs[0].ino}) + LoadedInos(if vs == [] then [] else vs[1..]) by {
      LoadedFirst(vs);
    }
    if vs[0].ino == n then 0 else 1 + IndexOf(vs[1..], n)
  }

  lemma LoadedFirst(vs: seq<Vnode>)
    ensures LoadedInos(vs) == (if vs == [] then {} else {vs[0].ino}) + LoadedInos(if vs == [] then [] else vs[1..])
  {
    if vs != [] {
      forall n | n in LoadedInos(vs) && n != vs[0].ino ensures n in LoadedInos(vs[1..]) {
        var j :| 0 <= j < |vs| && vs[j].ino == n;
        assert vs[1..][j - 1].ino == n;
      }
    }
  }

  lemma IndexIs(vs: seq<Vnode>, n: nat, k: nat)
    requires Distinct(vs) && k < |vs| && vs[k].ino == n && n in LoadedInos(vs)
    ensures IndexOf(vs, n) == k
  {
  }

  lemma WithoutOnly(vs: seq<Vnode>, vs': seq<Vnode>, k: nat)
    requires k < |vs| && Distinct(vs) && |vs'| == |vs|
    requires forall j | 0 <= j < |vs| && j != k :: vs'[j] == vs[j]
    requires vs'[k].ino == vs[k].ino
    ensures Without(vs', k) == Without(vs, k) && Distinct(vs') && vs[k].ino in LoadedInos(vs')
  {
    assert vs'[k].ino in LoadedInos(vs');
  }
}
