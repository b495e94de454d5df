/** What an SFS volume means: which block belongs to whom, and what bytes a file
    holds (fs/sfs/sfs_vnode.c).

    A `Volume` is a snapshot: the disk, the current inode of every live file (the
    in-memory one if the file is loaded), and for each owned block the one
    reference that leads to it.
  */
module SfsVolume {
  import opened Bytes
  import opened SfsLayout
  import opened Uios

  /** The places a block number can be stored, or a block be used implicitly. */
  datatype Ref = Super | FreeMap(j: nat) | Ino(n: nat) | Ind(n: nat) | Data(n: nat, fb: nat)

  datatype Volume = Volume(nblocks: nat, disk: seq<Block>, inodes: map<nat, Inode>, owner: map<nat, Ref>)

  /** The disk block of file block fb, 0 if there is none: the mapping of sfs_bmap. */
  function MappedBlock(disk: seq<Block>, i: Inode, fb: nat): nat {
    if fb < NDIRECT then (if fb < |i.direct| then i.direct[fb] else 0)
    else if fb < MAXBLOCKS && 0 < i.indirect < |disk| then WordAt(disk[i.indirect], fb - NDIRECT)
    else 0
  }

  ghost function Mapped(v: Volume, n: nat, fb: nat): nat {
    if n in v.inodes then MappedBlock(v.disk, v.inodes[n], fb) else 0
  }

  /** Which blocks of a file are there, and whether it has an indirect block. */
  datatype Extent = Extent(blocks: set<nat>, indirect: bool)

  ghost function ExtentOf(v: Volume, n: nat): Extent {
    Extent((set fb: nat | fb < MAXBLOCKS && Mapped(v, n, fb) != 0), n in v.inodes && v.inodes[n].indirect != 0)
  }

  /** An unmapped block reads as zeros. */
  ghost function FileBlock(v: Volume, n: nat, fb: nat): Block {
    var b := Mapped(v, n, fb);
    if 0 < b < |v.disk| then v.disk[b] else ZeroBlock()
  }

  ghost function FileByte(v: Volume, n: nat, p: nat): byte {
    var blk := FileBlock(v, n, p / BLOCKSIZE);
    if p % BLOCKSIZE < |blk| then blk[p % BLOCKSIZE] else 0
  }

  /** Reference r leads to block b. */
  ghost predicate Refers(v: Volume, r: Ref, b: nat) {
    match r
    case Super => b == SB_LOCATION
    case FreeMap(j) => j < BitBlocks(v.nblocks) && b == MAP_LOCATION + j
    case Ino(n) => n in v.inodes && b == n
    case Ind(n) => n in v.inodes && v.inodes[n].indirect == b && b != 0
    case Data(n, fb) => n in v.inodes && fb < MAXBLOCKS && Mapped(v, n, fb) == b && b != 0
  }

  ghost predicate Shaped(v: Volume) {
    && v.nblocks <= |v.disk| && v.nblocks < 0x80_0000
    && (forall b | 0 <= b < |v.disk| :: |v.disk[b]| == BLOCKSIZE)
    && (forall n | n in v.inodes :: WellFormed(v.inodes[n]))
  }

  /** Exact ownership: `owner` is the inverse of `Refers`. */
  ghost predicate Owned(v: Volume) {
    && (forall b | b in v.owner :: b < v.nblocks && Refers(v, v.owner[b], b))
    && (forall r, b: nat | Refers(v, r, b) :: b in v.owner && v.owner[b] == r)
  }

  /** So a block is referenced at most once, and is owned exactly when it is
      referenced. */
  lemma OwnedExactly(v: Volume)
    requires Owned(v)
    ensures forall r, s, b: nat | Refers(v, r, b) && Refers(v, s, b) :: r == s
    ensures forall b: nat :: b in v.owner <==> exists r :: Refers(v, r, b)
  {
    forall b: nat ensures b in v.owner <==> exists r :: Refers(v, r, b) {
      if b in v.owner {
        assert Refers(v, v.owner[b], b);
      }
    }
  }

  /** v' differs from v in nothing that files are made of. */
  ghost predicate SameFiles(v: Volume, v': Volume) {
    && v'.inodes == v.inodes && (forall m: nat :: ExtentOf(v', m) == ExtentOf(v, m))
    && forall m: nat, g: nat :: FileBlock(v', m, g) == FileBlock(v, m, g)
  }

  /** Nothing about the files other than n has changed. */
  ghost predicate SameBut(v: Volume, v': Volume, n: nat) {
    && v'.nblocks == v.nblocks
    && (forall m | m != n :: (m in v.inodes <==> m in v'.inodes) && (m in v.inodes ==> v'.inodes[m] == v.inodes[m]))
    && (forall m: nat | m != n :: ExtentOf(v', m) == ExtentOf(v, m))
    && (forall m: nat, g: nat | m != n :: FileBlock(v', m, g) == FileBlock(v, m, g))
  }

  // --- Writing one block ---------------------------------------------------

  /** A block that holds neither file data nor pointers can be rewritten freely. */
  lemma WriteOther(v: Volume, b: nat, blk: Block)
    requires Shaped(v) && Owned(v) && b < |v.disk| && |blk| == BLOCKSIZE
    requires b in v.owner ==> !v.owner[b].Ind? && !v.owner[b].Data?
    ensures var v' := v.(disk := v.disk[b := blk]); Shaped(v') && Owned(v') && SameFiles(v, v')
  {
    var v' := v.(disk := v.disk[b := blk]);
    forall m: nat, g: nat ensures Mapped(v', m, g) == Mapped(v, m, g) {
      assert m in v.inodes && v.inodes[m].indirect == b && b != 0 ==> Refers(v, Ind(m), b);
    }
    forall m: nat, g: nat ensures FileBlock(v', m, g) == FileBlock(v, m, g) {
      assert Mapped(v, m, g) == b && b != 0 ==> Refers(v, Data(m, g), b);
    }
    forall r, c: nat ensures Refers(v', r, c) == Refers(v, r, c) {
    }
  }

  lemma WriteData(v: Volume, n: nat, fb: nat, blk: Block)
    requires Shaped(v) && Owned(v) && |blk| == BLOCKSIZE
    requires Refers(v, Data(n, fb), Mapped(v, n, fb))
    ensures var b := Mapped(v, n, fb);
            && b < |v.disk|
            && var v' := v.(disk := v.disk[b := blk]);
               && Shaped(v') && Owned(v') && (forall m: nat :: ExtentOf(v', m) == ExtentOf(v, m))
               && forall m: nat, g: nat :: FileBlock(v', m, g) == if m == n && g == fb then blk else FileBlock(v, m, g)
  {
    var b := Mapped(v, n, fb);
    var v' := v.(disk := v.disk[b := blk]);
    forall m: nat, g: nat ensures Mapped(v', m, g) == Mapped(v, m, g) {
      assert m in v.inodes && v.inodes[m].indirect == b && b != 0 ==> Refers(v, Ind(m), b);
    }
    forall m: nat, g: nat ensures FileBlock(v', m, g) == if m == n && g == fb then blk else FileBlock(v, m, g) {
      assert Mapped(v, m, g) == b ==> Refers(v, Data(m, g), b);
    }
    forall r, c: nat ensures Refers(v', r, c) == Refers(v, r, c) {
    }
  }

  // --- Giving a block to a file ---------------------------------------------

  ghost predicate Spare(v: Volume, b: nat) {
    b !in v.owner && 0 < b < v.nblocks && b < |v.disk| && v.disk[b] == ZeroBlock()
  }

  /** The extents of v with some more blocks for file n. */
  ghost function Adds(v: Volume, m: nat, n: nat, fbs: set<nat>): Extent {
    var e := ExtentOf(v, m);
    if m == n then Extent(e.blocks + fbs, e.indirect) else e
  }

  ghost function WithDirect(v: Volume, n: nat, fb: nat, b: word): Volume
    requires n in v.inodes && fb < |v.inodes[n].direct|
  {
    v.(inodes := v.inodes[n := v.inodes[n].(direct := v.inodes[n].direct[fb := b])],
       owner := v.owner[b := Data(n, fb)])
  }

  lemma LinkDirect(v: Volume, n: nat, fb: nat, b: word)
    requires Shaped(v) && Owned(v) && Spare(v, b)
    requires n in v.inodes && fb < NDIRECT && v.inodes[n].direct[fb] == 0
    ensures var v' := WithDirect(v, n, fb, b);
            && Shaped(v') && Owned(v') && Mapped(v', n, fb) == b
            && (forall m: nat :: ExtentOf(v', m) == Adds(v, m, n, {fb}))
            && forall m: nat, g: nat :: FileBlock(v', m, g) == FileBlock(v, m, g)
  {
    var v' := WithDirect(v, n, fb, b);
    forall m: nat, g: nat ensures Mapped(v', m, g) == if m == n && g == fb then b else Mapped(v, m, g) {
    }
    forall r, c: nat ensures Refers(v', r, c) == (Refers(v, r, c) || (r == Data(n, fb) && c == b)) {
    }
  }

  ghost function WithIndirect(v: Volume, n: nat, b: word): Volume
    requires n in v.inodes
  {
    v.(inodes := v.inodes[n := v.inodes[n].(indirect := b)], owner := v.owner[b := Ind(n)])
  }

  lemma LinkIndirect(v: Volume, n: nat, b: word)
    requires Shaped(v) && Owned(v) && Spare(v, b)
    requires n in v.inodes && v.inodes[n].indirect == 0
    ensures var v' := WithIndirect(v, n, b);
            && Shaped(v') && Owned(v')
            && (forall m: nat ::
                  ExtentOf(v', m) == if m == n then ExtentOf(v, n).(indirect := true) else ExtentOf(v, m))
            && forall m: nat, g: nat :: Mapped(v', m, g) == Mapped(v, m, g) && FileBlock(v', m, g) == FileBlock(v, m, g)
  {
    var v' := WithIndirect(v, n, b);
    forall m: nat, g: nat ensures Mapped(v', m, g) == Mapped(v, m, g) {
      if m == n && NDIRECT <= g {
        WordAtZero(g - NDIRECT);
      }
    }
    forall r, c: nat ensures Refers(v', r, c) == (Refers(v, r, c) || (r == Ind(n) && c == b)) {
    }
  }

  /** idbuf[k] = b, written back to the indirect block. */
  ghost function WithEntry(v: Volume, n: nat, k: nat, b: word): Volume
    requires n in v.inodes && k < DBPERIDB && v.inodes[n].indirect < |v.disk|
    requires |v.disk[v.inodes[n].indirect]| == BLOCKSIZE
  {
    var id := v.inodes[n].indirect;
    v.(disk := v.disk[id := Unwords(Words(v.disk[id])[k := b])], owner := v.owner[b := Data(n, NDIRECT + k)])
  }

  /** An entry of the rewritten indirect block. */
  lemma EntryWord(b: Block, k: nat, w: word, e: nat)
    requires |b| == BLOCKSIZE && k < DBPERIDB && e < DBPERIDB
    ensures WordAt(Unwords(Words(b)[k := w]), e) == if e == k then w else WordAt(b, e)
  {
    WordAtUnwords(Words(b)[k := w], e);
  }

  lemma OnlyIndirect(v: Volume, n: nat)
    requires Owned(v) && n in v.inodes && v.inodes[n].indirect != 0
    ensures v.inodes[n].indirect < v.nblocks && Refers(v, Ind(n), v.inodes[n].indirect)
    ensures forall m | m in v.inodes && v.inodes[m].indirect == v.inodes[n].indirect :: m == n
  {
    assert Refers(v, Ind(n), v.inodes[n].indirect);
    forall m | m in v.inodes && v.inodes[m].indirect == v.inodes[n].indirect ensures m == n {
      assert Refers(v, Ind(m), v.inodes[n].indirect);
    }
  }

  lemma EntryMapped(v: Volume, n: nat, k: nat, b: word)
    requires Shaped(v) && Owned(v)
    requires n in v.inodes && v.inodes[n].indirect != 0 && k < DBPERIDB
    ensures v.inodes[n].indirect < v.nblocks && Refers(v, Ind(n), v.inodes[n].indirect)
    ensures forall m: nat, g: nat :: Mapped(WithEntry(v, n, k, b), m, g) ==
              if m == n && g == NDIRECT + k then b else Mapped(v, m, g)
  {
    hide Owned, Refers, Unwords, Words, WordAt;
    OnlyIndirect(v, n);
    var id := v.inodes[n].indirect;
    var v' := WithEntry(v, n, k, b);
    assert v'.disk[id] == Unwords(Words(v.disk[id])[k := b]);
    forall m: nat, g: nat ensures Mapped(v', m, g) == if m == n && g == NDIRECT + k then b else Mapped(v, m, g) {
      if NDIRECT <= g < MAXBLOCKS {
        EntryWord(v.disk[id], k, b, g - NDIRECT);
      }
    }
  }

  lemma LinkEntry(v: Volume, n: nat, k: nat, b: word)
    requires Shaped(v) && Owned(v) && Spare(v, b)
    requires n in v.inodes && v.inodes[n].indirect != 0 && k < DBPERIDB && Mapped(v, n, NDIRECT + k) == 0
    ensures v.inodes[n].indirect < v.nblocks
    ensures var v' := WithEntry(v, n, k, b);
            && Shaped(v') && Owned(v') && Mapped(v', n, NDIRECT + k) == b
            && (forall m: nat :: ExtentOf(v', m) == Adds(v, m, n, {NDIRECT + k}))
            && forall m: nat, g: nat :: FileBlock(v', m, g) == FileBlock(v, m, g)
  {
    EntryMapped(v, n, k, b);
    var id := v.inodes[n].indirect;
    var v' := WithEntry(v, n, k, b);
    forall m: nat, g: nat ensures FileBlock(v', m, g) == FileBlock(v, m, g) {
      assert Mapped(v, m, g) == id ==> Refers(v, Data(m, g), id);
    }
    forall r, c: nat ensures Refers(v', r, c) == (Refers(v, r, c) || (r == Data(n, NDIRECT + k) && c == b)) {
    }
  }

  // --- Taking blocks away ---------------------------------------------------

  ghost function WithoutDirect(v: Volume, n: nat, fb: nat): Volume
    requires n in v.inodes && fb < |v.inodes[n].direct|
  {
    v.(inodes := v.inodes[n := v.inodes[n].(direct := v.inodes[n].direct[fb := 0])],
       owner := v.owner - {v.inodes[n].direct[fb] as nat})
  }

  lemma UnlinkDirect(v: Volume, n: nat, fb: nat)
    requires Shaped(v) && Owned(v) && n in v.inodes && fb < NDIRECT && v.inodes[n].direct[fb] != 0
    ensures var v' := WithoutDirect(v, n, fb);
            && v.inodes[n].direct[fb] in v.owner && Shaped(v') && Owned(v')
            && (forall m: nat | m != n :: ExtentOf(v', m) == ExtentOf(v, m))
            && forall m: nat, g: nat ::
                 FileBlock(v', m, g) == if m == n && g == fb then ZeroBlock() else FileBlock(v, m, g)
  {
    var v' := WithoutDirect(v, n, fb);
    var b := v.inodes[n].direct[fb];
    assert Refers(v, Data(n, fb), b);
    forall m: nat, g: nat ensures Mapped(v', m, g) == if m == n && g == fb then 0 else Mapped(v, m, g) {
    }
    forall r, c: nat ensures Refers(v', r, c) == (Refers(v, r, c) && r != Data(n, fb)) {
    }
  }

  /** The indirect block of file n and the blocks it maps. */
  ghost function IndirectBlocks(v: Volume, n: nat): set<nat> {
    set b | b in v.owner &&
            (v.owner[b] == Ind(n) || (v.owner[b].Data? && v.owner[b].n == n && v.owner[b].fb >= NDIRECT))
  }

  ghost function WithoutIndirect(v: Volume, n: nat): Volume
    requires n in v.inodes
  {
    v.(inodes := v.inodes[n := v.inodes[n].(indirect := 0)], owner := v.owner - IndirectBlocks(v, n))
  }

  lemma UnlinkIndirect(v: Volume, n: nat)
    requires Shaped(v) && Owned(v) && n in v.inodes
    ensures var v' := WithoutIndirect(v, n);
            && Shaped(v') && Owned(v') && (forall m: nat | m != n :: ExtentOf(v', m) == ExtentOf(v, m))
            && forall m: nat, g: nat ::
                 FileBlock(v', m, g) == if m == n && g >= NDIRECT then ZeroBlock() else FileBlock(v, m, g)
  {
    var v' := WithoutIndirect(v, n);
    forall m: nat, g: nat ensures Mapped(v', m, g) == if m == n && g >= NDIRECT then 0 else Mapped(v, m, g) {
    }
    forall r, c: nat ensures Refers(v', r, c) ==
      (Refers(v, r, c) && r != Ind(n) && !(r.Data? && r.n == n && r.fb >= NDIRECT)) {
    }
  }

  /** The blocks named by the first j entries of an indirect block. */
  ghost function Entries(ws: seq<word>, j: nat): set<nat> {
    set e | 0 <= e < j && e < |ws| && ws[e] != 0 :: ws[e] as nat
  }

  /** Each entry names an owned block, no two the same one, and with the indirect
      block itself they are all there is. */
  lemma IndirectEntries(v: Volume, n: nat)
    requires Shaped(v) && Owned(v) && n in v.inodes && v.inodes[n].indirect != 0
    ensures var id := v.inodes[n].indirect;
            && id < v.nblocks && id in v.owner && v.owner[id] == Ind(n)
            && var ws := Words(v.disk[id]);
               && (forall e | 0 <= e < |ws| && ws[e] != 0 ::
                     ws[e] in v.owner && v.owner[ws[e]] == Data(n, NDIRECT + e) && ws[e] != id)
               && IndirectBlocks(v, n) == Entries(ws, DBPERIDB) + {id as nat}
  {
    var id := v.inodes[n].indirect;
    assert Refers(v, Ind(n), id);
    var ws := Words(v.disk[id]);
    forall e | 0 <= e < |ws| && ws[e] != 0
      ensures ws[e] in v.owner && v.owner[ws[e]] == Data(n, NDIRECT + e)
    {
      assert Refers(v, Data(n, NDIRECT + e), ws[e]);
    }
    forall b | b in IndirectBlocks(v, n) ensures b in Entries(ws, DBPERIDB) + {id as nat} {
      assert Refers(v, v.owner[b], b);
      if v.owner[b].Data? {
        assert ws[v.owner[b].fb - NDIRECT] == b;
      }
    }
  }

  // --- Inodes ---------------------------------------------------------------

  ghost predicate NoBlocks(i: Inode) {
    i.indirect == 0 && forall k | 0 <= k < |i.direct| :: i.direct[k] == 0
  }

  ghost function WithInode(v: Volume, n: nat, i: Inode): Volume {
    v.(inodes := v.inodes[n := i], owner := v.owner[n := Ino(n)])
  }

  /** sfs_makeobj: a zeroed block becomes the inode of an empty file. */
  lemma AddInode(v: Volume, n: nat, i: Inode)
    requires Shaped(v) && Owned(v) && Spare(v, n) && WellFormed(i) && NoBlocks(i)
    ensures var v' := WithInode(v, n, i);
            && n !in v.inodes && Shaped(v') && Owned(v') && (forall m: nat :: ExtentOf(v', m) == ExtentOf(v, m))
            && forall m: nat, g: nat :: FileBlock(v', m, g) == FileBlock(v, m, g)
  {
    assert n in v.inodes ==> Refers(v, Ino(n), n);
    var v' := WithInode(v, n, i);
    forall m: nat, g: nat ensures Mapped(v', m, g) == Mapped(v, m, g) {
    }
    forall r, c: nat ensures Refers(v', r, c) == (Refers(v, r, c) || (r == Ino(n) && c == n)) {
    }
  }

  ghost function WithoutInode(v: Volume, n: nat): Volume {
    v.(inodes := v.inodes - {n}, owner := v.owner - {n})
  }

  /** sfs_reclaim: the inode block of an erased file goes back. */
  lemma RemoveInode(v: Volume, n: nat)
    requires Shaped(v) && Owned(v) && n in v.inodes && NoBlocks(v.inodes[n])
    ensures var v' := WithoutInode(v, n);
            && Shaped(v') && Owned(v') && (forall m: nat :: ExtentOf(v', m) == ExtentOf(v, m))
            && forall m: nat, g: nat :: FileBlock(v', m, g) == FileBlock(v, m, g)
  {
    var v' := WithoutInode(v, n);
    assert Refers(v, Ino(n), n);
    forall m: nat, g: nat ensures Mapped(v', m, g) == Mapped(v, m, g) {
    }
    forall r, c: nat ensures Refers(v', r, c) == (Refers(v, r, c) && r != Ino(n)) {
    }
  }

  /** Only the size or the link count of an inode changes. */
  ghost predicate SameMapping(i: Inode, j: Inode) {
    i.direct == j.direct && i.indirect == j.indirect
  }

  lemma SetInode(v: Volume, n: nat, i: Inode)
    requires Shaped(v) && Owned(v) && n in v.inodes && WellFormed(i) && SameMapping(v.inodes[n], i)
    ensures var v' := v.(inodes := v.inodes[n := i]);
            && Shaped(v') && Owned(v') && (forall m: nat :: ExtentOf(v', m) == ExtentOf(v, m))
            && forall m: nat, g: nat :: FileBlock(v', m, g) == FileBlock(v, m, g)
  {
    var v' := v.(inodes := v.inodes[n := i]);
    forall m: nat, g: nat ensures Mapped(v', m, g) == Mapped(v, m, g) {
    }
    forall r, c: nat ensures Refers(v', r, c) == Refers(v, r, c) {
    }
  }

  // --- Bytes ------------------------------------------------------------------

  /** The superblock, the free map and the inode blocks are as they were. */
  ghost predicate SameSystemBlocks(v: Volume, v': Volume) {
    && v'.nblocks == v.nblocks && |v'.disk| == |v.disk|
    && forall b | b in v.owner && b < |v.disk| && !v.owner[b].Data? && !v.owner[b].Ind? ::
         b in v'.owner && v'.owner[b] == v.owner[b] && v'.disk[b] == v.disk[b]
  }

  /** Only the block pointers of file n may differ. */
  ghost predicate SameInodes(v: Volume, v': Volume, n: nat) {
    && v'.inodes.Keys == v.inodes.Keys
    && (forall m | m in v.inodes && m != n :: v'.inodes[m] == v.inodes[m])
    && (n in v.inodes ==>
          v'.inodes[n] == v.inodes[n].(direct := v'.inodes[n].direct, indirect := v'.inodes[n].indirect))
  }

  /** Block g has bytes before and after the end of `len` bytes at off; with len 0, off is inside
      it. */
  predicate Overlaps(g: nat, off: nat, len: nat) {
    g * 512 < off + len && off < g * 512 + 512
  }

  /** Part of that is past the largest file. */
  predicate Beyond(off: nat, len: nat) {
    off + len > MAXFILE && (len > 0 || off % 512 != 0)
  }

  /** The blocks that writing `len` bytes at `off` needs. */
  ghost function Spread(off: nat, len: nat): set<nat> {
    set g: nat | g < MAXBLOCKS && Overlaps(g, off, len)
  }

  /** What writing `len` bytes at `off` may have done to a file's blocks: it has those the bytes
      are in, and no others are new. */
  ghost predicate Grown(e: Extent, e': Extent, off: nat, len: nat) {
    && e.blocks <= e'.blocks <= e.blocks + Spread(off, len) && (len > 0 ==> Spread(off, len) <= e'.blocks)
    && (e.indirect ==> e'.indirect) && (e'.indirect && !e.indirect ==> off < MAXFILE && off + len >= NDIRECT * 512)
  }

  /** What writing exactly `len` bytes at `off` does to a file's blocks. One that fails before its
      first byte adds none; one of no bytes inside a block still adds that block. */
  ghost predicate Filled(e: Extent, e': Extent, off: nat, len: nat, ok: bool) {
    && e'.blocks == e.blocks + (if ok || len > 0 then Spread(off, len) else {})
    && (e.indirect ==> e'.indirect) && (e'.indirect && !e.indirect ==> off < MAXFILE && off + len >= NDIRECT * 512)
    && (e'.indirect && !e.indirect && ok ==> NeedsIndirect(off, len))
  }

  /** Some of the blocks lie beyond the direct ones. */
  predicate NeedsIndirect(off: nat, len: nat) {
    off < MAXFILE && off + len > NDIRECT * 512 && off % 512 + len > 0
  }

  lemma FilledIs(v: Volume, n: nat, e: Extent, off: nat, len: nat, ok: bool)
    requires Grown(e, ExtentOf(v, n), off, len)
    requires ok && len == 0 && off % 512 != 0 && off / 512 < MAXBLOCKS ==> Mapped(v, n, off / 512) != 0
    requires !ok && (off + len) / 512 < MAXBLOCKS ==> Mapped(v, n, (off + len) / 512) == 0
    requires ok && ExtentOf(v, n).indirect && !e.indirect ==> NeedsIndirect(off, len)
    ensures Filled(e, ExtentOf(v, n), off, len, ok)
  {
    if len == 0 {
      forall g | g in Spread(off, 0) ensures g == off / 512 && off % 512 != 0 {
      }
      assert ok ==> Spread(off, 0) <= ExtentOf(v, n).blocks;
    }
  }

  lemma GrownThen(e: Extent, e1: Extent, e2: Extent, off: nat, a: nat, b: nat)
    requires Grown(e, e1, off, a) && Grown(e1, e2, off + a, b)
    ensures Grown(e, e2, off, a + b)
  {
    forall g | g in Spread(off, a) || g in Spread(off + a, b) ensures g in Spread(off, a + b) {
    }
    forall g | g in Spread(off, a + b) && a + b > 0
      ensures (a > 0 && g in Spread(off, a)) || (b > 0 && g in Spread(off + a, b))
    {
    }
  }

  /** File n now has `data` at `off`; nothing else has changed. */
  ghost predicate Wrote(v: Volume, v': Volume, n: nat, off: nat, data: seq<byte>) {
    && SameSystemBlocks(v, v') && SameInodes(v, v', n)
    && (forall m: nat | m != n :: ExtentOf(v', m) == ExtentOf(v, m))
    && Grown(ExtentOf(v, n), ExtentOf(v', n), off, |data|)
    && (forall m: nat, g: nat | m != n :: FileBlock(v', m, g) == FileBlock(v, m, g))
    && (forall p: nat :: FileByte(v', n, p) == if off <= p < off + |data| then data[p - off] else FileByte(v, n, p))
  }

  lemma WroteNothing(v: Volume, v': Volume, n: nat, off: nat)
    requires SameSystemBlocks(v, v') && SameInodes(v, v', n)
    requires forall m: nat, g: nat :: FileBlock(v', m, g) == FileBlock(v, m, g)
    requires (forall m: nat | m != n :: ExtentOf(v', m) == ExtentOf(v, m))
    requires Grown(ExtentOf(v, n), ExtentOf(v', n), off, 0)
    ensures Wrote(v, v', n, off, [])
  {
  }

  /** Storing into one block of the file is writing at 512 * fb + skip. */
  lemma WroteBlock(v: Volume, v': Volume, n: nat, fb: nat, skip: nat, data: seq<byte>)
    requires SameSystemBlocks(v, v') && SameInodes(v, v', n)
    requires |FileBlock(v, n, fb)| == BLOCKSIZE && skip + |data| <= BLOCKSIZE
    requires forall m: nat, g: nat :: FileBlock(v', m, g) ==
               if m == n && g == fb then Store(FileBlock(v, n, fb), skip, data) else FileBlock(v, m, g)
    requires (forall m: nat | m != n :: ExtentOf(v', m) == ExtentOf(v, m))
    requires Grown(ExtentOf(v, n), ExtentOf(v', n), fb * BLOCKSIZE + skip, |data|)
    ensures Wrote(v, v', n, fb * BLOCKSIZE + skip, data)
  {
    hide FileBlock, SameSystemBlocks, SameInodes, ExtentOf, Grown;
    var off := fb * BLOCKSIZE + skip;
    forall p: nat ensures FileByte(v', n, p) == if off <= p < off + |data| then data[p - off] else FileByte(v, n, p) {
      InBlock(p, fb);
    }
  }

  lemma InBlock(p: nat, fb: nat)
    ensures p / 512 == fb <==> fb * 512 <= p < fb * 512 + 512
    ensures p / 512 == fb ==> p % 512 == p - fb * 512
  {
  }

  lemma WroteThenWrote(v: Volume, v1: Volume, v2: Volume, n: nat, off: nat, a: seq<byte>, b: seq<byte>)
    requires Wrote(v, v1, n, off, a) && Wrote(v1, v2, n, off + |a|, b)
    ensures Wrote(v, v2, n, off, a + b)
  {
    hide FileBlock, ExtentOf, Grown;
    GrownThen(ExtentOf(v, n), ExtentOf(v1, n), ExtentOf(v2, n), off, |a|, |b|);
  }

  /** Bytes past the end of the file that are mapped are zero. */
  ghost predicate ZeroTail(v: Volume, n: nat) {
    n in v.inodes && forall p: nat | v.inodes[n].size <= p :: FileByte(v, n, p) == 0
  }

  /** The file as a sequence of bytes. */
  ghost function Contents(v: Volume, n: nat): (c: seq<byte>)
    requires n in v.inodes
    ensures |c| == v.inodes[n].size
    ensures forall p | 0 <= p < |c| :: c[p] == FileByte(v, n, p)
  {
    seq(v.inodes[n].size, p requires 0 <= p < v.inodes[n].size => FileByte(v, n, p))
  }

  /** What a write of `data` at `off` means: the file grows to reach it, a gap is
      zeros, and no other byte changes. */
  ghost function WriteAt(c: seq<byte>, off: nat, data: seq<byte>): (r: seq<byte>)
    ensures |r| == if |c| >= off + |data| then |c| else off + |data|
    ensures forall p | 0 <= p < |r| ::
              r[p] == if off <= p < off + |data| then data[p - off] else if p < |c| then c[p] else 0
  {
    seq(if |c| >= off + |data| then |c| else off + |data|, p requires 0 <= p =>
      if off <= p < off + |data| then data[p - off] else if p < |c| then c[p] else 0)
  }

  /** A volume in which file n has been written and its size raised to match. */
  lemma WroteContents(v: Volume, v': Volume, n: nat, off: nat, data: seq<byte>, v'': Volume)
    requires n in v.inodes && ZeroTail(v, n) && Wrote(v, v', n, off, data)
    requires v''.inodes.Keys == v'.inodes.Keys
    requires v''.inodes[n].size == if v.inodes[n].size >= off + |data| then v.inodes[n].size else off + |data|
    requires forall g: nat :: FileBlock(v'', n, g) == FileBlock(v', n, g)
    ensures ZeroTail(v'', n) && Contents(v'', n) == WriteAt(Contents(v, n), off, data)
  {
    forall p: nat ensures FileByte(v'', n, p) == FileByte(v', n, p) {
    }
  }

  // --- Transfers --------------------------------------------------------------

  ghost function FileBytes(v: Volume, n: nat, off: nat, len: nat): (r: seq<byte>)
    ensures |r| == len && forall i {:trigger r[i]} | 0 <= i < len :: r[i] == FileByte(v, n, off + i)
  {
    if len == 0 then [] else FileBytes(v, n, off, len - 1) + [FileByte(v, n, off + len - 1)]
  }

  /** A uio transfer of m bytes at offset `off` of file n: a read fills the flat
      buffer from the file, a write puts the buffer's bytes into the file. */
  ghost predicate IoDid(rw: Direction, v0: Volume, n: nat, off: nat, flat0: seq<byte>, pos: nat, m: nat,
                        v: Volume, flat: seq<byte>) {
    && pos + m <= |flat0|
    && (rw == READ ==> v == v0 && flat == Store(flat0, pos, FileBytes(v0, n, off, m)))
    && (rw == WRITE ==> flat == flat0 && Wrote(v0, v, n, off, flat0[pos..pos + m]))
  }

  lemma IoDidThen(rw: Direction, v0: Volume, n: nat, off: nat, flat0: seq<byte>, pos: nat, m: nat,
                  v1: Volume, flat1: seq<byte>, k: nat, v2: Volume, flat2: seq<byte>)
    requires IoDid(rw, v0, n, off, flat0, pos, m, v1, flat1)
    requires IoDid(rw, v1, n, off + m, flat1, pos + m, k, v2, flat2)
    ensures IoDid(rw, v0, n, off, flat0, pos, m + k, v2, flat2)
  {
    hide Wrote, FileByte;
    if rw == READ {
      StoreStore(flat0, pos, FileBytes(v0, n, off, m), FileBytes(v0, n, off + m, k));
      assert FileBytes(v0, n, off, m) + FileBytes(v0, n, off + m, k) == FileBytes(v0, n, off, m + k);
    } else {
      WroteThenWrote(v0, v1, v2, n, off, flat0[pos..pos + m], flat0[pos + m..pos + m + k]);
      assert flat0[pos..pos + m] + flat0[pos + m..pos + m + k] == flat0[pos..pos + (m + k)];
    }
  }

  lemma IoDidNothing(rw: Direction, v: Volume, n: nat, off: nat, flat: seq<byte>, pos: nat)
    requires pos <= |flat| && (forall b | b in v.owner :: b < v.nblocks) && v.nblocks <= |v.disk|
    ensures IoDid(rw, v, n, off, flat, pos, 0, v, flat)
  {
    StoreNothing(flat, pos);
    assert flat[pos..pos + 0] == [];
    assert FileBytes(v, n, off, 0) == [];
  }

  lemma BlockBytes(v: Volume, n: nat, fb: nat, skip: nat, len: nat)
    requires |FileBlock(v, n, fb)| == BLOCKSIZE && skip + len <= BLOCKSIZE
    ensures FileBytes(v, n, fb * BLOCKSIZE + skip, len) == FileBlock(v, n, fb)[skip..skip + len]
  {
    hide FileBlock;
    var off := fb * BLOCKSIZE + skip;
    forall i | 0 <= i < len ensures FileBytes(v, n, off, len)[i] == FileBlock(v, n, fb)[skip + i] {
      assert (off + i) / BLOCKSIZE == fb && (off + i) % BLOCKSIZE == skip + i;
    }
  }

  /** The whole effect of writing `data` at `off` of file n. */
  ghost predicate FileWritten(v: Volume, v': Volume, n: nat, off: nat, data: seq<byte>) {
    && SameSystemBlocks(v, v') && n in v.inodes && v'.inodes.Keys == v.inodes.Keys
    && (forall m | m in v.inodes && m != n :: v'.inodes[m] == v.inodes[m])
    && (forall m: nat | m != n :: ExtentOf(v', m) == ExtentOf(v, m))
    && Grown(ExtentOf(v, n), ExtentOf(v', n), off, |data|)
    && (forall m: nat, g: nat | m != n :: FileBlock(v', m, g) == FileBlock(v, m, g))
    && v'.inodes[n].typ == v.inodes[n].typ && v'.inodes[n].linkcount == v.inodes[n].linkcount
    && ZeroTail(v', n) && Contents(v', n) == WriteAt(Contents(v, n), off, data)
  }

  function Max(a: nat, b: nat): nat {
    if a >= b then a else b
  }

  /** sfi_size after a write that ended at `off`: 32 bits of a 64-bit offset. */
  function StoredSize(size: nat, off: nat): nat {
    if off > size then off % SIZE_T else size
  }

  /** It covers the write if and only if the offset fits. */
  lemma SizeExactly(size: nat, off: nat)
    requires size < SIZE_T
    ensures StoredSize(size, off) == Max(size, off) <==> off < SIZE_T
  {
  }

  /** A write at 2^32 + 5 to a file of 1000 bytes cuts it to 5. */
  lemma SizeExample()
    ensures StoredSize(1000, SIZE_T + 5) == 5
  {
  }

  /** A write is complete once the size covers it. */
  lemma WroteFile(v: Volume, v': Volume, n: nat, off: nat, data: seq<byte>, i: Inode)
    requires n in v.inodes && ZeroTail(v, n) && Wrote(v, v', n, off, data)
    requires n in v'.inodes && i == v'.inodes[n].(size := Max(v.inodes[n].size, off + |data|))
    ensures FileWritten(v, v'.(inodes := v'.inodes[n := i]), n, off, data)
  {
    var v'' := v'.(inodes := v'.inodes[n := i]);
    assert forall m: nat, g: nat :: Mapped(v'', m, g) == Mapped(v', m, g);
    assert forall m: nat, g: nat :: FileBlock(v'', m, g) == FileBlock(v', m, g);
    assert forall m: nat :: ExtentOf(v'', m) == ExtentOf(v', m);
    hide FileBlock, FileByte, ExtentOf, Grown;
    WroteContents(v, v', n, off, data, v'');
  }
}
