/** fs/sfs/sfs_vnode.c: the operations of the SFS filesystem.

    Every operation runs under the VFS big lock, so each is one atomic step. The
    device is an array of blocks that never fails.
  */
module Sfs {
  import opened Bytes
  import opened Errno
  import opened Bitmaps
  import opened Uios
  import opened SfsLayout
  import opened SfsVolume
  import opened SfsTable
  import opened SfsDir
  import opened SfsView

  class Sfs {
    var disk: seq<Block>
    const nblocks: nat
    const freemap: Bitmap
    var freemapdirty: bool
    var vnodes: seq<Vnode>
    ghost var inodes: map<nat, Inode>
    ghost var owner: map<nat, Ref>

    constructor (dev: seq<Block>, nblocks: nat, mapsize: nat, ghost v: Volume)
      ensures disk == dev && this.nblocks == nblocks && vnodes == [] && !freemapdirty
      ensures fresh(freemap) && fresh(freemap.v) && freemap.Valid() && freemap.nbits == 4096 * mapsize
      ensures inodes == v.inodes && owner == v.owner
    {
      this.nblocks := nblocks;
      freemap := new Bitmap(4096 * mapsize);
      disk, freemapdirty, vnodes := dev, false, [];
      inodes, owner := v.inodes, v.owner;
    }

    ghost function V(): Volume
      reads this
    {
      Volume(nblocks, disk, inodes, owner)
    }

    /** All but the blocks in `extra`, just allocated, have their owner. */
    ghost predicate Almost(extra: set<nat>)
      reads this, freemap, freemap.v
    {
      && freemap.Valid() && freemap.nbits == 4096 * BitBlocks(nblocks)
      && Coherent(V(), vnodes, freemap.Marked(), extra)
      && SystemBlocks(disk, nblocks, freemapdirty, freemap.v[..])
    }

    /** The blocks that nobody owns. */
    ghost function Free(): set<nat>
      reads this
    {
      set c: nat | c < nblocks && c !in owner
    }

    ghost predicate Base()
      reads this, freemap, freemap.v
    {
      Almost({})
    }

    /** sfs_balloc: a cleared block that nothing refers to. The panic for a block
        past the end of the volume is the first assertion. */
    method Balloc() returns (result: Errno, b: nat)
      requires Base()
      modifies this`disk, this`freemapdirty, freemap.v
      ensures result == OK || result == ENOSPC
      ensures result == OK ==> Almost({b}) && Allocated(old(V()), V(), b) && freemapdirty
      ensures result == OK ==> 0 < b < nblocks && b < |old(disk)| && disk == old(disk)[b := ZeroBlock()]
      ensures result == ENOSPC <==> forall c: nat | c < nblocks :: c in owner
      ensures result == ENOSPC ==> Base() && disk == old(disk) && freemapdirty == old(freemapdirty)
    {
      MapBitsFull(V());
      result, b := freemap.Alloc();
      if result == OK {
        freemapdirty := true;
        assert b < nblocks;
        SpareBlock(V(), b);
        WriteOther(V(), b, ZeroBlock());
        CachedWrite(V(), vnodes, b, ZeroBlock());
        disk := disk[b := ZeroBlock()];
      }
    }

    /** sfs_bused */
    method Bused(b: nat) returns (used: bool)
      requires Base() && b < nblocks
      ensures used == (b in owner)
    {
      used := freemap.Test(b);
    }

    /** A missing direct block is allocated and recorded in the inode. */
    method AllocDirect(k: nat, fb: nat) returns (result: Errno, b: nat)
      requires Base() && k < |vnodes| && fb < NDIRECT && vnodes[k].inode.direct[fb] == 0
      modifies this, freemap.v
      ensures Base() && (result == OK ==> Grew(old(V()), old(vnodes), V(), vnodes, k, fb, true))
      ensures |vnodes| == |old(vnodes)| && vnodes[k].ino == old(vnodes)[k].ino
      ensures result == OK || result == ENOSPC
      ensures result == OK ==> b != 0 && Mapped(V(), vnodes[k].ino, fb) == b
      ensures result == ENOSPC ==> V() == old(V()) && vnodes == old(vnodes) && forall c: nat | c < nblocks :: c in owner
    {
      hide SystemBlocks, Shaped, Owned, Coherent, Grew, Allocated, Bitmap.Valid, Bitmap.Marked;
      VnodeFacts(V(), vnodes, freemap.Marked(), {}, k);
      ghost var n := vnodes[k].ino;
      result, b := Balloc();
      if result == OK {
        var i := vnodes[k].inode.(direct := vnodes[k].inode.direct[fb := b]);
        GiveDirect(old(V()), V(), vnodes, freemap.Marked(), k, fb, b, i);
        vnodes := Dirtied(vnodes, k, i);
        inodes, owner := inodes[n := i], owner[b := Data(n, fb)];
      }
    }

    /** A missing indirect block is allocated and recorded in the inode. */
    method AllocIndirect(k: nat) returns (result: Errno, b: nat)
      requires Base() && k < |vnodes| && vnodes[k].inode.indirect == 0
      modifies this, freemap.v
      ensures Base() && (result == OK ==> Grew(old(V()), old(vnodes), V(), vnodes, k, NDIRECT, false))
      ensures |vnodes| == |old(vnodes)| && vnodes[k].ino == old(vnodes)[k].ino
      ensures result == OK || result == ENOSPC
      ensures result == OK ==> b != 0 && vnodes[k].inode.indirect == b && b < nblocks && disk[b] == ZeroBlock()
      ensures result == ENOSPC ==> V() == old(V()) && vnodes == old(vnodes) && forall c: nat | c < nblocks :: c in owner
    {
      hide SystemBlocks, Shaped, Owned, Coherent, Grew, Allocated, Bitmap.Valid, Bitmap.Marked;
      VnodeFacts(V(), vnodes, freemap.Marked(), {}, k);
      ghost var n := vnodes[k].ino;
      result, b := Balloc();
      if result == OK {
        var i := vnodes[k].inode.(indirect := b);
        GiveIndirect(old(V()), V(), vnodes, freemap.Marked(), k, b, i);
        vnodes := Dirtied(vnodes, k, i);
        inodes, owner := inodes[n := i], owner[b := Ind(n)];
      }
    }

    /** A missing entry of the indirect block is allocated and written back. */
    method AllocEntry(k: nat, idbuf: seq<word>, e: nat) returns (result: Errno, b: nat)
      requires Base() && k < |vnodes| && vnodes[k].inode.indirect != 0 && e < DBPERIDB
      requires vnodes[k].inode.indirect < |disk| && |disk[vnodes[k].inode.indirect]| == BLOCKSIZE
      requires idbuf == Words(disk[vnodes[k].inode.indirect]) && idbuf[e] == 0
      modifies this, freemap.v
      ensures Base() && vnodes == old(vnodes)
      ensures result == OK ==> Grew(old(V()), old(vnodes), V(), vnodes, k, NDIRECT + e, true)
      ensures result == OK || result == ENOSPC
      ensures result == OK ==> b != 0 && Mapped(V(), vnodes[k].ino, NDIRECT + e) == b
      ensures result == ENOSPC ==> V() == old(V()) && forall c: nat | c < nblocks :: c in owner
    {
      hide SystemBlocks, Shaped, Owned, Coherent, Grew, Allocated, Bitmap.Valid, Bitmap.Marked;
      VnodeFacts(V(), vnodes, freemap.Marked(), {}, k);
      ghost var n := vnodes[k].ino;
      var id := vnodes[k].inode.indirect;
      result, b := Balloc();
      if result == OK {
        GiveEntry(old(V()), V(), vnodes, freemap.Marked(), k, e, b);
        IndirectKept(V(), vnodes, freemap.Marked(), {b}, n, Unwords(idbuf[e := b]), freemapdirty, freemap.v[..]);
        disk := disk[id := Unwords(idbuf[e := b])];
        owner := owner[b := Data(n, NDIRECT + e)];
      }
    }

    /** sfs_bmap for the part of the file mapped by the indirect block. */
    method BmapIndirect(k: nat, e: nat, doalloc: bool) returns (result: Errno, block: nat)
      requires Base() && k < |vnodes| && e < DBPERIDB
      modifies this, freemap.v
      ensures Base() && Grew(old(V()), old(vnodes), V(), vnodes, k, NDIRECT + e, doalloc && result == OK)
      ensures |vnodes| == |old(vnodes)| && vnodes[k].ino == old(vnodes)[k].ino
      ensures result == OK || (doalloc && result == ENOSPC)
      ensures !doalloc ==> V() == old(V()) && vnodes == old(vnodes)
      ensures result == OK ==> block == Mapped(V(), vnodes[k].ino, NDIRECT + e) && (doalloc ==> block != 0)
      ensures result == ENOSPC ==> Mapped(V(), vnodes[k].ino, NDIRECT + e) == 0
      ensures result == ENOSPC ==> forall c: nat | c < nblocks :: c in owner
    {
      hide SystemBlocks, Shaped, Owned, Coherent, Grew, Allocated, Bitmap.Valid, Bitmap.Marked;
      VnodeFacts(V(), vnodes, freemap.Marked(), {}, k);
      GrewAs(V(), vnodes, V(), vnodes, k, NDIRECT + e);
      result, block := OK, 0;
      ghost var n, v0, vs0 := vnodes[k].ino, V(), vnodes;
      var idblock := vnodes[k].inode.indirect;
      if idblock == 0 && !doalloc {
        return OK, 0;
      }
      if idblock == 0 {
        result, idblock := AllocIndirect(k);
        if result != OK {
          return;
        }
      } else {
        GrewAs(V(), vnodes, V(), vnodes, k, NDIRECT);
      }
      VnodeFacts(V(), vnodes, freemap.Marked(), {}, k);
      var idbuf := Words(disk[idblock]);
      block := idbuf[e];
      ghost var v1, vs1 := V(), vnodes;
      GrewAs(v1, vs1, v1, vs1, k, NDIRECT + e);
      if block == 0 && doalloc {
        result, block := AllocEntry(k, idbuf, e);
      }
      GrewTrans(v0, vs0, v1, vs1, V(), vnodes, k, NDIRECT + e, doalloc && result == OK);
    }

    /** sfs_bmap: the disk block of a file block, allocated on request. The "marked
        free" panics are the assertion at the end. */
    method Bmap(k: nat, fileblock: nat, doalloc: bool) returns (result: Errno, block: nat)
      requires Base() && k < |vnodes|
      modifies this, freemap.v
      ensures Base() && Grew(old(V()), old(vnodes), V(), vnodes, k, fileblock, doalloc && result == OK)
      ensures |vnodes| == |old(vnodes)| && vnodes[k].ino == old(vnodes)[k].ino
      ensures result == OK || result == EFBIG || (doalloc && result == ENOSPC)
      ensures result == EFBIG <==> fileblock >= MAXBLOCKS
      ensures !doalloc || result == EFBIG ==> V() == old(V()) && vnodes == old(vnodes)
      ensures result == OK ==> block == Mapped(V(), vnodes[k].ino, fileblock) && (doalloc ==> block != 0)
      ensures result == OK && block != 0 ==> block < nblocks && block < |disk| && |disk[block]| == BLOCKSIZE
      ensures result == ENOSPC ==> Mapped(V(), vnodes[k].ino, fileblock) == 0
      ensures result == ENOSPC ==> forall c: nat | c < nblocks :: c in owner
    {
      hide SystemBlocks, Shaped, Owned, Coherent, Grew, Bitmap.Valid, Bitmap.Marked;
      VnodeFacts(V(), vnodes, freemap.Marked(), {}, k);
      GrewAs(V(), vnodes, V(), vnodes, k, fileblock);
      result, block := OK, 0;
      if fileblock < NDIRECT {
        block := vnodes[k].inode.direct[fileblock];
        if block == 0 && doalloc {
          result, block := AllocDirect(k, fileblock);
          if result != OK {
            return;
          }
        }
      } else {
        var idnum, idoff := (fileblock - NDIRECT) / DBPERIDB, (fileblock - NDIRECT) % DBPERIDB;
        if idnum > 0 {
          return EFBIG, 0;
        }
        result, block := BmapIndirect(k, idoff, doalloc);
        if result != OK {
          return;
        }
      }
      VnodeFacts(V(), vnodes, freemap.Marked(), {}, k);
      BlockInUse(V(), vnodes[k].ino, fileblock);
      if block != 0 {
        var used := Bused(block);
        assert used;
      }
    }

    /** sfs_rwblock on the device: one sector, addressed by the uio's offset. */
    method RwBlock(uio: Uio)
      requires uio.Valid() && uio.offset % BLOCKSIZE == 0 && uio.resid == BLOCKSIZE
      requires uio.offset / BLOCKSIZE < |disk| && |disk[uio.offset / BLOCKSIZE]| == BLOCKSIZE
      modifies this`disk, uio
      ensures uio.Valid() && uio.resid == 0 && uio.offset == old(uio.offset) + BLOCKSIZE
      ensures uio.pos == old(uio.pos) + BLOCKSIZE
      ensures uio.rw == READ ==>
                disk == old(disk) && uio.flat == Store(old(uio.flat), old(uio.pos), disk[old(uio.offset) / BLOCKSIZE])
      ensures uio.rw == WRITE ==>
                && uio.flat == old(uio.flat) && |uio.flat[old(uio.pos)..uio.pos]| == BLOCKSIZE
                && disk == old(disk)[old(uio.offset) / BLOCKSIZE := uio.flat[old(uio.pos)..uio.pos]]
    {
      var sector := uio.offset / BLOCKSIZE;
      var buf := uio.Move(disk[sector]);
      if uio.rw == WRITE {
        disk := disk[sector := buf];
      }
    }

    /** A transfer of up to `len` bytes by sfs_partialio or sfs_blockio: all of it,
        or nothing and an error. */
    twostate predicate Stepped(k: nat, uio: Uio, len: nat, result: Errno)
      requires k < |old(vnodes)| && uio.offset >= 0
      reads this, freemap, freemap.v, uio
    {
      var m := if result == OK then len else 0;
      var n := old(vnodes)[k].ino;
      && Base() && OnlyVnode(old(vnodes), vnodes, k) && uio.Valid()
      && uio.offset == old(uio.offset) + m && uio.pos == old(uio.pos) + m && uio.resid == old(uio.resid) - m
      && IoDid(uio.rw, old(V()), n, old(uio.offset), old(uio.flat), old(uio.pos), m, V(), uio.flat)
      && (uio.rw == READ ==> vnodes == old(vnodes))
      && (result == OK || result == EFBIG || result == ENOSPC)
      && (result == EFBIG <==> old(uio.offset) / BLOCKSIZE >= MAXBLOCKS)
      && (result == ENOSPC ==> uio.rw == WRITE && forall c: nat | c < nblocks :: c in owner)
      && (result == ENOSPC ==> Mapped(V(), n, old(uio.offset) / BLOCKSIZE) == 0)
      && (result == OK && uio.rw == WRITE ==> Mapped(V(), n, old(uio.offset) / BLOCKSIZE) != 0)
      && (result == OK && ExtentOf(V(), n).indirect && !old(ExtentOf(V(), n)).indirect ==>
            NDIRECT <= old(uio.offset) / BLOCKSIZE < MAXBLOCKS)
    }

    /** An indirect block is new only if the transfer since off0 needed one. */
    ghost predicate NeededIndirect(v0: Volume, n: nat, uio: Uio, off0: nat)
      reads this, uio
    {
      ExtentOf(V(), n).indirect && !ExtentOf(v0, n).indirect && off0 <= uio.offset ==>
        NeedsIndirect(off0, uio.offset - off0)
    }

    /** sfs_partialio */
    method PartialIo(k: nat, uio: Uio, skip: nat, len: nat) returns (result: Errno)
      requires Base() && k < |vnodes| && uio.Valid()
      requires 0 < skip + len <= BLOCKSIZE && len <= uio.resid && uio.offset % BLOCKSIZE == skip
      modifies this, freemap.v, uio
      ensures Stepped(k, uio, len, result)
    {
      hide SystemBlocks, Shaped, Owned, Coherent, Grew, Wrote, IoDid, FileBlock, Uio.Linked, Bitmap.Valid,
           Bitmap.Marked, ExtentOf;
      ghost var v0, vs0, n := V(), vnodes, vnodes[k].ino;
      var doalloc := uio.rw == WRITE;
      var fileblock := uio.offset / BLOCKSIZE;
      var diskblock;
      result, diskblock := Bmap(k, fileblock, doalloc);
      GrewOnly(v0, vs0, V(), vnodes, k, fileblock, doalloc && result == OK);
      if result != OK {
        GrewIo(uio.rw, v0, vs0, V(), vnodes, freemap.Marked(), k, uio.offset, uio.flat, uio.pos);
        return;
      }
      var iobuf := ZeroBlock();
      if diskblock != 0 {
        iobuf := disk[diskblock];
      }
      GotBlock(v0, vs0, V(), vnodes, freemap.Marked(), k, fileblock, doalloc, iobuf);
      ghost var flat0, pos0 := uio.flat, uio.pos;
      var out := uio.Move(iobuf[skip..skip + len]);
      if uio.rw == WRITE {
        StoredBlock(v0, vs0, V(), vnodes, freemap.Marked(), k, fileblock, skip, out);
        DataBlockKept(V(), vnodes, freemap.Marked(), n, fileblock, Store(iobuf, skip, out), freemapdirty,
                      freemap.v[..]);
        disk := disk[diskblock := Store(iobuf, skip, out)];
        IoWrote(v0, n, fileblock, skip, flat0, pos0, len, V());
      } else {
        IoRead(v0, n, fileblock, skip, flat0, pos0, len, uio.flat);
      }
    }

    /** The device works on the uio itself, whose offset and residue are replaced
        meanwhile. The 32-bit product diskblock * 512 does not overflow. */
    method DirectIo(uio: Uio, diskblock: nat)
      requires uio.Valid() && BLOCKSIZE <= uio.resid && diskblock < 0x80_0000
      requires diskblock < |disk| && |disk[diskblock]| == BLOCKSIZE
      modifies this`disk, uio
      ensures uio.Valid() && uio.offset == old(uio.offset) + BLOCKSIZE
      ensures uio.pos == old(uio.pos) + BLOCKSIZE && uio.resid == old(uio.resid) - BLOCKSIZE
      ensures uio.rw == READ ==> disk == old(disk) && uio.flat == Store(old(uio.flat), old(uio.pos), disk[diskblock])
      ensures uio.rw == WRITE ==> uio.flat == old(uio.flat)
      ensures uio.rw == WRITE ==> disk == old(disk)[diskblock := uio.flat[old(uio.pos)..old(uio.pos) + BLOCKSIZE]]
    {
      hide Uio.Linked;
      var saveoff, saveres := uio.offset, uio.resid;
      var diskoff := diskblock * BLOCKSIZE;
      assert diskoff < SIZE_T && diskoff / BLOCKSIZE == diskblock;
      uio.Retarget(diskoff, BLOCKSIZE);
      RwBlock(uio);
      uio.Retarget(uio.offset - diskoff + saveoff, uio.resid - BLOCKSIZE + saveres);
    }

    /** A whole block sent straight to the disk has been written to the file. */
    method DirectOut(k: nat, uio: Uio, fileblock: nat, diskblock: nat, ghost v0: Volume, ghost vs0: seq<Vnode>)
      requires Base() && k < |vnodes| && k < |vs0| && vnodes[k].ino == vs0[k].ino
      requires Grew(v0, vs0, V(), vnodes, k, fileblock, true)
      requires fileblock < MAXBLOCKS && 0 < diskblock < nblocks && diskblock == Mapped(V(), vs0[k].ino, fileblock)
      requires uio.Valid() && uio.rw == WRITE && BLOCKSIZE <= uio.resid
      modifies this`disk, uio
      ensures Base() && uio.Valid() && uio.flat == old(uio.flat) && uio.offset == old(uio.offset) + BLOCKSIZE
      ensures uio.pos == old(uio.pos) + BLOCKSIZE && uio.resid == old(uio.resid) - BLOCKSIZE
      ensures IoDid(WRITE, v0, vs0[k].ino, fileblock * BLOCKSIZE, uio.flat, old(uio.pos), BLOCKSIZE, V(), uio.flat)
      ensures Mapped(V(), vs0[k].ino, fileblock) != 0 && ExtentOf(V(), vs0[k].ino) == old(ExtentOf(V(), vs0[k].ino))
    {
      hide SystemBlocks, Shaped, Owned, Coherent, Grew, Wrote, IoDid, FileBlock, Mapped, Store, Uio.Linked,
           Bitmap.Valid, Bitmap.Marked;
      VnodeFacts(V(), vnodes, freemap.Marked(), {}, k);
      ghost var n, pos0 := vs0[k].ino, uio.pos;
      ghost var data := uio.flat[pos0..pos0 + BLOCKSIZE];
      StoredBlock(v0, vs0, V(), vnodes, freemap.Marked(), k, fileblock, 0, data);
      StoreWhole(disk[diskblock], data);
      DataBlockKept(V(), vnodes, freemap.Marked(), n, fileblock, data, freemapdirty, freemap.v[..]);
      DirectIo(uio, diskblock);
      IoWrote(v0, n, fileblock, 0, uio.flat, pos0, BLOCKSIZE, V());
    }

    /** sfs_blockio: a whole block. */
    method BlockIo(k: nat, uio: Uio) returns (result: Errno)
      requires Base() && k < |vnodes| && uio.Valid() && BLOCKSIZE <= uio.resid && uio.offset % BLOCKSIZE == 0
      modifies this, freemap.v, uio
      ensures Stepped(k, uio, BLOCKSIZE, result)
    {
      hide SystemBlocks, Shaped, Owned, Coherent, Grew, Wrote, IoDid, FileBlock, Uio.Linked, Bitmap.Valid,
           Bitmap.Marked, Store, ExtentOf;
      VnodeFacts(V(), vnodes, freemap.Marked(), {}, k);
      ghost var v0, vs0, n := V(), vnodes, vnodes[k].ino;
      ghost var flat0, pos0 := uio.flat, uio.pos;
      var doalloc := uio.rw == WRITE;
      var fileblock := uio.offset / BLOCKSIZE;
      var diskblock;
      result, diskblock := Bmap(k, fileblock, doalloc);
      GrewOnly(v0, vs0, V(), vnodes, k, fileblock, doalloc && result == OK);
      if result != OK {
        GrewIo(uio.rw, v0, vs0, V(), vnodes, freemap.Marked(), k, uio.offset, uio.flat, uio.pos);
        return;
      }
      GotBlock(v0, vs0, V(), vnodes, freemap.Marked(), k, fileblock, doalloc,
               if diskblock != 0 then disk[diskblock] else ZeroBlock());
      if diskblock == 0 {
        uio.MoveZeros(BLOCKSIZE);
        WholeBlock(FileBlock(v0, n, fileblock));
        assert Zeros(BLOCKSIZE) == ZeroBlock();
        IoRead(v0, n, fileblock, 0, flat0, pos0, BLOCKSIZE, uio.flat);
        return;
      }
      if uio.rw == WRITE {
        DirectOut(k, uio, fileblock, diskblock, v0, vs0);
      } else {
        DirectIo(uio, diskblock);
        WholeBlock(FileBlock(v0, n, fileblock));
        IoRead(v0, n, fileblock, 0, flat0, pos0, BLOCKSIZE, uio.flat);
      }
    }

    /** sfs_io is part-way through a transfer that began at off0. */
    ghost predicate Midway(v0: Volume, vs0: seq<Vnode>, k: nat, uio: Uio,
                           flat0: seq<byte>, pos0: nat, off0: nat, res0: nat)
      reads this, freemap, freemap.v, uio
    {
      && k < |vs0| && Base() && OnlyVnode(vs0, vnodes, k) && uio.Valid() && off0 <= uio.offset
      && uio.pos == pos0 + (uio.offset - off0) && uio.resid == res0 - (uio.offset - off0)
      && IoDid(uio.rw, v0, vs0[k].ino, off0, flat0, pos0, uio.offset - off0, V(), uio.flat)
      && (uio.rw == READ ==> vnodes == vs0)
      && (off0 < uio.offset ==> uio.offset <= MAXFILE)
    }

    method StepPartial(k: nat, uio: Uio, skip: nat, len: nat, ghost v0: Volume, ghost vs0: seq<Vnode>,
                       ghost flat0: seq<byte>, ghost pos0: nat, ghost off0: nat, ghost res0: nat)
      returns (result: Errno)
      requires Midway(v0, vs0, k, uio, flat0, pos0, off0, res0)
      requires 0 < skip + len <= BLOCKSIZE && len <= uio.resid && uio.offset % BLOCKSIZE == skip
      modifies this, freemap.v, uio
      ensures Midway(v0, vs0, k, uio, flat0, pos0, off0, res0)
      ensures uio.offset == old(uio.offset) + if result == OK then len else 0
      ensures Stopped(vs0[k].ino, uio, result) && (result == OK ==> old(uio.offset) < MAXFILE)
      ensures result == OK && uio.rw == WRITE ==> Mapped(V(), vs0[k].ino, old(uio.offset) / BLOCKSIZE) != 0
      ensures result == OK && old(NeededIndirect(v0, vs0[k].ino, uio, off0)) ==>
                NeededIndirect(v0, vs0[k].ino, uio, off0)
    {
      hide SystemBlocks, Coherent, Wrote, IoDid, Mapped, Uio.Linked, Bitmap.Valid, Bitmap.Marked, ExtentOf;
      ghost var v1, vs1, flat1, pos1, off1 := V(), vnodes, uio.flat, uio.pos, uio.offset;
      result := PartialIo(k, uio, skip, len);
      ghost var m := if result == OK then len else 0;
      IoDidThen(uio.rw, v0, vs0[k].ino, off0, flat0, pos0, off1 - off0, v1, flat1, m, V(), uio.flat);
    }

    method StepBlock(k: nat, uio: Uio, ghost v0: Volume, ghost vs0: seq<Vnode>,
                     ghost flat0: seq<byte>, ghost pos0: nat, ghost off0: nat, ghost res0: nat)
      returns (result: Errno)
      requires Midway(v0, vs0, k, uio, flat0, pos0, off0, res0)
      requires BLOCKSIZE <= uio.resid && uio.offset % BLOCKSIZE == 0
      modifies this, freemap.v, uio
      ensures Midway(v0, vs0, k, uio, flat0, pos0, off0, res0)
      ensures uio.offset == old(uio.offset) + if result == OK then BLOCKSIZE else 0
      ensures Stopped(vs0[k].ino, uio, result)
      ensures result == OK && old(NeededIndirect(v0, vs0[k].ino, uio, off0)) ==>
                NeededIndirect(v0, vs0[k].ino, uio, off0)
    {
      hide SystemBlocks, Coherent, Wrote, IoDid, Mapped, Uio.Linked, Bitmap.Valid, Bitmap.Marked, ExtentOf;
      ghost var v1, vs1, flat1, pos1, off1 := V(), vnodes, uio.flat, uio.pos, uio.offset;
      result := BlockIo(k, uio);
      ghost var m := if result == OK then BLOCKSIZE else 0;
      IoDidThen(uio.rw, v0, vs0[k].ino, off0, flat0, pos0, off1 - off0, v1, flat1, m, V(), uio.flat);
    }

    /** Why a transfer stopped short: the file is at its largest, or the disk is full
        and the next block would have to be allocated. */
    ghost predicate Stopped(n: nat, uio: Uio, result: Errno)
      reads this, uio
    {
      && (result == OK || result == EFBIG || result == ENOSPC)
      && (result == EFBIG ==> uio.offset >= MAXFILE) && (result == ENOSPC ==> uio.offset < MAXFILE)
      && (result == ENOSPC ==> uio.rw == WRITE && forall c: nat | c < nblocks :: c in owner)
      && (result == ENOSPC ==> Mapped(V(), n, uio.offset / BLOCKSIZE) == 0)
    }

    /** As many whole blocks as are left to transfer. */
    method WholeBlocks(k: nat, uio: Uio, ghost v0: Volume, ghost vs0: seq<Vnode>,
                       ghost flat0: seq<byte>, ghost pos0: nat, ghost off0: nat, ghost res0: nat)
      returns (result: Errno)
      requires Midway(v0, vs0, k, uio, flat0, pos0, off0, res0) && uio.offset % BLOCKSIZE == 0
      modifies this, freemap.v, uio
      ensures Midway(v0, vs0, k, uio, flat0, pos0, off0, res0) && Stopped(vs0[k].ino, uio, result)
      ensures uio.offset % BLOCKSIZE == 0 && if result == OK then uio.resid < BLOCKSIZE else uio.resid > 0
      ensures old(uio.offset) <= uio.offset
      ensures result == OK && old(NeededIndirect(v0, vs0[k].ino, uio, off0)) ==>
                NeededIndirect(v0, vs0[k].ino, uio, off0)
    {
      hide SystemBlocks, Coherent, Wrote, IoDid, Mapped, Uio.Linked, OnlyVnode, Bitmap.Valid, Bitmap.Marked,
           NeededIndirect;
      result := OK;
      var nblks := uio.resid / BLOCKSIZE;
      var i := 0;
      while i < nblks
        invariant 0 <= i <= nblks && result == OK && Midway(v0, vs0, k, uio, flat0, pos0, off0, res0)
        invariant uio.offset % BLOCKSIZE == 0 && 0 <= uio.resid - (nblks - i) * BLOCKSIZE < BLOCKSIZE
        invariant old(uio.offset) <= uio.offset
        invariant old(NeededIndirect(v0, vs0[k].ino, uio, off0)) ==> NeededIndirect(v0, vs0[k].ino, uio, off0)
      {
        result := StepBlock(k, uio, v0, vs0, flat0, pos0, off0, res0);
        if result != OK {
          return;
        }
        i := i + 1;
      }
    }

    /** The body of sfs_io: a leading partial block, whole blocks, a trailing one. */
    method Transfer(k: nat, uio: Uio, ghost v0: Volume, ghost vs0: seq<Vnode>,
                    ghost flat0: seq<byte>, ghost pos0: nat, ghost off0: nat, ghost res0: nat)
      returns (result: Errno)
      requires Midway(v0, vs0, k, uio, flat0, pos0, off0, res0)
      modifies this, freemap.v, uio
      ensures Midway(v0, vs0, k, uio, flat0, pos0, off0, res0) && Stopped(vs0[k].ino, uio, result)
      ensures result == OK ==> uio.resid == 0 && (off0 == old(uio.offset) ==> !Beyond(off0, old(uio.resid)))
      ensures result != OK && old(uio.offset) < uio.offset ==> uio.offset % BLOCKSIZE == 0
      ensures result != OK && old(uio.resid) > 0 ==> uio.resid > 0
      ensures result != OK ==> Overlaps(uio.offset / BLOCKSIZE, old(uio.offset), old(uio.resid))
      ensures result == OK && uio.rw == WRITE && old(uio.resid) == 0 && old(uio.offset) % BLOCKSIZE != 0 ==>
                uio.offset == old(uio.offset) && Mapped(V(), vs0[k].ino, uio.offset / BLOCKSIZE) != 0
      ensures result == OK && old(NeededIndirect(v0, vs0[k].ino, uio, off0)) ==>
                NeededIndirect(v0, vs0[k].ino, uio, off0)
    {
      hide SystemBlocks, Coherent, Wrote, IoDid, Mapped, Uio.Linked, OnlyVnode, Bitmap.Valid, Bitmap.Marked,
           NeededIndirect;
      result := OK;
      var blkoff := uio.offset % BLOCKSIZE;
      if blkoff != 0 {
        var len := Min(BLOCKSIZE - blkoff, uio.resid);
        result := StepPartial(k, uio, blkoff, len, v0, vs0, flat0, pos0, off0, res0);
        if result != OK {
          return;
        }
      }
      if uio.resid == 0 {
        return;
      }
      if blkoff != 0 {
        BlockEnd(old(uio.offset), BLOCKSIZE - blkoff);
      }
      result := WholeBlocks(k, uio, v0, vs0, flat0, pos0, off0, res0);
      assert uio.offset + uio.resid == old(uio.offset) + old(uio.resid) && old(uio.offset) <= uio.offset;
      if result != OK {
        InBlock(uio.offset, uio.offset / 512);
        return;
      }
      if uio.resid > 0 {
        result := StepPartial(k, uio, 0, uio.resid, v0, vs0, flat0, pos0, off0, res0);
      }
    }

    /** The end of sfs_io for a write: the size covers everything up to the offset. */
    method AdjustSize(k: nat, off: nat)
      requires Base() && k < |vnodes| && off < SIZE_T
      modifies this`vnodes, this`inodes
      ensures Base() && OnlyVnode(old(vnodes), vnodes, k) && vnodes[k].ino in old(inodes)
      ensures vnodes[k].inode == old(vnodes)[k].inode.(size := Max(old(vnodes)[k].inode.size, off))
      ensures old(inodes)[vnodes[k].ino] == old(vnodes)[k].inode
      ensures inodes == old(inodes)[vnodes[k].ino := vnodes[k].inode]
      ensures forall fb: nat :: Mapped(V(), vnodes[k].ino, fb) == old(Mapped(V(), vnodes[k].ino, fb))
      ensures ExtentOf(V(), vnodes[k].ino) == old(ExtentOf(V(), vnodes[k].ino))
    {
      hide SystemBlocks, Shaped, Owned, Coherent, Bitmap.Valid, Bitmap.Marked;
      VnodeFacts(V(), vnodes, freemap.Marked(), {}, k);
      OnlySame(vnodes, k);
      var i := vnodes[k].inode;
      if off > i.size {
        SizeExactly(i.size, off);
        i := i.(size := StoredSize(i.size, off));
        SetMeta(V(), vnodes, freemap.Marked(), k, i);
        vnodes := Dirtied(vnodes, k, i);
        inodes := inodes[vnodes[k].ino := i];
      }
    }

    /** sfs_io for a write. Whatever the outcome, the bytes consumed from the uio are
        in the file, the size covers them, and nothing else has changed. */
    method Write(k: nat, uio: Uio) returns (result: Errno)
      requires Base() && k < |vnodes| && uio.Valid() && uio.rw == WRITE && ZeroTail(V(), vnodes[k].ino)
      requires uio.offset < SIZE_T
      modifies this, freemap.v, uio
      ensures Base() && OnlyVnode(old(vnodes), vnodes, k) && Stopped(old(vnodes)[k].ino, uio, result)
      ensures result != OK && old(uio.offset) < uio.offset ==> uio.offset % BLOCKSIZE == 0
      ensures uio.Valid() && uio.flat == old(uio.flat) && old(uio.offset) <= uio.offset
      ensures uio.pos == old(uio.pos) + (uio.offset - old(uio.offset))
      ensures uio.resid == old(uio.resid) - (uio.offset - old(uio.offset))
      ensures result == OK ==> uio.resid == 0 && !Beyond(old(uio.offset), old(uio.resid))
      ensures result != OK && old(uio.resid) > 0 ==> uio.resid > 0
      ensures result != OK ==> Overlaps(uio.offset / BLOCKSIZE, old(uio.offset), old(uio.resid))
      ensures old(uio.offset) < uio.offset ==> uio.offset <= MAXFILE
      ensures FileWritten(old(V()), V(), old(vnodes)[k].ino, old(uio.offset), uio.flat[old(uio.pos)..uio.pos])
      ensures Filled(old(ExtentOf(V(), vnodes[k].ino)), ExtentOf(V(), old(vnodes)[k].ino), old(uio.offset),
                     uio.offset - old(uio.offset), result == OK)
    {
      hide SystemBlocks, Shaped, Owned, Coherent, Wrote, FileWritten, ZeroTail, Uio.Linked, Bitmap.Valid,
           Bitmap.Marked, IoDid, Mapped, ExtentOf, Filled;
      VnodeFacts(V(), vnodes, freemap.Marked(), {}, k);
      ghost var v0, vs0, n := V(), vnodes, vnodes[k].ino;
      ghost var flat0, pos0, off0, res0 := uio.flat, uio.pos, uio.offset, uio.resid;
      VolumeBounds(v0);
      IoDidNothing(WRITE, v0, n, off0, flat0, pos0);
      result := Transfer(k, uio, v0, vs0, flat0, pos0, off0, res0);
      IoDidWrite(v0, n, off0, flat0, pos0, uio.offset - off0, V(), uio.flat);
      VnodeFacts(V(), vnodes, freemap.Marked(), {}, k);
      ghost var v1 := V();
      WroteSize(v0, v1, n, off0, flat0[pos0..uio.pos]);
      AdjustSize(k, uio.offset);
      WroteFile(v0, v1, n, off0, flat0[pos0..uio.pos], vnodes[k].inode);
      WrittenGrown(v0, V(), n, off0, flat0[pos0..uio.pos]);
      FilledIs(V(), n, ExtentOf(v0, n), off0, uio.offset - off0, result == OK);
    }

    /** sfs_io for a read: exactly the bytes of the file from the offset on, up to its
        end, with the residue saying how much was not read. Only a size past the
        largest mappable one makes it fail. */
    method Read(k: nat, uio: Uio) returns (result: Errno)
      requires Base() && k < |vnodes| && vnodes[k].ino in inodes && uio.Valid() && uio.rw == READ
      modifies this, freemap.v, uio
      ensures Base() && V() == old(V()) && vnodes == old(vnodes) && uio.Valid()
      ensures old(uio.offset) <= uio.offset && uio.pos == old(uio.pos) + (uio.offset - old(uio.offset))
      ensures uio.resid == old(uio.resid) - (uio.offset - old(uio.offset))
      ensures GaveBytes(Contents(V(), vnodes[k].ino), old(uio.offset), old(uio.resid), old(uio.flat), old(uio.pos),
                        uio.offset, uio.flat, result)
    {
      hide SystemBlocks, Shaped, Owned, Coherent, Wrote, FileByte, IoDid, Contents, GaveBytes, Uio.Linked,
           Bitmap.Valid, Bitmap.Marked, Mapped, OnlyVnode, Overlaps, Beyond;
      VnodeFacts(V(), vnodes, freemap.Marked(), {}, k);
      ghost var v0, vs0, n := V(), vnodes, vnodes[k].ino;
      ghost var want := uio.resid;
      var size := vnodes[k].inode.size;
      var endpos := uio.offset + uio.resid;
      var extraresid := 0;
      result := OK;
      if uio.offset >= size {
        GaveNothing(Contents(v0, n), uio.offset, want, uio.flat, uio.pos);
        return;
      }
      if endpos > size {
        extraresid := endpos - size;
        assert uio.resid > extraresid;
        uio.Retarget(uio.offset, uio.resid - extraresid);
      }
      ghost var flat0, pos0, off0, res0 := uio.flat, uio.pos, uio.offset, uio.resid;
      VolumeBounds(v0);
      IoDidNothing(READ, v0, n, off0, flat0, pos0);
      result := Transfer(k, uio, v0, vs0, flat0, pos0, off0, res0);
      IoReadKeeps(v0, n, off0, flat0, pos0, uio.offset - off0, V(), uio.flat);
      if result != OK {
        StoppedBeyond(off0, res0, uio.offset);
      }
      uio.Retarget(uio.offset, uio.resid + extraresid);
      GaveContents(v0, n, off0, want, flat0, pos0, uio.offset, uio.flat, result);
    }

    /** sfs_bfree */
    method Bfree(b: nat)
      requires freemap.Valid() && b in freemap.Marked()
      modifies this`freemapdirty, freemap.v
      ensures freemap.Valid() && freemap.Marked() == old(freemap.Marked()) - {b} && freemapdirty
    {
      freemap.Unmark(b);
      freemapdirty := true;
    }

    /** The first loop of sfs_truncate: the direct blocks go. */
    method FreeDirect(k: nat)
      requires Base() && k < |vnodes|
      modifies this, freemap.v
      ensures Base() && OnlyVnode(old(vnodes), vnodes, k) && SameBut(old(V()), V(), old(vnodes)[k].ino)
      ensures disk == old(disk)
      ensures vnodes[k].inode == old(vnodes)[k].inode.(direct := vnodes[k].inode.direct)
      ensures forall j | 0 <= j < |vnodes[k].inode.direct| :: vnodes[k].inode.direct[j] == 0
      ensures NoBlocks(old(vnodes)[k].inode) ==> owner == old(owner)
    {
      hide SystemBlocks, Shaped, Owned, Coherent, SameBut, Bitmap.Valid, Bitmap.Marked;
      VnodeFacts(V(), vnodes, freemap.Marked(), {}, k);
      ghost var v0, vs0, n := V(), vnodes, vnodes[k].ino;
      SameButSame(v0, n);
      var i := 0;
      while i < NDIRECT
        invariant 0 <= i <= NDIRECT && Base() && OnlyVnode(vs0, vnodes, k) && SameBut(v0, V(), n) && disk == old(disk)
        invariant vnodes[k].inode == vs0[k].inode.(direct := vnodes[k].inode.direct)
        invariant |vnodes[k].inode.direct| == NDIRECT
        invariant forall j | 0 <= j < i :: vnodes[k].inode.direct[j] == 0
        invariant NoBlocks(vs0[k].inode) ==> owner == old(owner) && vnodes[k].inode.direct == vs0[k].inode.direct
      {
        var block := vnodes[k].inode.direct[i];
        if block != 0 {
          ghost var v1 := V();
          DropDirect(V(), vnodes, freemap.Marked(), k, i);
          SystemDirty(disk, nblocks, freemapdirty, freemap.v[..]);
          Bfree(block);
          var inode := vnodes[k].inode.(direct := vnodes[k].inode.direct[i := 0]);
          vnodes := Dirtied(vnodes, k, inode);
          inodes, owner := inodes[n := inode], owner - {block as nat};
          assert V() == WithoutDirect(v1, n, i);
          SameButTrans(v0, v1, V(), n);
        }
        i := i + 1;
      }
    }

    /** The second part of sfs_truncate: the blocks in the indirect block go, and
        since none is left in it, the indirect block too. */
    method FreeIndirect(k: nat)
      requires Base() && k < |vnodes| && vnodes[k].inode.indirect != 0
      modifies this, freemap.v
      ensures Base() && OnlyVnode(old(vnodes), vnodes, k) && SameBut(old(V()), V(), old(vnodes)[k].ino)
      ensures disk == old(disk)
      ensures vnodes[k].inode == old(vnodes)[k].inode.(indirect := 0)
    {
      hide SystemBlocks, Shaped, Owned, Coherent, SameBut, Bitmap.Valid, Bitmap.Marked;
      VnodeFacts(V(), vnodes, freemap.Marked(), {}, k);
      ghost var n, marked0 := vnodes[k].ino, freemap.Marked();
      DropIndirect(V(), vnodes, freemap.Marked(), k);
      IndirectEntries(V(), n);
      SystemDirty(disk, nblocks, freemapdirty, freemap.v[..]);
      ghost var gone := IndirectBlocks(V(), n);
      var idblock := vnodes[k].inode.indirect;
      var idbuf := Words(disk[idblock]);
      ghost var ws := idbuf;
      var hasnonzero := false;
      var j := 0;
      while j < DBPERIDB
        modifies this`freemapdirty, freemap.v
        invariant 0 <= j <= DBPERIDB && !hasnonzero && |idbuf| == DBPERIDB && freemap.Valid()
        invariant freemap.Marked() == marked0 - Entries(ws, j)
        invariant forall e | j <= e < DBPERIDB :: idbuf[e] == ws[e]
      {
        EntriesStep(ws, j);
        if idbuf[j] != 0 {
          EntryNotYet(V(), n, ws, j);
          Bfree(idbuf[j]);
          idbuf := idbuf[j := 0];
        }
        if idbuf[j] != 0 {
          hasnonzero := true;
        }
        j := j + 1;
      }
      assert !hasnonzero;
      EntryNotSelf(V(), n, ws);
      Bfree(idblock);
      var inode := vnodes[k].inode.(indirect := 0);
      vnodes := Dirtied(vnodes, k, inode);
      inodes, owner := inodes[n := inode], owner - gone;
      assert V() == WithoutIndirect(old(V()), n);
      assert freemap.Marked() == marked0 - gone;
    }

    /** sfs_truncate to length 0, the only length the kernel passes: the file becomes
        empty and gives up all its blocks. */
    method Truncate(k: nat)
      requires Base() && k < |vnodes|
      modifies this, freemap.v
      ensures Base() && OnlyVnode(old(vnodes), vnodes, k) && SameBut(old(V()), V(), old(vnodes)[k].ino)
      ensures disk == old(disk)
      ensures NoBlocks(vnodes[k].inode) && vnodes[k].inode.size == 0
      ensures vnodes[k].inode.typ == old(vnodes)[k].inode.typ
      ensures vnodes[k].inode.linkcount == old(vnodes)[k].inode.linkcount
      ensures vnodes[k].ino in inodes && inodes[vnodes[k].ino] == vnodes[k].inode
      ensures NoBlocks(old(vnodes)[k].inode) ==> owner == old(owner)
    {
      hide SystemBlocks, Shaped, Owned, Coherent, SameBut, Bitmap.Valid, Bitmap.Marked;
      ghost var v0, n := V(), vnodes[k].ino;
      FreeDirect(k);
      if vnodes[k].inode.indirect != 0 {
        ghost var v1 := V();
        FreeIndirect(k);
        SameButTrans(v0, v1, V(), n);
      }
      ghost var v2 := V();
      VnodeFacts(V(), vnodes, freemap.Marked(), {}, k);
      var inode := vnodes[k].inode.(size := 0);
      SetMeta(V(), vnodes, freemap.Marked(), k, inode);
      SameButMeta(V(), n, inode);
      vnodes := Dirtied(vnodes, k, inode);
      inodes := inodes[n := inode];
      SameButTrans(v0, v2, V(), n);
    }

    /** sfs_sync_inode */
    method SyncInode(k: nat)
      requires Base() && k < |vnodes|
      modifies this`disk, this`vnodes
      ensures Base() && SameFiles(old(V()), V()) && vnodes == old(vnodes)[k := old(vnodes)[k].(dirty := false)]
    {
      hide SystemBlocks, Shaped, Owned, Coherent, SameFiles, Bitmap.Valid, Bitmap.Marked;
      SameFilesSame(V());
      if vnodes[k].dirty {
        SyncEntry(V(), vnodes, freemap.Marked(), k);
        VnodeFacts(V(), vnodes, freemap.Marked(), {}, k);
        InodeBlockKept(V(), vnodes, freemap.Marked(), {}, vnodes[k].ino, EncodeInode(vnodes[k].inode), freemapdirty,
                       freemap.v[..]);
        disk := disk[vnodes[k].ino := EncodeInode(vnodes[k].inode)];
        vnodes := vnodes[k := vnodes[k].(dirty := false)];
      }
    }

    /** The search through the table; the panic for a vnode in an unallocated block is the
        assertion. */
    method FindVnode(n: nat) returns (k: nat)
      requires Base()
      ensures k <= |vnodes| && (k < |vnodes| ==> vnodes[k].ino == n) && (k == |vnodes| <==> n !in LoadedInos(vnodes))
    {
      hide SystemBlocks, Shaped, Owned, Coherent, LoadedInos;
      k := 0;
      while k < |vnodes|
        invariant 0 <= k <= |vnodes| && forall j | 0 <= j < k :: vnodes[j].ino != n
      {
        VnodeFacts(V(), vnodes, freemap.Marked(), {}, k);
        InodeInUse(V(), vnodes[k].ino);
        var used := Bused(vnodes[k].ino);
        assert used;
        if vnodes[k].ino == n {
          IsLoaded(vnodes, k);
          return;
        }
        k := k + 1;
      }
      NotLoaded(vnodes, n);
    }

    /** sfs_loadvnode: the vnode of inode n, found in the table or read from disk. The
        panics for unallocated blocks and unknown types are the assertions. */
    method LoadVnode(n: nat, forcetype: nat) returns (k: nat)
      requires Base() && n in inodes && forcetype < 0x1_0000
      requires forcetype == TYPE_INVAL ==> inodes[n].typ == TYPE_FILE || inodes[n].typ == TYPE_DIR
      requires forcetype != TYPE_INVAL ==> n !in LoadedInos(vnodes) && inodes[n].typ == TYPE_INVAL
      requires forcetype != TYPE_INVAL ==> forcetype == TYPE_FILE || forcetype == TYPE_DIR
      modifies this`vnodes, this`inodes
      ensures Base() && k < |vnodes| && vnodes[k].ino == n
      ensures inodes == old(inodes)[n := vnodes[k].inode]
      ensures vnodes[k].inode == if forcetype == TYPE_INVAL then old(inodes)[n] else old(inodes)[n].(typ := forcetype)
      ensures n in LoadedInos(old(vnodes)) ==>
                && k < |old(vnodes)|
                && vnodes == old(vnodes)[k := old(vnodes)[k].(refcount := old(vnodes)[k].refcount + 1)]
      ensures n !in LoadedInos(old(vnodes)) ==>
                k == |old(vnodes)| && vnodes == old(vnodes) + [Vnode(n, vnodes[k].inode, forcetype != TYPE_INVAL, 1)]
    {
      hide SystemBlocks, Shaped, Owned, Coherent, Bitmap.Valid, Bitmap.Marked;
      k := FindVnode(n);
      if k < |vnodes| {
        IsLoaded(vnodes, k);
        assert forcetype == TYPE_INVAL;
        VnodeFacts(V(), vnodes, freemap.Marked(), {}, k);
        RefChange(V(), vnodes, freemap.Marked(), k, vnodes[k].refcount + 1);
        vnodes := vnodes[k := vnodes[k].(refcount := vnodes[k].refcount + 1)];
        assert inodes == inodes[n := vnodes[k].inode];
        return;
      }
      LoadEntry(V(), vnodes, freemap.Marked(), n);
      var used := Bused(n);
      assert used;
      var inode := DecodeInode(disk[n]);
      vnodes := vnodes + [Vnode(n, inode, false, 1)];
      assert inodes == inodes[n := inode];
      if forcetype != TYPE_INVAL {
        assert inode.typ == TYPE_INVAL;
        inode := inode.(typ := forcetype);
        SetMeta(V(), vnodes, freemap.Marked(), k, inode);
        vnodes := Dirtied(vnodes, k, inode);
        inodes := inodes[n := inode];
      }
      assert inode.typ == TYPE_FILE || inode.typ == TYPE_DIR;
    }

    /** sfs_makeobj: a new empty object, with one reference and no links. */
    method MakeObj(typ: nat) returns (result: Errno, k: nat)
      requires Base() && (typ == TYPE_FILE || typ == TYPE_DIR)
      modifies this, freemap.v
      ensures Base() && (result == OK || result == ENOSPC)
      ensures result == ENOSPC ==> V() == old(V()) && vnodes == old(vnodes) && forall c: nat | c < nblocks :: c in owner
      ensures result == OK ==>
                && k == |old(vnodes)| < |vnodes| && var x := vnodes[k];
                && vnodes == old(vnodes) + [x] && x.refcount == 1 && x.ino !in old(inodes)
                && x.ino !in LoadedInos(old(vnodes))
                && x.ino in inodes && inodes[x.ino] == x.inode && SameBut(old(V()), V(), x.ino)
                && NoBlocks(x.inode) && x.inode.size == 0 && x.inode.typ == typ && x.inode.linkcount == 0
    {
      hide SystemBlocks, Shaped, Owned, Coherent, SameBut, NoBlocks, Allocated, Bitmap.Valid, Bitmap.Marked;
      k := 0;
      ghost var v0 := V();
      var ino;
      result, ino := Balloc();
      if result == OK {
        NewInode(v0, V(), vnodes, freemap.Marked(), ino);
        inodes, owner := inodes[ino := DecodeInode(ZeroBlock())], owner[ino := Ino(ino)];
        ghost var v1 := V();
        k := LoadVnode(ino, typ);
        NoBlocksMeta(v1.inodes[ino], vnodes[k].inode);
        SameButMeta(v1, ino, vnodes[k].inode);
        SameButTrans(v0, v1, V(), ino);
      }
    }

    /** The end of sfs_reclaim: an erased file's inode block is freed, and the vnode is found
        in the table and taken out. */
    method Forget(k: nat, erase: bool)
      requires Base() && k < |vnodes| && !vnodes[k].dirty && (erase ==> NoBlocks(vnodes[k].inode))
      modifies this, freemap.v
      ensures Base() && vnodes == Without(old(vnodes), k)
      ensures erase ==> SameBut(old(V()), V(), old(vnodes)[k].ino) && old(vnodes)[k].ino !in inodes
      ensures !erase ==> V() == old(V())
      ensures erase ==> owner == old(owner) - {old(vnodes)[k].ino}
    {
      hide SystemBlocks, Shaped, Owned, Coherent, SameBut, NoBlocks, Distinct, Without, LoadedInos;
      TableFacts(V(), vnodes, freemap.Marked(), {}, k);
      IsLoaded(vnodes, k);
      var n := vnodes[k].ino;
      if erase {
        DropErased(V(), vnodes, freemap.Marked(), k);
        SystemDirty(disk, nblocks, freemapdirty, freemap.v[..]);
        Bfree(n);
        inodes, owner := inodes - {n}, owner - {n};
      } else {
        DropClean(V(), vnodes, freemap.Marked(), k);
      }
      var ix := IndexOf(vnodes, n);
      IndexIs(vnodes, n, k);
      vnodes := Without(vnodes, ix);
    }

    /** sfs_reclaim, at the last reference: a file without links is erased, one with
        links is written back, and the vnode leaves the table. */
    method Reclaim(k: nat) returns (result: Errno)
      requires Base() && k < |vnodes|
      modifies this, freemap.v
      ensures Base() && (result == OK || result == EBUSY)
      ensures result == EBUSY <==> old(vnodes)[k].refcount != 1
      ensures result == EBUSY ==>
                V() == old(V()) && vnodes == old(vnodes)[k := old(vnodes)[k].(refcount := old(vnodes)[k].refcount - 1)]
      ensures result == OK ==> vnodes == Without(old(vnodes), k)
      ensures result == OK && old(vnodes)[k].inode.linkcount > 0 ==> SameFiles(old(V()), V())
      ensures result == OK && old(vnodes)[k].inode.linkcount == 0 ==>
                SameBut(old(V()), V(), old(vnodes)[k].ino) && old(vnodes)[k].ino !in inodes
      ensures result == OK && old(vnodes)[k].inode.linkcount > 0 ==> owner == old(owner)
      ensures result == OK && old(vnodes)[k].inode.linkcount == 0 && NoBlocks(old(vnodes)[k].inode) ==>
                owner == old(owner) - {old(vnodes)[k].ino}
    {
      hide SystemBlocks, Shaped, Owned, Coherent, SameBut, SameFiles, NoBlocks, Distinct, Bitmap.Valid, Bitmap.Marked;
      TableFacts(V(), vnodes, freemap.Marked(), {}, k);
      if vnodes[k].refcount != 1 {
        assert vnodes[k].refcount > 1;
        RefChange(V(), vnodes, freemap.Marked(), k, vnodes[k].refcount - 1);
        vnodes := vnodes[k := vnodes[k].(refcount := vnodes[k].refcount - 1)];
        return EBUSY;
      }
      ghost var v0, vs0 := V(), vnodes;
      var n, erase := vnodes[k].ino, vnodes[k].inode.linkcount == 0;
      if erase {
        Truncate(k);
      }
      ghost var v1 := V();
      SyncInode(k);
      ghost var v2 := V();
      WithoutOnly(vs0, vnodes, k);
      Forget(k, erase);
      if erase {
        SameButFiles(v1, v2, n);
        SameButTrans(v0, v1, v2, n);
        SameButTrans(v0, v2, V(), n);
      }
      return OK;
    }

    // --- The directory ---

    /** Everything the operations keep. */
    ghost predicate Valid()
      reads this, freemap, freemap.v
    {
      Base() && Tree(V(), LoadedInos(vnodes))
    }

    ghost function View(): FsView
      requires Valid()
      reads this, freemap, freemap.v
    {
      ViewOf(V(), vnodes)
    }

    /** Entry k of the table is the root directory, which the caller has a hold on. */
    ghost predicate RootAt(k: nat)
      reads this
    {
      k < |vnodes| && vnodes[k].ino == ROOT_LOCATION
    }

    /** sfs_readdir; the "short entry" panic is the assertion. */
    method ReadDir(k: nat, slot: nat) returns (result: Errno, sd: seq<byte>)
      requires Valid() && RootAt(k) && ROOT_LOCATION in inodes && slot < |Dir(V())|
      modifies this, freemap.v
      ensures Valid() && V() == old(V()) && vnodes == old(vnodes)
      ensures result == OK && |sd| == DIRENT && DecodeSlot(sd) == Dir(V())[slot]
    {
      hide SystemBlocks, Shaped, Owned, Coherent, LinksOk, Tree, GaveBytes, Uio.Linked;
      TreeFacts(V(), LoadedInos(vnodes));
      var uio := new Uio(Zeros(64), slot * 64, READ);
      result := Read(k, uio);
      SlotRead(V(), slot, uio.offset, uio.flat, result);
      assert uio.resid == 0;
      sd := uio.flat;
    }

    /** The write in sfs_writedir; the "short write" panic is the assertion. */
    method WriteEntry(k: nat, sd: seq<byte>, slot: nat) returns (result: Errno)
      requires Base() && RootAt(k) && ZeroTail(V(), ROOT_LOCATION) && slot <= MAXSLOTS && |sd| == DIRENT
      modifies this, freemap.v
      ensures Base() && OnlyVnode(old(vnodes), vnodes, k)
      ensures result == OK || result == ENOSPC || result == EFBIG
      ensures FileWritten(old(V()), V(), ROOT_LOCATION, slot * 64, if result == OK then sd else [])
      ensures Filled(old(ExtentOf(V(), ROOT_LOCATION)), ExtentOf(V(), ROOT_LOCATION), slot * 64,
                     if result == OK then 64 else 0, result == OK)
      ensures result == ENOSPC ==> forall c: nat | c < nblocks :: c in owner
      ensures result == ENOSPC ==> slot < MAXSLOTS && Mapped(V(), ROOT_LOCATION, slot * 64 / BLOCKSIZE) == 0
      ensures result == EFBIG <==> slot >= MAXSLOTS
    {
      hide SystemBlocks, Shaped, Owned, Coherent, FileWritten, Mapped, Uio.Linked, ExtentOf, Filled, Overlaps, ZeroTail;
      var uio := new Uio(sd, slot * 64, WRITE);
      result := Write(k, uio);
      assert uio.flat == sd;
      if result != OK {
        ShortEntry(slot, uio.offset);
        assert sd[0..uio.pos] == [];
        return;
      }
      assert uio.resid == 0 && sd[0..uio.pos] == sd;
    }

    /** sfs_writedir. A failure leaves the directory as it was, and an entry in use can always be
        rewritten. */
    method WriteDir(k: nat, sd: seq<byte>, slot: nat) returns (result: Errno)
      requires Valid() && RootAt(k) && ROOT_LOCATION in inodes && slot <= |Dir(V())| && |sd| == DIRENT
      modifies this, freemap.v
      ensures Base() && OnlyVnode(old(vnodes), vnodes, k)
      ensures result == OK ==> SlotWritten(old(V()), V(), slot, sd) && slot < MAXSLOTS
      ensures result != OK ==> SameTree(old(V()), V())
      ensures result == OK || result == ENOSPC || result == EFBIG
      ensures result == ENOSPC ==> forall c: nat | c < nblocks :: c in owner
      ensures result == ENOSPC ==> slot < MAXSLOTS && slot / 8 !in ExtentOf(V(), ROOT_LOCATION).blocks
      ensures result == EFBIG <==> slot >= MAXSLOTS
      ensures slot < |old(Dir(V()))| && Used(old(Dir(V()))[slot]) ==> result == OK
      ensures Filled(old(ExtentOf(V(), ROOT_LOCATION)), ExtentOf(V(), ROOT_LOCATION), slot * 64,
                     if result == OK then 64 else 0, result == OK)
    {
      hide SystemBlocks, Shaped, Owned, Coherent, LinksOk, Tree, FileWritten, Mapped, SameTree, SlotWritten,
           Slots, ExtentOf, Filled;
      ghost var v0 := V();
      TreeFacts(V(), LoadedInos(vnodes));
      result := WriteEntry(k, sd, slot);
      if result != OK {
        assert slot * 64 / BLOCKSIZE == slot / 8;
        if result == ENOSPC {
          InExtent(V(), ROOT_LOCATION, slot / 8);
        }
        SlotNotWritten(v0, V(), slot, LoadedInos(old(vnodes)), result);
        return;
      }
      SlotIs(v0, V(), slot, sd);
    }

    /** sfs_dir_findname: where the name is, if it is there, and a free slot if there is
        one. That a name appears only once is the assertion. */
    method FindName(k: nat, name: Name) returns (result: Errno, ino: nat, slot: nat, emptyslot: int)
      requires Valid() && RootAt(k) && ROOT_LOCATION in inodes
      modifies this, freemap.v
      ensures Valid() && V() == old(V()) && vnodes == old(vnodes)
      ensures result == (if name in Names(Dir(V())) then OK else ENOENT)
      ensures result == OK ==>
                Has(Dir(V()), slot, name) && Dir(V())[slot].ino == ino == Names(Dir(V()))[name] && ino != NOINO
      ensures IsLastFree(Dir(V()), |Dir(V())|, emptyslot)
    {
      hide SystemBlocks, Shaped, Owned, Coherent, LinksOk, Tree, Dir, Names, UniqueNames, Scanned, DecodeSlot;
      TreeFacts(V(), LoadedInos(vnodes));
      VnodeFacts(V(), vnodes, freemap.Marked(), {}, k);
      ghost var d := Dir(V());
      ScannedNone(d, name);
      var found := false;
      ino, slot, emptyslot := NOINO, 0, -1;
      assert vnodes[k].inode.typ == TYPE_DIR && vnodes[k].inode.size % DIRENT == 0;
      var nentries := vnodes[k].inode.size / DIRENT;
      var i := 0;
      while i < nentries
        invariant 0 <= i <= nentries && Valid() && V() == old(V()) && vnodes == old(vnodes)
        invariant Scanned(d, name, i, found, ino, slot, emptyslot)
      {
        var r, sd := ReadDir(k, i);
        var tsd := DecodeSlot(sd);
        ScannedStep(d, name, i, found, ino, slot, emptyslot);
        if tsd.ino == NOINO {
          emptyslot := i;
        } else if tsd.name == name {
          assert !found;
          found, slot, ino := true, i, tsd.ino;
        }
        i := i + 1;
      }
      ScannedAll(d, name, found, ino, slot, emptyslot);
      result := if found then OK else ENOENT;
    }

    /** sfs_dir_link */
    method DirLink(k: nat, name: Name, ino: nat) returns (result: Errno, slot: nat)
      requires Valid() && RootAt(k) && ROOT_LOCATION in inodes && ino < 0x1_0000_0000
      modifies this, freemap.v
      ensures Base() && OnlyVnode(old(vnodes), vnodes, k)
      ensures result == EEXIST <==> name in Names(old(Dir(V())))
      ensures result == ENAMETOOLONG <==> name !in Names(old(Dir(V()))) && |name| + 1 > NAMELEN
      ensures result in {OK, ENOSPC, EFBIG} ==> Chosen(old(Dir(V())), slot)
      ensures result == OK ==> slot < MAXSLOTS && SlotWritten(old(V()), V(), slot, EncodeSlot(ino, name))
      ensures result in {OK, ENOSPC, EFBIG} ==>
                Filled(old(ExtentOf(V(), ROOT_LOCATION)), ExtentOf(V(), ROOT_LOCATION), slot * 64,
                       if result == OK then 64 else 0, result == OK)
      ensures result != OK ==> SameTree(old(V()), V())
      ensures result in {OK, EEXIST, ENAMETOOLONG, ENOSPC, EFBIG}
      ensures result == EEXIST || result == ENAMETOOLONG ==> V() == old(V())
      ensures result == ENOSPC ==> forall c: nat | c < nblocks :: c in owner
      ensures result == ENOSPC ==> slot < MAXSLOTS && slot / 8 !in ExtentOf(V(), ROOT_LOCATION).blocks
      ensures result == EFBIG ==> slot >= MAXSLOTS
    {
      hide SystemBlocks, Shaped, Owned, Coherent, LinksOk, Tree, Slots, Names, SlotWritten, SameTree, OnlyVnode,
           EncodeSlot, ExtentOf, Filled;
      TreeFacts(V(), LoadedInos(vnodes));
      VnodeFacts(V(), vnodes, freemap.Marked(), {}, k);
      OnlySame(vnodes, k);
      SameTreeSame(V(), LoadedInos(vnodes));
      var found, emptyslot;
      result, found, slot, emptyslot := FindName(k, name);
      if result == OK {
        return EEXIST, 0;
      }
      if |name| + 1 > NAMELEN {
        return ENAMETOOLONG, 0;
      }
      slot := if emptyslot < 0 then vnodes[k].inode.size / DIRENT else emptyslot;
      result := WriteDir(k, EncodeSlot(ino, name), slot);
    }

    /** sfs_dir_unlink; it cannot fail on an entry in use. */
    method DirUnlink(k: nat, slot: nat) returns (result: Errno)
      requires Valid() && RootAt(k) && ROOT_LOCATION in inodes && slot < |Dir(V())| && Used(Dir(V())[slot])
      modifies this, freemap.v
      ensures Base() && OnlyVnode(old(vnodes), vnodes, k)
      ensures result == OK && SlotWritten(old(V()), V(), slot, EncodeSlot(NOINO, []))
      ensures ExtentOf(V(), ROOT_LOCATION) == old(ExtentOf(V(), ROOT_LOCATION))
    {
      hide SystemBlocks, Shaped, Owned, Coherent, LinksOk, Tree, SlotWritten, OnlyVnode, EncodeSlot, ExtentOf, Filled,
           Dir;
      TreeFacts(V(), LoadedInos(vnodes));
      ghost var v0 := V();
      result := WriteDir(k, EncodeSlot(NOINO, []), slot);
      Rewrote(v0, V(), slot);
    }

    /** A reference to inode n: sfs_loadvnode of an existing object. */
    method Load(n: nat) returns (k: nat)
      requires Valid() && n in inodes
      modifies this`vnodes, this`inodes
      ensures Valid() && V() == old(V()) && k < |vnodes| && vnodes[k].ino == n
      ensures View() == old(View()).(refs := Held(old(View()).refs, n))
    {
      hide SystemBlocks, Shaped, Owned, Coherent, LinksOk, Tree, Slots, Names;
      TypeFacts(V(), LoadedInos(vnodes), n);
      ghost var vs0 := vnodes;
      k := LoadVnode(n, TYPE_INVAL);
      assert V() == old(V());
      HeldView(V(), vs0, vnodes, freemap.Marked(), n, k);
    }

    /** vnode_decref: at the last reference the vnode is reclaimed, and with it the file
        if it has no name left. */
    method Decref(n: nat)
      requires Valid() && n in LoadedInos(vnodes)
      modifies this, freemap.v
      ensures Valid() && n in old(View()).refs
      ensures View() == Settled(old(View()).(refs := Dropped(old(View()).refs, n)))
      ensures n in old(inodes) && (old(inodes)[n].linkcount > 0 ==> owner == old(owner))
      ensures old(View()).refs[n] == 1 && old(inodes)[n].linkcount == 0 && NoBlocks(old(inodes)[n]) ==>
                owner == old(owner) - {n}
    {
      hide SystemBlocks, Shaped, Owned, Coherent, LinksOk, Tree, Names, Files, Dir, Refs, Settled, SameFiles,
           SameBut, NoBlocks, Bitmap.Valid, Bitmap.Marked;
      TreeFacts(V(), LoadedInos(vnodes));
      ghost var v0, vs0, marked := V(), vnodes, freemap.Marked();
      var k := IndexOf(vnodes, n);
      TableFacts(V(), vnodes, freemap.Marked(), {}, k);
      VnodeFacts(V(), vnodes, freemap.Marked(), {}, k);
      RefsAt(vnodes, k);
      if vnodes[k].refcount > 1 {
        RefChange(V(), vnodes, freemap.Marked(), k, vnodes[k].refcount - 1);
        vnodes := vnodes[k := vnodes[k].(refcount := vnodes[k].refcount - 1)];
      } else {
        var _ := Reclaim(k);
      }
      DroppedView(v0, vs0, V(), vnodes, marked, n, k);
    }

    /** sfi_linkcount of a loaded file, up or down by one; a 16-bit field. */
    method Relink(n: nat, d: int)
      requires Base() && n in LoadedInos(vnodes) && n in inodes && 0 <= inodes[n].linkcount + d < 0x1_0000
      modifies this`vnodes, this`inodes
      ensures Base() && V() == old(V()).(inodes := Relinked(old(inodes), n, d))
      ensures LoadedInos(vnodes) == LoadedInos(old(vnodes)) && Refs(vnodes) == Refs(old(vnodes))
    {
      hide SystemBlocks, Shaped, Owned, Coherent, Refs, LoadedInos;
      var k := IndexOf(vnodes, n);
      VnodeFacts(V(), vnodes, freemap.Marked(), {}, k);
      TableFacts(V(), vnodes, freemap.Marked(), {}, k);
      var i := vnodes[k].inode.(linkcount := vnodes[k].inode.linkcount + d);
      SetMeta(V(), vnodes, freemap.Marked(), k, i);
      OnlyRefs(vnodes, Dirtied(vnodes, k, i), k);
      vnodes := Dirtied(vnodes, k, i);
      inodes := inodes[n := i];
    }

    /** A new unnamed file with one reference. */
    method MakeFile() returns (result: Errno, n: nat)
      requires Valid()
      modifies this, freemap.v
      ensures Valid() && (result == OK || result == ENOSPC)
      ensures result == ENOSPC ==> View() == old(View()) && forall c: nat | c < nblocks :: c in owner
      ensures result == OK ==> n in inodes && NoBlocks(inodes[n]) && inodes[n].linkcount == 0
      ensures result == OK ==>
                && n !in old(View()).files && n !in old(View()).refs && n !in old(View()).names.Values && n in inodes
                && n !in old(View()).maps
                && View() == old(View()).(files := old(View()).files[n := []], refs := old(View()).refs[n := 1],
                                          maps := old(View()).maps[n := Extent({}, false)])
    {
      hide SystemBlocks, Shaped, Owned, Coherent, LinksOk, Tree, Names, Files, Dir, Refs, SameBut, NoBlocks, ExtentOf;
      TreeFacts(V(), LoadedInos(vnodes));
      ghost var v0, vs0, marked := V(), vnodes, freemap.Marked();
      var k;
      n := 0;
      result, k := MakeObj(TYPE_FILE);
      if result == OK {
        n := vnodes[k].ino;
        NotZero(V(), vnodes, freemap.Marked(), n);
        MadeView(v0, vs0, V(), vnodes, marked, vnodes[k]);
      }
    }

    /** sfs_dir_link and the link count: name now leads to n. */
    method AddName(name: Name, n: nat) returns (result: Errno, slot: nat)
      requires Valid() && ROOT_LOCATION in LoadedInos(vnodes) && n in LoadedInos(vnodes) && 0 !in name
      modifies this, freemap.v
      ensures Valid() && Named(old(View()), View(), name, n, slot, result)
      ensures result == ENOSPC ==> forall c: nat | c < nblocks :: c in owner
      ensures result != OK && n != ROOT_LOCATION ==> n in inodes && n in old(inodes) && inodes[n] == old(inodes)[n]
      ensures ROOT_LOCATION in inodes && ROOT_LOCATION in old(inodes)
      ensures result == OK ==>
                && slot <= |old(Dir(V()))| && (slot < |old(Dir(V()))| ==> !Used(old(Dir(V()))[slot]))
                && Dir(V()) == Put(old(Dir(V())), slot, Slot(n, name))
    {
      hide SystemBlocks, Shaped, Owned, Coherent, LinksOk, Tree, Dir, Names, Files, SlotWritten, SameTree,
           OnlyVnode, EncodeSlot, Put, ExtentOf, Filled, Chosen, NewSlot, Maps, Named, Refs;
      ghost var v0, vs0, loaded := V(), vnodes, LoadedInos(vnodes);
      TreeFacts(V(), loaded);
      var k := IndexOf(vnodes, ROOT_LOCATION);
      TableFacts(V(), vnodes, freemap.Marked(), {}, k);
      LoadedFacts(V(), vnodes, freemap.Marked(), n);
      LinkRoom(V(), loaded, n);
      result, slot := DirLink(k, name, n);
      OnlyRefs(vs0, vnodes, k);
      if result in {OK, ENOSPC, EFBIG} {
        ChosenIsNew(v0, vs0, slot);
        ChosenFree(Dir(v0), slot);
      }
      if result != OK {
        TreeKept(v0, V(), loaded);
        TreeFacts(V(), loaded);
        OtherInode(v0, V(), n);
        NamedNot(v0, vs0, V(), vnodes, name, n, slot, result);
        return;
      }
      ghost var v1 := V();
      TreeLinked(v0, v1, slot, n, name, loaded);
      SlotCounts(v0, v1, slot, EncodeSlot(n, name), n);
      SlotMaps(v0, v1, slot, EncodeSlot(n, name));
      MapsRelinked(v1, n, 1);
      Relink(n, 1);
      TreeFacts(V(), loaded);
      NamedIs(v0, vs0, V(), vnodes, name, n, slot, ExtentOf(v1, ROOT_LOCATION));
    }

    /** sfs_dir_unlink and the link count, for a name whose file is held. */
    method DropName(slot: nat, n: nat)
      requires Valid() && ROOT_LOCATION in LoadedInos(vnodes) && ROOT_LOCATION in inodes
      requires slot < |Dir(V())| && Used(Dir(V())[slot]) && Dir(V())[slot].ino == n && n in LoadedInos(vnodes)
      modifies this, freemap.v
      ensures Valid()
      ensures View() == old(View()).(names := old(View()).names - {old(Dir(V()))[slot].name})
    {
      hide SystemBlocks, Shaped, Owned, Coherent, LinksOk, Tree, Dir, Names, Files, SlotWritten, OnlyVnode,
           EncodeSlot, ExtentOf, Maps;
      ghost var v0, vs0, loaded := V(), vnodes, LoadedInos(vnodes);
      TreeFacts(V(), loaded);
      NamedLive(V(), loaded, slot);
      LinkRoom(V(), loaded, n);
      var k := IndexOf(vnodes, ROOT_LOCATION);
      TableFacts(V(), vnodes, freemap.Marked(), {}, k);
      var result := DirUnlink(k, slot);
      OnlyRefs(vs0, vnodes, k);
      ghost var v1 := V();
      TreeUnlinked(v0, v1, slot, loaded);
      SlotCounts(v0, v1, slot, EncodeSlot(NOINO, []), n);
      SlotMaps(v0, v1, slot, EncodeSlot(NOINO, []));
      MapsRelinked(v1, n, -1);
      MapsAgain(v0);
      Relink(n, -1);
    }

    // --- Operations on the filesystem ---

    /** sfs_lookup */
    method Lookup(name: Name) returns (result: Errno, n: nat)
      requires Valid() && ROOT_LOCATION in LoadedInos(vnodes)
      modifies this, freemap.v
      ensures Valid() && result == (if name in old(View()).names then OK else ENOENT)
      ensures result == OK ==>
                n == old(View()).names[name] && View() == old(View()).(refs := Held(old(View()).refs, n))
      ensures result != OK ==> View() == old(View())
    {
      hide SystemBlocks, Shaped, Owned, Coherent, LinksOk, Tree, Dir, Names, Files, Refs;
      var slot;
      result, n, slot := LookOnce(name);
    }

    /** sfs_lookonce: the file a name leads to, held, and the slot of the name. The
        panic for a link count of 0 is the assertion. */
    method LookOnce(name: Name) returns (result: Errno, n: nat, slot: nat)
      requires Valid() && ROOT_LOCATION in LoadedInos(vnodes)
      modifies this, freemap.v
      ensures Valid() && result == (if name in old(View()).names then OK else ENOENT) && V() == old(V())
      ensures result == OK ==>
                n == old(View()).names[name] && View() == old(View()).(refs := Held(old(View()).refs, n))
      ensures result == OK ==> ROOT_LOCATION in inodes && Has(Dir(V()), slot, name) && Dir(V())[slot].ino == n
      ensures result != OK ==> View() == old(View())
    {
      hide SystemBlocks, Shaped, Owned, Coherent, LinksOk, Tree, Dir, Names, Files, Refs;
      TreeFacts(V(), LoadedInos(vnodes));
      var k := IndexOf(vnodes, ROOT_LOCATION);
      var emptyslot;
      result, n, slot, emptyslot := FindName(k, name);
      if result == OK {
        NamedLive(V(), LoadedInos(vnodes), slot);
        k := Load(n);
        VnodeFacts(V(), vnodes, freemap.Marked(), {}, k);
        assert vnodes[k].inode.linkcount != 0;
      }
    }

    /** sfs_creat: an existing file is opened, or refused if excl; otherwise an empty file
        appears under the name. A failure changes nothing. */
    method Creat(name: Name, excl: bool) returns (result: Errno, n: nat, ghost slot: nat)
      requires Valid() && ROOT_LOCATION in LoadedInos(vnodes) && 0 !in name
      modifies this, freemap.v
      ensures Valid()
      ensures name in old(View()).names ==>
                && result == (if excl then EEXIST else OK) && (result == OK ==> n == old(View()).names[name])
                && View() == if excl then old(View()) else old(View()).(refs := Held(old(View()).refs, n))
      ensures name !in old(View()).names ==> Created(old(View()), View(), name, n, slot, result, Free())
    {
      hide SystemBlocks, Shaped, Owned, Coherent, LinksOk, Tree, Dir, Names, Files, Settled, NoBlocks, Maps, Named,
           ExtentOf;
      TreeFacts(V(), LoadedInos(vnodes));
      ghost var w0 := View();
      SettledSame(V(), vnodes);
      slot := 0;
      var k := IndexOf(vnodes, ROOT_LOCATION);
      var found, emptyslot;
      result, n, found, emptyslot := FindName(k, name);
      if result == OK && excl {
        return EEXIST, n, 0;
      }
      if result == OK {
        NamedLive(V(), LoadedInos(vnodes), found);
        k := Load(n);
        return;
      }
      result, n := MakeFile();
      if result != OK {
        return;
      }
      assert ROOT_LOCATION in View().refs && n in View().refs;
      ghost var w1 := View();
      result, slot := AddName(name, n);
      if result != OK {
        Uncreated(w0, View(), name, n, slot, result);
        LiveBlock(V(), vnodes, freemap.Marked(), n);
        NamedKeeps(WithFile(w0, n), View(), name, n, slot, result);
        Decref(n);
      }
    }

    /** sfs_link */
    method Link(name: Name, n: nat) returns (result: Errno, ghost slot: nat)
      requires Valid() && ROOT_LOCATION in LoadedInos(vnodes) && n in LoadedInos(vnodes) && 0 !in name
      modifies this, freemap.v
      ensures Valid() && Named(old(View()), View(), name, n, slot, result) && (result == ENOSPC ==> Free() == {})
    {
      hide SystemBlocks, Shaped, Owned, Coherent, LinksOk, Tree, Named;
      result, slot := AddName(name, n);
    }

    /** sfs_remove: the name goes, and the file with it if nothing else keeps it. It
        fails only for want of the name. */
    method Remove(name: Name) returns (result: Errno)
      requires Valid() && ROOT_LOCATION in LoadedInos(vnodes)
      modifies this, freemap.v
      ensures Valid() && result == if name in old(View()).names then OK else ENOENT
      ensures View() == if result == OK then Settled(old(View()).(names := old(View()).names - {name})) else old(View())
    {
      hide SystemBlocks, Shaped, Owned, Coherent, LinksOk, Tree, Dir, Names, Files, Settled;
      ghost var w0 := View();
      RefsPositive(V(), vnodes, freemap.Marked());
      var n, slot;
      result, n, slot := LookOnce(name);
      if result == OK {
        assert ROOT_LOCATION in View().refs && n in View().refs;
        DropName(slot, n);
        assert n in View().refs;
        HeldDropped(w0.refs, n);
        Decref(n);
      }
    }

    /** The type of a loaded object. */
    method IsFile(n: nat) returns (file: bool)
      requires Valid() && n in LoadedInos(vnodes)
      ensures file <==> n != ROOT_LOCATION
    {
      hide SystemBlocks, Shaped, Owned, Coherent, LinksOk, Tree, Dir, Names, Files;
      var k := IndexOf(vnodes, n);
      TableFacts(V(), vnodes, freemap.Marked(), {}, k);
      VnodeFacts(V(), vnodes, freemap.Marked(), {}, k);
      TypeOfRoot(V(), LoadedInos(vnodes), n);
      file := vnodes[k].inode.typ == TYPE_FILE;
    }

    /** The rest of sfs_rename: the file, which is held, gets the new name and loses the old
        one. Undoing a half-done rename is never needed. */
    method MoveName(n1: Name, n2: Name, g1: nat, slot1: nat, ghost w0: FsView) returns (result: Errno, ghost slot2: nat)
      requires Valid() && ROOT_LOCATION in LoadedInos(vnodes) && g1 in LoadedInos(vnodes) && g1 != ROOT_LOCATION
      requires 0 !in n2
      requires ROOT_LOCATION in inodes && Has(Dir(V()), slot1, n1) && Dir(V())[slot1].ino == g1
      requires View() == w0.(refs := Held(w0.refs, g1)) && Settled(w0) == w0
      requires Dropped(Held(w0.refs, g1), g1) == w0.refs
      requires n1 in w0.names && w0.names[n1] == g1
      modifies this, freemap.v
      ensures Valid() && Renamed(w0, View(), n1, n2, g1, slot2, result) && (result == ENOSPC ==> Free() == {})
    {
      hide SystemBlocks, Shaped, Owned, Coherent, LinksOk, Tree, Dir, Names, Files, Settled, Put, NoBlocks,
           Bitmap.Valid, Bitmap.Marked, Maps, Filled;
      ghost var d := Dir(V());
      NamedLive(V(), LoadedInos(vnodes), slot1);
      var slot;
      result, slot := AddName(n2, g1);
      slot2 := slot;
      NamedRefs(w0.(refs := Held(w0.refs, g1)), View(), n2, g1, slot, result, w0.refs);
      ghost var w1 := View();
      if result == OK {
        PutOther(d, slot, Slot(g1, n2), slot1);
        assert ROOT_LOCATION in View().refs && g1 in View().refs;
        DropName(slot1, g1);
        SettledSame(V(), vnodes);
        RenamedSettled(w0, View(), n1, n2, g1);
      } else {
        SettledMap(w0, w1.maps[ROOT_LOCATION]);
      }
      assert g1 in View().refs;
      Decref(g1);
    }

    /** sfs_rename: the file moves to the new name, which must be free. The assertion that
        the object is a file fails, and the kernel panics, if and only if the old name
        leads to the root directory: nothing stops a link to it. */
    method Rename(n1: Name, n2: Name) returns (panicked: bool, result: Errno, ghost slot: nat)
      requires Valid() && ROOT_LOCATION in LoadedInos(vnodes) && 0 !in n2
      modifies this, freemap.v
      ensures Valid()
      ensures panicked <==> n1 in old(View()).names && old(View()).names[n1] == ROOT_LOCATION
      ensures panicked ==> View() == old(View()).(refs := Held(old(View()).refs, ROOT_LOCATION))
      ensures !panicked && n1 !in old(View()).names ==> result == ENOENT && View() == old(View())
      ensures !panicked && n1 in old(View()).names ==>
                Renamed(old(View()), View(), n1, n2, old(View()).names[n1], slot, result)
      ensures !panicked && result == ENOSPC ==> Free() == {}
    {
      hide SystemBlocks, Shaped, Owned, Coherent, LinksOk, Tree, Dir, Names, Files, Settled, Put, Bitmap.Valid,
           Bitmap.Marked, Has, Maps, Renamed;
      slot := 0;
      ghost var w0 := View();
      RefsPositive(V(), vnodes, freemap.Marked());
      SettledSame(V(), vnodes);
      panicked := false;
      var g1, slot1;
      result, g1, slot1 := LookOnce(n1);
      if result != OK {
        return;
      }
      HeldDropped(w0.refs, g1);
      assert ROOT_LOCATION in View().refs && g1 in View().refs;
      var file := IsFile(g1);
      if !file {
        return true, OK, 0;
      }
      result, slot := MoveName(n1, n2, g1, slot1, w0);
    }

    /** sfs_write on a regular file: the bytes taken from the uio are in the file, which
        grows to reach them, and a failure still leaves a prefix. */
    method WriteFile(n: nat, uio: Uio) returns (result: Errno)
      requires Valid() && n in LoadedInos(vnodes) && n != ROOT_LOCATION && uio.Valid() && uio.rw == WRITE
      requires uio.offset < SIZE_T
      modifies this, freemap.v, uio
      ensures Valid() && n in old(View()).files && uio.Valid() && uio.flat == old(uio.flat)
      ensures old(uio.offset) <= uio.offset && uio.pos == old(uio.pos) + (uio.offset - old(uio.offset))
      ensures uio.resid == old(uio.resid) - (uio.offset - old(uio.offset)) && (result == OK ==> uio.resid == 0)
      ensures n in old(View()).maps && n in View().maps
      ensures View() == old(View()).(files := old(View()).files[n :=
                          WriteAt(old(View()).files[n], old(uio.offset), uio.flat[old(uio.pos)..uio.pos])],
                          maps := old(View()).maps[n := View().maps[n]])
      ensures Filled(old(View()).maps[n], View().maps[n], old(uio.offset), uio.offset - old(uio.offset), result == OK)
      ensures result == OK ==> !Beyond(old(uio.offset), old(uio.resid))
      ensures result != OK && old(uio.offset) < uio.offset ==> uio.offset % BLOCKSIZE == 0
      ensures (old(uio.offset) < uio.offset ==> uio.offset <= MAXFILE) && (result == EFBIG ==> uio.offset >= MAXFILE)
      ensures result == ENOSPC ==> uio.offset < MAXFILE && uio.offset / BLOCKSIZE !in View().maps[n].blocks
      ensures result == ENOSPC ==> Free() == {}
      ensures result != OK ==> Overlaps(uio.offset / BLOCKSIZE, old(uio.offset), old(uio.resid))
      ensures result in {OK, EFBIG, ENOSPC} && (result != OK && old(uio.resid) > 0 ==> uio.resid > 0)
    {
      hide SystemBlocks, Shaped, Owned, Coherent, LinksOk, Tree, Dir, Names, Files, Refs, FileWritten, Uio.Linked,
           Maps, ExtentOf, Filled;
      ghost var v0, vs0, loaded := V(), vnodes, LoadedInos(vnodes);
      TreeFacts(V(), loaded);
      var k := IndexOf(vnodes, n);
      TableFacts(V(), vnodes, freemap.Marked(), {}, k);
      VnodeFacts(V(), vnodes, freemap.Marked(), {}, k);
      FileFacts(V(), loaded, n);
      result := Write(k, uio);
      OnlyRefs(vs0, vnodes, k);
      WrittenView(v0, V(), n, old(uio.offset), uio.flat[old(uio.pos)..uio.pos], loaded);
      MapsAt(v0, n);
      if result == ENOSPC {
        InExtent(V(), n, uio.offset / BLOCKSIZE);
      }
    }

    /** sfs_read on a regular file. */
    method ReadFile(n: nat, uio: Uio) returns (result: Errno)
      requires Valid() && n in LoadedInos(vnodes) && n != ROOT_LOCATION && uio.Valid() && uio.rw == READ
      modifies this, freemap.v, uio
      ensures Valid() && View() == old(View()) && n in View().files && uio.Valid()
      ensures old(uio.offset) <= uio.offset && uio.pos == old(uio.pos) + (uio.offset - old(uio.offset))
      ensures uio.resid == old(uio.resid) - (uio.offset - old(uio.offset))
      ensures GaveBytes(View().files[n], old(uio.offset), old(uio.resid), old(uio.flat), old(uio.pos),
                        uio.offset, uio.flat, result)
    {
      hide SystemBlocks, Shaped, Owned, Coherent, LinksOk, Tree, Dir, Names, Files, Refs, GaveBytes, Uio.Linked;
      var k := IndexOf(vnodes, n);
      VnodeFacts(V(), vnodes, freemap.Marked(), {}, k);
      FileFacts(V(), LoadedInos(vnodes), n);
      result := Read(k, uio);
    }

    /** sfs_truncate(0) on a regular file. */
    method TruncateFile(n: nat)
      requires Valid() && n in LoadedInos(vnodes) && n != ROOT_LOCATION
      modifies this, freemap.v
      ensures Valid()
      ensures View() == old(View()).(files := old(View()).files[n := []],
                                     maps := old(View()).maps[n := Extent({}, false)])
    {
      hide SystemBlocks, Shaped, Owned, Coherent, LinksOk, Tree, Dir, Names, Files, Refs, SameBut, NoBlocks, Maps,
           ExtentOf;
      ghost var v0, vs0, loaded := V(), vnodes, LoadedInos(vnodes);
      TreeFacts(V(), loaded);
      var k := IndexOf(vnodes, n);
      TableFacts(V(), vnodes, freemap.Marked(), {}, k);
      VnodeFacts(V(), vnodes, freemap.Marked(), {}, k);
      Truncate(k);
      OnlyRefs(vs0, vnodes, k);
      EmptyFile(V(), n);
      TreeFile(v0, V(), n, loaded);
      MapsPut(v0, V(), n);
      EmptyExtent(V(), n);
    }

    /** sfs_mapio for writing: the free map goes to its blocks. */
    method WriteMap()
      requires Base() && freemapdirty
      modifies this`disk
      ensures Base() && SameFiles(old(V()), V()) && MapOnDisk(disk, BitBlocks(nblocks), freemap.v[..])
    {
      hide SystemBlocks, Shaped, Owned, Coherent, SameFiles, MapBlock;
      ghost var v0, bits := V(), freemap.v[..];
      SameFilesSame(v0);
      var mapsize := BitBlocks(nblocks);
      var j := 0;
      MapRoom(V(), vnodes, freemap.Marked());
      while j < mapsize
        invariant 0 <= j <= mapsize && Base() && SameFiles(v0, V()) && |disk| == |old(disk)|
        invariant forall i: nat | i < j :: MapBlock(disk, bits, i)
      {
        ghost var v1 := V();
        MapBlockWritten(V(), vnodes, freemap.Marked(), j, bits, freemapdirty);
        SameFilesTrans(v0, v1, v1.(disk := v1.disk[MAP_LOCATION + j := bits[512 * j..512 * j + 512]]));
        disk := disk[MAP_LOCATION + j := freemap.v[512 * j..512 * j + 512]];
        j := j + 1;
      }
    }

    /** sfs_sync */
    method Sync()
      requires Valid()
      modifies this
      ensures Valid() && View() == old(View()) && V().inodes == old(V()).inodes && owner == old(owner)
      ensures !freemapdirty && |vnodes| == |old(vnodes)| && forall j | 0 <= j < |vnodes| :: !vnodes[j].dirty
    {
      hide SystemBlocks, Shaped, Owned, Coherent, LinksOk, Tree, Dir, Names, Files, SameFiles, MapOnDisk;
      ghost var v0, vs0, loaded := V(), vnodes, LoadedInos(vnodes);
      TreeFacts(V(), loaded);
      SameFilesSame(v0);
      DistinctTable(V(), vnodes, freemap.Marked());
      var num := |vnodes|;
      var i := 0;
      while i < num
        modifies this`disk, this`vnodes
        invariant 0 <= i <= num == |vnodes| == |vs0| && Base() && SameFiles(v0, V())
        invariant forall j | 0 <= j < num :: vnodes[j].ino == vs0[j].ino && vnodes[j].refcount == vs0[j].refcount
        invariant forall j | 0 <= j < i :: !vnodes[j].dirty
      {
        ghost var v1 := V();
        SyncInode(i);
        SameFilesTrans(v0, v1, V());
        i := i + 1;
      }
      if freemapdirty {
        ghost var v1 := V();
        WriteMap();
        SameFilesTrans(v0, v1, V());
        SystemClean(disk, nblocks, freemap.v[..]);
        freemapdirty := false;
      }
      LoadedSame(vs0, vnodes);
      RefsSame(vs0, vnodes);
      TreeSame(v0, V(), loaded, loaded);
      MapsSame(v0, V());
    }

    /** sfs_unmount, called after a sync: refused while any vnode is loaded; otherwise the
        disk alone holds the whole filesystem. */
    method Unmount() returns (result: Errno)
      requires Valid() && !freemapdirty
      ensures result == (if |vnodes| > 0 then EBUSY else OK)
      ensures result == OK ==> Image(V()) && Recorded(V()) == freemap.Marked() == MapBits(V())
    {
      if |vnodes| > 0 {
        return EBUSY;
      }
      result := OK;
      ImageOf(V(), freemap.v[..], freemap.Marked());
    }

    /** sfs_mapio for reading, when mounting. */
    method ReadMap(mapsize: nat)
      requires freemap.v.Length == 512 * mapsize && MAP_LOCATION + mapsize <= |disk|
      requires forall b | 0 <= b < |disk| :: |disk[b]| == BLOCKSIZE
      modifies freemap.v
      ensures MapOnDisk(disk, mapsize, freemap.v[..])
    {
      var j := 0;
      while j < mapsize
        invariant 0 <= j <= mapsize
        invariant forall i: nat | i < j :: MapBlock(disk, freemap.v[..], i)
      {
        ghost var was := freemap.v[..];
        forall i | 0 <= i < 512 {
          freemap.v[512 * j + i] := disk[MAP_LOCATION + j][i];
        }
        MapBlockRead(disk, was, freemap.v[..], j);
        j := j + 1;
      }
    }

    /** sfs_domount: a device of the wrong sector size is refused, and so is one without the
        magic number. One too short for its superblock, or for its own free map, is not:
        the device answers the read with EINVAL, and sfs_rwblock panics on that. A disk
        that holds a filesystem comes up as that filesystem. */
    static method Mount(dev: seq<Block>, blocksize: nat) returns (panicked: bool, result: Errno, fs: Sfs?)
      requires blocksize == BLOCKSIZE ==> forall b | 0 <= b < |dev| :: |dev[b]| == BLOCKSIZE
      ensures panicked <==> blocksize == BLOCKSIZE && TooShort(dev)
      ensures !panicked ==> result in {OK, ENXIO, EINVAL} && (result == ENXIO <==> blocksize != BLOCKSIZE)
      ensures !panicked && result == EINVAL ==> SB_LOCATION < |dev| && WordAt(dev[SB_LOCATION], 0) != SFS_MAGIC
      ensures !panicked && result == OK <==> blocksize == BLOCKSIZE && Mountable(dev)
      ensures !panicked && result == OK ==>
                fs != null && fresh(fs) && fresh(fs.freemap.v) && fs.disk == dev && fs.vnodes == []
      ensures !panicked && result == OK ==>
                forall v | Image(v) && v.disk == dev :: fs.Valid() && fs.V() == v && !fs.freemapdirty
    {
      hide Image, Coherent, Tree, SystemBlocks, MapOnDisk, Indices;
      panicked, fs := false, null;
      if blocksize != BLOCKSIZE {
        return false, ENXIO, null;
      }
      if SB_LOCATION >= |dev| {
        return true, EINVAL, null;
      }
      if WordAt(dev[SB_LOCATION], 0) != SFS_MAGIC {
        return false, EINVAL, null;
      }
      var nblocks := WordAt(dev[SB_LOCATION], 1);
      var mapsize := MapSize(nblocks);
      ghost var v0 := Volume(nblocks, dev, map[], map[]);
      if exists v :: Image(v) && v.disk == dev {
        v0 :| Image(v0) && v0.disk == dev;
      }
      if MAP_LOCATION + mapsize > |dev| {
        return true, EINVAL, null;
      }
      fs := new Sfs(dev, nblocks, mapsize, v0);
      fs.ReadMap(mapsize);
      result := OK;
      forall v | Image(v) && v.disk == dev ensures fs.Valid() && fs.V() == v {
        ImageUnique(v, v0);
        ImageMountable(v);
        ImageFacts(v);
        ImageMounted(v, fs.freemap.v[..], fs.freemap.Marked());
      }
    }

    /** Sync, unmount and mount again: the same names, contents and free map. */
    method Remount() returns (result: Errno, fs: Sfs?)
      requires Valid()
      modifies this
      ensures result == if |old(vnodes)| > 0 then EBUSY else OK
      ensures result == EBUSY ==> Valid() && View() == old(View()) && owner == old(owner)
      ensures result == OK ==> fs != null && fresh(fs) && fresh(fs.freemap.v) && fs.nblocks == nblocks
      ensures result == OK ==>
                fs.Valid() && fs.View() == old(View()) && fs.View().refs == map[] && fs.owner == old(owner)
      ensures result == OK ==> fs.freemap.Marked() == old(freemap.Marked())
    {
      Sync();
      result := Unmount();
      fs := null;
      if result == OK {
        ImageMountable(V());
        var panicked;
        panicked, result, fs := Mount(disk, BLOCKSIZE);
        assert !panicked;
      }
    }
  }
}
