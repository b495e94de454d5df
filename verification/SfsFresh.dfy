/** A freshly formatted volume (the layout of include/kern/sfs.h): the superblock, an empty root
    directory and the free map, with every other block free. It is where every run of
    the filesystem can start, for any size a volume can have.
  */
module SfsFresh {
  import opened Bytes
  import opened Bitmaps
  import opened SfsLayout
  import opened SfsVolume
  import opened SfsTable
  import opened SfsDir
  import opened SfsView
  import opened Sfs

  /** The blocks in use: the superblock, the root directory's inode and the free map. */
  function SystemEnd(n: nat): nat {
    MAP_LOCATION + BitBlocks(n)
  }

  predicate Taken(n: nat, b: nat) {
    b < SystemEnd(n) || n <= b
  }

  /** A byte of the free map, its lowest j bits filled in. */
  function MapByte(n: nat, base: nat, j: nat): (w: byte)
    requires j <= 8
  {
    if j == 0 then 0
    else
      var w := MapByte(n, base, j - 1);
      if Taken(n, base + j - 1) then
        ByteRange();
        BitsStayInRange(w, j - 1, 8);
        SetBit(w, j - 1)
      else w
  }

  lemma {:induction false} MapByteBits(n: nat, base: nat, j: nat, k: nat)
    requires j <= 8
    ensures Bit(MapByte(n, base, j), k) == (k < j && Taken(n, base + k))
  {
    if j == 0 {
      BitOfZero(k);
    } else {
      MapByteBits(n, base, j - 1, k);
      BitOfSetBit(MapByte(n, base, j - 1), j - 1, k);
    }
  }

  function FreshMap(n: nat): (bits: seq<byte>)
    ensures |bits| == 512 * BitBlocks(n)
  {
    seq(512 * BitBlocks(n), i requires 0 <= i < 512 * BitBlocks(n) => MapByte(n, 8 * i, 8))
  }

  function RootInode(): (i: Inode)
    ensures WellFormed(i)
  {
    Inode(0, TYPE_DIR, 1, seq(15, _ => 0), 0, seq(110, _ => 0))
  }

  function FreshBlock(n: nat, b: nat): (blk: Block)
    requires n < 0x80_0000
    ensures |blk| == BLOCKSIZE
  {
    if b == SB_LOCATION then Unwords([SFS_MAGIC, n] + seq(126, _ => 0))
    else if b == ROOT_LOCATION then EncodeInode(RootInode())
    else if b < SystemEnd(n) then FreshMap(n)[512 * (b - 2)..512 * (b - 2) + 512]
    else ZeroBlock()
  }

  function FreshDisk(n: nat): (disk: seq<Block>)
    requires n < 0x80_0000
    ensures |disk| == n && forall b | 0 <= b < n :: disk[b] == FreshBlock(n, b)
  {
    seq(n, b requires 0 <= b < n => FreshBlock(n, b))
  }

  function SystemRef(b: nat): Ref {
    if b == SB_LOCATION then Super
    else if b == ROOT_LOCATION then Ino(ROOT_LOCATION)
    else FreeMap(b - MAP_LOCATION)
  }

  ghost function FreshVolume(n: nat): Volume
    requires n < 0x80_0000
  {
    Volume(n, FreshDisk(n), map[ROOT_LOCATION := RootInode()], map b: nat | b < SystemEnd(n) :: SystemRef(b))
  }

  lemma FreshOwned(n: nat)
    requires SystemEnd(n) <= n < 0x80_0000
    ensures Shaped(FreshVolume(n)) && Owned(FreshVolume(n))
  {
    var v := FreshVolume(n);
    assert forall fb: nat :: Mapped(v, ROOT_LOCATION, fb) == 0;
    forall r, b: nat | Refers(v, r, b) ensures b in v.owner && v.owner[b] == r {
    }
  }

  lemma FreshTree(n: nat)
    requires SystemEnd(n) <= n < 0x80_0000
    ensures Tree(FreshVolume(n), {}) && Names(Dir(FreshVolume(n))) == map[] && Files(FreshVolume(n)) == map[]
    ensures Dir(FreshVolume(n)) == [] && Maps(FreshVolume(n)) == map[ROOT_LOCATION := Extent({}, false)]
  {
    var v := FreshVolume(n);
    assert forall fb: nat :: Mapped(v, ROOT_LOCATION, fb) == 0;
    assert Dir(v) == [];
    assert ExtentOf(v, ROOT_LOCATION) == Extent({}, false);
    assert Naming([], ROOT_LOCATION) == {};
  }

  lemma FreshMarks(n: nat)
    requires SystemEnd(n) <= n < 0x80_0000
    ensures Recorded(FreshVolume(n)) == MapBits(FreshVolume(n))
  {
    var v := FreshVolume(n);
    var bits := FreshMap(n);
    forall j: nat | j < BitBlocks(n) ensures MapBlock(v.disk, bits, j) {
      assert v.disk[MAP_LOCATION + j] == FreshBlock(n, MAP_LOCATION + j);
    }
    MapBytesAre(v.disk, BitBlocks(n), bits);
    assert bits[..512 * BitBlocks(n)] == bits;
    forall i: nat | i < 4096 * BitBlocks(n) ensures IsSet(bits, i) <==> Taken(n, i) {
      MapByteBits(n, 8 * (i / 8), 8, i % 8);
    }
  }

  /** The invariant of the filesystem holds of a fresh volume of any size. */
  lemma FreshImage(n: nat)
    requires SystemEnd(n) <= n < 0x80_0000
    ensures Image(FreshVolume(n))
  {
    hide Owned, Tree, Recorded, MapBits;
    var v := FreshVolume(n);
    FreshOwned(n);
    FreshTree(n);
    FreshMarks(n);
    DecodeEncodeInode(RootInode());
    assert v.disk[SB_LOCATION] == FreshBlock(n, SB_LOCATION) && v.disk[ROOT_LOCATION] == FreshBlock(n, ROOT_LOCATION);
    WordAtUnwords([SFS_MAGIC, n] + seq(126, _ => 0), 0);
    WordAtUnwords([SFS_MAGIC, n] + seq(126, _ => 0), 1);
  }

  /** No names, no files, no references, and a directory without blocks. */
  ghost function EmptyView(): FsView {
    FsView(map[], map[], map[], 0, map[ROOT_LOCATION := Extent({}, false)])
  }

  /** Mounted, it is a filesystem with nothing in it. */
  method MountFresh(n: nat) returns (fs: Sfs)
    requires SystemEnd(n) <= n < 0x80_0000
    ensures fresh(fs) && fresh(fs.freemap.v) && fs.nblocks == n
    ensures fs.Valid() && fs.View() == EmptyView()
  {
    hide Image, Tree, Owned, Mountable, Sfs.Base, Maps, Names, Files, Dir;
    FreshImage(n);
    FreshTree(n);
    ImageMountable(FreshVolume(n));
    var panicked, result, mounted := Sfs.Mount(FreshDisk(n), BLOCKSIZE);
    assert FreshVolume(n).disk == FreshDisk(n);
    fs := mounted;
    assert fs.V() == FreshVolume(n) && Refs([]) == map[];
  }
}
