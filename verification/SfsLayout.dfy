/** include/kern/sfs.h: the on-disk formats of SFS and their encodings.

    Disk words are big-endian, as on the MIPS the kernel runs on.
  */
module SfsLayout {
  import opened Bytes

  const BLOCKSIZE: nat := 512
  const NDIRECT: nat := 15
  const DBPERIDB: nat := 128
  const NAMELEN: nat := 60
  const SB_LOCATION: nat := 0
  const ROOT_LOCATION: nat := 1
  const MAP_LOCATION: nat := 2
  const NOINO: nat := 0
  const TYPE_INVAL: nat := 0
  const TYPE_FILE: nat := 1
  const TYPE_DIR: nat := 2
  const SFS_MAGIC: nat := 0xabadf001
  /** Blocks an inode can map, the bytes they hold, and the size of a directory slot. */
  const MAXBLOCKS: nat := 143
  const MAXFILE: nat := 73216
  const DIRENT: nat := 64
  const MAXSLOTS: nat := 1144

  type Block = seq<byte>

  function BitBlocks(nblocks: nat): nat {
    (nblocks + 4095) / 4096
  }

  function ZeroBlock(): (b: Block)
    ensures |b| == BLOCKSIZE && forall k | 0 <= k < BLOCKSIZE :: b[k] == 0
  {
    seq(512, _ => 0)
  }

  /** The big-endian word at byte position 4*i; total, so that specifications need
      no range conditions. */
  function WordAt(b: Block, i: nat): word {
    if 4 * i + 3 < |b| then
      (b[4 * i] as int) * 0x100_0000 + (b[4 * i + 1] as int) * 0x1_0000 + (b[4 * i + 2] as int) * 0x100 + b[4 * i + 3]
    else 0
  }

  function Words(b: Block): (ws: seq<word>)
    requires |b| == BLOCKSIZE
    ensures |ws| == DBPERIDB && forall i | 0 <= i < DBPERIDB :: ws[i] == WordAt(b, i)
  {
    seq(128, i requires 0 <= i < 128 => WordAt(b, i))
  }

  function Unwords(ws: seq<word>): (b: Block)
    ensures |b| == 4 * |ws|
    ensures forall k | 0 <= k < 4 * |ws| :: b[k] == ByteOf(ws[k / 4], k % 4)
  {
    seq(4 * |ws|, k requires 0 <= k < 4 * |ws| => ByteOf(ws[k / 4], k % 4))
  }

  lemma WordAtUnwords(ws: seq<word>, i: nat)
    requires i < |ws|
    ensures WordAt(Unwords(ws), i) == ws[i]
  {
    var b := Unwords(ws);
    assert b[4 * i] == ByteOf(ws[i], 0) && b[4 * i + 1] == ByteOf(ws[i], 1);
    assert b[4 * i + 2] == ByteOf(ws[i], 2) && b[4 * i + 3] == ByteOf(ws[i], 3);
    WordBytes(ws[i]);
  }

  lemma WordAtZero(i: nat)
    ensures WordAt(ZeroBlock(), i) == 0
  {
  }

  /** struct sfs_inode */
  datatype Inode = Inode(size: nat, typ: nat, linkcount: nat, direct: seq<word>, indirect: word, waste: seq<word>)

  /** The field widths of struct sfs_inode. */
  predicate WellFormed(i: Inode) {
    && i.size < 0x1_0000_0000 && i.typ < 0x1_0000 && i.linkcount < 0x1_0000
    && |i.direct| == NDIRECT && |i.waste| == 110
  }

  function InodeWords(i: Inode): (ws: seq<word>)
    requires WellFormed(i)
    ensures |ws| == DBPERIDB
  {
    [i.size, i.typ * 0x1_0000 + i.linkcount] + i.direct + [i.indirect] + i.waste
  }

  function InodeOf(ws: seq<word>): (i: Inode)
    requires |ws| == DBPERIDB
    ensures WellFormed(i)
  {
    Inode(ws[0], ws[1] / 0x1_0000, ws[1] % 0x1_0000, ws[2..17], ws[17], ws[18..])
  }

  function EncodeInode(i: Inode): (b: Block)
    requires WellFormed(i)
    ensures |b| == BLOCKSIZE
  {
    Unwords(InodeWords(i))
  }

  function DecodeInode(b: Block): (i: Inode)
    requires |b| == BLOCKSIZE
    ensures WellFormed(i)
  {
    InodeOf(Words(b))
  }

  lemma WordsUnwords(ws: seq<word>)
    requires |ws| == DBPERIDB
    ensures Words(Unwords(ws)) == ws
  {
    forall k | 0 <= k < DBPERIDB ensures Words(Unwords(ws))[k] == ws[k] {
      WordAtUnwords(ws, k);
    }
  }

  lemma InodeOfWords(i: Inode)
    requires WellFormed(i)
    ensures InodeOf(InodeWords(i)) == i
  {
    var ws := InodeWords(i);
    assert ws[2..17] == i.direct && ws[18..] == i.waste;
    assert ws[1] == i.typ * 0x1_0000 + i.linkcount;
  }

  lemma DecodeEncodeInode(i: Inode)
    requires WellFormed(i)
    ensures DecodeInode(EncodeInode(i)) == i
  {
    WordsUnwords(InodeWords(i));
    InodeOfWords(i);
  }

  /** A block of zeros read as an inode: what a fresh inode block holds. */
  lemma DecodeZero()
    ensures var i := DecodeInode(ZeroBlock());
            && i.size == 0 && i.typ == TYPE_INVAL && i.linkcount == 0 && i.indirect == 0
            && forall k | 0 <= k < NDIRECT :: i.direct[k] == 0
  {
    var ws := Words(ZeroBlock());
    forall k | 0 <= k < DBPERIDB ensures ws[k] == 0 {
      WordAtZero(k);
    }
  }

  /** The string in a name field: up to the first NUL, and at most 59 bytes because
      the last byte is taken to be NUL whatever it is. */
  function CString(b: seq<byte>): (s: seq<byte>)
    ensures |s| <= |b| && 0 !in s
  {
    if |b| <= 1 || b[0] == 0 then [] else [b[0]] + CString(b[1..])
  }

  lemma {:induction false} CStringOf(s: seq<byte>, pad: seq<byte>)
    requires 0 !in s && pad != [] && pad[0] == 0
    ensures CString(s + pad) == s
  {
    if s == [] {
      assert s + pad == pad;
    } else {
      assert (s + pad)[1..] == s[1..] + pad;
      CStringOf(s[1..], pad);
    }
  }

  lemma {:induction false} CStringBound(b: seq<byte>)
    requires b != []
    ensures |CString(b)| < |b|
  {
    if |b| > 1 && b[0] != 0 {
      CStringBound(b[1..]);
    }
  }

  /** struct sfs_dir: an inode number and a name. */
  datatype Slot = Slot(ino: nat, name: seq<byte>)

  function DecodeSlot(b: seq<byte>): (s: Slot)
    requires |b| == DIRENT
  {
    Slot(WordAt(b, 0), CString(b[4..]))
  }

  /** bzero, then the inode number and strcpy of the name. */
  function EncodeSlot(ino: word, name: seq<byte>): (b: seq<byte>)
    requires |name| < NAMELEN
    ensures |b| == DIRENT
  {
    Unwords([ino]) + name + seq(60 - |name|, _ => 0)
  }

  lemma DecodeEncodeSlot(ino: word, name: seq<byte>)
    requires |name| < NAMELEN && 0 !in name
    ensures DecodeSlot(EncodeSlot(ino, name)) == Slot(ino, name)
  {
    var b := EncodeSlot(ino, name);
    var pad: seq<byte> := seq(60 - |name|, _ => 0);
    WordAtUnwords([ino], 0);
    assert WordAt(b, 0) == WordAt(Unwords([ino]), 0);
    assert b[4..] == name + pad;
    CStringOf(name, pad);
  }
}
