/** What the filesystem is for: names, the contents of files, and who holds
    references to them.
  */
module SfsView {
  import opened Bytes
  import opened Errno
  import opened Bitmaps
  import opened Uios
  import opened SfsLayout
  import opened SfsVolume
  import opened SfsTable
  import opened SfsDir

  /** `slots` is the length of the directory, in entries, and `maps` says which blocks of data each
      file and the directory have. */
  datatype FsView = FsView(
    names: map<Name, nat>, files: map<nat, seq<byte>>, refs: map<nat, nat>, slots: nat, maps: map<nat, Extent>)

  ghost function Refs(vs: seq<Vnode>): map<nat, nat> {
    map n | n in LoadedInos(vs) :: vs[IndexOf(vs, n)].refcount
  }

  ghost function ViewOf(v: Volume, vs: seq<Vnode>): FsView
    requires ROOT_LOCATION in v.inodes
  {
    FsView(Names(Dir(v)), Files(v), Refs(vs), |Dir(v)|, Maps(v))
  }

  /** A file lives as long as it has a name or a reference. */
  ghost function Settled(w: FsView): FsView {
    w.(files := (map n | n in w.files && (n in w.names.Values || n in w.refs) :: w.files[n]),
       maps := map n | n in w.maps && (n == ROOT_LOCATION || n in w.names.Values || n in w.refs) :: w.maps[n])
  }

  ghost function Held(refs: map<nat, nat>, n: nat): map<nat, nat> {
    refs[n := (if n in refs then refs[n] else 0) + 1]
  }

  ghost function Dropped(refs: map<nat, nat>, n: nat): map<nat, nat>
    requires n in refs
  {
    if refs[n] > 1 then refs[n := refs[n] - 1] else refs - {n}
  }

  /** Dropping a reference just taken restores the references. */
  lemma HeldDropped(refs: map<nat, nat>, n: nat)
    requires n in refs ==> refs[n] > 0
    ensures Dropped(Held(refs, n), n) == refs
  {
  }

  lemma RefsAt(vs: seq<Vnode>, k: nat)
    requires Distinct(vs) && k < |vs|
    ensures vs[k].ino in Refs(vs) && Refs(vs)[vs[k].ino] == vs[k].refcount
  {
    IsLoaded(vs, k);
    IndexIs(vs, vs[k].ino, k);
  }

  lemma RefsSame(vs: seq<Vnode>, vs': seq<Vnode>)
    requires Distinct(vs) && |vs'| == |vs|
    requires forall j | 0 <= j < |vs| :: vs'[j].ino == vs[j].ino && vs'[j].refcount == vs[j].refcount
    ensures Refs(vs') == Refs(vs)
  {
    LoadedSame(vs, vs');
    forall n | n in LoadedInos(vs) ensures Refs(vs')[n] == Refs(vs)[n] {
      var k := IndexOf(vs, n);
      RefsAt(vs, k);
      RefsAt(vs', k);
    }
  }

  lemma RefsSet(vs: seq<Vnode>, k: nat, x: Vnode)
    requires Distinct(vs) && k < |vs| && x.ino == vs[k].ino
    ensures Refs(vs[k := x]) == Refs(vs)[x.ino := x.refcount]
  {
    var vs' := vs[k := x];
    LoadedSame(vs, vs');
    IsLoaded(vs, k);
    forall n | n in LoadedInos(vs) ensures Refs(vs')[n] == Refs(vs)[x.ino := x.refcount][n] {
      var j := IndexOf(vs, n);
      RefsAt(vs, j);
      RefsAt(vs', j);
    }
  }

  lemma RefsAppend(vs: seq<Vnode>, x: Vnode)
    requires Distinct(vs) && x.ino !in LoadedInos(vs)
    ensures Refs(vs + [x]) == Refs(vs)[x.ino := x.refcount]
  {
    var vs' := vs + [x];
    LoadedAppend(vs, x);
    forall j | 0 <= j < |vs| ensures vs[j].ino != x.ino {
      IsLoaded(vs, j);
    }
    forall n | n in LoadedInos(vs') ensures Refs(vs')[n] == Refs(vs)[x.ino := x.refcount][n] {
      if n == x.ino {
        RefsAt(vs', |vs|);
      } else {
        var j := IndexOf(vs, n);
        RefsAt(vs, j);
        RefsAt(vs', j);
      }
    }
  }

  lemma RefsWithout(vs: seq<Vnode>, k: nat)
    requires Distinct(vs) && k < |vs|
    ensures Refs(Without(vs, k)) == Refs(vs) - {vs[k].ino}
  {
    var vs' := Without(vs, k);
    LoadedWithout(vs, k);
    forall n | n in LoadedInos(vs') ensures Refs(vs')[n] == Refs(vs)[n] {
      var j := IndexOf(vs', n);
      assert vs'[j] == vs[if j < k then j else j + 1];
      RefsAt(vs', j);
      RefsAt(vs, if j < k then j else j + 1);
    }
  }

  lemma TreeFacts(v: Volume, loaded: set<nat>)
    requires Tree(v, loaded)
    ensures ROOT_LOCATION in v.inodes && v.inodes[ROOT_LOCATION].typ == TYPE_DIR && ZeroTail(v, ROOT_LOCATION)
    ensures |Dir(v)| * 64 == v.inodes[ROOT_LOCATION].size && |Dir(v)| <= MAXSLOTS && UniqueNames(Dir(v))
  {
    assert InodeOk(Dir(v), v.inodes[ROOT_LOCATION], ROOT_LOCATION, loaded);
  }

  lemma SlotRead(v: Volume, slot: nat, off: nat, flat: seq<byte>, result: Errno)
    requires ROOT_LOCATION in v.inodes && slot < |Dir(v)| <= MAXSLOTS && |Dir(v)| * 64 == v.inodes[ROOT_LOCATION].size
    requires GaveBytes(Contents(v, ROOT_LOCATION), slot * 64, 64, Zeros(64), 0, off, flat, result)
    ensures result == OK && off == slot * 64 + 64 && |flat| == 64 && DecodeSlot(flat) == Dir(v)[slot]
  {
    hide Contents, DecodeSlot, FileByte;
    var c := Contents(v, ROOT_LOCATION);
    StoreAll(Zeros(64), c[slot * 64..off]);
  }

  lemma StoreAll(a: seq<byte>, b: seq<byte>)
    ensures |a| == |b| ==> Store(a, 0, b) == b
  {
  }

  /** An entry lies within one block, so a short write of one is no write. */
  lemma ShortEntry(slot: nat, off: nat)
    requires slot * 64 <= off < slot * 64 + 64 && (slot * 64 < off ==> off % 512 == 0)
    ensures off == slot * 64
  {
  }

  lemma SlotIs(v: Volume, v': Volume, slot: nat, sd: seq<byte>)
    requires FileWritten(v, v', ROOT_LOCATION, slot * 64, sd)
    ensures SlotWritten(v, v', slot, sd)
  {
    hide FileWritten;
  }

  lemma SlotNotWritten(v: Volume, v': Volume, slot: nat, loaded: set<nat>, result: Errno)
    requires Tree(v, loaded) && slot <= |Dir(v)| && FileWritten(v, v', ROOT_LOCATION, slot * 64, [])
    requires result == ENOSPC ==> Mapped(v', ROOT_LOCATION, slot * 64 / BLOCKSIZE) == 0
    ensures SameTree(v, v')
    ensures result == ENOSPC ==> slot < |Dir(v)| ==> !Used(Dir(v)[slot])
  {
    hide FileWritten, Tree, Contents, ZeroTail, SlotWritten, FileBlock, SameBut, ExtentOf;
    SlotIs(v, v', slot, []);
    SlotFailed(v, v', slot, loaded);
    if result == ENOSPC && slot < |Dir(v)| {
      UnmappedSlot(v', slot);
    }
  }

  /** sfs_dir_findname has looked at the slots below i. */
  ghost predicate Scanned(d: seq<Slot>, name: Name, i: nat, found: bool, ino: nat, slot: nat, emptyslot: int) {
    && (found ==> slot < i && Has(d, slot, name) && ino == d[slot].ino)
    && (!found ==> forall j: nat | j < i :: !Has(d, j, name))
    && IsLastFree(d, i, emptyslot)
  }

  /** The last free one of the first i slots, or -1. */
  ghost predicate IsLastFree(d: seq<Slot>, i: nat, emptyslot: int) {
    && (emptyslot == -1 || (0 <= emptyslot < i && emptyslot < |d| && !Used(d[emptyslot])))
    && (forall j | 0 <= j < i && j < |d| && emptyslot < j :: Used(d[j]))
  }

  lemma ScannedNone(d: seq<Slot>, name: Name)
    ensures Scanned(d, name, 0, false, NOINO, 0, -1)
  {
  }

  lemma ScannedStep(d: seq<Slot>, name: Name, i: nat, found: bool, ino: nat, slot: nat, emptyslot: int)
    requires UniqueNames(d) && i < |d| && Scanned(d, name, i, found, ino, slot, emptyslot)
    ensures !Used(d[i]) ==> Scanned(d, name, i + 1, found, ino, slot, i)
    ensures Used(d[i]) && d[i].name != name ==> Scanned(d, name, i + 1, found, ino, slot, emptyslot)
    ensures Used(d[i]) && d[i].name == name ==> !found && Scanned(d, name, i + 1, true, d[i].ino, i, emptyslot)
  {
  }

  lemma ScannedAll(d: seq<Slot>, name: Name, found: bool, ino: nat, slot: nat, emptyslot: int)
    requires UniqueNames(d) && Scanned(d, name, |d|, found, ino, slot, emptyslot)
    ensures found <==> name in Names(d)
    ensures found ==> Has(d, slot, name) && d[slot].ino == ino == Names(d)[name] && ino != NOINO
    ensures IsLastFree(d, |d|, emptyslot) && |Names(d)| <= |d| && (emptyslot == -1 <==> |Names(d)| == |d|)
  {
    hide Names;
    FullExactly(d);
    if found {
      NameSlot(d, slot);
    }
    if name in Names(d) {
      var k := SlotOfName(d, name);
    }
  }

  lemma OtherInode(v: Volume, v': Volume, n: nat)
    requires SameTree(v, v') && n in v.inodes
    ensures n != ROOT_LOCATION ==> n in v'.inodes && v'.inodes[n] == v.inodes[n]
  {
  }

  lemma TypeOfRoot(v: Volume, loaded: set<nat>, n: nat)
    requires Tree(v, loaded) && n in v.inodes
    ensures v.inodes[n].typ == if n == ROOT_LOCATION then TYPE_DIR else TYPE_FILE
  {
    hide Contents, ZeroTail, Slots;
    assert InodeOk(Dir(v), v.inodes[n], n, loaded);
  }

  lemma SameTreeSame(v: Volume, loaded: set<nat>)
    requires Tree(v, loaded)
    ensures SameTree(v, v)
  {
  }

  /** In a well-formed filesystem every file has a name or a reference. */
  lemma SettledSame(v: Volume, vs: seq<Vnode>)
    requires Tree(v, LoadedInos(vs))
    ensures Settled(ViewOf(v, vs)) == ViewOf(v, vs)
  {
    var w := ViewOf(v, vs);
    forall n | n in v.inodes ensures n == ROOT_LOCATION || n in w.names.Values || n in w.refs {
      assert InodeOk(Dir(v), v.inodes[n], n, LoadedInos(vs));
      LinkNamed(Dir(v), n);
    }
    hide ExtentOf;
    SettledLive(w);
  }

  lemma SettledLive(w: FsView)
    requires forall n | n in w.files :: n in w.names.Values || n in w.refs
    requires forall n | n in w.maps :: n == ROOT_LOCATION || n in w.names.Values || n in w.refs
    ensures Settled(w) == w
  {
    assert Settled(w).files == w.files && Settled(w).maps == w.maps;
  }

  /** Erasing the one file that is no longer live. */
  lemma SettledDrop(w: FsView, w': FsView, n: nat)
    requires w' == w.(files := w.files - {n}, maps := w.maps - {n}) && n !in w.names.Values && n !in w.refs
    requires Settled(w') == w' && n != ROOT_LOCATION
    ensures Settled(w) == w'
  {
    var s := Settled(w);
    assert Settled(w').files == w'.files && Settled(w').maps == w'.maps;
    forall m ensures (m in s.files <==> m in w'.files) && (m in s.files ==> s.files[m] == w'.files[m]) {
      if m in w'.files {
        assert m in Settled(w').files;
      }
    }
    forall m ensures (m in s.maps <==> m in w'.maps) && (m in s.maps ==> s.maps[m] == w'.maps[m]) {
      if m in w'.maps {
        assert m in Settled(w').maps;
      }
    }
    assert s.files == w'.files && s.maps == w'.maps;
  }

  lemma EraseView(v: Volume, vs: seq<Vnode>, v': Volume, vs': seq<Vnode>, n: nat)
    requires Tree(v, LoadedInos(vs)) && n in v.inodes && v.inodes[n].linkcount == 0 && n != ROOT_LOCATION
    requires Tree(v', LoadedInos(vs')) && Dir(v') == Dir(v) && Files(v') == Files(v) - {n} && n !in LoadedInos(vs')
    requires Maps(v') == Maps(v) - {n}
    ensures ViewOf(v', vs') == Settled(ViewOf(v, vs).(refs := Refs(vs')))
  {
    assert InodeOk(Dir(v), v.inodes[n], n, LoadedInos(vs));
    LinkNamed(Dir(v), n);
    SettledSame(v', vs');
    hide Files, Names, Dir, Settled, Maps;
    SettledDrop(ViewOf(v, vs).(refs := Refs(vs')), ViewOf(v', vs'), n);
  }

  lemma TypeFacts(v: Volume, loaded: set<nat>, n: nat)
    requires Tree(v, loaded) && n in v.inodes
    ensures v.inodes[n].typ == if n == ROOT_LOCATION then TYPE_DIR else TYPE_FILE
  {
    assert InodeOk(Dir(v), v.inodes[n], n, loaded);
  }

  lemma OnlySame(vs: seq<Vnode>, k: nat)
    ensures OnlyVnode(vs, vs, k)
  {
  }

  lemma DistinctTable(v: Volume, vs: seq<Vnode>, marked: set<nat>)
    requires Coherent(v, vs, marked, {})
    ensures Distinct(vs)
  {
  }

  lemma RefsLoaded(vs: seq<Vnode>)
    ensures Refs(vs).Keys == LoadedInos(vs)
  {
  }

  lemma HeldView(v: Volume, vs: seq<Vnode>, vs': seq<Vnode>, marked: set<nat>, n: nat, k: nat)
    requires Coherent(v, vs, marked, {}) && Tree(v, LoadedInos(vs))
    requires n in LoadedInos(vs) ==>
               k < |vs| && vs[k].ino == n && vs' == vs[k := vs[k].(refcount := vs[k].refcount + 1)]
    requires n !in LoadedInos(vs) ==>
               k == |vs| < |vs'| && vs' == vs + [vs'[k]] && vs'[k].ino == n && vs'[k].refcount == 1
    ensures Tree(v, LoadedInos(vs')) && Refs(vs') == Held(Refs(vs), n)
  {
    hide Coherent, Tree, Refs, Distinct, LoadedInos, SameFiles;
    DistinctTable(v, vs, marked);
    if n in LoadedInos(vs) {
      RefsSet(vs, k, vs'[k]);
      RefsAt(vs, k);
      LoadedSame(vs, vs');
    } else {
      RefsAppend(vs, vs'[k]);
      LoadedAppend(vs, vs'[k]);
    }
    RefsLoaded(vs);
    SameFilesSame(v);
    TreeSame(v, v, LoadedInos(vs), LoadedInos(vs'));
  }

  lemma OnlyRefs(vs: seq<Vnode>, vs': seq<Vnode>, k: nat)
    requires Distinct(vs) && OnlyVnode(vs, vs', k)
    ensures Refs(vs') == Refs(vs) && LoadedInos(vs') == LoadedInos(vs)
  {
    LoadedSame(vs, vs');
    RefsSame(vs, vs');
  }

  /** vnode_decref, with sfs_reclaim at the last reference. */
  lemma DroppedView(v: Volume, vs: seq<Vnode>, v': Volume, vs': seq<Vnode>, marked: set<nat>, n: nat, k: nat)
    requires Coherent(v, vs, marked, {}) && Tree(v, LoadedInos(vs)) && k < |vs| && vs[k].ino == n
    requires vs[k].refcount != 1 ==> v' == v && vs' == vs[k := vs[k].(refcount := vs[k].refcount - 1)]
    requires vs[k].refcount == 1 ==>
               && vs' == Without(vs, k) && (vs[k].inode.linkcount > 0 ==> SameFiles(v, v'))
               && (vs[k].inode.linkcount == 0 ==> SameBut(v, v', n) && n !in v'.inodes)
    ensures Tree(v', LoadedInos(vs')) && n in Refs(vs)
    ensures ViewOf(v', vs') == Settled(ViewOf(v, vs).(refs := Dropped(Refs(vs), n)))
  {
    hide Coherent, Shaped, Owned, Tree, ViewOf, Settled, SameFiles, SameBut, Distinct, Refs, Without, LoadedInos,
         Grew, Maps;
    VnodeFacts(v, vs, marked, {}, k);
    TableFacts(v, vs, marked, {}, k);
    RefsAt(vs, k);
    if vs[k].refcount != 1 {
      RefsSet(vs, k, vs'[k]);
      LoadedSame(vs, vs');
      SettledView(v, vs, v', vs');
    } else {
      RefsWithout(vs, k);
      LoadedWithout(vs, k);
      if vs[k].inode.linkcount > 0 {
        TreeSame(v, v', LoadedInos(vs), LoadedInos(vs'));
        MapsSame(v, v');
        SettledView(v, vs, v', vs');
      } else {
        TreeErase(v, v', n, LoadedInos(vs));
        MapsDrop(v, v', n);
        EraseView(v, vs, v', vs', n);
      }
    }
  }

  lemma SettledView(v: Volume, vs: seq<Vnode>, v': Volume, vs': seq<Vnode>)
    requires Tree(v, LoadedInos(vs)) && Tree(v', LoadedInos(vs')) && Dir(v') == Dir(v) && Files(v') == Files(v)
    requires Maps(v') == Maps(v)
    ensures ViewOf(v', vs') == Settled(ViewOf(v, vs).(refs := Refs(vs')))
  {
    hide Names, Files, Settled, Refs, LinksOk, Maps;
    SettledSame(v', vs');
  }

  /** A link count is nowhere near its limit. */
  lemma LinkRoom(v: Volume, loaded: set<nat>, n: nat)
    requires Tree(v, loaded) && n in v.inodes
    ensures v.inodes[n].linkcount <= MAXSLOTS + 1
  {
    assert InodeOk(Dir(v), v.inodes[n], n, loaded);
    LinksBound(Dir(v), n);
  }

  lemma NamedLive(v: Volume, loaded: set<nat>, slot: nat)
    requires Tree(v, loaded) && slot < |Dir(v)| && Used(Dir(v)[slot])
    ensures Dir(v)[slot].ino in v.inodes && v.inodes[Dir(v)[slot].ino].linkcount > 0
  {
    NamedHasLink(Dir(v), slot);
    var n := Dir(v)[slot].ino;
    assert InodeOk(Dir(v), v.inodes[n], n, loaded);
  }

  /** A new file as it enters the table. */
  lemma MadeView(v: Volume, vs: seq<Vnode>, v': Volume, vs': seq<Vnode>, marked: set<nat>, x: Vnode)
    requires Coherent(v, vs, marked, {}) && Tree(v, LoadedInos(vs)) && vs' == vs + [x] && x.refcount == 1
    requires x.ino !in v.inodes && x.ino !in LoadedInos(vs) && x.ino in v'.inodes
    requires v'.inodes[x.ino] == x.inode && x.ino != NOINO
    requires SameBut(v, v', x.ino) && NoBlocks(x.inode) && x.inode.size == 0 && x.inode.typ == TYPE_FILE
    requires x.inode.linkcount == 0
    ensures Tree(v', LoadedInos(vs')) && x.ino !in Files(v) && x.ino !in Refs(vs) && x.ino !in Names(Dir(v)).Values
    ensures ViewOf(v', vs') ==
              ViewOf(v, vs).(files := Files(v)[x.ino := []], refs := Refs(vs)[x.ino := 1],
                             maps := Maps(v)[x.ino := Extent({}, false)])
  {
    MapsPut(v, v', x.ino);
    EmptyExtent(v', x.ino);
    DistinctTable(v, vs, marked);
    NotNamed(v, LoadedInos(vs), x.ino);
    EmptyFile(v', x.ino);
    RefsAppend(vs, x);
    LoadedAppend(vs, x);
    hide Coherent, Shaped, Owned, Tree, Names, SameBut, Distinct, Contents, ZeroTail, Maps, ExtentOf;
    TreeAdd(v, v', x.ino, LoadedInos(vs), LoadedInos(vs'));
  }

  lemma EmptyExtent(v: Volume, n: nat)
    requires n in v.inodes && NoBlocks(v.inodes[n])
    ensures ExtentOf(v, n) == Extent({}, false)
  {
    assert forall g: nat | g < MAXBLOCKS :: Mapped(v, n, g) == 0;
  }

  lemma NotNamed(v: Volume, loaded: set<nat>, n: nat)
    requires Tree(v, loaded) && n !in v.inodes
    ensures n !in Names(Dir(v)).Values
  {
    var d := Dir(v);
    hide Names;
    forall x | x in Names(d) ensures Names(d)[x] in v.inodes {
      var k := SlotOfName(d, x);
    }
  }

  /** Undoing the creation of a file that got no name. */
  lemma Unmade(w: FsView, n: nat)
    requires n !in w.files && n !in w.refs && n !in w.names.Values && n !in w.maps && n != ROOT_LOCATION
    requires Settled(w) == w
    ensures var w1 := w.(files := w.files[n := []], refs := w.refs[n := 1], maps := w.maps[n := Extent({}, false)]);
            Settled(w1.(refs := Dropped(w1.refs, n))) == w
  {
    var w1 := w.(files := w.files[n := []], refs := w.refs[n := 1], maps := w.maps[n := Extent({}, false)]);
    assert Dropped(w1.refs, n) == w.refs;
    var w2 := w1.(refs := w.refs);
    assert w == w2.(files := w2.files - {n}, maps := w2.maps - {n});
    SettledDrop(w2, w, n);
  }

  /** After a rename every file is still live. */
  lemma RenamedSettled(w: FsView, w3: FsView, n1: Name, n2: Name, g: nat)
    requires n1 in w.names && w.names[n1] == g && n2 !in w.names && Settled(w3) == w3
    requires w3.names == w.names[n2 := g] - {n1} && w3.refs == Held(w.refs, g)
    ensures Settled(w3.(refs := w.refs)) == w3.(refs := w.refs)
  {
    assert n2 in w3.names && w3.names[n2] == g;
    forall m | m in w3.files ensures m in w3.names.Values || m in w.refs {
      assert m in Settled(w3).files;
    }
    forall m | m in w3.maps ensures m == ROOT_LOCATION || m in w3.names.Values || m in w.refs {
      assert m in Settled(w3).maps;
    }
    SettledLive(w3.(refs := w.refs));
  }

  lemma NotZero(v: Volume, vs: seq<Vnode>, marked: set<nat>, n: nat)
    requires Coherent(v, vs, marked, {}) && n in v.inodes
    ensures n != NOINO && n < 0x1_0000_0000
  {
    assert Refers(v, Super, 0) && Refers(v, Ino(n), n);
  }

  lemma LiveBlock(v: Volume, vs: seq<Vnode>, marked: set<nat>, n: nat)
    requires Coherent(v, vs, marked, {}) && n in v.inodes
    ensures n in v.owner && n < v.nblocks
  {
    InodeInUse(v, n);
  }

  lemma LoadedFacts(v: Volume, vs: seq<Vnode>, marked: set<nat>, n: nat)
    requires Coherent(v, vs, marked, {}) && n in LoadedInos(vs)
    ensures n in v.inodes && n != NOINO && n < 0x1_0000_0000
  {
    assert Holds(v, vs[IndexOf(vs, n)]);
    NotZero(v, vs, marked, n);
  }

  lemma SlotCounts(v: Volume, v': Volume, k: nat, b: seq<byte>, n: nat)
    requires SlotWritten(v, v', k, b) && n in v.inodes
    ensures n in v'.inodes && v'.inodes[n].linkcount == v.inodes[n].linkcount
  {
  }

  /** When a name can be added. */
  ghost predicate LinkResult(w: FsView, name: Name, result: Errno) {
    && (result == EEXIST <==> name in w.names)
    && (result == ENAMETOOLONG <==> name !in w.names && |name| + 1 > NAMELEN)
    && result in {OK, EEXIST, ENAMETOOLONG, ENOSPC, EFBIG}
  }

  /** Where a new entry goes: to a free slot if there is one, otherwise to a new one at the end. */
  ghost predicate NewSlot(w: FsView, slot: nat) {
    if |w.names| < w.slots then slot < w.slots else slot == w.slots
  }

  /** What adding a name for n does, at a certain slot. The directory grows only if it has no free
      slot. It fails for want of space only if the block of the slot is not there, and for size
      exactly if all of the largest possible directory is taken. */
  ghost predicate Named(w: FsView, w': FsView, name: Name, n: nat, slot: nat, result: Errno) {
    && ROOT_LOCATION in w.maps && ROOT_LOCATION in w'.maps && LinkResult(w, name, result)
    && (result == EEXIST || result == ENAMETOOLONG || NewSlot(w, slot))
    && var e, e' := w.maps[ROOT_LOCATION], w'.maps[ROOT_LOCATION];
       && (result == OK ==>
             && slot < MAXSLOTS && Filled(e, e', 64 * slot, 64, true)
             && w' == w.(names := w.names[name := n], slots := Max(w.slots, slot + 1),
                         maps := w.maps[ROOT_LOCATION := e']))
       && (result != OK ==> w' == w.(maps := w.maps[ROOT_LOCATION := e']))
       && (result == ENOSPC || result == EFBIG ==> Filled(e, e', 64 * slot, 0, false))
       && (result == ENOSPC ==> slot < MAXSLOTS && slot / 8 !in e'.blocks)
       && (result == EFBIG ==> slot >= MAXSLOTS) && (result == EEXIST || result == ENAMETOOLONG ==> w' == w)
  }

  /** w with a new empty file that has one reference and no name. */
  ghost function WithFile(w: FsView, n: nat): FsView {
    w.(files := w.files[n := []], refs := w.refs[n := 1], maps := w.maps[n := Extent({}, false)])
  }

  /** Creating a file is making one and naming it; `free` are the blocks that are free afterwards. On
      a full disk there is none for the inode. A file that cannot be named gives it back. */
  ghost predicate Created(w: FsView, w': FsView, name: Name, n: nat, slot: nat, result: Errno, free: set<nat>) {
    if result == OK then n !in w.files && n !in w.refs && n !in w.maps && Named(WithFile(w, n), w', name, n, slot, OK)
    else
      || (result == ENOSPC && w' == w && free == {})
      || (Named(w, w', name, n, slot, result) && n in free && (result == ENOSPC ==> free == {n}))
  }

  /** Renaming is adding the new name for file n and removing the old one. */
  ghost predicate Renamed(w: FsView, w': FsView, from: Name, to: Name, n: nat, slot: nat, result: Errno) {
    if result == OK then
      w'.names == w.names[to := n] - {from} && Named(w, w'.(names := w.names[to := n]), to, n, slot, OK)
    else Named(w, w', to, n, slot, result)
  }

  /** References do not matter to where a name goes. */
  lemma NamedRefs(w: FsView, w': FsView, name: Name, n: nat, slot: nat, result: Errno, refs: map<nat, nat>)
    requires Named(w, w', name, n, slot, result)
    ensures Named(w.(refs := refs), w'.(refs := refs), name, n, slot, result)
  {
  }

  lemma NamedKeeps(w: FsView, w': FsView, name: Name, n: nat, slot: nat, result: Errno)
    requires Named(w, w', name, n, slot, result)
    ensures w'.refs == w.refs && w'.files == w.files
  {
  }

  /** A file that could not be named goes again. */
  lemma Uncreated(w: FsView, w2: FsView, name: Name, n: nat, slot: nat, result: Errno)
    requires n !in w.files && n !in w.refs && n !in w.names.Values && n !in w.maps && n != ROOT_LOCATION
    requires Settled(w) == w && result != OK && Named(WithFile(w, n), w2, name, n, slot, result)
    ensures n in w2.refs
    ensures Named(w, Settled(w2.(refs := Dropped(w2.refs, n))), name, n, slot, result)
  {
    hide Settled, Filled;
    var e' := w2.maps[ROOT_LOCATION];
    var w1 := w.(maps := w.maps[ROOT_LOCATION := e']);
    SettledMap(w, e');
    Unmade(w1, n);
    assert w2 == WithFile(w1, n) by {
      assert w.maps[n := Extent({}, false)][ROOT_LOCATION := e'] == w.maps[ROOT_LOCATION := e'][n := Extent({}, false)];
    }
    SameNaming(w, w1, w2, name, n, slot, result);
  }

  lemma SettledMap(w: FsView, e: Extent)
    requires Settled(w) == w && ROOT_LOCATION in w.maps
    ensures Settled(w.(maps := w.maps[ROOT_LOCATION := e])) == w.(maps := w.maps[ROOT_LOCATION := e])
  {
    forall n | n in w.files ensures n in w.names.Values || n in w.refs {
      assert n in Settled(w).files;
    }
    forall n | n in w.maps ensures n == ROOT_LOCATION || n in w.names.Values || n in w.refs {
      assert n in Settled(w).maps;
    }
    hide Settled;
    SettledLive(w.(maps := w.maps[ROOT_LOCATION := e]));
  }

  lemma SameNaming(w: FsView, w1: FsView, w2: FsView, name: Name, n: nat, slot: nat, result: Errno)
    requires n !in w.maps && n != ROOT_LOCATION && result != OK
    requires Named(WithFile(w, n), w2, name, n, slot, result)
    requires w1 == w.(maps := w.maps[ROOT_LOCATION := w2.maps[ROOT_LOCATION]])
    ensures Named(w, w1, name, n, slot, result)
  {
    hide Filled;
    if result == EEXIST || result == ENAMETOOLONG {
      assert w.maps[ROOT_LOCATION := w.maps[ROOT_LOCATION]] == w.maps;
    }
  }

  /** The slot sfs_dir_link takes: the last free one, or the end. */
  ghost predicate Chosen(d: seq<Slot>, slot: nat) {
    || (slot < |d| && IsLastFree(d, |d|, slot))
    || (slot == |d| && IsLastFree(d, |d|, -1))
  }

  lemma ChosenIsNew(v: Volume, vs: seq<Vnode>, slot: nat)
    requires Tree(v, LoadedInos(vs)) && Chosen(Dir(v), slot)
    ensures NewSlot(ViewOf(v, vs), slot)
  {
    hide Names, Dir, Maps, Files, Refs;
    TreeFacts(v, LoadedInos(vs));
    FullExactly(Dir(v));
  }

  lemma NamedIs(v: Volume, vs: seq<Vnode>, v': Volume, vs': seq<Vnode>, name: Name, n: nat, slot: nat, e': Extent)
    requires ROOT_LOCATION in v.inodes && ROOT_LOCATION in v'.inodes && slot <= |Dir(v)| && slot < MAXSLOTS
    requires Dir(v') == Put(Dir(v), slot, Slot(n, name)) && Names(Dir(v')) == Names(Dir(v))[name := n]
    requires Files(v') == Files(v) && Refs(vs') == Refs(vs) && Maps(v') == Maps(v)[ROOT_LOCATION := e']
    requires name !in Names(Dir(v)) && |name| < NAMELEN && NewSlot(ViewOf(v, vs), slot)
    requires Filled(ExtentOf(v, ROOT_LOCATION), e', slot * 64, 64, true)
    ensures Named(ViewOf(v, vs), ViewOf(v', vs'), name, n, slot, OK)
  {
    hide Dir, Names, Files, Refs, Maps, Filled, NewSlot, ExtentOf;
    MapsAt(v, ROOT_LOCATION);
    assert 64 * slot == slot * 64;
  }

  lemma NamedNot(v: Volume, vs: seq<Vnode>, v': Volume, vs': seq<Vnode>, name: Name, n: nat, slot: nat, result: Errno)
    requires Tree(v, LoadedInos(vs)) && SameTree(v, v') && Dir(v') == Dir(v) && Files(v') == Files(v)
    requires Refs(vs') == Refs(vs)
    requires LinkResult(ViewOf(v, vs), name, result) && result != OK
    requires result == EEXIST || result == ENAMETOOLONG || NewSlot(ViewOf(v, vs), slot)
    requires result == EEXIST || result == ENAMETOOLONG ==> v' == v
    requires result == ENOSPC ==> slot < MAXSLOTS && slot / 8 !in ExtentOf(v', ROOT_LOCATION).blocks
    requires result == EFBIG ==> slot >= MAXSLOTS
    requires result == ENOSPC || result == EFBIG ==>
               Filled(ExtentOf(v, ROOT_LOCATION), ExtentOf(v', ROOT_LOCATION), slot * 64, 0, false)
    ensures Named(ViewOf(v, vs), ViewOf(v', vs'), name, n, slot, result)
  {
    hide Tree, SameTree, Dir, Names, Files, Refs, Maps, NewSlot, ExtentOf, Filled, LinkResult;
    TreeFacts(v, LoadedInos(vs));
    KeptMaps(v, v');
    MapsAt(v, ROOT_LOCATION);
    MapsAgain(v);
    assert 64 * slot == slot * 64;
  }

  /** Rewriting an entry in use needs no block. */
  lemma Rewrote(v: Volume, v': Volume, slot: nat)
    requires ROOT_LOCATION in v.inodes && slot < |Dir(v)| <= MAXSLOTS && Used(Dir(v)[slot])
    requires Filled(ExtentOf(v, ROOT_LOCATION), ExtentOf(v', ROOT_LOCATION), slot * 64, 64, true)
    ensures ExtentOf(v', ROOT_LOCATION) == ExtentOf(v, ROOT_LOCATION)
  {
    var e, e', b := ExtentOf(v, ROOT_LOCATION), ExtentOf(v', ROOT_LOCATION), slot / 8;
    if Mapped(v, ROOT_LOCATION, 64 * slot / 512) == 0 {
      UnmappedSlot(v, slot);
    }
    assert 64 * slot / 512 == b && b in e.blocks;
    forall g | g in Spread(slot * 64, 64) ensures g == b {
    }
    assert e'.blocks == e.blocks;
    assert slot * 64 + 64 > NDIRECT * 512 ==> b >= NDIRECT;
  }

  lemma SlotMaps(v: Volume, v': Volume, k: nat, b: seq<byte>)
    requires SlotWritten(v, v', k, b) && ROOT_LOCATION in v.inodes
    ensures Maps(v') == Maps(v)[ROOT_LOCATION := ExtentOf(v', ROOT_LOCATION)]
  {
    hide ExtentOf, FileBlock, Contents, ZeroTail, Grown;
    var x, y := Maps(v'), Maps(v)[ROOT_LOCATION := ExtentOf(v', ROOT_LOCATION)];
    forall m ensures (m in x <==> m in y) && (m in x ==> x[m] == y[m]) {
    }
  }

  lemma MapsAgain(v: Volume)
    requires ROOT_LOCATION in v.inodes
    ensures Maps(v)[ROOT_LOCATION := ExtentOf(v, ROOT_LOCATION)] == Maps(v) && ROOT_LOCATION in Maps(v)
    ensures Maps(v)[ROOT_LOCATION] == ExtentOf(v, ROOT_LOCATION)
  {
  }

  lemma MapsAt(v: Volume, n: nat)
    requires n in v.inodes
    ensures n in Maps(v) && Maps(v)[n] == ExtentOf(v, n)
  {
  }

  lemma ChosenFree(d: seq<Slot>, slot: nat)
    requires Chosen(d, slot)
    ensures slot <= |d| && (slot < |d| ==> !Used(d[slot]))
  {
  }

  lemma KeptMaps(v: Volume, v': Volume)
    requires SameTree(v, v')
    ensures Maps(v') == Maps(v)[ROOT_LOCATION := ExtentOf(v', ROOT_LOCATION)]
  {
    hide SameBut;
    MapsPut(v, v', ROOT_LOCATION);
  }

  lemma RefsPositive(v: Volume, vs: seq<Vnode>, marked: set<nat>)
    requires Coherent(v, vs, marked, {})
    ensures forall n | n in Refs(vs) :: Refs(vs)[n] > 0
  {
    forall n | n in Refs(vs) ensures Refs(vs)[n] > 0 {
      assert Holds(v, vs[IndexOf(vs, n)]);
    }
  }

  lemma PutOther(d: seq<Slot>, k: nat, x: Slot, j: nat)
    requires k <= |d| && (k < |d| ==> !Used(d[k])) && j < |d| && Used(d[j])
    ensures j < |Put(d, k, x)| && Put(d, k, x)[j] == d[j]
  {
  }

  lemma FileFacts(v: Volume, loaded: set<nat>, n: nat)
    requires Tree(v, loaded) && n in v.inodes && n != ROOT_LOCATION
    ensures n in Files(v) && Files(v)[n] == Contents(v, n) && ZeroTail(v, n) && ROOT_LOCATION in v.inodes
  {
  }

  lemma WrittenView(v: Volume, v': Volume, n: nat, off: nat, data: seq<byte>, loaded: set<nat>)
    requires Tree(v, loaded) && FileWritten(v, v', n, off, data) && n != ROOT_LOCATION
    ensures Tree(v', loaded) && Dir(v') == Dir(v) && Files(v') == Files(v)[n := WriteAt(Files(v)[n], off, data)]
    ensures Maps(v') == Maps(v)[n := ExtentOf(v', n)]
  {
    hide Contents, ZeroTail, LinksOk, FileBlock, Slots, ExtentOf, Maps;
    FileFacts(v, loaded, n);
    assert SameBut(v, v', n);
    TreeFile(v, v', n, loaded);
    MapsPut(v, v', n);
  }

  // --- The disk on its own --------------------------------------------------------

  /** The bytes of the free map as recorded on the disk. */
  ghost function MapBytes(disk: seq<Block>, count: nat): seq<byte> {
    if count == 0 || MAP_LOCATION + count > |disk| then []
    else MapBytes(disk, count - 1) + disk[MAP_LOCATION + count - 1]
  }

  /** The blocks the disk says are in use. */
  ghost function Recorded(v: Volume): set<nat> {
    Indices(MapBytes(v.disk, BitBlocks(v.nblocks)), 4096 * BitBlocks(v.nblocks))
  }

  /** The disk holds the whole of a well-formed filesystem that nobody is using. */
  ghost predicate Image(v: Volume) {
    && Shaped(v) && Owned(v) && Cached(v, []) && Tree(v, {})
    && SystemBlocks(v.disk, v.nblocks, true, []) && Recorded(v) == MapBits(v)
  }

  lemma {:induction false} MapBytesAre(disk: seq<Block>, count: nat, bits: seq<byte>)
    requires MapOnDisk(disk, count, bits)
    ensures MapBytes(disk, count) == bits[..512 * count]
  {
    if count > 0 {
      MapBytesAre(disk, count - 1, bits);
      assert MapBlock(disk, bits, count - 1);
    }
  }

  lemma ImageOf(v: Volume, bits: seq<byte>, marked: set<nat>)
    requires Coherent(v, [], marked, {}) && Tree(v, LoadedInos([])) && SystemBlocks(v.disk, v.nblocks, false, bits)
    requires |bits| == 512 * BitBlocks(v.nblocks) && marked == Indices(bits, 4096 * BitBlocks(v.nblocks))
    ensures Image(v) && Recorded(v) == marked == MapBits(v)
  {
    MapBytesAre(v.disk, BitBlocks(v.nblocks), bits);
    assert bits[..512 * BitBlocks(v.nblocks)] == bits;
    assert LoadedInos([]) == {};
  }

  lemma SameFilesTrans(v: Volume, v1: Volume, v2: Volume)
    requires SameFiles(v, v1) && SameFiles(v1, v2)
    ensures SameFiles(v, v2)
  {
  }

  lemma SystemClean(disk: seq<Block>, nblocks: nat, bits: seq<byte>)
    requires SystemBlocks(disk, nblocks, true, bits) && MapOnDisk(disk, BitBlocks(nblocks), bits)
    ensures SystemBlocks(disk, nblocks, false, bits)
  {
  }

  lemma MapRoom(v: Volume, vs: seq<Vnode>, marked: set<nat>)
    requires Coherent(v, vs, marked, {})
    ensures MAP_LOCATION + BitBlocks(v.nblocks) <= |v.disk|
  {
    assert Refers(v, Super, 0);
    assert Refers(v, FreeMap(BitBlocks(v.nblocks) - 1), MAP_LOCATION + BitBlocks(v.nblocks) - 1);
  }

  lemma MapBlockWritten(v: Volume, vs: seq<Vnode>, marked: set<nat>, j: nat, bits: seq<byte>, dirty: bool)
    requires Coherent(v, vs, marked, {}) && j < BitBlocks(v.nblocks) && |bits| == 512 * BitBlocks(v.nblocks)
    requires SystemBlocks(v.disk, v.nblocks, dirty, bits) && dirty && MAP_LOCATION + j < |v.disk|
    ensures var v' := v.(disk := v.disk[MAP_LOCATION + j := bits[512 * j..512 * j + 512]]);
            && Coherent(v', vs, marked, {}) && SameFiles(v, v') && SystemBlocks(v'.disk, v.nblocks, dirty, bits)
            && MapBlock(v'.disk, bits, j)
            && forall i: nat | i < j && MapBlock(v.disk, bits, i) :: MapBlock(v'.disk, bits, i)
  {
    var b := MAP_LOCATION + j;
    assert Refers(v, FreeMap(j), b);
    NotAnInode(v, b);
    WriteOther(v, b, bits[512 * j..512 * j + 512]);
    CachedWrite(v, vs, b, bits[512 * j..512 * j + 512]);
    MapBitsOwner(v, v.(disk := v.disk[b := bits[512 * j..512 * j + 512]]));
  }

  /** SFS_FS_BITBLOCKS, in 32-bit arithmetic. */
  function MapSize(nblocks: word): nat {
    (nblocks + 4095) % 0x1_0000_0000 / 4096
  }

  /** A device that ends before its superblock, or before the free map that its superblock
      promises. */
  predicate TooShort(dev: seq<Block>) {
    || |dev| <= SB_LOCATION
    || (WordAt(dev[SB_LOCATION], 0) == SFS_MAGIC && |dev| < MAP_LOCATION + MapSize(WordAt(dev[SB_LOCATION], 1)))
  }

  predicate Mountable(dev: seq<Block>) {
    && SB_LOCATION < |dev| && WordAt(dev[SB_LOCATION], 0) == SFS_MAGIC
    && MAP_LOCATION + MapSize(WordAt(dev[SB_LOCATION], 1)) <= |dev|
  }

  lemma MapBlockRead(disk: seq<Block>, was: seq<byte>, bits: seq<byte>, j: nat)
    requires |bits| == |was| && 512 * j + 512 <= |bits| && MAP_LOCATION + j < |disk| && |disk[MAP_LOCATION + j]| == 512
    requires forall i | 0 <= i < |bits| ::
               bits[i] == if 512 * j <= i < 512 * j + 512 then disk[MAP_LOCATION + j][i - 512 * j] else was[i]
    requires forall i: nat | i < j :: MapBlock(disk, was, i)
    ensures forall i: nat | i < j + 1 :: MapBlock(disk, bits, i)
  {
    forall i: nat | i < j + 1 ensures MapBlock(disk, bits, i) {
      if i < j {
        assert MapBlock(disk, was, i);
        assert bits[512 * i..512 * i + 512] == was[512 * i..512 * i + 512];
      } else {
        assert bits[512 * i..512 * i + 512] == disk[MAP_LOCATION + i];
      }
    }
  }

  lemma ImageMountable(v: Volume)
    requires Image(v)
    ensures Mountable(v.disk) && MapSize(WordAt(v.disk[SB_LOCATION], 1)) == BitBlocks(v.nblocks)
    ensures forall b | 0 <= b < |v.disk| :: |v.disk[b]| == BLOCKSIZE
  {
    hide Image, Coherent, Tree, SystemBlocks, Owned;
    ImageFacts(v);
    SuperIs(v.disk, v.nblocks);
    MapSizeIs(v.nblocks);
    MapRoom(v, [], MapBits(v));
  }

  lemma SuperIs(disk: seq<Block>, nblocks: nat)
    requires SystemBlocks(disk, nblocks, true, [])
    ensures 0 < |disk| && WordAt(disk[SB_LOCATION], 0) == SFS_MAGIC && WordAt(disk[SB_LOCATION], 1) == nblocks
  {
  }

  lemma MapSizeIs(nblocks: word)
    requires nblocks < 0x80_0000
    ensures MapSize(nblocks) == BitBlocks(nblocks)
  {
  }

  lemma ImageFacts(v: Volume)
    requires Image(v)
    ensures Coherent(v, [], MapBits(v), {}) && Tree(v, {}) && SystemBlocks(v.disk, v.nblocks, true, [])
    ensures Shaped(v) && Owned(v) && ROOT_LOCATION in v.inodes
    ensures v.nblocks == WordAt(v.disk[SB_LOCATION], 1) < 0x80_0000
  {
    hide LinksOk, Owned, Cached;
    assert MapBits(v) + {} == MapBits(v) && {} !! MapBits(v);
  }

  /** The state sfs_domount builds from an image is that filesystem, unused. */
  lemma ImageMounted(v: Volume, bits: seq<byte>, marked: set<nat>)
    requires Image(v) && |bits| == 512 * BitBlocks(v.nblocks) && MapOnDisk(v.disk, BitBlocks(v.nblocks), bits)
    requires marked == Indices(bits, 4096 * BitBlocks(v.nblocks))
    ensures Coherent(v, [], marked, {}) && Tree(v, LoadedInos([])) && SystemBlocks(v.disk, v.nblocks, false, bits)
  {
    MapBytesAre(v.disk, BitBlocks(v.nblocks), bits);
    assert bits[..512 * BitBlocks(v.nblocks)] == bits;
    assert LoadedInos([]) == {};
  }

  /** A disk holds at most one filesystem. */
  lemma ImageUnique(v: Volume, w: Volume)
    requires Image(v) && Image(w) && v.disk == w.disk
    ensures v == w
  {
    hide Image, Coherent, Tree, SystemBlocks, Owned, Shaped, Dir, Links, DecodeInode;
    ImageFacts(v);
    ImageFacts(w);
    ImageInode(v, ROOT_LOCATION);
    ImageInode(w, ROOT_LOCATION);
    SameRoot(v, w);
    forall n ensures n in v.inodes <==> n in w.inodes {
      InodeNamedOnly(v, n);
      InodeNamedOnly(w, n);
    }
    forall n | n in v.inodes ensures v.inodes[n] == w.inodes[n] {
      ImageInode(v, n);
      ImageInode(w, n);
    }
    assert v.inodes == w.inodes;
    OwnerUnique(v, w);
  }

  lemma ImageInode(v: Volume, n: nat)
    requires Image(v) && n in v.inodes
    ensures Shaped(v) && v.inodes[n] == OnDisk(v, n)
  {
    assert LoadedInos([]) == {};
  }

  lemma SameRoot(v: Volume, w: Volume)
    requires ROOT_LOCATION in v.inodes && ROOT_LOCATION in w.inodes
    requires v.inodes[ROOT_LOCATION] == w.inodes[ROOT_LOCATION]
    requires v.disk == w.disk
    ensures Dir(v) == Dir(w)
  {
    assert forall p: nat :: FileByte(v, ROOT_LOCATION, p) == FileByte(w, ROOT_LOCATION, p);
    assert Contents(v, ROOT_LOCATION) == Contents(w, ROOT_LOCATION);
  }

  /** With nothing in use, the inodes are the root and those with a name. */
  lemma InodeNamedOnly(v: Volume, n: nat)
    requires Tree(v, {})
    ensures n in v.inodes <==> n == ROOT_LOCATION || (n != NOINO && Links(Dir(v), n) > 0)
  {
    var d := Dir(v);
    assert n in v.inodes ==> InodeOk(d, v.inodes[n], n, {});
    assert n != NOINO && n !in v.inodes ==> Naming(d, n) == {};
  }

  lemma OwnerUnique(v: Volume, w: Volume)
    requires Owned(v) && Owned(w) && v.nblocks == w.nblocks && v.disk == w.disk && v.inodes == w.inodes
    ensures v.owner == w.owner
  {
    assert forall m: nat, g: nat :: Mapped(v, m, g) == Mapped(w, m, g);
    assert forall r, b: nat :: Refers(v, r, b) == Refers(w, r, b);
    forall b | b in v.owner ensures b in w.owner && w.owner[b] == v.owner[b] {
      assert Refers(w, v.owner[b], b);
    }
    forall b | b in w.owner ensures b in v.owner {
      assert Refers(v, w.owner[b], b);
    }
  }
}
