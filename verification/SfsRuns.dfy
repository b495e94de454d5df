/** Whole runs of the filesystem: every sequence of operations does, step by step, what
    the same sequence does to a map of names, the contents of files and the counts of
    their references. Runs include reclaiming and reloading the root directory, unmounting
    and mounting again.
  */
module SfsRuns {
  import opened Bytes
  import opened Errno
  import opened Uios
  import opened SfsLayout
  import opened SfsVolume
  import opened SfsTable
  import opened SfsDir
  import opened SfsView
  import opened Sfs
  import opened SfsFresh
  import opened SfsSpace

  /** What a user of the filesystem can ask for. Vnodes are named by inode number; `dir` is
      the one whose operation is called. */
  datatype Op =
    | GetRoot
    | Lookup(dir: nat, name: Name)
    | Creat(dir: nat, name: Name, excl: bool)
    | Link(dir: nat, name: Name, n: nat)
    | Remove(dir: nat, name: Name)
    | Rename(dir: nat, from: Name, to: Name)
    | Write(n: nat, off: nat, data: seq<byte>)
    | Read(n: nat, off: nat, len: nat)
    | Truncate(n: nat)
    | Drop(n: nat)
    | Sync
    | Remount

  /** The result, the file found or the number of bytes written, and the bytes read; or the
      kernel panics; or this is not a call anyone can make. */
  datatype Reply = Reply(result: Errno, n: nat, data: seq<byte>) | Panicked | NotACall

  /** The callers of a vnode's operations hold it. Names are C strings and sizes have 32
      bits. */
  predicate Makes(op: Op, held: set<nat>) {
    match op
    case Lookup(dir, name) => dir in held
    case Creat(dir, name, _) => dir in held && 0 !in name
    case Link(dir, name, n) => dir in held && n in held && 0 !in name
    case Remove(dir, name) => dir in held
    case Rename(dir, _, to) => dir in held && 0 !in to
    case Write(n, off, data) => n in held && off < SIZE_T && |data| < SIZE_T
    case Read(n, _, len) => n in held && len < SIZE_T
    case Truncate(n) => n in held
    case Drop(n) => n in held
    case _ => true
  }

  /** Operations on names, and operations on contents. */
  predicate OnNames(op: Op) {
    op.Lookup? || op.Creat? || op.Link? || op.Remove? || op.Rename?
  }

  predicate OnContents(op: Op) {
    op.Write? || op.Read? || op.Truncate?
  }

  /** The operations table of the vnode has an error in this place. */
  function Mismatch(op: Op): Errno {
    match op
    case Lookup(dir, _) => if dir == ROOT_LOCATION then OK else ENOTDIR
    case Creat(dir, _, _) => if dir == ROOT_LOCATION then OK else ENOTDIR
    case Link(dir, _, _) => if dir == ROOT_LOCATION then OK else ENOTDIR
    case Remove(dir, _) => if dir == ROOT_LOCATION then OK else ENOTDIR
    case Rename(dir, _, _) => if dir == ROOT_LOCATION then OK else ENOTDIR
    case Write(n, _, _) => if n == ROOT_LOCATION then EISDIR else OK
    case Read(n, _, _) => if n == ROOT_LOCATION then EISDIR else OK
    case Truncate(n) => if n == ROOT_LOCATION then EISDIR else OK
    case _ => OK
  }

  /** What is read of c by a request for len bytes at off. */
  function Piece(c: seq<byte>, off: nat, len: nat): seq<byte> {
    if off >= |c| then [] else c[off..Min(off + len, |c|)]
  }

  /** The abstract filesystem; `free` are the blocks that are free afterwards. A failure
      leaves it as it was, except that a write may have done a part. */
  ghost predicate Does(op: Op, w: FsView, w': FsView, r: Reply, free: set<nat>)
    requires r.Reply?
  {
    var full := free == {};
    match op
    case GetRoot => r.result == OK && w' == w.(refs := Held(w.refs, ROOT_LOCATION))
    case Lookup(_, name) =>
      if name in w.names then r.result == OK && r.n == w.names[name] && w' == w.(refs := Held(w.refs, r.n))
      else r.result == ENOENT && w' == w
    case Creat(_, name, excl) =>
      if name in w.names then
        if excl then r.result == EEXIST && w' == w
        else r.result == OK && r.n == w.names[name] && w' == w.(refs := Held(w.refs, r.n))
      else
        exists slot: nat :: Created(w, w', name, r.n, slot, r.result, free)
    case Link(_, name, n) =>
      (exists slot: nat :: Named(w, w', name, n, slot, r.result)) && (r.result == ENOSPC ==> full)
    case Remove(_, name) =>
      if name in w.names then r.result == OK && w' == Settled(w.(names := w.names - {name}))
      else r.result == ENOENT && w' == w
    case Rename(_, from, to) =>
      if from in w.names then
        && (exists slot: nat :: Renamed(w, w', from, to, w.names[from], slot, r.result))
        && (r.result == ENOSPC ==> full)
      else r.result == ENOENT && w' == w
    case Write(n, off, data) =>
      && r.n <= |data| && n in w.files && n in w.maps && n in w'.maps
      && Stops(w.maps[n], w'.maps[n], off, |data|, r.n, r.result, full)
      && w' == w.(files := w.files[n := WriteAt(w.files[n], off, data[..r.n])], maps := w.maps[n := w'.maps[n]])
    case Read(n, off, len) =>
      && w' == w && n in w.files
      && var c := w.files[n];
         if off < |c| && Beyond(off, |Piece(c, off, len)|) then
           r.result == EFBIG && r.data == c[off..Max(off, MAXFILE)]
         else r.result == OK && r.data == Piece(c, off, len)
    case Truncate(n) =>
      r.result == OK && w' == w.(files := w.files[n := []], maps := w.maps[n := Extent({}, false)])
    case Drop(n) => r.result == OK && n in w.refs && w' == Settled(w.(refs := Dropped(w.refs, n)))
    case Sync => r.result == OK && w' == w
    case Remount => r.result == (if w.refs == map[] then OK else EBUSY) && w' == w
  }

  /** sfs_rename panics when the old name leads to the root directory, and nothing else ever
      panics. */
  ghost predicate Panics(op: Op, w: FsView) {
    op.Rename? && op.dir == ROOT_LOCATION && op.from in w.names && w.names[op.from] == ROOT_LOCATION
  }

  /** One step of the abstract filesystem. A file is not a directory, and the directory cannot be
      read or written. */
  ghost predicate StepOf(op: Op, w: FsView, w': FsView, r: Reply, free: set<nat>) {
    if !Makes(op, w.refs.Keys) then r == NotACall && w' == w
    else if OnNames(op) && op.dir != ROOT_LOCATION then r.Reply? && r.result == ENOTDIR && w' == w
    else if OnContents(op) && op.n == ROOT_LOCATION then r.Reply? && r.result == EISDIR && w' == w
    else if Panics(op, w) then r == Panicked && w' == w.(refs := Held(w.refs, ROOT_LOCATION))
    else r.Reply? && Does(op, w, w', r, free)
  }

  lemma HeldKeys(fs: Sfs)
    requires fs.Valid()
    ensures fs.View().refs.Keys == LoadedInos(fs.vnodes)
    ensures fs.View().refs == map[] <==> |fs.vnodes| == 0
  {
    hide Sfs.Base, Tree;
    if |fs.vnodes| > 0 {
      assert fs.vnodes[0].ino in LoadedInos(fs.vnodes);
    }
  }

  method WriteBytes(fs: Sfs, n: nat, off: nat, data: seq<byte>) returns (r: Reply)
    requires fs.Valid() && n in LoadedInos(fs.vnodes) && n != ROOT_LOCATION && off < SIZE_T && |data| < SIZE_T
    modifies fs, fs.freemap.v
    ensures fs.Valid() && r.Reply? && Does(Write(n, off, data), old(fs.View()), fs.View(), r, fs.Free())
  {
    hide Sfs.Valid, Sfs.View, Uio.Valid, Settled, LoadedInos, WriteAt, Filled;
    var uio := new Uio(data, off, WRITE);
    var result := fs.WriteFile(n, uio);
    assert uio.flat[0..uio.pos] == data[..uio.pos];
    r := Reply(result, uio.offset - off, []);
  }

  method ReadBytes(fs: Sfs, n: nat, off: nat, len: nat) returns (r: Reply)
    requires fs.Valid() && n in LoadedInos(fs.vnodes) && n != ROOT_LOCATION && len < SIZE_T
    modifies fs, fs.freemap.v
    ensures fs.Valid() && r.Reply? && Does(Read(n, off, len), old(fs.View()), fs.View(), r, fs.Free())
  {
    hide Sfs.Valid, Sfs.View, Uio.Valid, Settled, LoadedInos;
    var uio := new Uio(seq(len, _ => 0), off, READ);
    var result := fs.ReadFile(n, uio);
    r := Reply(result, 0, uio.flat[..uio.offset - off]);
  }

  /** The operations of the root directory's vnode. */
  method InRoot(fs: Sfs, op: Op) returns (r: Reply)
    requires fs.Valid() && Makes(op, LoadedInos(fs.vnodes)) && Mismatch(op) == OK
    requires OnNames(op)
    modifies fs, fs.freemap.v
    ensures fs.Valid() && StepOf(op, old(fs.View()), fs.View(), r, fs.Free())
  {
    hide Sfs.Valid, Sfs.View, Settled, LoadedInos, Created, Named, Renamed;
    HeldKeys(fs);
    match op
    case Lookup(_, name) =>
      var result, n := fs.Lookup(name);
      r := Reply(result, n, []);
    case Creat(_, name, excl) =>
      var result, n;
      ghost var slot;
      result, n, slot := fs.Creat(name, excl);
      r := Reply(result, n, []);
    case Link(_, name, n) =>
      var result;
      ghost var slot;
      result, slot := fs.Link(name, n);
      r := Reply(result, 0, []);
    case Remove(_, name) =>
      var result := fs.Remove(name);
      r := Reply(result, 0, []);
    case Rename(_, from, to) =>
      var panicked, result;
      ghost var slot;
      panicked, result, slot := fs.Rename(from, to);
      r := if panicked then Panicked else Reply(result, 0, []);
  }

  /** The operations of a file's vnode, and references to any vnode. */
  method OnVnode(fs: Sfs, op: Op) returns (r: Reply)
    requires fs.Valid() && Makes(op, LoadedInos(fs.vnodes)) && Mismatch(op) == OK
    requires op.GetRoot? || OnContents(op) || op.Drop? || op.Sync?
    modifies fs, fs.freemap.v
    ensures fs.Valid() && StepOf(op, old(fs.View()), fs.View(), r, fs.Free())
  {
    hide Sfs.Valid, Sfs.View, Settled, LoadedInos;
    HeldKeys(fs);
    r := Reply(OK, 0, []);
    match op
    case GetRoot =>
      RootThere(fs);
      var k := fs.Load(ROOT_LOCATION);
    case Write(n, off, data) =>
      r := WriteBytes(fs, n, off, data);
    case Read(n, off, len) =>
      r := ReadBytes(fs, n, off, len);
    case Truncate(n) =>
      fs.TruncateFile(n);
    case Drop(n) =>
      fs.Decref(n);
    case Sync =>
      fs.Sync();
  }

  lemma RootThere(fs: Sfs)
    requires fs.Valid()
    ensures ROOT_LOCATION in fs.inodes
  {
    hide Sfs.Base, Tree;
    TreeFacts(fs.V(), LoadedInos(fs.vnodes));
  }

  /** One operation. Mounting again brings up a new object. */
  method Do(fs: Sfs, op: Op) returns (fs': Sfs, r: Reply)
    requires fs.Valid()
    modifies fs, fs.freemap.v
    ensures (fs' == fs || (fresh(fs') && fresh(fs'.freemap.v))) && fs'.nblocks == fs.nblocks
    ensures fs'.Valid() && StepOf(op, old(fs.View()), fs'.View(), r, fs'.Free())
    ensures Accounted(fs.nblocks, fs'.View(), fs'.Free())
  {
    hide Sfs.Valid, Sfs.View, Sfs.Free, Does, Panics, LoadedInos, Accounted;
    HeldKeys(fs);
    fs' := fs;
    if !Makes(op, LoadedInos(fs.vnodes)) {
      r := NotACall;
    } else if Mismatch(op) != OK {
      r := Reply(Mismatch(op), 0, []);
    } else if op.Remount? {
      fs', r := MountAgain(fs);
    } else if OnNames(op) {
      r := InRoot(fs, op);
    } else {
      r := OnVnode(fs, op);
    }
    SpaceExactly(fs');
  }

  method MountAgain(fs: Sfs) returns (fs': Sfs, r: Reply)
    requires fs.Valid()
    modifies fs
    ensures (fs' == fs || (fresh(fs') && fresh(fs'.freemap.v))) && fs'.nblocks == fs.nblocks
    ensures fs'.Valid() && StepOf(Remount, old(fs.View()), fs'.View(), r, fs'.Free())
  {
    hide Sfs.Valid, Sfs.View, LoadedInos;
    HeldKeys(fs);
    var result, mounted := fs.Remount();
    fs' := if result == OK then mounted else fs;
    r := Reply(result, 0, []);
  }

  /** Step i, with the blocks that are free before each step and after the last. */
  ghost predicate StepAt(ops: seq<Op>, ws: seq<FsView>, rs: seq<Reply>, frees: seq<set<nat>>, i: nat)
    requires i < |ops| && i < |rs| && i + 1 < |frees| && i + 1 < |ws|
  {
    StepOf(ops[i], ws[i], ws[i + 1], rs[i], frees[i + 1])
  }

  /** The operations are carried out one after the other, up to the first panic, and every block
      of the n is accounted for all the time. */
  ghost predicate Trace(n: nat, ops: seq<Op>, ws: seq<FsView>, rs: seq<Reply>, frees: seq<set<nat>>) {
    && |rs| <= |ops| && |ws| == |rs| + 1 && |frees| == |rs| + 1
    && (forall i | 0 <= i < |rs| :: StepAt(ops, ws, rs, frees, i))
    && (forall i | 0 <= i <= |rs| :: Accounted(n, ws[i], frees[i]))
    && (forall i | 0 <= i < |rs| - 1 :: rs[i] != Panicked)
    && (|rs| < |ops| ==> |rs| > 0 && rs[|rs| - 1] == Panicked)
  }

  /** Every run of the filesystem is a run of the abstract one. */
  method Run(fs: Sfs, ops: seq<Op>)
    returns (fs': Sfs, rs: seq<Reply>, ghost ws: seq<FsView>, ghost frees: seq<set<nat>>)
    requires fs.Valid()
    modifies fs, fs.freemap.v
    ensures fs'.Valid() && Trace(fs.nblocks, ops, ws, rs, frees)
    ensures ws[0] == old(fs.View()) && frees[0] == old(fs.Free()) && ws[|rs|] == fs'.View() && frees[|rs|] == fs'.Free()
  {
    hide StepOf, Sfs.Valid, Sfs.View, Sfs.Free, Accounted;
    fs', rs, ws, frees := fs, [], [fs.View()], [fs.Free()];
    SpaceExactly(fs);
    while |rs| < |ops| && (rs == [] || rs[|rs| - 1] != Panicked)
      invariant (fs' == fs || (fresh(fs') && fresh(fs'.freemap.v))) && fs'.nblocks == fs.nblocks
      invariant fs'.Valid() && |rs| <= |ops| && |ws| == |rs| + 1 && |frees| == |rs| + 1
      invariant ws[0] == old(fs.View()) && frees[0] == old(fs.Free())
      invariant ws[|rs|] == fs'.View() && frees[|rs|] == fs'.Free()
      invariant forall i | 0 <= i < |rs| :: StepOf(ops[i], ws[i], ws[i + 1], rs[i], frees[i + 1])
      invariant forall i | 0 <= i <= |rs| :: Accounted(fs.nblocks, ws[i], frees[i])
      invariant forall i | 0 <= i < |rs| - 1 :: rs[i] != Panicked
      decreases |ops| - |rs|
    {
      var r;
      fs', r := Do(fs', ops[|rs|]);
      rs, ws, frees := rs + [r], ws + [fs'.View()], frees + [fs'.Free()];
    }
  }

  /** So is every run that starts by mounting a freshly formatted volume, of any size. */
  method RunFresh(n: nat, ops: seq<Op>)
    returns (fs: Sfs, rs: seq<Reply>, ghost ws: seq<FsView>, ghost frees: seq<set<nat>>)
    requires SystemEnd(n) <= n < 0x80_0000
    ensures fs.Valid() && Trace(n, ops, ws, rs, frees)
    ensures ws[0] == EmptyView() && ws[|rs|] == fs.View() && frees[|rs|] == fs.Free()
  {
    hide Trace, Sfs.Base, Tree;
    fs := MountFresh(n);
    fs, rs, ws, frees := Run(fs, ops);
  }
}
