/** Runs of the filesystem on a disk that fills up: exactly when an operation fails for want of
    space or of room in the directory, in terms of what the files have before it.
  */
module SfsFull {
  import opened Errno
  import opened SfsLayout
  import opened SfsVolume
  import opened SfsDir
  import opened SfsView
  import opened SfsSpace
  import opened SfsFresh
  import opened SfsRuns

  /** The call is one that can be made, and on the right kind of vnode. */
  ghost predicate Proper(op: Op, w: FsView) {
    && Makes(op, w.refs.Keys) && (OnNames(op) ==> op.dir == ROOT_LOCATION) && (OnContents(op) ==> op.n != ROOT_LOCATION)
    && !Panics(op, w)
  }

  lemma ProperStep(n: nat, ops: seq<Op>, ws: seq<FsView>, rs: seq<Reply>, frees: seq<set<nat>>, i: nat)
    requires Trace(n, ops, ws, rs, frees) && i < |rs| && Proper(ops[i], ws[i])
    ensures rs[i].Reply? && Does(ops[i], ws[i], ws[i + 1], rs[i], frees[i + 1])
    ensures Accounted(n, ws[i], frees[i]) && Accounted(n, ws[i + 1], frees[i + 1])
  {
    assert StepAt(ops, ws, rs, frees, i);
    hide Does, Accounted;
  }

  /** A write fails for want of space if and only if it needs more blocks than are free; otherwise it
      fails if and only if a part of it is past the largest file, and then it has done all the rest. */
  lemma WriteFailsExactly(n: nat, ops: seq<Op>, ws: seq<FsView>, rs: seq<Reply>, frees: seq<set<nat>>, i: nat)
    requires Trace(n, ops, ws, rs, frees) && i < |rs| && ops[i].Write? && Proper(ops[i], ws[i])
    ensures rs[i].Reply? && ops[i].n in ws[i].maps
    ensures rs[i].result == ENOSPC <==>
              |frees[i]| < Needed(ws[i].maps[ops[i].n], Spread(ops[i].off, |ops[i].data|))
    ensures rs[i].result == EFBIG <==> rs[i].result != ENOSPC && Beyond(ops[i].off, |ops[i].data|)
    ensures rs[i].result == OK ==> rs[i].n == |ops[i].data|
    ensures rs[i].result == EFBIG ==> ops[i].off + rs[i].n == Max(ops[i].off, MAXFILE)
  {
    hide StepAt, Uses, Needed, Spread, Stops, ExtentOk;
    ProperStep(n, ops, ws, rs, frees, i);
    var m, e' := ops[i].n, ws[i + 1].maps[ops[i].n];
    assert frees[i + 1] == {} <==> |frees[i + 1]| == 0;
    StopsExactly(n, ws[i].maps, m, e', ops[i].off, |ops[i].data|, rs[i].n, rs[i].result);
    StopsBeyond(ws[i].maps[m], e', ops[i].off, |ops[i].data|, rs[i].n, rs[i].result, frees[i + 1] == {});
  }

  // --- The directory ------------------------------------------------------------------------

  /** Every block of the directory is there. */
  ghost predicate Dense(w: FsView) {
    ROOT_LOCATION in w.maps && forall b: nat | b * 8 < w.slots :: b in w.maps[ROOT_LOCATION].blocks
  }

  /** A name that could be added, as far as names go. */
  predicate Fits(w: FsView, name: Name) {
    name !in w.names && |name| < NAMELEN
  }

  /** An entry lies in one block. */
  lemma OneEntry(slot: nat)
    requires slot < MAXSLOTS
    ensures Spread(64 * slot, 64) == {slot / 8}
  {
    forall g: nat | Overlaps(g, 64 * slot, 64) ensures g == slot / 8 {
    }
    assert Overlaps(slot / 8, 64 * slot, 64);
  }

  lemma NamedStops(w: FsView, w': FsView, name: Name, n: nat, slot: nat, result: Errno, full: bool)
    requires Named(w, w', name, n, slot, result) && Fits(w, name) && (result == ENOSPC ==> full)
    ensures result in {OK, ENOSPC, EFBIG} && NewSlot(w, slot)
    ensures w'.maps == w.maps[ROOT_LOCATION := w'.maps[ROOT_LOCATION]]
    ensures Stops(w.maps[ROOT_LOCATION], w'.maps[ROOT_LOCATION], 64 * slot, 64, if result == OK then 64 else 0, result,
                  full)
  {
    hide Filled;
    assert 64 * slot / 512 == slot / 8;
  }

  /** Adding a name needs a block if its slot lies in one that is not there. It fails for want of
      space exactly if there is none left for it, and for size exactly if the directory is as
      large as it can be and full. */
  lemma NameFails(nblocks: nat, w: FsView, w': FsView, name: Name, n: nat, slot: nat, result: Errno, free: set<nat>,
                  free': set<nat>)
    requires Accounted(nblocks, w, free) && Named(w, w', name, n, slot, result) && ExtentOk(w'.maps[ROOT_LOCATION])
    requires |free'| + |Uses(nblocks, w'.maps)| == nblocks && (result == ENOSPC ==> free' == {})
    ensures result == ENOSPC <==> Fits(w, name) && slot < MAXSLOTS && |free| < Needed(w.maps[ROOT_LOCATION], {slot / 8})
    ensures result == EFBIG <==> Fits(w, name) && |w.names| == w.slots == MAXSLOTS
  {
    hide Uses, Needed, Stops, ExtentOk, Filled;
    if Fits(w, name) {
      NamedStops(w, w', name, n, slot, result, free' == {});
      if slot < MAXSLOTS {
        OneEntry(slot);
        var m := if result == OK then 64 else 0;
        StopsExactly(nblocks, w.maps, ROOT_LOCATION, w'.maps[ROOT_LOCATION], 64 * slot, 64, m, result);
      }
    }
  }

  /** A directory with all its blocks needs another only when all its slots are taken. */
  lemma DenseNeeds(w: FsView, slot: nat)
    requires Dense(w) && NewSlot(w, slot) && ExtentOk(w.maps[ROOT_LOCATION]) && |w.names| < w.slots
    ensures Needed(w.maps[ROOT_LOCATION], {slot / 8}) == 0
  {
    var e, b := w.maps[ROOT_LOCATION], slot / 8;
    assert b * 8 < w.slots;
    assert {b} - e.blocks == {};
  }

  /** There is no room for another entry: the directory has no free slot, its next slot needs blocks,
      and fewer than that are left. */
  ghost predicate NoRoom(w: FsView, left: int) {
    && ROOT_LOCATION in w.maps && |w.names| == w.slots < MAXSLOTS
    && left < Needed(w.maps[ROOT_LOCATION], {w.slots / 8})
  }

  lemma NoRoomIs(nblocks: nat, w: FsView, free: set<nat>, slot: nat, left: nat)
    requires Accounted(nblocks, w, free) && Dense(w) && NewSlot(w, slot)
    ensures slot < MAXSLOTS && left < Needed(w.maps[ROOT_LOCATION], {slot / 8}) <==> NoRoom(w, left)
  {
    hide Needed, Uses;
    if |w.names| < w.slots {
      DenseNeeds(w, slot);
    }
  }

  /** sfs_link fails for want of space if and only if there is no room for an entry. */
  lemma LinkFailsExactly(n: nat, ops: seq<Op>, ws: seq<FsView>, rs: seq<Reply>, frees: seq<set<nat>>, i: nat)
    requires Trace(n, ops, ws, rs, frees) && i < |rs| && ops[i].Link? && Proper(ops[i], ws[i]) && Dense(ws[i])
    ensures rs[i].Reply?
    ensures rs[i].result == ENOSPC <==> Fits(ws[i], ops[i].name) && NoRoom(ws[i], |frees[i]|)
    ensures rs[i].result == EFBIG <==> Fits(ws[i], ops[i].name) && |ws[i].names| == ws[i].slots == MAXSLOTS
  {
    hide StepAt, Uses, Needed, NoRoom, Dense, Filled, ExtentOk;
    ProperStep(n, ops, ws, rs, frees, i);
    var w, w', name := ws[i], ws[i + 1], ops[i].name;
    var slot: nat :| Named(w, w', name, ops[i].n, slot, rs[i].result);
    NameFails(n, w, w', name, ops[i].n, slot, rs[i].result, frees[i], frees[i + 1]);
    if Fits(w, name) {
      NoRoomIs(n, w, frees[i], slot, |frees[i]|);
    }
  }

  /** And so does sfs_rename. */
  lemma RenameFailsExactly(n: nat, ops: seq<Op>, ws: seq<FsView>, rs: seq<Reply>, frees: seq<set<nat>>, i: nat)
    requires Trace(n, ops, ws, rs, frees) && i < |rs| && ops[i].Rename? && Proper(ops[i], ws[i]) && Dense(ws[i])
    requires ops[i].from in ws[i].names
    ensures rs[i].Reply?
    ensures rs[i].result == ENOSPC <==> Fits(ws[i], ops[i].to) && NoRoom(ws[i], |frees[i]|)
    ensures rs[i].result == EFBIG <==> Fits(ws[i], ops[i].to) && |ws[i].names| == ws[i].slots == MAXSLOTS
  {
    hide StepAt, Uses, Needed, NoRoom, Dense, Filled, ExtentOk;
    ProperStep(n, ops, ws, rs, frees, i);
    var w, w', to := ws[i], ws[i + 1], ops[i].to;
    var m, result := w.names[ops[i].from], rs[i].result;
    var slot: nat :| Renamed(w, w', ops[i].from, to, m, slot, result);
    NameFails(n, w, if result == OK then w'.(names := w.names[to := m]) else w', to, m, slot, result, frees[i],
              frees[i + 1]);
    if Fits(w, to) {
      NoRoomIs(n, w, frees[i], slot, |frees[i]|);
    }
  }

  /** sfs_creat fails for want of space if and only if there is no block for the inode, or no room for
      an entry once that is taken; the name is looked at after the inode. */
  lemma CreatFailsExactly(n: nat, ops: seq<Op>, ws: seq<FsView>, rs: seq<Reply>, frees: seq<set<nat>>, i: nat)
    requires Trace(n, ops, ws, rs, frees) && i < |rs| && ops[i].Creat? && Proper(ops[i], ws[i]) && Dense(ws[i])
    requires ops[i].name !in ws[i].names
    ensures rs[i].Reply?
    ensures rs[i].result == ENOSPC <==>
              frees[i] == {} || (Fits(ws[i], ops[i].name) && NoRoom(ws[i], |frees[i]| - 1))
    ensures rs[i].result == EFBIG <==>
              frees[i] != {} && Fits(ws[i], ops[i].name) && |ws[i].names| == ws[i].slots == MAXSLOTS
    ensures rs[i].result == ENAMETOOLONG <==> frees[i] != {} && |ops[i].name| >= NAMELEN
  {
    hide StepAt, Uses, Needed, NoRoom, Dense, Filled, ExtentOk;
    ProperStep(n, ops, ws, rs, frees, i);
    var w, w', name, result := ws[i], ws[i + 1], ops[i].name, rs[i].result;
    var slot: nat :| Created(w, w', name, rs[i].n, slot, result, frees[i + 1]);
    if result == OK {
      MadeFits(n, w, w', name, rs[i].n, slot, frees[i], frees[i + 1]);
      NoRoomIs(n, w, frees[i], slot, |frees[i]| - 1);
    } else if result == ENOSPC && w' == w && frees[i + 1] == {} {
      assert |frees[i]| == |frees[i + 1]| == 0;
    } else {
      NotMade(n, w, w', name, rs[i].n, slot, result, frees[i], frees[i + 1]);
      if Fits(w, name) {
        NoRoomIs(n, w, frees[i], slot, |frees[i]| - 1);
      }
    }
  }

  /** A file that was made and named had blocks enough. */
  lemma MadeFits(nblocks: nat, w: FsView, w': FsView, name: Name, n: nat, slot: nat, free: set<nat>, free': set<nat>)
    requires Accounted(nblocks, w, free) && Accounted(nblocks, w', free') && n !in w.maps
    requires Named(WithFile(w, n), w', name, n, slot, OK)
    ensures Fits(w, name) && slot < MAXSLOTS && NewSlot(w, slot) && n != ROOT_LOCATION
    ensures 1 <= |free| && |free| - 1 >= Needed(w.maps[ROOT_LOCATION], {slot / 8})
  {
    hide Uses, Needed, Stops, Filled, ExtentOk;
    var w1 := WithFile(w, n);
    assert w1.maps[ROOT_LOCATION] == w.maps[ROOT_LOCATION];
    FileTakes(nblocks, w1.maps, n);
    assert w1.maps - {n} == w.maps;
    NamedStops(w1, w', name, n, slot, OK, false);
    OneEntry(slot);
    EnoughBlocks(nblocks, w1.maps, w'.maps[ROOT_LOCATION], slot);
  }

  lemma EnoughBlocks(nblocks: nat, maps: map<nat, Extent>, e': Extent, slot: nat)
    requires ROOT_LOCATION in maps && ExtentOk(maps[ROOT_LOCATION]) && ExtentOk(e') && slot < MAXSLOTS
    requires Stops(maps[ROOT_LOCATION], e', 64 * slot, 64, 64, OK, false)
    ensures |Uses(nblocks, maps[ROOT_LOCATION := e'])| ==
            |Uses(nblocks, maps)| + Needed(maps[ROOT_LOCATION], {slot / 8})
  {
    hide Uses, Needed, ExtentOk;
    UsesChange(nblocks, maps, ROOT_LOCATION, e');
    Enough(maps[ROOT_LOCATION], e', 64 * slot, 64, 64, OK);
    OneEntry(slot);
  }

  /** One that could not be named. */
  lemma NotMade(nblocks: nat, w: FsView, w': FsView, name: Name, n: nat, slot: nat, result: Errno, free: set<nat>,
                free': set<nat>)
    requires Accounted(nblocks, w, free) && Accounted(nblocks, w', free') && Named(w, w', name, n, slot, result)
    requires result != OK && n in free' && (result == ENOSPC ==> free' == {n}) && name !in w.names
    ensures 1 <= |free|
    ensures result == ENOSPC <==>
              Fits(w, name) && slot < MAXSLOTS && |free| - 1 < Needed(w.maps[ROOT_LOCATION], {slot / 8})
  {
    hide Uses, Needed, ExtentOk, Spread;
    var e, e' := w.maps[ROOT_LOCATION], w'.maps[ROOT_LOCATION];
    assert |free'| >= 1 && (result == ENOSPC ==> |free'| == 1) by {
      assert free' == {n} + (free' - {n});
    }
    UsesChange(nblocks, w.maps, ROOT_LOCATION, e');
    if Fits(w, name) {
      NamedStops(w, w', name, n, slot, result, true);
      if result == ENOSPC {
        OneEntry(slot);
        TooMany(e, e', 64 * slot, 64, 0);
      } else {
        Enough(e, e', 64 * slot, 64, 0, EFBIG);
      }
    } else {
      assert w.maps[ROOT_LOCATION := e] == w.maps;
    }
  }

  // --- Directories without holes ----------------------------------------------------------------

  lemma DenseNamed(w: FsView, w': FsView, name: Name, n: nat, slot: nat, result: Errno)
    requires Dense(w) && Named(w, w', name, n, slot, result) && w.slots <= MAXSLOTS
    ensures Dense(w')
  {
    var e, e' := w.maps[ROOT_LOCATION], w'.maps[ROOT_LOCATION];
    if result == OK {
      OneEntry(slot);
      forall b: nat | b * 8 < w'.slots ensures b in e'.blocks {
        assert b * 8 < w.slots || b == slot / 8;
      }
    }
  }

  /** Nothing makes a hole in the directory. */
  lemma DenseStep(op: Op, w: FsView, w': FsView, r: Reply, free: set<nat>)
    requires Dense(w) && StepOf(op, w, w', r, free) && w.slots <= MAXSLOTS
    ensures Dense(w')
  {
    hide Filled, Stops;
    if Proper(op, w) && op.Link? {
      var slot: nat :| Named(w, w', op.name, op.n, slot, r.result);
      DenseNamed(w, w', op.name, op.n, slot, r.result);
    } else if Proper(op, w) && op.Rename? && op.from in w.names {
      var n := w.names[op.from];
      var slot: nat :| Renamed(w, w', op.from, op.to, n, slot, r.result);
      DenseNamed(w, if r.result == OK then w'.(names := w.names[op.to := n]) else w', op.to, n, slot, r.result);
    } else if Proper(op, w) && op.Creat? && op.name !in w.names {
      var slot: nat :| Created(w, w', op.name, r.n, slot, r.result, free);
      DenseCreated(w, w', op.name, r.n, slot, r.result, free);
    }
  }

  lemma DenseCreated(w: FsView, w': FsView, name: Name, n: nat, slot: nat, result: Errno, free: set<nat>)
    requires Dense(w) && Created(w, w', name, n, slot, result, free) && w.slots <= MAXSLOTS
    ensures Dense(w')
  {
    hide Named;
    if result == OK {
      DenseNamed(WithFile(w, n), w', name, n, slot, OK);
    } else if Named(w, w', name, n, slot, result) {
      DenseNamed(w, w', name, n, slot, result);
    }
  }

  /** So no run does: in particular none from a fresh volume ever has a directory with holes. */
  lemma {:induction false} StaysDense(n: nat, ops: seq<Op>, ws: seq<FsView>, rs: seq<Reply>, frees: seq<set<nat>>,
                                      i: nat)
    requires Trace(n, ops, ws, rs, frees) && i <= |rs| && (Dense(ws[0]) || ws[0] == EmptyView())
    ensures Dense(ws[i])
  {
    hide StepOf, Dense, Accounted;
    if i == 0 {
      EmptyDense();
    } else {
      StaysDense(n, ops, ws, rs, frees, i - 1);
      assert StepAt(ops, ws, rs, frees, i - 1) && Accounted(n, ws[i - 1], frees[i - 1]);
      AccountedSlots(n, ws[i - 1], frees[i - 1]);
      DenseStep(ops[i - 1], ws[i - 1], ws[i], rs[i - 1], frees[i]);
    }
  }

  lemma EmptyDense()
    ensures Dense(EmptyView())
  {
  }

  lemma AccountedSlots(n: nat, w: FsView, free: set<nat>)
    requires Accounted(n, w, free)
    ensures |w.names| <= w.slots <= MAXSLOTS
  {
  }

  /** After a name has been removed another can be added, however full the disk. */
  lemma RemoveThenLink(n: nat, ops: seq<Op>, ws: seq<FsView>, rs: seq<Reply>, frees: seq<set<nat>>, i: nat)
    requires Trace(n, ops, ws, rs, frees) && i + 1 < |rs| && Dense(ws[i])
    requires ops[i].Remove? && Proper(ops[i], ws[i]) && rs[i].Reply? && rs[i].result == OK
    requires ops[i + 1].Link? && Proper(ops[i + 1], ws[i + 1]) && Fits(ws[i + 1], ops[i + 1].name)
    ensures rs[i + 1].Reply? && rs[i + 1].result == OK && ws[i + 1].slots == ws[i + 2].slots == ws[i].slots
  {
    hide Accounted, Needed, Uses, Filled;
    ProperStep(n, ops, ws, rs, frees, i);
    AccountedSlots(n, ws[i], frees[i]);
    assert ws[i + 1].maps.Keys <= ws[i].maps.Keys;
    Fewer(ws[i].names, ops[i].name);
    LinkFailsExactly(n, ops, ws, rs, frees, i + 1);
    ProperStep(n, ops, ws, rs, frees, i + 1);
  }

  lemma Fewer(names: map<Name, nat>, x: Name)
    requires x in names
    ensures |names - {x}| == |names| - 1
  {
    assert names.Keys == (names - {x}).Keys + {x};
  }

  // --- The root directory ---------------------------------------------------------------------

  /** Nothing stops a link to the root directory, and there is room for one on a fresh volume with
      any free block. Renaming it then panics. */
  lemma RootRenamed(n: nat, x: Name, y: Name, ws: seq<FsView>, rs: seq<Reply>, frees: seq<set<nat>>)
    requires 0 !in x && 0 !in y && |x| < NAMELEN
    requires Trace(n, [GetRoot, Link(ROOT_LOCATION, x, ROOT_LOCATION), Rename(ROOT_LOCATION, x, y)], ws, rs, frees)
    requires ws[0] == EmptyView() && frees[0] != {}
    ensures |rs| == 3 && rs[1].Reply? && rs[1].result == OK && rs[2] == Panicked
  {
    hide StepOf, Uses, Named, NoRoom, Dense, Accounted;
    var ops := [GetRoot, Link(ROOT_LOCATION, x, ROOT_LOCATION), Rename(ROOT_LOCATION, x, y)];
    assert StepAt(ops, ws, rs, frees, 0) && Accounted(n, ws[0], frees[0]) && Accounted(n, ws[1], frees[1]);
    RootHeld(ws[0], ws[1], rs[0], frees[1]);
    EmptyRoom(n, ws[0], ws[1], frees[0], frees[1]);
    LinkFailsExactly(n, ops, ws, rs, frees, 1);
    ProperStep(n, ops, ws, rs, frees, 1);
    RootLinked(ws[1], ws[2], x, rs[1], frees[2]);
    assert StepAt(ops, ws, rs, frees, 2);
    RootPanics(ws[2], ws[3], x, y, rs[2], frees[3]);
  }

  lemma RootHeld(w: FsView, w': FsView, r: Reply, free: set<nat>)
    requires w == EmptyView() && StepOf(GetRoot, w, w', r, free)
    ensures w' == w.(refs := map[ROOT_LOCATION := 1]) && r != Panicked
  {
  }

  lemma EmptyRoom(n: nat, w: FsView, w': FsView, free: set<nat>, free': set<nat>)
    requires w == EmptyView() && w'.maps == w.maps && w'.slots == 0 && w'.names == map[]
    requires Accounted(n, w, free) && Accounted(n, w', free') && free != {}
    ensures Dense(w') && !NoRoom(w', |free'|)
  {
    assert |free'| == |free| > 0;
    assert {0} - w'.maps[ROOT_LOCATION].blocks == {0};
  }

  lemma RootLinked(w: FsView, w': FsView, x: Name, r: Reply, free: set<nat>)
    requires r.Reply? && Does(Link(ROOT_LOCATION, x, ROOT_LOCATION), w, w', r, free)
    requires w.names == map[] && w.slots == 0 && ROOT_LOCATION in w.refs && |x| < NAMELEN
    requires r.result != ENOSPC && r.result != EFBIG
    ensures r.result == OK && x in w'.names && w'.names[x] == ROOT_LOCATION && w'.refs == w.refs
  {
  }

  lemma RootPanics(w: FsView, w': FsView, x: Name, y: Name, r: Reply, free: set<nat>)
    requires StepOf(Rename(ROOT_LOCATION, x, y), w, w', r, free) && 0 !in y
    requires x in w.names && w.names[x] == ROOT_LOCATION && ROOT_LOCATION in w.refs
    ensures r == Panicked
  {
  }
}
