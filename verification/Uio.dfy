/** lib/uio.c: moving bytes between a kernel buffer and a scatter/gather list.

    Only kernel-space lists (UIO_SYSSPACE) are modelled, and each iovec has a
    buffer of its own. Seen from outside, a uio is one flat buffer (the buffers
    laid end to end) and a position in it.
  */
module Uios {
  import opened Bytes

  datatype Direction = READ | WRITE

  function Min(a: int, b: int): int {
    if a <= b then a else b
  }

  /** Memory after `data` replaces the bytes that start at `at`: memmove. */
  function Store(mem: seq<byte>, at: nat, data: seq<byte>): (r: seq<byte>)
    requires at + |data| <= |mem|
    ensures |r| == |mem|
    ensures forall a {:trigger r[a]} | 0 <= a < |mem| ::
              r[a] == if at <= a < at + |data| then data[a - at] else mem[a]
  {
    seq(|mem|, a requires 0 <= a < |mem| => if at <= a < at + |data| then data[a - at] else mem[a])
  }

  /** Two adjacent stores are one. */
  lemma StoreStore(mem: seq<byte>, at: nat, a: seq<byte>, b: seq<byte>)
    requires at + |a| + |b| <= |mem|
    ensures Store(Store(mem, at, a), at + |a|, b) == Store(mem, at, a + b)
  {
  }

  lemma StoreNothing(mem: seq<byte>, at: nat)
    requires at <= |mem|
    ensures Store(mem, at, []) == mem
  {
  }

  function Zeros(n: nat): (z: seq<byte>)
    ensures |z| == n && forall i | 0 <= i < n :: z[i] == 0
  {
    seq(n, _ => 0)
  }

  /** What one call of uiomove does to the residue: how much it moves, or a panic. */
  datatype Outcome = Done(moved: nat, resid: nat) | Panic {
    function Plus(k: nat): Outcome {
      match this
      case Panic => Panic
      case Done(moved, r) => Done(k + moved, r)
    }
  }

  const SIZE_T: nat := 0x1_0000_0000

  /** The control flow of uiomove, `used` bytes into buffer `cur` of the given
      sizes. A chunk is limited by the buffer and by n but not by the residue,
      whose subtraction is unsigned. */
  function Moves(sizes: seq<nat>, cur: nat, used: nat, resid: nat, n: nat): (o: Outcome)
    requires resid < SIZE_T && (cur < |sizes| ==> used <= sizes[cur])
    ensures o.Done? ==> o.resid < SIZE_T && o.moved <= n
    decreases n, |sizes| - cur
  {
    if n == 0 || resid == 0 then Done(0, resid)
    else if cur >= |sizes| then Panic
    else
      var size := Min(sizes[cur] - used, n);
      if size == 0 then Moves(sizes, cur + 1, 0, resid, n)
      else Moves(sizes, cur, used + size, (resid - size) % 0x1_0000_0000, n - size).Plus(size)
  }

  /** A buffer and how much of it is used. */
  datatype Place = Place(cur: nat, used: nat)

  predicate PlaceOk(sizes: seq<nat>, p: Place) {
    p.cur < |sizes| ==> p.used <= sizes[p.cur]
  }

  /** Where a request that does not panic ends. */
  function After(sizes: seq<nat>, cur: nat, used: nat, resid: nat, n: nat): (p: Place)
    requires resid < SIZE_T && (cur < |sizes| ==> used <= sizes[cur])
    ensures PlaceOk(sizes, p)
    decreases n, |sizes| - cur
  {
    if n == 0 || resid == 0 || cur >= |sizes| then Place(cur, used)
    else
      var size := Min(sizes[cur] - used, n);
      if size == 0 then After(sizes, cur + 1, 0, resid, n)
      else After(sizes, cur, used + size, (resid - size) % 0x1_0000_0000, n - size)
  }

  /** What is left in the buffers. */
  function Room(sizes: seq<nat>, cur: nat, used: nat): (r: int)
    decreases |sizes| - cur
  {
    if cur >= |sizes| then 0 else sizes[cur] - used + Room(sizes, cur + 1, 0)
  }

  /** The residue ends exactly where one of the buffers ends. */
  predicate Boundary(sizes: seq<nat>, cur: nat, used: nat, resid: nat)
    decreases |sizes| - cur
  {
    || resid == 0
    || (cur < |sizes| && 0 <= sizes[cur] - used <= resid && Boundary(sizes, cur + 1, 0, resid - (sizes[cur] - used)))
  }

  /** A request that does not overrun the residue inside a buffer. */
  predicate Exact(sizes: seq<nat>, cur: nat, used: nat, resid: nat, n: nat) {
    n <= resid || Boundary(sizes, cur, used, resid)
  }

  lemma {:induction false} ExactMoves(sizes: seq<nat>, cur: nat, used: nat, resid: nat, n: nat)
    requires resid < SIZE_T && (cur < |sizes| ==> used <= sizes[cur])
    requires resid <= Room(sizes, cur, used) && Exact(sizes, cur, used, resid, n)
    ensures Moves(sizes, cur, used, resid, n) == Done(Min(n, resid), resid - Min(n, resid))
    decreases n, |sizes| - cur
  {
    if n > 0 && resid > 0 {
      var size := Min(sizes[cur] - used, n);
      if size == 0 {
        ExactMoves(sizes, cur + 1, 0, resid, n);
      } else {
        ExactMoves(sizes, cur, used + size, resid - size, n - size);
      }
    }
  }

  lemma {:induction false} OverrunMoves(sizes: seq<nat>, cur: nat, used: nat, resid: nat, n: nat)
    requires resid < SIZE_T && (cur < |sizes| ==> used <= sizes[cur])
    requires resid < n && !Boundary(sizes, cur, used, resid)
    ensures var o := Moves(sizes, cur, used, resid, n); o.Panic? || o.moved > resid
    decreases n, |sizes| - cur
  {
    if cur < |sizes| {
      var size := Min(sizes[cur] - used, n);
      if size == 0 {
        OverrunMoves(sizes, cur + 1, 0, resid, n);
      } else if size <= resid {
        OverrunMoves(sizes, cur, used + size, resid - size, n - size);
      }
    }
  }

  /** uiomove moves min(n, resid) bytes and does not panic exactly when n is within
      the residue or the residue ends at the end of a buffer. */
  lemma MovesExactly(sizes: seq<nat>, cur: nat, used: nat, resid: nat, n: nat)
    requires resid < SIZE_T && (cur < |sizes| ==> used <= sizes[cur]) && resid <= Room(sizes, cur, used)
    ensures Exact(sizes, cur, used, resid, n) <==>
            Moves(sizes, cur, used, resid, n) == Done(Min(n, resid), resid - Min(n, resid))
  {
    if Exact(sizes, cur, used, resid, n) {
      ExactMoves(sizes, cur, used, resid, n);
    } else {
      OverrunMoves(sizes, cur, used, resid, n);
    }
  }

  /** A residue of 10 in a buffer of 100: asking for 50 moves 50 and wraps the
      residue around; asking for 200 runs out of buffers. */
  lemma OverrunExample()
    ensures Moves([100], 0, 0, 10, 50) == Done(50, SIZE_T - 40)
    ensures Moves([100], 0, 0, 10, 200) == Panic
  {
    assert Moves([100], 0, 100, SIZE_T - 90, 100) == Panic;
  }

  /** The control flow of uiomovezeros: requests of at most 16 bytes. */
  function Pieces(sizes: seq<nat>, cur: nat, used: nat, resid: nat, n: nat): (o: Outcome)
    requires resid < SIZE_T && (cur < |sizes| ==> used <= sizes[cur])
    ensures o.Done? ==> o.resid < SIZE_T && o.moved <= n
    decreases n
  {
    if n == 0 then Done(0, resid)
    else
      var amt := Min(16, n);
      match Moves(sizes, cur, used, resid, amt)
      case Panic => Panic
      case Done(m, r) =>
        var p := After(sizes, cur, used, resid, amt);
        Pieces(sizes, p.cur, p.used, r, n - amt).Plus(m)
  }

  /** A request within the residue moves the place but not the end of the residue. */
  lemma {:induction false} AfterMove(sizes: seq<nat>, cur: nat, used: nat, resid: nat, n: nat)
    requires resid < SIZE_T && (cur < |sizes| ==> used <= sizes[cur]) && n <= resid <= Room(sizes, cur, used)
    ensures var p := After(sizes, cur, used, resid, n);
            && resid - n <= Room(sizes, p.cur, p.used)
            && (n < resid ==> (Boundary(sizes, p.cur, p.used, resid - n) <==> Boundary(sizes, cur, used, resid)))
    decreases n, |sizes| - cur
  {
    hide Moves, After, Boundary, Room;
    if n == 0 {
      AfterNone(sizes, cur, used, resid);
    } else {
      RoomParts(sizes, cur, used);
      var size := Min(sizes[cur] - used, n);
      if size == 0 {
        MovesSkip(sizes, cur, resid, n);
        SkipBoundary(sizes, cur, resid);
        AfterMove(sizes, cur + 1, 0, resid, n);
      } else {
        RoomParts(sizes, cur, used + size);
        MovesChunk(sizes, cur, used, resid, n, size);
        if size < resid {
          ChunkBoundary(sizes, cur, used, resid, size);
        }
        assert (resid - size) % 0x1_0000_0000 == resid - size;
        AfterMove(sizes, cur, used + size, resid - size, n - size);
      }
    }
  }

  lemma AfterNone(sizes: seq<nat>, cur: nat, used: nat, resid: nat)
    requires resid < SIZE_T && (cur < |sizes| ==> used <= sizes[cur])
    ensures After(sizes, cur, used, resid, 0) == Place(cur, used)
  {
  }

  lemma RoomParts(sizes: seq<nat>, cur: nat, used: nat)
    ensures Room(sizes, cur, used) == if cur < |sizes| then sizes[cur] - used + Room(sizes, cur + 1, 0) else 0
  {
  }

  lemma SkipBoundary(sizes: seq<nat>, cur: nat, resid: nat)
    requires cur < |sizes| && 0 < resid
    ensures Boundary(sizes, cur, sizes[cur], resid) <==> Boundary(sizes, cur + 1, 0, resid)
  {
  }

  lemma ChunkBoundary(sizes: seq<nat>, cur: nat, used: nat, resid: nat, size: nat)
    requires cur < |sizes| && used + size <= sizes[cur] && size < resid
    ensures Boundary(sizes, cur, used + size, resid - size) <==> Boundary(sizes, cur, used, resid)
  {
  }

  lemma NoBoundary(sizes: seq<nat>, cur: nat, used: nat)
    ensures Boundary(sizes, cur, used, 0)
  {
  }

  lemma {:induction false} NoResidue(sizes: seq<nat>, cur: nat, used: nat, n: nat)
    requires cur < |sizes| ==> used <= sizes[cur]
    ensures Pieces(sizes, cur, used, 0, n) == Done(0, 0)
    decreases n
  {
    if n > 0 {
      NoResidue(sizes, cur, used, n - Min(16, n));
    }
  }

  /** uiomovezeros moves min(n, resid) zeros exactly when n is within the residue, the residue
      ends at the end of a buffer, or it is a multiple of 16. */
  lemma {:induction false} PiecesExactly(sizes: seq<nat>, cur: nat, used: nat, resid: nat, n: nat)
    requires resid < SIZE_T && (cur < |sizes| ==> used <= sizes[cur]) && resid <= Room(sizes, cur, used)
    ensures n <= resid || resid % 16 == 0 || Boundary(sizes, cur, used, resid) <==>
            Pieces(sizes, cur, used, resid, n) == Done(Min(n, resid), resid - Min(n, resid))
    decreases n
  {
    hide Room, Moves, After, Pieces, Boundary;
    var amt := Min(16, n);
    NoBoundary(sizes, cur, used);
    if n == 0 {
      PiecesNone(sizes, cur, used, resid);
    } else {
      PiecesStep(sizes, cur, used, resid, n);
      MovesExactly(sizes, cur, used, resid, amt);
      var p := After(sizes, cur, used, resid, amt);
      if amt <= resid {
        AfterMove(sizes, cur, used, resid, amt);
        PiecesExactly(sizes, p.cur, p.used, resid - amt, n - amt);
      } else if Exact(sizes, cur, used, resid, amt) {
        NoResidue(sizes, p.cur, p.used, n - amt);
      } else {
        OverrunMoves(sizes, cur, used, resid, amt);
      }
    }
  }

  /** So it is not always what one request for n bytes does: with a residue of 16 in a buffer
      of 100, a request for 50 overruns it and zeros in pieces do not. */
  lemma PiecesExample()
    ensures Moves([100], 0, 0, 16, 50) == Done(50, SIZE_T - 34) && Pieces([100], 0, 0, 16, 50) == Done(16, 0)
  {
    NoResidue([100], 0, 16, 34);
    assert Moves([100], 0, 0, 16, 16) == Done(16, 0) && After([100], 0, 0, 16, 16) == Place(0, 16);
  }

  /** iov_kbase and iov_len. */
  datatype Iovec = Iovec(base: nat, len: nat)

  /** A name for an index, so that facts about neighbours are used only on request. */
  ghost predicate Adjacent(i: int) {
    true
  }

  class Uio {
    /** The memory of the buffers. They do not overlap, so their addresses can be
        numbered such that each starts where the one before it ends. */
    var flat: seq<byte>
    /** uio_iov points at iovs[cur]. */
    var iovs: seq<Iovec>
    var cur: nat
    var offset: nat
    var resid: nat
    const rw: Direction
    /** The position reached in the flat buffer, and the original buffer sizes. */
    ghost var pos: nat
    ghost const sizes: seq<nat>

    ghost predicate Linked()
      reads this
    {
      && cur < |iovs| == |sizes| && resid < SIZE_T
      && (forall i | cur < i < |iovs| :: iovs[i].len == sizes[i])
      && (forall i {:trigger Adjacent(i)} | cur <= i < |iovs| - 1 && Adjacent(i) ::
            iovs[i].base + iovs[i].len == iovs[i + 1].base)
      && (forall i | cur <= i < |iovs| :: iovs[i].base + iovs[i].len <= |flat|)
      && iovs[|iovs| - 1].base + iovs[|iovs| - 1].len == |flat|
      && iovs[cur].len <= sizes[cur] && pos == iovs[cur].base
    }

    /** The residue does not exceed the space left in the buffers. */
    ghost predicate Valid()
      reads this
    {
      Linked() && pos + resid <= |flat| && resid < SIZE_T
    }

    /** How much of the current buffer is used up. */
    ghost function Used(): nat
      requires Linked()
      reads this
    {
      sizes[cur] - iovs[cur].len
    }

    /** uio_kinit: one buffer. */
    constructor (kbuf: seq<byte>, offset: nat, rw: Direction)
      requires |kbuf| < SIZE_T
      ensures Valid() && this.rw == rw && this.offset == offset && resid == |kbuf|
      ensures flat == kbuf && pos == 0
    {
      this.flat := kbuf;
      this.iovs := [Iovec(0, |kbuf|)];
      this.cur := 0;
      this.offset := offset;
      this.resid := |kbuf|;
      this.rw := rw;
      this.pos, this.sizes := 0, [|kbuf|];
    }

    /** A caller substitutes another offset and residue. */
    method Retarget(offset: nat, resid: nat)
      requires Valid() && resid < SIZE_T && pos + resid <= |flat|
      modifies this`offset, this`resid
      ensures Valid() && this.offset == offset && this.resid == resid
    {
      this.offset := offset;
      this.resid := resid;
    }

    /** One memmove between the kernel buffer and the current iovec, and the updates
        after it: `data` goes out for READ, as many bytes come in for WRITE. */
    method MoveChunk(data: seq<byte>) returns (got: seq<byte>)
      requires Linked() && 0 < |data| <= iovs[cur].len
      modifies this
      ensures Linked() && cur == old(cur) && pos == old(pos) + |data| <= |flat| == |old(flat)|
      ensures Used() == old(Used()) + |data| && |got| == |data|
      ensures resid == (old(resid) - |data|) % 0x1_0000_0000 && offset == old(offset) + |data|
      ensures rw == READ ==> flat == Store(old(flat), old(pos), data) && got == data
      ensures rw == WRITE ==> flat == old(flat) && got == flat[old(pos)..pos]
    {
      var iov := iovs[cur];
      var size := |data|;
      if rw == READ {
        got := data;
        flat := Store(flat, iov.base, data);
      } else {
        got := flat[iov.base..iov.base + size];
      }
      iovs := iovs[cur := Iovec(iov.base + size, iov.len - size)];
      pos := pos + size;
      resid := (resid - size) % 0x1_0000_0000;
      offset := offset + size;
    }

    /** The outcome of a request for n bytes, from here on. */
    ghost function Ahead(n: nat): Outcome
      requires Linked()
      reads this
    {
      Moves(sizes, cur, Used(), resid, n)
    }

    ghost function There(n: nat): Place
      requires Linked()
      reads this
    {
      After(sizes, cur, Used(), resid, n)
    }

    ghost function ZerosAhead(n: nat): Outcome
      requires Linked()
      reads this
    {
      Pieces(sizes, cur, Used(), resid, n)
    }

    /** uiomove is part-way: `got` of ptr's bytes are moved and the rest are still to go,
        with the outcome o and the place p at the end. */
    ghost predicate Moving(flat0: seq<byte>, pos0: nat, offset0: nat, ptr: seq<byte>, got: seq<byte>,
                           o: Outcome, p: Place)
      reads this
    {
      && Linked() && |got| <= |ptr| && |flat| == |flat0| && offset == offset0 + |got| && pos == pos0 + |got|
      && o == Ahead(|ptr| - |got|).Plus(|got|) && p == There(|ptr| - |got|)
      && Progress(rw, flat0, pos0, ptr, got, flat)
    }

    /** One trip round the loop with a non-empty buffer. */
    method MoveSome(ptr: seq<byte>, got: seq<byte>,
                    ghost flat0: seq<byte>, ghost pos0: nat, ghost offset0: nat, ghost o: Outcome, ghost p: Place)
      returns (got': seq<byte>)
      requires Moving(flat0, pos0, offset0, ptr, got, o, p) && |got| < |ptr| && resid > 0 && iovs[cur].len > 0
      modifies this
      ensures |got| < |got'| && Moving(flat0, pos0, offset0, ptr, got', o, p)
    {
      hide Store, Progress, Moves, After;
      var n := |ptr| - |got|;
      var size := Min(iovs[cur].len, n);
      ghost var flatB := flat;
      MovesChunk(sizes, cur, Used(), resid, n, size);
      var chunk := MoveChunk(ptr[|got|..|got| + size]);
      ProgressStep(rw, flat0, pos0, ptr, got, flatB, chunk, flat);
      got' := got + chunk;
    }

    /** One trip round the loop with an empty buffer; it may be the last. */
    method NextIovec(ptr: seq<byte>, got: seq<byte>,
                     ghost flat0: seq<byte>, ghost pos0: nat, ghost offset0: nat, ghost o: Outcome, ghost p: Place)
      returns (panicked: bool)
      requires Moving(flat0, pos0, offset0, ptr, got, o, p) && |got| < |ptr| && resid > 0 && iovs[cur].len == 0
      modifies this`cur
      ensures panicked ==> o.Panic?
      ensures !panicked ==> cur == old(cur) + 1 && Moving(flat0, pos0, offset0, ptr, got, o, p)
    {
      hide Store, Progress, Moves, After;
      MovesSkip(sizes, cur, resid, |ptr| - |got|);
      assert Adjacent(cur);
      panicked := cur + 1 == |iovs|;
      if !panicked {
        cur := cur + 1;
      }
    }

    /** uiomove(ptr, |ptr|, uio): what it moves, what it leaves of the residue and whether it
        runs out of buffers are as `Moves` says, and the bytes are those of the buffers in
        order. */
    method Uiomove(ptr: seq<byte>) returns (panicked: bool, out: seq<byte>)
      requires Linked()
      modifies this
      ensures panicked <==> old(Ahead(|ptr|)).Panic?
      ensures !panicked ==> Transferred(old(Ahead(|ptr|)), ptr, out) && Place(cur, Used()) == old(There(|ptr|))
    {
      hide Store, Adjacent;
      ghost var flat0, pos0, offset0, o, p := flat, pos, offset, Ahead(|ptr|), There(|ptr|);
      StoreNothing(flat, pos);
      var got := [];
      panicked := false;
      while |got| < |ptr| && resid > 0
        invariant Moving(flat0, pos0, offset0, ptr, got, o, p)
        decreases |ptr| - |got|, |iovs| - cur
      {
        if iovs[cur].len == 0 {
          panicked := NextIovec(ptr, got, flat0, pos0, offset0, o, p);
          if panicked {
            return true, ptr;
          }
        } else {
          got := MoveSome(ptr, got, flat0, pos0, offset0, o, p);
        }
      }
      out := got + ptr[|got|..];
    }

    /** uiomove for the requests that `MovesExactly` singles out. */
    method MoveExact(ptr: seq<byte>) returns (out: seq<byte>)
      requires Valid() && Exact(sizes, cur, Used(), resid, |ptr|)
      modifies this
      ensures Valid() && Transferred(Done(Min(|ptr|, old(resid)), old(resid) - Min(|ptr|, old(resid))), ptr, out)
    {
      hide Store, Boundary, Exact;
      RoomLeft(cur);
      ExactMoves(sizes, cur, Used(), resid, |ptr|);
      var panicked;
      panicked, out := Uiomove(ptr);
    }

    /** The buffers from the current one on reach to the end of the flat buffer. */
    lemma RoomLeft(i: nat)
      requires Linked() && cur <= i < |iovs|
      ensures Room(sizes, i, if i == cur then Used() else 0) == |flat| - iovs[i].base
      decreases |iovs| - i
    {
      if i + 1 < |iovs| {
        RoomLeft(i + 1);
        assert Adjacent(i);
      }
    }

    /** A request within the residue: what callers ask for. */
    method Move(ptr: seq<byte>) returns (out: seq<byte>)
      requires Valid() && |ptr| <= resid
      modifies this
      ensures Valid() && resid == old(resid) - |ptr| && offset == old(offset) + |ptr| && pos == old(pos) + |ptr|
      ensures rw == READ ==> flat == Store(old(flat), old(pos), ptr) && out == ptr
      ensures rw == WRITE ==> flat == old(flat) && out == flat[old(pos)..pos]
    {
      out := MoveExact(ptr);
      assert ptr[..|ptr|] == ptr;
    }

    /** As many bytes as o says went between the kernel buffer and the flat buffer. */
    twostate predicate Transferred(o: Outcome, ptr: seq<byte>, out: seq<byte>)
      requires o.Done?
      reads this
    {
      var m := o.moved;
      && Linked() && m <= |ptr| && old(pos) + m <= |old(flat)|
      && resid == o.resid && offset == old(offset) + m && pos == old(pos) + m
      && (rw == READ ==> flat == Store(old(flat), old(pos), ptr[..m]) && out == ptr)
      && (rw == WRITE ==> flat == old(flat) && out == flat[old(pos)..old(pos) + m] + ptr[m..])
    }

    /** uiomovezeros: zeros are moved from a 16-byte buffer. */
    method Uiomovezeros(n: nat) returns (panicked: bool)
      requires Linked() && rw == READ
      modifies this
      ensures panicked <==> old(ZerosAhead(n)).Panic?
      ensures !panicked ==> ZerosMoved(old(ZerosAhead(n)))
    {
      hide Store, Moves, After, Pieces, Adjacent;
      var left := n;
      ghost var flat0, pos0, done, o := flat, pos, 0, ZerosAhead(n);
      StoreNothing(flat, pos);
      while left > 0
        invariant Linked() && 0 <= left && 0 <= done && o == ZerosAhead(left).Plus(done)
        invariant offset == old(offset) + done && pos == pos0 + done
        invariant pos0 + done <= |flat0| && flat == Store(flat0, pos0, Zeros(done))
      {
        var amt := Min(16, left);
        PiecesStep(sizes, cur, Used(), resid, left);
        ghost var m := Ahead(amt);
        var out;
        panicked, out := Uiomove(Zeros(amt));
        if panicked {
          return;
        }
        assert Zeros(amt)[..m.moved] == Zeros(m.moved);
        ZerosStored(flat0, pos0, done, m.moved);
        done := done + m.moved;
        left := left - amt;
      }
      PiecesNone(sizes, cur, Used(), resid);
      panicked := false;
    }

    /** As many zeros as o says have gone out. */
    twostate predicate ZerosMoved(o: Outcome)
      requires o.Done?
      reads this
    {
      && Linked() && old(pos) + o.moved <= |old(flat)|
      && resid == o.resid && offset == old(offset) + o.moved && pos == old(pos) + o.moved
      && flat == Store(old(flat), old(pos), Zeros(o.moved))
    }

    /** Zeros within the residue. */
    method MoveZeros(n: nat)
      requires Valid() && rw == READ && n <= resid
      modifies this
      ensures Valid() && resid == old(resid) - n && offset == old(offset) + n && pos == old(pos) + n
      ensures flat == Store(old(flat), old(pos), Zeros(n))
    {
      hide Store, Boundary;
      RoomLeft(cur);
      PiecesExactly(sizes, cur, Used(), resid, n);
      var panicked := Uiomovezeros(n);
    }
  }

  lemma ZerosStored(flat: seq<byte>, pos: nat, m: nat, n: nat)
    requires pos + m + n <= |flat|
    ensures Store(Store(flat, pos, Zeros(m)), pos + m, Zeros(n)) == Store(flat, pos, Zeros(m + n))
  {
    StoreStore(flat, pos, Zeros(m), Zeros(n));
    assert Zeros(m) + Zeros(n) == Zeros(m + n);
  }

  lemma MovesChunk(sizes: seq<nat>, cur: nat, used: nat, resid: nat, n: nat, size: nat)
    requires 0 < resid < SIZE_T && cur < |sizes| && used <= sizes[cur] && 0 < size == Min(sizes[cur] - used, n)
    ensures Moves(sizes, cur, used, resid, n) ==
            Moves(sizes, cur, used + size, (resid - size) % 0x1_0000_0000, n - size).Plus(size)
    ensures After(sizes, cur, used, resid, n) ==
            After(sizes, cur, used + size, (resid - size) % 0x1_0000_0000, n - size)
  {
  }

  lemma MovesSkip(sizes: seq<nat>, cur: nat, resid: nat, n: nat)
    requires 0 < resid < SIZE_T && 0 < n && cur < |sizes|
    ensures Moves(sizes, cur, sizes[cur], resid, n) == Moves(sizes, cur + 1, 0, resid, n)
    ensures After(sizes, cur, sizes[cur], resid, n) == After(sizes, cur + 1, 0, resid, n)
    ensures cur + 1 == |sizes| ==> Moves(sizes, cur, sizes[cur], resid, n) == Panic
  {
  }

  lemma PiecesStep(sizes: seq<nat>, cur: nat, used: nat, resid: nat, n: nat)
    requires resid < SIZE_T && (cur < |sizes| ==> used <= sizes[cur]) && 0 < n
    ensures var amt, o := Min(16, n), Moves(sizes, cur, used, resid, Min(16, n));
            var p := After(sizes, cur, used, resid, amt);
            Pieces(sizes, cur, used, resid, n) ==
            if o.Panic? then Panic else Pieces(sizes, p.cur, p.used, o.resid, n - amt).Plus(o.moved)
  {
  }

  lemma PiecesNone(sizes: seq<nat>, cur: nat, used: nat, resid: nat)
    requires resid < SIZE_T && (cur < |sizes| ==> used <= sizes[cur])
    ensures Pieces(sizes, cur, used, resid, 0) == Done(0, resid)
  {
  }

  /** The transfer so far: `got` went out of src (READ) or came in (WRITE). */
  ghost predicate Progress(rw: Direction, flat0: seq<byte>, pos: nat, src: seq<byte>, got: seq<byte>, flat: seq<byte>) {
    && pos + |got| <= |flat0| && |got| <= |src|
    && (rw == READ ==> got == src[..|got|] && flat == Store(flat0, pos, got))
    && (rw == WRITE ==> flat == flat0 && got == flat0[pos..pos + |got|])
  }

  lemma ProgressStep(rw: Direction, flat0: seq<byte>, pos: nat, src: seq<byte>, got: seq<byte>,
                     flat: seq<byte>, chunk: seq<byte>, flat': seq<byte>)
    requires Progress(rw, flat0, pos, src, got, flat)
    requires pos + |got| + |chunk| <= |flat0| && |got| + |chunk| <= |src|
    requires rw == READ ==> chunk == src[|got|..|got| + |chunk|] && flat' == Store(flat, pos + |got|, chunk)
    requires rw == WRITE ==> flat' == flat && chunk == flat[pos + |got|..pos + |got| + |chunk|]
    ensures Progress(rw, flat0, pos, src, got + chunk, flat')
  {
    if rw == READ {
      StoreStore(flat0, pos, got, chunk);
    }
  }
}
