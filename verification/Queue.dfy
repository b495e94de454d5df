/** lib/queue.c: a ring buffer that grows.

    One slot is always left free, so that a full buffer can be told from an empty one.
  */
module Queues {
  import opened Errno

  /** (x + 1) % size, as the code steps around the ring. */
  lemma Wrap(x: nat, size: nat)
    requires x < size
    ensures (x + 1) % size == if x + 1 == size then 0 else x + 1
  {
    if x + 1 == size {
      assert (x + 1) % size == size % size;
    } else {
      Small(x + 1, size);
    }
  }

  lemma Small(x: nat, size: nat)
    requires x < size
    ensures x % size == x
  {
  }

  function Succ(x: nat, size: nat): (y: nat)
    requires x < size
    ensures y == if x + 1 == size then 0 else x + 1
  {
    Wrap(x, size);
    (x + 1) % size
  }

  /** What lies between r and w, going around. */
  function Ring<T>(d: seq<T>, r: nat, w: nat): (s: seq<T>)
    requires r < |d| && w < |d|
    ensures |s| == if r <= w then w - r else |d| - r + w
  {
    if r <= w then d[r..w] else d[r..] + d[..w]
  }

  /** The size that doubling reaches. */
  function Grown(size: nat, target: nat): (n: nat)
    requires 0 < size
    ensures n >= size && n >= target && (size < target ==> n < 2 * target)
    decreases if size < target then target - size else 0
  {
    if size >= target then size else Grown(2 * size, target)
  }

  /** A 32-bit int after doubling. */
  function Int32(n: nat): int
    requires n < 0x1_0000_0000
  {
    if n < 0x8000_0000 then n else n - 0x1_0000_0000
  }

  /** nsize * sizeof(void *), in 32 bits. */
  function BufferBytes(nsize: nat): nat {
    4 * nsize % 0x1_0000_0000
  }

  /** The loop that doubles the size. Its assertion fails if and only if the size would
      leave the range of an int. */
  method Doubled(size: nat, target: nat) returns (nsize: int, panicked: bool)
    requires 0 < size < 0x8000_0000 && target < 0x8000_0000
    ensures panicked <==> Grown(size, target) >= 0x8000_0000
    ensures !panicked ==> nsize == Grown(size, target)
  {
    nsize := size;
    panicked := false;
    while nsize < target
      invariant 0 < nsize < 0x8000_0000 && Grown(nsize, target) == Grown(size, target)
      decreases target - nsize
    {
      nsize := Int32(2 * nsize);
      if !(nsize > 0) {
        return nsize, true;
      }
    }
  }

  /** Growing from `size` to hold `target` comes to grief: the assertion fails, or, if there is
      memory, the buffer is too short for the new size. */
  predicate Breaks(size: nat, target: nat, mem: bool)
    requires 0 < size
  {
    Grown(size, target) >= if mem then 0x4000_0000 else 0x8000_0000
  }

  /** Growing gets through, with a buffer that holds the new size, if and only if that size
      is below 2^30. */
  lemma GrowsExactly(size: nat, target: nat)
    requires 0 < size < 0x8000_0000 && target < 0x8000_0000
    ensures (Grown(size, target) < 0x8000_0000 && BufferBytes(Grown(size, target)) >= 4 * Grown(size, target)) <==>
            Grown(size, target) < 0x4000_0000
  {
    var n := Grown(size, target);
    assert n < 0x4000_0000 ==> 4 * n < 0x1_0000_0000;
    assert BufferBytes(n) < 0x1_0000_0000;
  }

  /** A queue of one slot asked for 2^30: it gets a buffer of 0 bytes. */
  lemma NoBytesExample(target: nat)
    requires target == 0x4000_0000
    ensures Grown(1, target) == target && BufferBytes(target) == 0
  {
    GrownOn(1, target);
    GrownOn(32, target);
    GrownOn(1024, target);
    GrownOn(32 * 1024, target);
    GrownOn(1024 * 1024, target);
    GrownOn(32 * 1024 * 1024, target);
  }

  /** Five doublings. */
  lemma GrownOn(size: nat, target: nat)
    requires 0 < size && 32 * size <= target
    ensures Grown(size, target) == Grown(32 * size, target)
  {
    assert Grown(size, target) == Grown(4 * size, target);
    assert Grown(4 * size, target) == Grown(16 * size, target);
  }

  class Queue<T(0)> {
    var size: nat
    var nextwrite: nat
    var nextread: nat
    var data: array<T>

    ghost predicate Valid()
      reads this
    {
      0 < size == data.Length && size < 0x4000_0000 && nextread < size && nextwrite < size
    }

    /** The queue as a sequence, oldest first. */
    ghost function Contents(): seq<T>
      requires Valid()
      reads this, data
    {
      Ring(data[..], nextread, nextwrite)
    }

    ghost predicate Full()
      requires Valid()
      reads this
    {
      (if nextwrite + 1 == size then 0 else nextwrite + 1) == nextread
    }

    lemma FullLength()
      requires Valid()
      ensures Full() <==> |Contents()| == size - 1
      ensures |Contents()| < size
    {
    }

    /** q_create; a size of 0 would make every later call fail its assertion, and from 2^30
        on the buffer would be too short. */
    constructor (size: nat)
      requires 0 < size < 0x4000_0000
      ensures Valid() && Contents() == [] && fresh(data) && this.size == size
    {
      this.size := size;
      data := new T[size];
      nextread, nextwrite := 0, 0;
    }

    /** q_grow, where `mem` says whether kmalloc succeeds. The elements are added to the new
        buffer one by one; it is never full meanwhile, so q_addtail does not come back
        here, which is also why the mutual recursion ends. `broken` says that the assertion
        failed or that the buffer is too short, which `GrowsExactly` is about. */
    method Grow(target: nat, mem: bool) returns (broken: bool, result: Errno)
      requires Valid() && size < target < 0x8000_0000
      modifies this
      ensures broken <==> Breaks(old(size), target, mem)
      ensures !broken ==> Valid() && Contents() == old(Contents()) && result == (if mem then OK else ENOMEM)
      ensures !broken && !mem ==> data == old(data) && size == old(size)
      ensures !broken && !mem ==> nextread == old(nextread) && nextwrite == old(nextwrite)
      ensures !broken && mem ==> fresh(data) && size == Grown(old(size), target)
      decreases 1
    {
      hide Ring, Succ;
      FullLength();
      var olddata, onr, onw, osize := data, nextread, nextwrite, size;
      ghost var c := Contents();
      var nsize, panicked := Doubled(size, target);
      if panicked {
        return true, ENOMEM;
      }
      if !mem {
        return false, ENOMEM;
      }
      if BufferBytes(nsize) < 4 * nsize {
        return true, OK;
      }
      broken := false;
      size := nsize;
      data := new T[nsize];
      nextread, nextwrite := 0, 0;
      RingNone(data[..], 0);
      var i := onr;
      ghost var k := 0;
      while i != onw
        invariant Valid() && size == nsize && fresh(data) && olddata[..] == old(olddata[..]) && olddata != data
        invariant 0 <= k <= |c| < osize && i < osize && i == (if onr + k < osize then onr + k else onr + k - osize)
        invariant Contents() == c[..k]
        decreases |c| - k
      {
        FullLength();
        RingAt(olddata[..], onr, onw, k);
        var b, r := AddTail(olddata[i], true);
        assert !b && r == OK;
        assert c[..k] + [c[k]] == c[..k + 1];
        i := Succ(i, osize);
        k := k + 1;
      }
      assert c[..k] == c;
      return false, OK;
    }

    /** q_addtail */
    method AddTail(ptr: T, mem: bool) returns (broken: bool, result: Errno)
      requires Valid()
      modifies this, data
      ensures broken <==> old(Full()) && Breaks(old(size), old(size) + 1, mem)
      ensures !broken ==> Valid() && (data == old(data) || fresh(data))
      ensures !broken ==> result == if old(Full()) && !mem then ENOMEM else OK
      ensures !broken ==> Contents() == if result == OK then old(Contents()) + [ptr] else old(Contents())
      ensures !old(Full()) ==> size == old(size) && data == old(data)
      decreases if Full() then 2 else 0
    {
      hide Ring, Succ;
      broken := false;
      var nextnext := Succ(nextwrite, size);
      if nextnext == nextread {
        FullLength();
        broken, result := Grow(size + 1, mem);
        if broken || result != OK {
          return;
        }
        FullLength();
        nextnext := Succ(nextwrite, size);
      }
      RingAdd(data[..], nextread, nextwrite, ptr);
      data[nextwrite] := ptr;
      nextwrite := nextnext;
      result := OK;
    }

    /** q_remhead; its assertion is that the queue is not empty. */
    method RemHead() returns (ret: T)
      requires Valid() && Contents() != []
      modifies this
      ensures Valid() && old(Contents()) == [ret] + Contents() && data == old(data) && size == old(size)
    {
      hide Succ;
      ret := data[nextread];
      nextread := Succ(nextread, size);
    }

    /** q_peek: the oldest element, or the null pointer. */
    method Peek(none: T) returns (ret: T)
      requires Valid()
      ensures ret == if Contents() == [] then none else Contents()[0]
    {
      if nextwrite == nextread {
        ret := none;
      } else {
        ret := data[nextread];
      }
    }

    /** q_empty */
    method Empty() returns (b: bool)
      requires Valid()
      ensures b <==> Contents() == []
    {
      b := nextwrite == nextread;
    }

    /** q_len: by walking around the ring. */
    method Len() returns (count: nat)
      requires Valid()
      ensures count == |Contents()|
    {
      hide Succ;
      count := 0;
      var tmp := nextread;
      while tmp != nextwrite
        invariant tmp < size && 0 <= count <= |Contents()|
        invariant tmp == if nextread + count < size then nextread + count else nextread + count - size
        decreases |Contents()| - count
      {
        tmp := Succ(tmp, size);
        count := count + 1;
      }
    }

    /** q_preallocate */
    method Preallocate(n: nat, mem: bool) returns (broken: bool, result: Errno)
      requires Valid() && n < 0x8000_0000
      modifies this
      ensures broken <==> n > old(size) && Breaks(old(size), n, mem)
      ensures !broken ==> Valid() && Contents() == old(Contents())
      ensures !broken && result == OK ==> size == Grown(old(size), n)
      ensures !broken ==> result == if n > old(size) && !mem then ENOMEM else OK
    {
      broken, result := false, OK;
      if n > size {
        broken, result := Grow(n, mem);
      }
    }
  }

  lemma RingNone<T>(d: seq<T>, r: nat)
    requires r < |d|
    ensures Ring(d, r, r) == []
  {
  }

  lemma RingAt<T>(d: seq<T>, r: nat, w: nat, k: nat)
    requires r < |d| && w < |d| && k < |Ring(d, r, w)|
    ensures Ring(d, r, w)[k] == if r + k < |d| then d[r + k] else d[r + k - |d|]
  {
  }

  lemma RingAdd<T>(d: seq<T>, r: nat, w: nat, x: T)
    requires r < |d| && w < |d| && (if w + 1 == |d| then 0 else w + 1) != r
    ensures Ring(d[w := x], r, if w + 1 == |d| then 0 else w + 1) == Ring(d, r, w) + [x]
  {
  }
}
