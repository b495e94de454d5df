/** syscall/runprogram.c and vm/copyinout.c: program arguments on the user stack.

    User memory is a map from addresses to bytes. The pages of the stack are there; below
    them copying faults, and runprogram does not look at the result.
  */
module UserStack {
  import opened Bytes
  import opened Errno

  const USERSPACETOP: nat := 0x8000_0000
  const USERSTACK: nat := 0x8000_0000
  /** DUMBVM_STACKPAGES pages. */
  const STACKBYTES: nat := 49152

  const STACKBOTTOM: nat := USERSTACK - STACKBYTES

  type Memory = map<nat, byte>

  predicate OnStack(a: nat) {
    STACKBOTTOM <= a < USERSTACK
  }

  /** Nothing is mapped but the stack. */
  ghost predicate StackOnly(m: Memory) {
    forall a | a in m :: OnStack(a)
  }

  function At(m: Memory, a: nat): byte {
    if a in m then m[a] else 0
  }

  /** The string at p, as a program reads it. */
  function CString(m: Memory, p: nat): (s: seq<byte>)
    decreases USERSTACK - p
  {
    if p >= USERSTACK || At(m, p) == 0 then [] else [At(m, p)] + CString(m, p + 1)
  }

  /** The big-endian word at a. */
  function WordIn(m: Memory, a: nat): nat {
    At(m, a) * 0x100_0000 + At(m, a + 1) * 0x1_0000 + At(m, a + 2) * 0x100 + At(m, a + 3)
  }

  /** The strings of the array of pointers at sp, up to the null pointer. */
  function Argv(m: Memory, sp: nat): (s: seq<seq<byte>>)
    decreases USERSTACK - sp
  {
    if sp >= USERSTACK || WordIn(m, sp) == 0 then [] else [CString(m, WordIn(m, sp))] + Argv(m, sp + 4)
  }

  /** The bytes of the strings from i on, each with its NUL. */
  function Length(args: seq<seq<byte>>, i: nat): nat
    requires i <= |args|
    decreases |args| - i
  {
    if i == |args| then 0 else |args[i]| + 1 + Length(args, i + 1)
  }

  ghost predicate NulFree(args: seq<seq<byte>>) {
    forall i | 0 <= i < |args| :: 0 !in args[i]
  }

  /** Memory at a holds s and a NUL. */
  ghost predicate Holds(m: Memory, a: nat, s: seq<byte>) {
    (forall j | 0 <= j < |s| :: At(m, a + j) == s[j]) && At(m, a + |s|) == 0
  }

  lemma {:induction false} HoldsString(m: Memory, a: nat, s: seq<byte>)
    requires Holds(m, a, s) && 0 !in s && a + |s| < USERSTACK
    ensures CString(m, a) == s
    decreases |s|
  {
    if s != [] {
      assert s[0] in s && At(m, a + 0) == s[0];
      forall j | 0 <= j < |s[1..]| ensures At(m, a + 1 + j) == s[1..][j] {
        assert At(m, a + (j + 1)) == s[j + 1];
      }
      HoldsString(m, a + 1, s[1..]);
    }
  }

  /** m' differs from m only below `top`, at or above `bottom`. */
  ghost predicate OnlyIn(m: Memory, m': Memory, bottom: nat, top: nat) {
    forall a: nat | !(bottom <= a < top) :: At(m', a) == At(m, a)
  }

  /** The user range starts in user space and does not wrap around. */
  predicate Passes(userptr: nat, len: nat) {
    if len == 0 then userptr == 0 else userptr < USERSPACETOP && userptr + len <= 0x1_0000_0000
  }

  /** How much of it can be copied: up to the top of user space. */
  function StopLen(userptr: nat, len: nat): nat
    requires Passes(userptr, len)
  {
    if 0 < len && userptr + len <= USERSPACETOP then len else USERSPACETOP - userptr
  }

  /** What copying a string of n bytes and a NUL into a range answers. */
  function StringResult(n: nat, maxlen: nat, stoplen: nat): Errno {
    if n < maxlen && n < stoplen then OK else if stoplen < maxlen then EFAULT else ENAMETOOLONG
  }

  /** How many bytes are written if none of them faults. */
  function Reach(n: nat, maxlen: nat, stoplen: nat): nat {
    if n < maxlen && n < stoplen then n + 1 else if stoplen < maxlen then stoplen else maxlen
  }

  /** What copyoutstr answers. */
  function OutResult(n: nat, userdest: nat, len: nat): Errno {
    if !Passes(userdest, len) then EFAULT
    else if !AllOnStack(userdest, Reach(n, len, StopLen(userdest, len))) then EFAULT
    else StringResult(n, len, StopLen(userdest, len))
  }

  predicate AllOnStack(dest: nat, len: nat) {
    len == 0 || (STACKBOTTOM <= dest && dest + len <= USERSTACK)
  }

  class User {
    var mem: Memory

    constructor (mem: Memory)
      ensures this.mem == mem
    {
      this.mem := mem;
    }

    /** copycheck, in 32-bit arithmetic. A length of 0 is refused, except at address 0, where
        the last address wraps around to the highest. */
    static method CopyCheck(userptr: nat, len: nat) returns (result: Errno, stoplen: nat)
      requires userptr < 0x1_0000_0000 && len < 0x1_0000_0000
      ensures result == if Passes(userptr, len) then OK else EFAULT
      ensures result == OK ==> stoplen == StopLen(userptr, len)
    {
      stoplen := len;
      var bot := userptr;
      var top := (bot + len + 0xffff_ffff) % 0x1_0000_0000;
      if top < bot {
        return EFAULT, stoplen;
      }
      if bot >= USERSPACETOP {
        return EFAULT, stoplen;
      }
      if top >= USERSPACETOP {
        stoplen := USERSPACETOP - bot;
      }
      return OK, stoplen;
    }

    /** copystr: bytes are copied up to and including the first NUL, unless one faults. */
    method CopyStr(dest: nat, src: seq<byte>, maxlen: nat, stoplen: nat) returns (result: Errno, gotlen: nat)
      requires 0 !in src
      modifies this
      ensures result ==
              if AllOnStack(dest, Reach(|src|, maxlen, stoplen)) then StringResult(|src|, maxlen, stoplen) else EFAULT
      ensures result == OK ==> gotlen == |src| + 1 && Holds(mem, dest, src)
      ensures OnlyIn(old(mem), mem, dest, dest + Reach(|src|, maxlen, stoplen))
      ensures OnlyIn(old(mem), mem, STACKBOTTOM, USERSTACK) && (old(StackOnly(mem)) ==> StackOnly(mem))
    {
      gotlen := 0;
      var i := 0;
      while i < maxlen && i < stoplen
        invariant 0 <= i <= |src| && i <= maxlen && i <= stoplen && AllOnStack(dest, i)
        invariant forall j | 0 <= j < i :: At(mem, dest + j) == src[j]
        invariant OnlyIn(old(mem), mem, dest, dest + Reach(|src|, maxlen, stoplen))
        invariant OnlyIn(old(mem), mem, STACKBOTTOM, USERSTACK) && (old(StackOnly(mem)) ==> StackOnly(mem))
        decreases maxlen - i
      {
        if !OnStack(dest + i) {
          // the fault handler, by way of copyfail
          return EFAULT, 0;
        }
        var c: byte := if i < |src| then src[i] else 0;
        mem := mem[dest + i := c];
        if c == 0 {
          return OK, i + 1;
        }
        i := i + 1;
      }
      result := if stoplen < maxlen then EFAULT else ENAMETOOLONG;
    }

    /** copyoutstr */
    method CopyOutStr(src: seq<byte>, userdest: nat, len: nat) returns (result: Errno, gotlen: nat)
      requires 0 !in src && userdest < 0x1_0000_0000 && len < 0x1_0000_0000
      modifies this
      ensures result == OutResult(|src|, userdest, len)
      ensures result == OK ==> gotlen == |src| + 1 && Holds(mem, userdest, src)
      ensures OnlyIn(old(mem), mem, userdest, userdest + len) && OnlyIn(old(mem), mem, STACKBOTTOM, USERSTACK)
      ensures old(StackOnly(mem)) ==> StackOnly(mem)
    {
      var stoplen;
      gotlen := 0;
      result, stoplen := CopyCheck(userdest, len);
      if result != OK {
        return;
      }
      result, gotlen := CopyStr(userdest, src, len, stoplen);
    }

    /** copyout of one word. */
    method CopyOutWord(w: word, userdest: nat) returns (result: Errno)
      requires userdest < 0x1_0000_0000
      modifies this
      ensures result == if AllOnStack(userdest, 4) then OK else EFAULT
      ensures result == OK ==> WordIn(mem, userdest) == w && OnlyIn(old(mem), mem, userdest, userdest + 4)
      ensures result != OK ==> mem == old(mem)
      ensures old(StackOnly(mem)) ==> StackOnly(mem)
    {
      var stoplen;
      result, stoplen := CopyCheck(userdest, 4);
      if result != OK {
        return;
      }
      if stoplen != 4 {
        return EFAULT;
      }
      if !OnStack(userdest) {
        // the first byte faults
        return EFAULT;
      }
      mem := mem[userdest := ByteOf(w, 0)][userdest + 1 := ByteOf(w, 1)];
      mem := mem[userdest + 2 := ByteOf(w, 2)][userdest + 3 := ByteOf(w, 3)];
      WordBytes(w);
    }

    /** The strings from i on are in place, one after the other up to the top. */
    ghost predicate Placed(args: seq<seq<byte>>, argv: seq<nat>, i: nat)
      requires i <= |args| == |argv|
      reads this
    {
      forall k | i <= k < |args| :: InPlace(mem, args, argv, k)
    }

    /** The first loop of runprogram: the strings, last one first. */
    method CopyStrings(args: seq<seq<byte>>) returns (stackptr: nat, argv: seq<nat>, total: nat)
      requires NulFree(args) && Length(args, 0) < USERSTACK && StackOnly(mem)
      modifies this
      ensures StackOnly(mem) && |argv| == |args| && total == Length(args, 0) && stackptr == USERSTACK - total
      ensures forall k | 0 <= k < |args| :: argv[k] < USERSTACK
      ensures Length(args, 0) <= STACKBYTES ==> Placed(args, argv, 0)
    {
      hide Holds, OutResult;
      stackptr, total := USERSTACK, 0;
      argv := seq(|args|, _ => 0);
      var i := |args|;
      while i > 0
        invariant 0 <= i <= |args| == |argv| && total == Length(args, i) <= Length(args, 0)
        invariant stackptr == USERSTACK - total && StackOnly(mem)
        invariant forall k | i <= k < |args| :: argv[k] < USERSTACK
        invariant Length(args, 0) <= STACKBYTES ==> Placed(args, argv, i)
      {
        i := i - 1;
        LengthMono(args, i);
        var len := |args[i]| + 1;
        total := total + len;
        stackptr := stackptr - len;
        ghost var m, argv0 := mem, argv;
        var r, got := CopyOutStr(args[i], stackptr, len);
        argv := argv[i := stackptr];
        if Length(args, 0) <= STACKBYTES {
          FitsOut(|args[i]|, stackptr);
          assert InPlace(mem, args, argv, i);
          forall k | i < k < |args| ensures InPlace(mem, args, argv, k) {
            assert InPlace(m, args, argv0, k);
            LengthLater(args, i, k);
            HoldsKept(m, mem, stackptr, stackptr + len, argv[k], args[k]);
          }
        }
      }
    }

    /** The argument copying of runprogram. A program that follows the final stack pointer
        finds exactly its arguments if and only if they fit on the stack. Then the pointers
        lie below the strings. */
    method PushArgs(args: seq<seq<byte>>) returns (stackptr: nat)
      requires NulFree(args) && Needed(args) < USERSTACK && StackOnly(mem)
      modifies this
      ensures stackptr == USERSTACK - Needed(args) && stackptr % 4 == 0
      ensures stackptr + 4 * (|args| + 1) <= USERSTACK - Length(args, 0)
      ensures StackOnly(mem) && OnlyIn(old(mem), mem, STACKBOTTOM, USERSTACK)
      ensures Argv(mem, stackptr) == args <==> Needed(args) <= STACKBYTES
      ensures Needed(args) <= STACKBYTES ==> WordIn(mem, stackptr + 4 * |args|) == 0
      ensures Needed(args) <= STACKBYTES ==>
                forall k | 0 <= k < |args| :: WordIn(mem, stackptr + 4 * k) == USERSTACK - Length(args, k)
    {
      hide WordIn, Holds, Length, Argv;
      var argv, total;
      stackptr, argv, total := CopyStrings(args);
      stackptr := stackptr - (4 - total % 4);
      assert stackptr % 4 == 0;
      stackptr := CopyPointers(args, argv, stackptr);
      if Needed(args) <= STACKBYTES {
        ArgvIs(mem, stackptr, args, argv, 0);
        assert args[0..] == args;
        forall k | 0 <= k < |args| ensures WordIn(mem, stackptr + 4 * k) == USERSTACK - Length(args, k) {
          assert Pointer(mem, stackptr, argv, k) && InPlace(mem, args, argv, k);
        }
        assert Pointer(mem, stackptr, argv, |args|);
      } else {
        NothingThere(mem, stackptr);
        NoArgsFit(args);
      }
    }

    /** The second loop: the null pointer, then the pointers, last one first. */
    method CopyPointers(args: seq<seq<byte>>, argv: seq<nat>, base: nat) returns (stackptr: nat)
      requires |argv| == |args| && (forall k | 0 <= k < |args| :: argv[k] < USERSTACK)
      requires 4 * (|args| + 1) < base <= USERSTACK - Length(args, 0) && StackOnly(mem)
      requires Length(args, 0) <= STACKBYTES ==> Placed(args, argv, 0)
      modifies this
      ensures stackptr == base - 4 * (|args| + 1) && StackOnly(mem)
      ensures STACKBOTTOM <= stackptr ==>
                Placed(args, argv, 0) && forall k: nat | k <= |args| :: Pointer(mem, stackptr, argv, k)
    {
      hide WordIn, Holds, Length;
      var n := |args|;
      ghost var sp := base - 4 * (n + 1);
      stackptr := base;
      var i := n + 1;
      while i > 0
        invariant 0 <= i <= n + 1 && stackptr == sp + 4 * i && StackOnly(mem)
        invariant STACKBOTTOM <= sp ==>
                    Placed(args, argv, 0) && forall k: nat | i <= k <= n :: Pointer(mem, sp, argv, k)
      {
        i := i - 1;
        stackptr := stackptr - 4;
        ghost var m := mem;
        var r := CopyOutWord(if i < n then argv[i] else 0, stackptr);
        if STACKBOTTOM <= sp {
          forall k | 0 <= k < n ensures InPlace(mem, args, argv, k) {
            assert InPlace(m, args, argv, k);
            LengthMono(args, k);
            HoldsKept(m, mem, stackptr, stackptr + 4, argv[k], args[k]);
          }
          forall k: nat | i < k <= n ensures Pointer(mem, sp, argv, k) {
            assert Pointer(m, sp, argv, k);
            WordKept(m, mem, stackptr, stackptr + 4, sp + 4 * k);
          }
        }
      }
    }
  }

  /** Pointer k of the array at sp is the address of string k, or null after the last. */
  ghost predicate Pointer(m: Memory, sp: nat, argv: seq<nat>, k: nat) {
    WordIn(m, sp + 4 * k) == if k < |argv| then argv[k] else 0
  }

  /** The bytes that the strings, the padding and the pointers take. */
  function Needed(args: seq<seq<byte>>): nat {
    Length(args, 0) + (4 - Length(args, 0) % 4) + 4 * (|args| + 1)
  }

  lemma FitsOut(n: nat, userdest: nat)
    requires STACKBOTTOM <= userdest && userdest + n + 1 <= USERSTACK
    ensures OutResult(n, userdest, n + 1) == OK
  {
  }

  /** Below the stack there is nothing to follow. */
  lemma NothingThere(m: Memory, sp: nat)
    requires StackOnly(m) && sp % 4 == 0 && sp < STACKBOTTOM
    ensures Argv(m, sp) == []
  {
  }

  lemma NoArgsFit(args: seq<seq<byte>>)
    requires Needed(args) > STACKBYTES
    ensures args != []
  {
  }

  lemma WordKept(m: Memory, m': Memory, bottom: nat, top: nat, a: nat)
    requires OnlyIn(m, m', bottom, top) && (top <= a || a + 4 <= bottom)
    ensures WordIn(m', a) == WordIn(m, a)
  {
  }

  /** String k is where its pointer says. */
  ghost predicate InPlace(m: Memory, args: seq<seq<byte>>, argv: seq<nat>, k: nat)
    requires k < |args| == |argv|
  {
    argv[k] == USERSTACK - Length(args, k) && Length(args, k) <= STACKBYTES && Holds(m, argv[k], args[k])
  }

  lemma {:induction false} ArgvIs(m: Memory, sp: nat, args: seq<seq<byte>>, argv: seq<nat>, i: nat)
    requires i <= |args| == |argv| && NulFree(args) && sp + 4 * (|args| + 1) <= USERSTACK
    requires forall k: nat | k < |args| :: InPlace(m, args, argv, k)
    requires forall k: nat | k <= |args| :: Pointer(m, sp, argv, k)
    ensures Argv(m, sp + 4 * i) == args[i..]
    decreases |args| - i
  {
    hide WordIn, Holds, CString;
    assert Pointer(m, sp, argv, i);
    if i < |args| {
      assert InPlace(m, args, argv, i);
      LengthLater(args, i, |args|);
      HoldsString(m, argv[i], args[i]);
      ArgvIs(m, sp, args, argv, i + 1);
      assert args[i..] == [args[i]] + args[i + 1..];
    }
  }

  lemma {:induction false} LengthMono(args: seq<seq<byte>>, i: nat)
    requires i <= |args|
    ensures Length(args, i) <= Length(args, 0)
  {
    if i > 0 {
      LengthMono(args, i - 1);
    }
  }

  lemma {:induction false} LengthLater(args: seq<seq<byte>>, i: nat, k: nat)
    requires i < k <= |args|
    ensures Length(args, k) + |args[i]| + 1 <= Length(args, i)
    decreases k - i
  {
    if k > i + 1 {
      LengthLater(args, i, k - 1);
    }
  }

  lemma HoldsKept(m: Memory, m': Memory, bottom: nat, top: nat, a: nat, s: seq<byte>)
    requires Holds(m, a, s) && OnlyIn(m, m', bottom, top) && (top <= a || a + |s| < bottom)
    ensures Holds(m', a, s)
  {
  }
}
