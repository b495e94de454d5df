/** Machine bytes, 32-bit words and their bits, shared by the other modules.

    The kernel manipulates bits with masks such as `1 << j`. Here bit j of a
    natural number is read, set and cleared by recursion on j, which is the same
    arithmetic written without machine words.
  */
module Bytes {

  type byte = x: int | 0 <= x < 256
  type word = x: int | 0 <= x < 0x1_0000_0000

  function Pow2(n: nat): (p: nat)
    ensures p >= 1
  {
    if n == 0 then 1 else 2 * Pow2(n - 1)
  }

  /** Integer division rounding up: the kernel's DIVROUNDUP. */
  function DivRoundUp(a: nat, b: nat): (q: nat)
    requires b > 0
    ensures a <= q * b < a + b
  {
    assert (a + b - 1) == ((a + b - 1) / b) * b + (a + b - 1) % b;
    (a + b - 1) / b
  }

  /** `w & (1 << j)` is non-zero. */
  predicate Bit(w: nat, j: nat)
    decreases j
  {
    if j == 0 then w % 2 == 1 else Bit(w / 2, j - 1)
  }

  /** `w | (1 << j)` */
  function SetBit(w: nat, j: nat): nat
    decreases j
  {
    if j == 0 then w - w % 2 + 1 else 2 * SetBit(w / 2, j - 1) + w % 2
  }

  /** `w & ~(1 << j)` */
  function ClearBit(w: nat, j: nat): nat
    decreases j
  {
    if j == 0 then w - w % 2 else 2 * ClearBit(w / 2, j - 1) + w % 2
  }

  lemma {:induction false} BitOfSetBit(w: nat, j: nat, k: nat)
    ensures Bit(SetBit(w, j), k) == (j == k || Bit(w, k))
    decreases j
  {
    if j > 0 && k > 0 {
      BitOfSetBit(w / 2, j - 1, k - 1);
    }
  }

  lemma {:induction false} BitOfClearBit(w: nat, j: nat, k: nat)
    ensures Bit(ClearBit(w, j), k) == (j != k && Bit(w, k))
    decreases j
  {
    if j > 0 && k > 0 {
      BitOfClearBit(w / 2, j - 1, k - 1);
    }
  }

  lemma {:induction false} BitsStayInRange(w: nat, j: nat, n: nat)
    requires w < Pow2(n) && j < n
    ensures SetBit(w, j) < Pow2(n)
    ensures ClearBit(w, j) <= w
    decreases j
  {
    if j > 0 {
      BitsStayInRange(w / 2, j - 1, n - 1);
    }
  }

  lemma {:induction false} BitOfZero(j: nat)
    ensures !Bit(0, j)
  {
    if j > 0 {
      BitOfZero(j - 1);
    }
  }

  lemma {:induction false} AllOnesBit(w: nat, n: nat, j: nat)
    requires w == Pow2(n) - 1 && j < n
    ensures Bit(w, j)
    decreases j
  {
    assert Pow2(n) == 2 * Pow2(n - 1);
    if j > 0 {
      AllOnesBit(w / 2, n - 1, j - 1);
    }
  }

  lemma {:induction false} SomeBitClear(w: nat, n: nat) returns (j: nat)
    requires w < Pow2(n) - 1
    ensures j < n && !Bit(w, j)
    decreases n
  {
    assert Pow2(n) == 2 * Pow2(n - 1);
    if w % 2 == 0 {
      j := 0;
    } else {
      j := SomeBitClear(w / 2, n - 1);
      j := j + 1;
    }
  }

  /** A word is all ones exactly when each of its bits is set. */
  lemma AllBitsSet(w: nat, n: nat)
    requires w < Pow2(n)
    ensures w == Pow2(n) - 1 <==> forall j | 0 <= j < n :: Bit(w, j)
  {
    if w == Pow2(n) - 1 {
      forall j | 0 <= j < n ensures Bit(w, j) {
        AllOnesBit(w, n, j);
      }
    } else {
      var j := SomeBitClear(w, n);
    }
  }

  lemma ByteRange()
    ensures Pow2(8) == 256
  {
    assert Pow2(4) == 16;
  }

  /** Byte k of a word, most significant first. */
  function ByteOf(w: word, k: nat): byte {
    if k == 0 then w / 0x100_0000 else if k == 1 then w / 0x1_0000 % 256
    else if k == 2 then w / 0x100 % 256 else w % 256
  }

  lemma WordBytes(w: word)
    ensures (ByteOf(w, 0) as int) * 0x100_0000 + (ByteOf(w, 1) as int) * 0x1_0000 +
            (ByteOf(w, 2) as int) * 0x100 + ByteOf(w, 3) == w
  {
    var q, p := w / 0x100, w / 0x100 / 0x100;
    Quotient(w, p, 0x100 * (q % 0x100) + w % 0x100);
    Quotient(q, p / 0x100, 0x100 * (p % 0x100) + q % 0x100);
    TopByte(w, q);
  }

  lemma Quotient(w: nat, p: nat, rest: nat)
    requires w == 0x1_0000 * p + rest && rest < 0x1_0000
    ensures w / 0x1_0000 == p
  {
  }

  lemma TopByte(w: nat, q: nat)
    requires q == w / 0x100
    ensures w / 0x100_0000 == q / 0x1_0000
  {
  }
}
