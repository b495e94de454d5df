/** lib/bitmap.c: a fixed-size array of bits packed into bytes.

    The class keeps the byte array; its meaning is the set `Marked()` of indices.
  */
module Bitmaps {
  import opened Bytes
  import opened Errno

  const BITS_PER_WORD: nat := 8
  const WORD_ALLBITS: byte := 0xff

  /** Bit i of a packed byte sequence. */
  predicate IsSet(v: seq<byte>, i: nat) {
    i / BITS_PER_WORD < |v| && Bit(v[i / BITS_PER_WORD], i % BITS_PER_WORD)
  }

  /** The indices below n whose bits are set. */
  function Indices(v: seq<byte>, n: nat): set<nat> {
    set i | 0 <= i < n && IsSet(v, i)
  }

  lemma ByteAllBits(w: byte)
    ensures w == WORD_ALLBITS <==> forall j | 0 <= j < BITS_PER_WORD :: Bit(w, j)
  {
    ByteRange();
    AllBitsSet(w, 8);
  }

  /** Replacing byte i/8 by one that differs in bit i%8 only changes index i only. */
  lemma OneBitChanged(v: seq<byte>, w: seq<byte>, i: nat, on: bool)
    requires i / BITS_PER_WORD < |v|
    requires var was := v[i / BITS_PER_WORD]; var k := i % BITS_PER_WORD;
             var x := if on then SetBit(was, k) else ClearBit(was, k);
             x < 256 && w == v[i / BITS_PER_WORD := x]
    ensures forall j: nat :: IsSet(w, j) == if j == i then on else IsSet(v, j)
  {
    forall j: nat ensures IsSet(w, j) == if j == i then on else IsSet(v, j) {
      BitOfSetBit(v[i / BITS_PER_WORD], i % BITS_PER_WORD, j % BITS_PER_WORD);
      BitOfClearBit(v[i / BITS_PER_WORD], i % BITS_PER_WORD, j % BITS_PER_WORD);
    }
  }

  class Bitmap {
    const nbits: nat
    const v: array<byte>

    /** The bits past nbits in the last byte are set at creation and stay set. */
    ghost predicate Valid()
      reads this, v
    {
      && v.Length == DivRoundUp(nbits, BITS_PER_WORD)
      && forall i: nat | nbits <= i < BITS_PER_WORD * v.Length :: IsSet(v[..], i)
    }

    ghost function Marked(): set<nat>
      reads this, v
    {
      Indices(v[..], nbits)
    }

    constructor (nbits: nat)
      ensures this.nbits == nbits && Valid() && fresh(v)
      ensures Marked() == {}
    {
      this.nbits := nbits;
      var words := DivRoundUp(nbits, BITS_PER_WORD);
      v := new byte[words](_ => 0);
      new;
      forall i: nat ensures !IsSet(v[..], i) {
        BitOfZero(i % BITS_PER_WORD);
      }
      if words > nbits / BITS_PER_WORD {
        var ix := words - 1;
        var overbits := nbits - ix * BITS_PER_WORD;
        assert nbits / BITS_PER_WORD == words - 1;
        assert 0 < overbits < BITS_PER_WORD;
        var j := overbits;
        while j < BITS_PER_WORD
          invariant overbits <= j <= BITS_PER_WORD
          invariant forall i: nat :: IsSet(v[..], i) == (nbits <= i < ix * BITS_PER_WORD + j)
          modifies v
        {
          MarkBit(ix * BITS_PER_WORD + j);
          j := j + 1;
        }
      }
    }

    /** `v[index/8] |= 1 << index%8` */
    method MarkBit(index: nat)
      requires index / BITS_PER_WORD < v.Length
      modifies v
      ensures forall j: nat :: IsSet(v[..], j) == (j == index || IsSet(old(v[..]), j))
    {
      var ix := index / BITS_PER_WORD;
      ByteRange();
      BitsStayInRange(v[ix], index % BITS_PER_WORD, 8);
      ghost var was := v[..];
      v[ix] := SetBit(v[ix], index % BITS_PER_WORD);
      OneBitChanged(was, v[..], index, true);
    }

    /** Takes the least clear index; fails exactly when every index is marked.
        The two assertions of the C code are the `assert`s below. */
    method Alloc() returns (result: Errno, index: nat)
      requires Valid()
      modifies v
      ensures Valid()
      ensures result == OK || result == ENOSPC
      ensures result == OK ==>
                && index < nbits && index !in old(Marked())
                && (forall j: nat | j < index :: j in old(Marked()))
                && Marked() == old(Marked()) + {index}
      ensures result == ENOSPC <==> forall j: nat | j < nbits :: j in old(Marked())
      ensures result == ENOSPC ==> v[..] == old(v[..])
    {
      var maxix := DivRoundUp(nbits, BITS_PER_WORD);
      var ix := 0;
      index := 0;
      while ix < maxix
        invariant 0 <= ix <= maxix
        invariant v[..] == old(v[..])
        invariant forall j: nat | j < ix * BITS_PER_WORD :: IsSet(v[..], j)
      {
        ByteAllBits(v[ix]);
        if v[ix] != WORD_ALLBITS {
          var offset := 0;
          while offset < BITS_PER_WORD
            invariant 0 <= offset <= BITS_PER_WORD
            invariant v[..] == old(v[..])
            invariant forall j | 0 <= j < offset :: Bit(v[ix], j)
          {
            if !Bit(v[ix], offset) {
              index := ix * BITS_PER_WORD + offset;
              assert !IsSet(old(v[..]), index);
              assert index < nbits;
              SetUpTo(old(v[..]), ix, offset);
              MarkBit(index);
              return OK, index;
            }
            offset := offset + 1;
          }
          assert false;
        }
        SetUpTo(v[..], ix, BITS_PER_WORD);
        ix := ix + 1;
      }
      return ENOSPC, 0;
    }

    /** KASSERTs: the index is in range and clear. */
    method Mark(index: nat)
      requires Valid() && index < nbits && index !in Marked()
      modifies v
      ensures Valid() && Marked() == old(Marked()) + {index}
    {
      MarkBit(index);
    }

    /** KASSERTs: the index is in range and set. */
    method Unmark(index: nat)
      requires Valid() && index in Marked()
      modifies v
      ensures Valid() && Marked() == old(Marked()) - {index}
    {
      var ix := index / BITS_PER_WORD;
      ByteRange();
      BitsStayInRange(v[ix], index % BITS_PER_WORD, 8);
      ghost var was := v[..];
      v[ix] := ClearBit(v[ix], index % BITS_PER_WORD);
      OneBitChanged(was, v[..], index, false);
    }

    method Test(index: nat) returns (r: bool)
      requires Valid() && index < nbits
      ensures r == (index in Marked())
    {
      r := Bit(v[index / BITS_PER_WORD], index % BITS_PER_WORD);
    }
  }

  lemma SetUpTo(v: seq<byte>, ix: nat, offset: nat)
    requires ix < |v| && offset <= BITS_PER_WORD
    requires forall j: nat | j < ix * BITS_PER_WORD :: IsSet(v, j)
    requires forall j | 0 <= j < offset :: Bit(v[ix], j)
    ensures forall j: nat | j < ix * BITS_PER_WORD + offset :: IsSet(v, j)
  {
    forall j: nat | j < ix * BITS_PER_WORD + offset ensures IsSet(v, j) {
      if j >= ix * BITS_PER_WORD {
        assert j / BITS_PER_WORD == ix && j % BITS_PER_WORD == j - ix * BITS_PER_WORD;
      }
    }
  }
}
