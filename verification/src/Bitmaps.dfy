/**
 `bitmap.c`: an index is mapped to a bit of a byte buffer, most significant bit first.
 */
module Bitmaps {
  import opened BinMaps

  /** `sizeof(size_t)` */
  const BITMAP_SCALE: nat := 8

  /** The place of a bit inside its byte, counted from the least significant bit. */
  function Place(index: nat): nat { 7 - index % 8 }

  /** `0b10000000 >> bit_index` */
  function Selector(index: nat): nat { Pow2(Place(index)) }

  /** The selector is the highest bit of a byte, shifted down by the place of the index in its byte. */
  lemma SelectorIs(index: nat)
    ensures Selector(index) * Pow2(index % 8) == 128
  {
    SevenBits(index % 8);
  }

  lemma SevenBits(k: nat)
    requires k < 8
    ensures Pow2(7 - k) * Pow2(k) == 128
  {
    assert Pow2(0) == 1 && Pow2(1) == 2 && Pow2(2) == 4 && Pow2(3) == 8;
    assert Pow2(4) == 16 && Pow2(5) == 32 && Pow2(6) == 64 && Pow2(7) == 128;
    assert k == 0 || k == 1 || k == 2 || k == 3 || k == 4 || k == 5 || k == 6 || k == 7;
  }

  lemma SelectorInByte(index: nat)
    ensures Selector(index) < 256 && Pow2(8) == 256
  {
    assert Pow2(8) == 256;
    Pow2Below(Place(index), 8);
  }

  /** Setting or clearing one bit of a byte leaves the other seven alone. */
  lemma ByteSet(x: nat, index: nat, k: nat)
    requires x < 256 && k < 8
    ensures Or(x, Selector(index)) < 256
    ensures Bit(Or(x, Selector(index)), k) == (k == Place(index) || Bit(x, k))
  {
    SelectorInByte(index);
    OrBound(8, x, Selector(index));
    BitOr(x, Selector(index), k);
    BitPow2(Place(index), k);
  }

  lemma ByteCleared(x: nat, index: nat, k: nat)
    requires x < 256 && k < 8
    ensures Selector(index) < 256 && And(x, 255 - Selector(index)) < 256
    ensures Bit(And(x, 255 - Selector(index)), k) == (k != Place(index) && Bit(x, k))
  {
    SelectorInByte(index);
    AndBound(x, 255 - Selector(index));
    BitAnd(x, 255 - Selector(index), k);
    BitNot(8, Selector(index), k);
    BitPow2(Place(index), k);
  }

  /** Indices in the same byte have different places in it. */
  lemma SameByte(i: nat, j: nat)
    requires i / 8 == j / 8
    ensures Place(i) == Place(j) <==> i == j
  {
  }

  class Bitmap {
    var buffer: array<nat>
    var size: nat

    /** The buffer is followed by more memory, of which one byte matters. */
    ghost predicate Valid()
      reads this, buffer
    {
      size < buffer.Length && forall i :: 0 <= i < buffer.Length ==> buffer[i] < 256
    }

    /** The bit for `index`, counting on into the byte behind the buffer. */
    ghost predicate At(index: nat)
      requires index / 8 < buffer.Length
      reads this, buffer
    {
      Bit(buffer[index / 8], Place(index))
    }

    /** What the bitmap stands for. */
    ghost function Contents(): (s: seq<bool>)
      requires Valid()
      reads this, buffer
      ensures |s| == 8 * size
    {
      seq(8 * size, i requires 0 <= i < 8 * size && Valid() reads this, buffer => At(i))
    }

    /** The first bit behind the bitmap. */
    ghost predicate Behind()
      requires Valid()
      reads this, buffer
    {
      At(8 * size)
    }

    /** `bitmap_initialize`, for a buffer that is followed by at least one byte. */
    constructor (buf: array<nat>, n: nat)
      requires n < buf.Length && forall i :: 0 <= i < buf.Length ==> buf[i] < 256
      modifies buf
      ensures Valid() && buffer == buf && size == n
      ensures Contents() == seq(8 * n, _ => false)
    {
      buffer, size := buf, n;
      new;
      for i := 0 to n
        invariant buffer == buf && size == n && Valid() && forall k :: 0 <= k < i ==> buf[k] == 0
      {
        buf[i] := 0;
      }
      forall i | 0 <= i < 8 * n
        ensures !At(i)
      {
        BitZero(Place(i));
      }
    }

    method AdjustedSize() returns (n: nat)
      ensures n == 8 * size
    {
      n := size * BITMAP_SCALE;
    }

    /**
     `bitmap_get`: the bit for an index in range. The test for the range lets the first index behind it through, and
     everything further on reads as free.
     */
    method Get(index: nat) returns (value: bool)
      requires Valid()
      ensures value == (if index < 8 * size then Contents()[index] else index == 8 * size && Behind())
      ensures value <==> index <= 8 * size && And(buffer[index / 8], Selector(index)) != 0
    {
      if index > size * BITMAP_SCALE {
        return false;
      }
      AndPow2(buffer[index / 8], Place(index));
      value := And(buffer[index / 8], Selector(index)) != 0;
    }

    /** `bitmap_set`: changes exactly the bit for the index, if the test for the range lets it through. */
    method Set(index: nat, value: bool) returns (ok: bool)
      requires Valid()
      modifies buffer
      ensures Valid() && ok == (index <= 8 * size)
      ensures Contents() == if index < 8 * size then old(Contents())[index := value] else old(Contents())
      ensures Behind() == if index == 8 * size then value else old(Behind())
      ensures ok ==> Selector(index) < 256 &&
                     buffer[index / 8] == if value then Or(old(buffer[index / 8]), Selector(index)) else And(old(buffer[index / 8]), 255 - Selector(index))
      ensures forall b :: 0 <= b < buffer.Length && (!ok || b != index / 8) ==> buffer[b] == old(buffer[b])
    {
      if index > size * BITMAP_SCALE {
        return false;
      }
      var b := index / 8;
      ghost var x := buffer[b];
      ByteSet(x, index, 0);
      ByteCleared(x, index, 0);
      if value {
        buffer[b] := Or(buffer[b], Selector(index));
      } else {
        buffer[b] := And(buffer[b], 255 - Selector(index));
      }
      ok := true;
      forall i: nat | i <= 8 * size
        ensures At(i) == if i == index then value else old(At(i))
      {
        if i / 8 == b {
          ByteSet(x, index, Place(i));
          ByteCleared(x, index, Place(i));
          SameByte(i, index);
        }
      }
    }
  }
}
