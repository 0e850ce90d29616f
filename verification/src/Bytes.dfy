/**
 The bytes that the program keeps in its blocks, as far as `dlcalloc` and `dlrealloc` write them, and the size
 computation of `dlcalloc`.
 */
module Bytes {
  import opened TreeIndex
  import opened Tiling

  function Byte(data: map<int, int>, a: int): int { if a in data then data[a] else 0 }

  /** `memset(mem, 0, n)` */
  method Clear(data: map<int, int>, mem: int, n: nat) returns (data': map<int, int>)
    ensures forall a :: Byte(data', a) == if mem <= a < mem + n then 0 else Byte(data, a)
  {
    data' := data;
    for i := 0 to n
      invariant forall a :: Byte(data', a) == if mem <= a < mem + i then 0 else Byte(data, a)
    {
      ghost var before := data';
      data' := data'[mem + i := 0];
      assert forall a :: a != mem + i ==> Byte(data', a) == Byte(before, a);
    }
  }

  /** `memcpy(mem, oldmem, n)` between blocks that do not overlap. */
  method Copy(data: map<int, int>, mem: int, oldmem: int, n: nat) returns (data': map<int, int>)
    requires Disjoint(mem, mem + n, oldmem, oldmem + n)
    ensures forall a {:trigger Byte(data', a)} :: Byte(data', a) == if mem <= a < mem + n then Byte(data, oldmem + (a - mem)) else Byte(data, a)
  {
    data' := data;
    for i := 0 to n
      invariant forall a {:trigger Byte(data', a)} :: Byte(data', a) == if mem <= a < mem + i then Byte(data, oldmem + (a - mem)) else Byte(data, a)
    {
      ghost var before := data';
      assert Byte(data', oldmem + i) == Byte(data, oldmem + i);
      data' := data'[mem + i := Byte(data', oldmem + i)];
      assert forall a :: Byte(data', a) == if a == mem + i then Byte(data, oldmem + i) else Byte(before, a);
      forall a
        ensures Byte(data', a) == if mem <= a < mem + i + 1 then Byte(data, oldmem + (a - mem)) else Byte(data, a)
      {
        assert Byte(before, a) == if mem <= a < mem + i then Byte(data, oldmem + (a - mem)) else Byte(data, a);
      }
    }
  }

  // ---------------------------------------------------------------- the size that `dlcalloc` asks for

  /** All ones if the product does not fit. */
  function Product(n: nat, size: nat): nat
    requires n < SIZE_T && size < SIZE_T
  {
    if n == 0 then 0
    else
      var req := n * size % SIZE_T;
      if (n >= 0x1_0000 || size >= 0x1_0000) && req / n != size then SIZE_T - 1 else req
  }

  /** The product of two factors below 2^16 cannot wrap, and any other product that wraps fails the division. */
  lemma ProductChecked(n: nat, size: nat)
    requires n < SIZE_T && size < SIZE_T
    ensures Product(n, size) == if n * size < SIZE_T then n * size else SIZE_T - 1
  {
    if n == 0 {
      assert n * size == 0;
    } else if n * size < SIZE_T {
      ExactQuotient(n, size);
    } else {
      WrappedQuotient(n, size);
      assert n >= 0x1_0000 || size >= 0x1_0000 by {
        if n < 0x1_0000 && size < 0x1_0000 {
          SmallProduct(n, size);
        }
      }
    }
  }

  lemma SmallProduct(n: nat, size: nat)
    requires n < 0x1_0000 && size < 0x1_0000
    ensures n * size < SIZE_T
  {
    MulLe(size, 0x1_0000, n);
  }

  lemma ExactQuotient(n: nat, size: nat)
    requires 0 < n && n * size < SIZE_T
    ensures n * size % SIZE_T == n * size && n * size / n == size
  {
    QuotientPlus(0, size, n);
    assert 0 / n == 0 && 0 + size * n == n * size;
  }

  lemma WrappedQuotient(n: nat, size: nat)
    requires 0 < n && n * size >= SIZE_T
    ensures n * size % SIZE_T / n != size
  {
    var r := n * size % SIZE_T;
    var d := r / n;
    assert d * n <= r;
  }
}
