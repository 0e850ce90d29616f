/**
 Chunk headers and the size arithmetic of dlmalloc, for 64-bit words and the build options of this
 repository: no footers, no locks, 16-byte alignment, memory obtained by `mmap` only.
 */
module Chunks {
  import opened TreeIndex

  const MALLOC_ALIGNMENT: nat := 16
  const CHUNK_OVERHEAD: nat := 8
  const MIN_CHUNK_SIZE: nat := 32
  const TOP_FOOT_SIZE: nat := 80
  const FENCEPOST_SIZE: nat := 8
  const NSMALLBINS: nat := 32

  /** `pad_request(sizeof(struct malloc_segment))` */
  const RECORD_SIZE: nat := 48

  /** Behind the record of a segment there are no more than these bytes of fenceposts. */
  const MAX_FENCES: nat := 48

  const PAGE_SIZE: nat := 4096

  /** A page-aligned address behind which 2^40 bytes can be addressed. */
  type WindowStart = a: nat | a % PAGE_SIZE == 0 && a + SIZE_LIMIT <= SIZE_T

  /** All memory that the system gives lies in a window of 2^40 bytes, wherever that is. */
  const WINDOW: WindowStart

  const WINDOW_END: nat := WINDOW + SIZE_LIMIT

  /** The `head` word of a chunk: its size, and the in-use bits of the chunk itself and of the chunk before it. */
  datatype Head = Head(size: nat, cinuse: bool, pinuse: bool)

  const FENCEPOST: Head := Head(FENCEPOST_SIZE, true, true)

  // ---------------------------------------------------------------- the tests that guard against corruption

  /** `ok_address(M, a)`: not below the least address that the system has ever given. */
  predicate OkAddress(least: int, a: int) { a >= least }

  /** `ok_next(p, n)` */
  predicate OkNext(p: int, n: int) { p < n }

  /** `ok_inuse(p)`: not the bits of a free chunk. */
  predicate OkInuse(h: Head) { h.cinuse || !h.pinuse }

  /** `ok_pinuse(p)` */
  predicate OkPinuse(h: Head) { h.pinuse }

  // ---------------------------------------------------------------- alignment

  lemma SumAligned(a: int, b: int)
    requires a % 16 == 0 && b % 16 == 0
    ensures (a + b) % 16 == 0 && (a + b) % 8 == 0
  {
  }

  lemma DifferenceAligned(a: int, b: int)
    requires a % 16 == 0 && b % 16 == 0
    ensures (a - b) % 16 == 0
  {
  }

  lemma PageAligned(a: int)
    requires a % PAGE_SIZE == 0
    ensures a % 16 == 0
  {
    assert a == 16 * (256 * (a / PAGE_SIZE));
  }

  // ---------------------------------------------------------------- bins

  /** Chunk headers record the sizes in `size`. */
  ghost predicate HeadersAgree(head: map<int, Head>, size: map<int, nat>) {
    forall x :: x in size ==> x in head && head[x].size == size[x]
  }

  /** Addresses of the bin headers inside `malloc_state`: not null, and apart from every chunk. */
  function SmallBinAt(i: nat): int { -1 - i }

  function TreeBinAt(i: nat): int { -100 - i }
}
