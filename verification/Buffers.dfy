/** Buffers that grow by doubling until palloc refuses (src/include/utils/memutils.h:40). */
module Buffers {

  /** MaxAllocSize. */
  const MAX_ALLOC: nat := 0x3fff_ffff

  /** `n` doubled some number of times is `top`. */
  ghost predicate DoublesTo(n: nat, top: nat)
    decreases top - n
  {
    0 < n && (n == top || (n < top && DoublesTo(2 * n, top)))
  }

  /** The largest size of a byte buffer that starts at 16 or 32: the next one is refused. */
  const TOP_BYTES: nat := 0x2000_0000

  lemma ByteBuffers()
    ensures DoublesTo(16, TOP_BYTES) && DoublesTo(32, TOP_BYTES)
  {
    assert DoublesTo(0x800_0000, TOP_BYTES);
    assert DoublesTo(0x200_0000, TOP_BYTES);
    assert DoublesTo(0x80_0000, TOP_BYTES);
    assert DoublesTo(0x20_0000, TOP_BYTES);
    assert DoublesTo(0x8_0000, TOP_BYTES);
    assert DoublesTo(0x2_0000, TOP_BYTES);
    assert DoublesTo(0x8000, TOP_BYTES);
    assert DoublesTo(0x2000, TOP_BYTES);
    assert DoublesTo(0x800, TOP_BYTES);
    assert DoublesTo(0x200, TOP_BYTES);
    assert DoublesTo(0x80, TOP_BYTES);
  }

  /** The doubled buffer is granted unless it is at the top. */
  lemma Grows(n: nat, top: nat, size: nat)
    requires DoublesTo(n, top) && top * size <= MAX_ALLOC < 2 * top * size
    ensures 2 * n * size <= MAX_ALLOC <==> n < top
    ensures n < top ==> DoublesTo(2 * n, top)
  {
    if n < top {
      assert 2 * n <= top;
      Smaller(2 * n, top, size);
    }
  }

  lemma Smaller(a: nat, b: nat, c: nat)
    requires a <= b
    ensures a * c <= b * c
  {
  }
}
