// The ring-buffer memory pool behind the static allocator: a cursor into a
// fixed-size byte buffer that is advanced by each allocation, aligned for the
// requested type, and moved back to the start when a block would not fit
// before the end.
module RingBufferAllocator {
  import opened Wrappers
  import opened Arith

  /** 2^64: `uint64_t` arithmetic wraps modulo this. */
  const U64: nat := 0x1_0000_0000_0000_0000

  datatype AllocError = BadAlloc

  /** `calculate_adjustment`: bytes to skip so that the cursor becomes a multiple of the alignment. */
  function Adjustment(position: nat, alignment: nat): (r: nat)
    requires alignment >= 1
    ensures r < alignment
  {
    (alignment - position % alignment) % alignment
  }

  predicate Aligned(x: nat, alignment: nat)
    requires alignment >= 1
  {
    x % alignment == 0
  }

  lemma AdjustmentValue(position: nat, alignment: nat)
    requires alignment >= 1
    ensures Adjustment(position, alignment) == if position % alignment == 0 then 0 else alignment - position % alignment
  {
    var m := position % alignment;
    if m == 0 {
      ModUnique(alignment, alignment, 1, 0);
    } else {
      ModUnique(alignment - m, alignment, 0, alignment - m);
    }
  }

  /** The adjustment is the least number of bytes that aligns the cursor. */
  lemma AdjustmentLeast(position: nat, alignment: nat)
    requires alignment >= 1
    ensures var adj := Adjustment(position, alignment);
      adj < alignment && Aligned(position + adj, alignment)
      && forall x :: position <= x < position + adj ==> !Aligned(x, alignment)
  {
    AdjustmentValue(position, alignment);
    var q, m := position / alignment, position % alignment;
    assert position == q * alignment + m;
    if m != 0 {
      ModUnique(position + (alignment - m), alignment, q + 1, 0);
      forall x | position <= x < position + (alignment - m) ensures !Aligned(x, alignment) {
        ModUnique(x, alignment, q, m + (x - position));
      }
    }
  }

  /** An aligned cursor needs no adjustment; in particular the start of the buffer. */
  lemma AlignedNeedsNone(position: nat, alignment: nat)
    requires alignment >= 1 && position % alignment == 0
    ensures Adjustment(position, alignment) == 0
  {
    ModUnique(alignment, alignment, 1, 0);
  }

  /** The cursor after a call and the offset handed out (or the `bad_alloc`). */
  datatype Allocation = Allocation(position: nat, result: Result<nat, AllocError>)

  /**
   * `do_allocate` on the cursor: the cursor is first advanced by the
   * adjustment; a request that does not fit even in an empty buffer is
   * refused with that adjustment kept; a block that would reach the end is
   * placed at the (aligned) start instead.
   */
  function AllocateSpec(position: nat, bufferSize: nat, size: nat, alignment: nat): (r: Allocation)
    requires alignment >= 1
    ensures r.result.Ok? ==> r.position == r.result.value + size && r.position < bufferSize
  {
    var adj := Adjustment(position, alignment);
    var cur := position + adj;
    if size + adj < bufferSize then
      if cur + size >= bufferSize then
        var start := 0 + Adjustment(0, alignment);
        Allocation(start + size, Ok(start))
      else Allocation(cur + size, Ok(cur))
    else Allocation(cur, Err(BadAlloc))
  }

  /** `sizeof(T) * count`, in unbounded arithmetic. */
  function RequestBytes(elementSize: nat, count: nat): nat {
    elementSize * count
  }

  /** An allocation succeeds exactly when the request plus the adjustment is below the buffer size. */
  lemma AllocateSucceedsIff(position: nat, bufferSize: nat, size: nat, alignment: nat)
    requires alignment >= 1
    ensures AllocateSpec(position, bufferSize, size, alignment).result.Ok?
        <==> size + Adjustment(position, alignment) < bufferSize
  {
  }

  /**
   * A successful allocation is aligned, lies strictly inside the buffer,
   * sits at the adjusted cursor unless that would reach the end (then at
   * offset 0), and leaves the cursor just after the block.
   */
  lemma AllocationPlacement(position: nat, bufferSize: nat, size: nat, alignment: nat)
    requires alignment >= 1
    ensures var a := AllocateSpec(position, bufferSize, size, alignment);
      var adj := Adjustment(position, alignment);
      a.result.Ok? ==>
        var off := a.result.value;
        Aligned(off, alignment) && off + size < bufferSize && a.position == off + size
        && off == (if position + adj + size >= bufferSize then 0 else position + adj)
  {
    AdjustmentLeast(position, alignment);
    AlignedNeedsNone(0, alignment);
  }

  /** A refused request still moves the cursor by the adjustment. */
  lemma FailureKeepsAdjustment(position: nat, bufferSize: nat, size: nat, alignment: nat)
    requires alignment >= 1
    ensures var a := AllocateSpec(position, bufferSize, size, alignment);
      a.result.Err? ==> a.position == position + Adjustment(position, alignment)
  {
  }

  /** From a cleared buffer every request that fits is served at offset 0. */
  lemma ClearedServesStart(bufferSize: nat, size: nat, alignment: nat)
    requires alignment >= 1 && size < bufferSize
    ensures AllocateSpec(0, bufferSize, size, alignment) == Allocation(size, Ok(0))
  {
    AlignedNeedsNone(0, alignment);
  }

  /**
   * The pool of one `RingBuffer<BufferType, BufferSize>` instantiation: the
   * static cursor `m_current_position` is the field `position` (the byte
   * buffer itself holds no state the allocator reads).
   */
  class RingBuffer {
    const bufferSize: nat
    var position: nat

    constructor(bufferSize: nat)
      ensures this.bufferSize == bufferSize && position == 0
    {
      this.bufferSize := bufferSize;
      position := 0;
    }

    /** `do_allocate<T>(count)` for a type of the given size and alignment; the result is the offset into the buffer. */
    method Allocate(elementSize: nat, alignment: nat, count: nat) returns (r: Result<nat, AllocError>)
      requires alignment >= 1
      modifies this
      ensures Allocation(position, r) == AllocateSpec(old(position), bufferSize, RequestBytes(elementSize, count), alignment)
    {
      var size := elementSize * count;
      var adjustment := Adjustment(position, alignment);
      position := position + adjustment;
      if size + adjustment < bufferSize {
        if position + size >= bufferSize {
          position := 0;
          position := position + Adjustment(position, alignment);
        }
        var offset := position;
        position := position + size;
        return Ok(offset);
      } else {
        return Err(BadAlloc);
      }
    }

    method Clear()
      modifies this
      ensures position == 0
    {
      position := 0;
    }
  }

  /** `max_size`: the number of objects of the element size that fit in the buffer. */
  function MaxSize(bufferSize: nat, elementSize: nat): (n: nat)
    requires elementSize >= 1
    ensures n * elementSize <= bufferSize < (n + 1) * elementSize
  {
    bufferSize / elementSize
  }

  /** A `StaticRingBufferAllocator<T, BufferType, BufferSize>`, by the names of its types. */
  datatype Allocator<Ty> = Allocator(valueType: Ty, bufferType: Ty, bufferSize: nat)

  /** `operator==`: the same buffer type and size, whatever the value type. */
  predicate SamePool<Ty(==)>(a: Allocator<Ty>, b: Allocator<Ty>) {
    a.bufferType == b.bufferType && a.bufferSize == b.bufferSize
  }

  /** Allocator equality is an equivalence, ignores the value type, and rebinding keeps it. */
  lemma SamePoolEquivalence<Ty>(a: Allocator<Ty>, b: Allocator<Ty>, c: Allocator<Ty>, u: Ty)
    ensures SamePool(a, a) && SamePool(a, a.(valueType := u))
    ensures SamePool(a, b) ==> SamePool(b, a)
    ensures SamePool(a, b) && SamePool(b, c) ==> SamePool(a, c)
    ensures SamePool(a, b) <==> a.(valueType := u) == b.(valueType := u)
  {
  }

  // ------------------------------------------------ the 64-bit size product

  /** `sizeof(T) * count` as the source computes it, in `uint64_t`. */
  function RequestBytesU64(elementSize: nat, count: nat): nat {
    (elementSize * count) % U64
  }

  /**
   * The product wraps: 2^61 eight-byte objects request 0 bytes, so the pool
   * of 16 bytes hands out offset 0 for a block of 2^64 bytes, which the
   * unbounded check refuses.
   */
  lemma RequestWrapsToZero()
    ensures RequestBytesU64(8, 0x2000_0000_0000_0000) == 0
    ensures AllocateSpec(0, 16, RequestBytesU64(8, 0x2000_0000_0000_0000), 8).result == Ok(0)
    ensures AllocateSpec(0, 16, RequestBytes(8, 0x2000_0000_0000_0000), 8).result == Err(BadAlloc)
  {
    assert 8 * 0x2000_0000_0000_0000 == U64;
    AlignedNeedsNone(0, 8);
  }

  // ------------------------------------------------ scenarios

  /** Six 4-byte objects do not fit in a pool of five. */
  lemma LargeRequestRefused()
    ensures AllocateSpec(0, 20, RequestBytes(4, 6), 4).result == Err(BadAlloc)
  {
    AlignedNeedsNone(0, 4);
  }

  /** The hundredth 4-byte object in a 400-byte pool wraps to the start. */
  lemma LastSlotWraps()
    ensures AllocateSpec(396, 400, RequestBytes(4, 1), 4) == Allocation(4, Ok(0))
  {
    AlignedNeedsNone(396, 4);
    AlignedNeedsNone(0, 4);
  }
}
