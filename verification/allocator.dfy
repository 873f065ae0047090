/** The bump allocator: a cursor over the fixed region [MATRIX_MEM_BASE,
    MATRIX_MEM_BASE + MATRIX_MEM_SIZE), advanced by each allocation rounded up
    to the cache-line size, and rewound only by a bulk reset. */
module BumpAllocator {
  import opened CInt
  import opened Results
  import opened Config

  const MEMORY_ALIGNMENT: int := CACHE_LINE_SIZE

  /** `align_up`: `(size + 63) & ~63` in 32-bit unsigned arithmetic. Without wrap-around
      it is the least multiple of 64 not below `size`; sizes in the top 63 values wrap to 0. */
  function AlignUp(size: uint32): (r: uint32)
    ensures r % MEMORY_ALIGNMENT == 0
    ensures r >= size <==> size <= UINT32_MAX - (MEMORY_ALIGNMENT - 1)
    ensures r >= size ==> r - MEMORY_ALIGNMENT < size
    ensures r < size ==> r == 0
  {
    var sum := Wrap32(size + MEMORY_ALIGNMENT - 1);
    sum - sum % MEMORY_ALIGNMENT
  }

  /** `is_aligned`: the low six bits of the address are zero. */
  predicate IsAligned(addr: int) {
    addr % MEMORY_ALIGNMENT == 0
  }

  /** The three fields of `allocator_state`. */
  datatype AllocatorState = AllocatorState(nextFree: int, totalAllocated: int, initialized: bool)

  /** What holds of the allocator between calls: the cursor is the base plus what is
      used, usage is a multiple of the alignment and within the region, and the region
      lies inside the 32-bit address space above address 0. */
  predicate Inv(base: int, s: AllocatorState) {
    && 0 < base && base + MATRIX_MEM_SIZE <= UINT32_MAX
    && 0 <= s.totalAllocated <= MATRIX_MEM_SIZE
    && s.totalAllocated % MEMORY_ALIGNMENT == 0
    && (s.initialized ==> IsAligned(base) && s.nextFree == base + s.totalAllocated)
    && (!s.initialized ==> s.totalAllocated == 0 && (s.nextFree == 0 || s.nextFree == base))
  }

  /** `allocator_init`: the state it leaves behind. */
  function InitState(base: int, s: AllocatorState): AllocatorState {
    if IsAligned(base) then AllocatorState(base, 0, true) else s
  }

  /** `allocator_reset`: the cursor goes back to the base, `initialized` is kept. */
  function ResetState(base: int, s: AllocatorState): AllocatorState {
    AllocatorState(base, 0, s.initialized)
  }

  /** `allocator_alloc`: the new state and the returned pointer (None for NULL). The
      capacity test compares exact sums; see OutOfMemoryCheckWraps for the 32-bit test
      the source performs. */
  function AllocStep(base: int, s: AllocatorState, size: uint32): (r: (AllocatorState, Option<int>))
    ensures r.1.None? <==>
      !s.initialized || size == 0 || size > UINT32_MAX - (MEMORY_ALIGNMENT - 1) ||
      s.totalAllocated + AlignUp(size) > MATRIX_MEM_SIZE
    ensures r.1.None? ==> r.0 == s
    ensures r.1.Some? ==>
      r.1.value == s.nextFree && AlignUp(size) >= size &&
      r.0 == AllocatorState(s.nextFree + AlignUp(size), s.totalAllocated + AlignUp(size), true)
    ensures Inv(base, s) ==> Inv(base, r.0)
    ensures Inv(base, s) && r.1.Some? ==>
      IsAligned(r.1.value) && base <= r.1.value &&
      r.1.value + AlignUp(size) <= base + MATRIX_MEM_SIZE
  {
    if !s.initialized then (s, None)
    else if size == 0 then (s, None)
    else
      var aligned := AlignUp(size);
      if aligned < size then (s, None)
      else if s.totalAllocated + aligned > MATRIX_MEM_SIZE then (s, None)
      else (AllocatorState(s.nextFree + aligned, s.totalAllocated + aligned, true), Some(s.nextFree))
  }

  /** `allocator_alloc` exactly as written: the capacity test and both counter updates
      are 32-bit unsigned additions. */
  function AllocAsWritten(base: int, s: AllocatorState, size: uint32): (r: (AllocatorState, Option<int>))
    ensures Inv(base, s) && Wrap32(s.totalAllocated + AlignUp(size)) == s.totalAllocated + AlignUp(size) ==>
      r == AllocStep(base, s, size)
  {
    if !s.initialized then (s, None)
    else if size == 0 then (s, None)
    else
      var aligned := AlignUp(size);
      if aligned < size then (s, None)
      else if Wrap32(s.totalAllocated + aligned) > MATRIX_MEM_SIZE then (s, None)
      else (AllocatorState(Wrap32(s.nextFree + aligned), Wrap32(s.totalAllocated + aligned), true), Some(s.nextFree))
  }

  /** After one 64-byte allocation, a request for 2^32 - 64 bytes passes the 32-bit
      out-of-memory test: it is granted, and the cursor and the usage wrap back to the
      base and to 0. The exact test refuses it. */
  lemma OutOfMemoryCheckWraps(base: int)
    requires Inv(base, AllocatorState(base, 0, true))
    ensures var s := AllocatorState(base + 64, 64, true);
      var size := UINT32_MAX - 63;
      AllocAsWritten(base, s, size) == (AllocatorState(base, 0, true), Some(base + 64)) &&
      AllocStep(base, s, size) == (s, None)
  {
    var size: uint32 := UINT32_MAX - 63;
    assert Wrap32(size + MEMORY_ALIGNMENT - 1) == UINT32_MAX;
    assert AlignUp(size) == size;
    assert Wrap32(64 + size) == 0;
    assert base + 64 + size == base + UINT32_MODULUS;
    assert Wrap32(base + 64 + size) == base;
  }

  /** Running a sequence of allocations: the final state and every returned pointer. */
  function Run(base: int, s: AllocatorState, sizes: seq<uint32>): (r: (AllocatorState, seq<Option<int>>))
    ensures |r.1| == |sizes|
    decreases |sizes|
  {
    if sizes == [] then (s, [])
    else
      var step := AllocStep(base, s, sizes[0]);
      var rest := Run(base, step.0, sizes[1..]);
      (rest.0, [step.1] + rest.1)
  }

  /** The total size, after alignment, of a sequence of allocations. */
  function AlignedTotal(sizes: seq<uint32>): nat {
    if sizes == [] then 0 else AlignUp(sizes[0]) + AlignedTotal(sizes[1..])
  }

  lemma AlignedTotalCons(sizes: seq<uint32>, i: nat)
    requires 0 < i <= |sizes|
    ensures AlignedTotal(sizes[..i]) == AlignUp(sizes[0]) + AlignedTotal(sizes[1..][..i - 1])
  {
    assert sizes[..i][1..] == sizes[1..][..i - 1];
  }

  /** Regions handed out by a run of allocations are aligned, lie between the cursor
      before and after the run, and are pairwise disjoint, whatever calls fail in between. */
  lemma {:induction false} RunRegionsDisjoint(base: int, s: AllocatorState, sizes: seq<uint32>)
    requires Inv(base, s)
    ensures var r := Run(base, s, sizes);
      Inv(base, r.0) && s.nextFree <= r.0.nextFree &&
      (forall i :: 0 <= i < |sizes| && r.1[i].Some? ==>
        IsAligned(r.1[i].value) && s.nextFree <= r.1[i].value &&
        r.1[i].value + AlignUp(sizes[i]) <= r.0.nextFree) &&
      (forall i, j :: 0 <= i < j < |sizes| && r.1[i].Some? && r.1[j].Some? ==>
        r.1[i].value + AlignUp(sizes[i]) <= r.1[j].value)
    decreases |sizes|
  {
    if sizes != [] {
      var step := AllocStep(base, s, sizes[0]);
      RunRegionsDisjoint(base, step.0, sizes[1..]);
      var rest := Run(base, step.0, sizes[1..]);
      var r := Run(base, s, sizes);
      assert r.1 == [step.1] + rest.1;
      forall i | 0 < i < |sizes|
        ensures r.1[i] == rest.1[i - 1]
      {
      }
    }
  }

  /** From an initialized state, when every size is valid and the aligned sizes fit,
      every call succeeds and both counters end advanced by the aligned total. */
  lemma {:induction false} RunFinalState(base: int, s: AllocatorState, sizes: seq<uint32>)
    requires Inv(base, s) && s.initialized
    requires forall i :: 0 <= i < |sizes| ==> 0 < sizes[i] <= UINT32_MAX - (MEMORY_ALIGNMENT - 1)
    requires s.totalAllocated + AlignedTotal(sizes) <= MATRIX_MEM_SIZE
    ensures Run(base, s, sizes).0 ==
      AllocatorState(s.nextFree + AlignedTotal(sizes), s.totalAllocated + AlignedTotal(sizes), true)
    decreases |sizes|
  {
    if sizes != [] {
      var step := AllocStep(base, s, sizes[0]);
      RunFinalState(base, step.0, sizes[1..]);
    }
  }

  /** In such a run the i-th call returns the cursor plus the aligned sizes of the
      calls before it. */
  lemma {:induction false} RunAddressAt(base: int, s: AllocatorState, sizes: seq<uint32>, i: nat)
    requires Inv(base, s) && s.initialized
    requires forall k :: 0 <= k < |sizes| ==> 0 < sizes[k] <= UINT32_MAX - (MEMORY_ALIGNMENT - 1)
    requires s.totalAllocated + AlignedTotal(sizes) <= MATRIX_MEM_SIZE
    requires i < |sizes|
    ensures Run(base, s, sizes).1[i] == Some(s.nextFree + AlignedTotal(sizes[..i]))
    decreases i
  {
    var step := AllocStep(base, s, sizes[0]);
    if i == 0 {
      assert sizes[..0] == [];
    } else {
      RunAddressAt(base, step.0, sizes[1..], i - 1);
      AlignedTotalCons(sizes, i);
    }
  }

  /** After a reset of an initialized allocator, replaying a sequence of allocations
      returns the same addresses as the first pass after `allocator_init`. */
  lemma ReplayAfterReset(base: int, s: AllocatorState, sizes: seq<uint32>)
    requires Inv(base, s) && s.initialized
    ensures Run(base, ResetState(base, s), sizes) == Run(base, InitState(base, s), sizes)
    ensures forall i :: 0 <= i < |sizes| && Run(base, ResetState(base, s), sizes).1[i].Some? ==>
      base <= Run(base, ResetState(base, s), sizes).1[i].value
  {
    RunRegionsDisjoint(base, ResetState(base, s), sizes);
  }

  /** The allocator object (`allocator_state` and the constant base address). */
  class Allocator {
    const base: uint32
    var nextFree: uint32
    var totalAllocated: uint32
    var initialized: bool

    function Snapshot(): AllocatorState
      reads this
    {
      AllocatorState(nextFree, totalAllocated, initialized)
    }

    ghost predicate Valid()
      reads this
    {
      Inv(base, Snapshot())
    }

    /** The zero-initialized static state, before `allocator_init`. */
    constructor (base: uint32)
      requires 0 < base && base + MATRIX_MEM_SIZE <= UINT32_MAX
      ensures Valid() && this.base == base
      ensures Snapshot() == AllocatorState(0, 0, false)
    {
      this.base := base;
      nextFree, totalAllocated, initialized := 0, 0, false;
    }

    /** `allocator_init`. */
    method Init() returns (st: Status)
      requires Valid()
      modifies this
      ensures Valid()
      ensures st == (if IsAligned(base) then Success else InvalidParam)
      ensures Snapshot() == InitState(base, old(Snapshot()))
    {
      if !IsAligned(base) {
        return InvalidParam;
      }
      nextFree := base;
      totalAllocated := 0;
      initialized := true;
      return Success;
    }

    /** `allocator_alloc` (the cache invalidation of the returned range is left out). */
    method Alloc(size: uint32) returns (p: Option<int>)
      requires Valid()
      modifies this
      ensures Valid()
      ensures (Snapshot(), p) == AllocStep(base, old(Snapshot()), size)
    {
      if !initialized {
        return None;
      }
      if size == 0 {
        return None;
      }
      var aligned := AlignUp(size);
      if aligned < size {
        return None;
      }
      if totalAllocated + aligned > MATRIX_MEM_SIZE {
        return None;
      }
      p := Some(nextFree);
      nextFree := nextFree + aligned;
      totalAllocated := totalAllocated + aligned;
    }

    /** `allocator_free`: nothing is reclaimed. */
    method Free(p: int)
      ensures Snapshot() == old(Snapshot())
    {
    }

    /** `allocator_reset`. */
    method Reset()
      requires Valid()
      modifies this
      ensures Valid()
      ensures Snapshot() == ResetState(base, old(Snapshot()))
    {
      nextFree := base;
      totalAllocated := 0;
    }

    /** `allocator_get_used`. */
    method GetUsed() returns (used: uint32)
      requires Valid()
      ensures used == totalAllocated && used % MEMORY_ALIGNMENT == 0
    {
      return totalAllocated;
    }

    /** `allocator_get_available`: the unsigned subtraction never wraps, and used plus
        available is always the region size. */
    method GetAvailable() returns (available: uint32)
      requires Valid()
      ensures available + totalAllocated == MATRIX_MEM_SIZE
    {
      return MATRIX_MEM_SIZE - totalAllocated;
    }
  }
}
