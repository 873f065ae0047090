/** Row-major matrices of fixed-point values whose structure and data buffer come
    from the bump allocator. A `Grid` is the value held by a matrix at one moment;
    a `Matrix` is the object whose buffer the operations update in place. */
module Matrices {
  import opened CInt
  import opened Results
  import opened FixedPoint
  import opened BumpAllocator

  /** `sizeof(matrix_t)`: two `int`s and a pointer on the 32-bit target. */
  const MATRIX_STRUCT_BYTES: uint32 := 12
  /** `sizeof(fixed_point_t)`. */
  const ELEMENT_BYTES: int := 4
  /** The first ramp index that `int_to_fixed` rejects (524287 is FIXED_MAX >> 12). */
  const RAMP_LIMIT: int := 524288

  /** Element (row, col) sits at `row * cols + col`. */
  function Offset(cols: int, row: int, col: int): int {
    row * cols + col
  }

  lemma OffsetBounds(rows: int, cols: int, row: int, col: int)
    requires 0 <= row < rows && 0 <= col < cols
    ensures 0 <= Offset(cols, row, col) < rows * cols
  {
    assert row * cols <= (rows - 1) * cols;
  }

  /** A later row starts after every cell of an earlier one. */
  lemma OffsetRowOrder(cols: int, r1: int, c1: int, r2: int, c2: int)
    requires 0 <= r1 < r2 && 0 <= c1 < cols && 0 <= c2 < cols
    ensures Offset(cols, r1, c1) < Offset(cols, r2, c2)
  {
    assert (r1 + 1) * cols <= r2 * cols;
  }

  /** Distinct cells have distinct offsets. */
  lemma OffsetInjective(cols: int, r1: int, c1: int, r2: int, c2: int)
    requires 0 <= r1 && 0 <= r2 && 0 <= c1 < cols && 0 <= c2 < cols
    requires Offset(cols, r1, c1) == Offset(cols, r2, c2)
    ensures r1 == r2 && c1 == c2
  {
    if r1 < r2 {
      OffsetRowOrder(cols, r1, c1, r2, c2);
      assert false;
    } else if r2 < r1 {
      OffsetRowOrder(cols, r2, c2, r1, c1);
      assert false;
    }
  }

  datatype GridData = GridData(rows: int, cols: int, cells: seq<Fixed>)

  /** The contents of a matrix: a positive shape and rows * cols cells in row-major order. */
  type Grid = g: GridData | g.rows > 0 && g.cols > 0 && |g.cells| == g.rows * g.cols
    witness GridData(1, 1, [0])

  predicate InBounds(g: GridData, row: int, col: int) {
    0 <= row < g.rows && 0 <= col < g.cols
  }

  /** The element at (row, col). */
  function Cell(g: Grid, row: int, col: int): Fixed
    requires InBounds(g, row, col)
  {
    OffsetBounds(g.rows, g.cols, row, col);
    g.cells[Offset(g.cols, row, col)]
  }

  /** `matrix_get`: the element at (row, col), or InvalidParam outside the shape. */
  function Get(g: Grid, row: int, col: int): (r: Result<Fixed>)
    ensures r.Ok? <==> InBounds(g, row, col)
    ensures r.Err? ==> r.status == InvalidParam
    ensures r.Ok? ==> r.value == Cell(g, row, col)
  {
    if row < 0 || row >= g.rows || col < 0 || col >= g.cols then Err(InvalidParam)
    else Ok(Cell(g, row, col))
  }

  /** Two grids of one shape that agree at every position are equal. */
  lemma GridExt(g1: Grid, g2: Grid)
    requires g1.rows == g2.rows && g1.cols == g2.cols
    requires forall a, b :: Get(g1, a, b) == Get(g2, a, b)
    ensures g1 == g2
  {
    forall k | 0 <= k < |g1.cells|
      ensures g1.cells[k] == g2.cells[k]
    {
      var a, b := k / g1.cols, k % g1.cols;
      assert k == Offset(g1.cols, a, b);
      if a >= g1.rows {
        OffsetRowOrder(g1.cols, g1.rows - 1, g1.cols - 1, a, b);
        assert false;
      }
      assert Get(g1, a, b) == Get(g2, a, b);
    }
  }

  /** The value `matrix_set` leaves in a matrix: InvalidParam outside the shape,
      otherwise the same shape with only (row, col) replaced. */
  function Put(g: Grid, row: int, col: int, v: Fixed): (r: Result<Grid>)
    ensures r.Ok? <==> InBounds(g, row, col)
    ensures r.Err? ==> r.status == InvalidParam
    ensures r.Ok? ==> r.value.rows == g.rows && r.value.cols == g.cols
    ensures r.Ok? ==> Get(r.value, row, col) == Ok(v)
  {
    if row < 0 || row >= g.rows || col < 0 || col >= g.cols then Err(InvalidParam)
    else
      OffsetBounds(g.rows, g.cols, row, col);
      var h: Grid := GridData(g.rows, g.cols, g.cells[Offset(g.cols, row, col) := v]);
      Ok(h)
  }

  /** Writing one cell leaves every other position, inside or outside the shape, as it was. */
  lemma PutKeepsOthers(g: Grid, row: int, col: int, v: Fixed, i: int, j: int)
    requires Put(g, row, col, v).Ok? && (i != row || j != col)
    ensures Get(Put(g, row, col, v).value, i, j) == Get(g, i, j)
  {
    if InBounds(g, i, j) {
      OffsetBounds(g.rows, g.cols, i, j);
      OffsetBounds(g.rows, g.cols, row, col);
      if Offset(g.cols, i, j) == Offset(g.cols, row, col) {
        OffsetInjective(g.cols, i, j, row, col);
      }
    }
  }

  /** `matrix_t`: the shape is fixed at creation, the buffer is updated in place.
      `structAddr` and `dataAddr` are the two addresses the allocator returned. */
  class Matrix {
    const rows: int32
    const cols: int32
    const data: array<Fixed>
    const structAddr: int
    const dataAddr: int
    /** Set by `Destroy`: the matrix has been handed back to the allocator. */
    ghost var destroyed: bool

    ghost predicate Valid() {
      rows > 0 && cols > 0 && data.Length == rows * cols && rows * cols * ELEMENT_BYTES <= UINT32_MAX
    }

    function Snapshot(): (g: Grid)
      requires Valid()
      reads data
      ensures g.rows == rows && g.cols == cols && g.cells == data[..]
    {
      GridData(rows, cols, data[..])
    }

    constructor (rows: int32, cols: int32, structAddr: int, dataAddr: int)
      requires rows > 0 && cols > 0 && rows * cols * ELEMENT_BYTES <= UINT32_MAX
      ensures Valid() && fresh(data)
      ensures this.rows == rows && this.cols == cols
      ensures this.structAddr == structAddr && this.dataAddr == dataAddr
      ensures !destroyed
    {
      this.rows, this.cols := rows, cols;
      this.structAddr, this.dataAddr := structAddr, dataAddr;
      data := new Fixed[rows * cols];
      destroyed := false;
    }

    /** `matrix_set`. */
    method Set(row: int, col: int, val: Fixed) returns (st: Status)
      requires Valid()
      modifies data
      ensures st == Put(old(Snapshot()), row, col, val).StatusOf()
      ensures st == Success ==> Snapshot() == Put(old(Snapshot()), row, col, val).value
      ensures st != Success ==> data[..] == old(data[..])
    {
      if row < 0 || row >= rows || col < 0 || col >= cols {
        return InvalidParam;
      }
      OffsetBounds(rows, cols, row, col);
      data[row * cols + col] := val;
      assert data[..] == old(data[..])[Offset(cols, row, col) := val];
      return Success;
    }

    /** `matrix_initialize`: element k (row-major) becomes k in fixed point; the first
        index `int_to_fixed` rejects stops the fill with Overflow, earlier cells written. */
    method Initialize() returns (st: Status)
      requires Valid()
      modifies data
      ensures st == (if rows * cols <= RAMP_LIMIT then Success else Overflow)
      ensures forall k :: 0 <= k < data.Length ==>
        data[k] == if k < RAMP_LIMIT then k * SCALE else old(data[k])
    {
      var i := 0;
      while i < rows
        invariant 0 <= i <= rows
        invariant i * cols <= RAMP_LIMIT
        invariant forall k :: 0 <= k < data.Length ==>
          data[k] == if k < i * cols then k * SCALE else old(data[k])
      {
        var j := 0;
        while j < cols
          invariant 0 <= j <= cols
          invariant i * cols + j <= RAMP_LIMIT
          invariant forall k :: 0 <= k < data.Length ==>
            data[k] == if k < i * cols + j then k * SCALE else old(data[k])
        {
          OffsetBounds(rows, cols, i, j);
          var converted := IntToFixed(i * cols + j);
          if converted.Err? {
            return converted.status;
          }
          st := Set(i, j, converted.value);
          assert st == Success;
          j := j + 1;
        }
        assert i * cols + cols == (i + 1) * cols;
        i := i + 1;
      }
      return Success;
    }
  }

  /** `rows * cols * sizeof(fixed_point_t)` as written: the product reaches the
      allocator as a 32-bit `size_t`, so large shapes wrap. */
  function DataBytesAsWritten(rows: int32, cols: int32): (r: uint32)
    ensures rows * cols * ELEMENT_BYTES <= UINT32_MAX && rows * cols >= 0 ==> r == rows * cols * ELEMENT_BYTES
  {
    Wrap32(rows * cols * ELEMENT_BYTES)
  }

  /** A 1073741825 x 1 matrix asks for 4 bytes for its 1073741825 elements. */
  lemma DataBytesWrap()
    ensures DataBytesAsWritten(0x4000_0001, 1) == 4
  {
  }

  /** The data size the allocation evidently intends: every element's bytes, or None
      when that count does not fit a `size_t` (the request then fails). */
  function DataBytes(rows: int32, cols: int32): (r: Option<uint32>)
    requires rows > 0 && cols > 0
    ensures r.Some? <==> rows * cols * ELEMENT_BYTES <= UINT32_MAX
    ensures r.Some? ==> r.value == rows * cols * ELEMENT_BYTES && r.value / ELEMENT_BYTES == rows * cols
  {
    var bytes := rows * cols * ELEMENT_BYTES;
    if bytes > UINT32_MAX then None else Some(bytes)
  }

  /** `matrix_create` on the allocator state: the new state and, on success, the
      addresses of the structure and of the data buffer. */
  function CreateStep(base: int, s: AllocatorState, rows: int32, cols: int32): (r: (AllocatorState, Option<(int, int)>))
    ensures rows <= 0 || cols <= 0 ==> r == (s, None)
    ensures rows > 0 && cols > 0 && AllocStep(base, s, MATRIX_STRUCT_BYTES).1.None? ==> r == (s, None)
    ensures r.1.None? && rows > 0 && cols > 0 && AllocStep(base, s, MATRIX_STRUCT_BYTES).1.Some? ==>
      r.0 == AllocStep(base, s, MATRIX_STRUCT_BYTES).0
    ensures r.1.Some? ==>
      && rows > 0 && cols > 0 && DataBytes(rows, cols).Some?
      && r.1.value.0 == s.nextFree
      && r.1.value.1 == s.nextFree + AlignUp(MATRIX_STRUCT_BYTES)
      && r.0.totalAllocated == s.totalAllocated + AlignUp(MATRIX_STRUCT_BYTES) + AlignUp(DataBytes(rows, cols).value)
    ensures r.1.Some? <==>
      && rows > 0 && cols > 0
      && AllocStep(base, s, MATRIX_STRUCT_BYTES).1.Some?
      && DataBytes(rows, cols).Some?
      && AllocStep(base, AllocStep(base, s, MATRIX_STRUCT_BYTES).0, DataBytes(rows, cols).value).1.Some?
    ensures r.1.Some? ==>
      r.0 == AllocStep(base, AllocStep(base, s, MATRIX_STRUCT_BYTES).0, DataBytes(rows, cols).value).0
    ensures Inv(base, s) ==> Inv(base, r.0)
  {
    if rows <= 0 || cols <= 0 then (s, None)
    else
      var (s1, structPtr) := AllocStep(base, s, MATRIX_STRUCT_BYTES);
      if structPtr.None? then (s, None)
      else
        var bytes := DataBytes(rows, cols);
        if bytes.None? then (s1, None)
        else
          var (s2, dataPtr) := AllocStep(base, s1, bytes.value);
          if dataPtr.None? then (s1, None)
          else (s2, Some((structPtr.value, dataPtr.value)))
  }

  /** When the data allocation fails, `matrix_create` returns NULL but the structure's
      64 bytes stay consumed, because `allocator_free` reclaims nothing. */
  lemma CreateLeaksStructure(base: int, s: AllocatorState, rows: int32, cols: int32)
    requires Inv(base, s) && rows > 0 && cols > 0
    requires AllocStep(base, s, MATRIX_STRUCT_BYTES).1.Some?
    requires CreateStep(base, s, rows, cols).1.None?
    ensures CreateStep(base, s, rows, cols).0.totalAllocated == s.totalAllocated + 64
  {
  }

  /** `matrix_create`. The contents of a new buffer are whatever memory held: nothing is promised. */
  method Create(a: Allocator, rows: int32, cols: int32) returns (m: Matrix?)
    requires a.Valid()
    modifies a
    ensures a.Valid()
    ensures var r := CreateStep(a.base, old(a.Snapshot()), rows, cols);
      a.Snapshot() == r.0 &&
      (m == null <==> r.1.None?) &&
      (m != null ==> r.1.value == (m.structAddr, m.dataAddr))
    ensures m != null ==> fresh(m) && fresh(m.data) && m.Valid() && m.rows == rows && m.cols == cols && !m.destroyed
  {
    if rows <= 0 || cols <= 0 {
      return null;
    }
    var structPtr := a.Alloc(MATRIX_STRUCT_BYTES);
    if structPtr.None? {
      return null;
    }
    var bytes := DataBytes(rows, cols);
    if bytes.None? {
      a.Free(structPtr.value);
      return null;
    }
    var dataPtr := a.Alloc(bytes.value);
    if dataPtr.None? {
      a.Free(structPtr.value);
      return null;
    }
    m := new Matrix(rows, cols, structPtr.value, dataPtr.value);
  }

  /** `matrix_destroy`: safe on NULL; both frees are no-ops. */
  method Destroy(a: Allocator, m: Matrix?)
    modifies m
    ensures a.Snapshot() == old(a.Snapshot())
    ensures m != null ==> m.destroyed
  {
    if m == null {
      return;
    }
    a.Free(m.dataAddr);
    a.Free(m.structAddr);
    m.destroyed := true;
  }

  /** The inner loop of `matrix_compare`: row `i` of two equally shaped matrices,
      element by element, stopping at the first difference. */
  method RowsEqual(g1: Grid, g2: Grid, i: int) returns (same: bool)
    requires g1.rows == g2.rows && g1.cols == g2.cols && 0 <= i < g1.rows
    ensures same <==> forall j :: 0 <= j < g1.cols ==> Cell(g1, i, j) == Cell(g2, i, j)
  {
    var j := 0;
    while j < g1.cols
      invariant 0 <= j <= g1.cols
      invariant forall n :: 0 <= n < j ==> Cell(g1, i, n) == Cell(g2, i, n)
    {
      var val1 := Get(g1, i, j);
      var val2 := Get(g2, i, j);
      if val1.value != val2.value {
        return false;
      }
      j := j + 1;
    }
    return true;
  }

  /** `matrix_compare`: InvalidParam on a shape mismatch; otherwise 0 when every element
      is equal and 1 as soon as a row-major scan meets a difference. */
  method Compare(m1: Matrix, m2: Matrix) returns (r: Result<int>)
    requires m1.Valid() && m2.Valid()
    ensures r.Err? <==> m1.rows != m2.rows || m1.cols != m2.cols
    ensures r.Err? ==> r.status == InvalidParam
    ensures r.Ok? ==> (r.value == 0 || r.value == 1) && (r.value == 0 <==> m1.Snapshot() == m2.Snapshot())
  {
    if m1.rows != m2.rows || m1.cols != m2.cols {
      return Err(InvalidParam);
    }
    var g1, g2 := m1.Snapshot(), m2.Snapshot();
    var i := 0;
    while i < g1.rows
      invariant 0 <= i <= g1.rows
      invariant forall r, c :: 0 <= r < i && 0 <= c < g1.cols ==> Cell(g1, r, c) == Cell(g2, r, c)
    {
      var same := RowsEqual(g1, g2, i);
      if !same {
        return Ok(1);
      }
      i := i + 1;
    }
    forall a, b
      ensures Get(g1, a, b) == Get(g2, a, b)
    {
      if InBounds(g1, a, b) {
        assert Cell(g1, a, b) == Cell(g2, a, b);
      }
    }
    GridExt(g1, g2);
    return Ok(0);
  }
}
