/** The software reference CNN: valid-mode strided cross-correlation, ReLU and
    non-overlapping max pooling over fixed-point matrices, each stage writing its
    output matrix cell by cell in row-major order and stopping at the first error. */
module Cnn {
  import opened CInt
  import opened Results
  import opened FixedPoint
  import opened Config
  import opened BumpAllocator
  import opened Matrices

  /** `relu_fp`: the larger of x and zero. */
  function Relu(x: Fixed): (r: Fixed)
    ensures r >= 0 && r >= x
    ensures r == x || r == 0
  {
    if x > 0 then x else 0
  }

  /** Output extent of a strided valid cross-correlation along one axis, with C's
      truncating division: `(n - k) / stride + 1`. */
  function ConvDim(n: int, k: int, stride: int): (d: int)
    requires stride > 0
    ensures n >= k ==> d >= 1 && (d - 1) * stride <= n - k < d * stride
    ensures n < k && k - n < stride ==> d == 1
    ensures n < k && k - n >= stride ==> d <= 0
    ensures 0 < n <= INT32_MAX && 0 < k <= INT32_MAX ==> INT32_MIN <= d <= INT32_MAX
  {
    ScaleMonotone(TruncDiv(n - k, stride), stride);
    TruncDiv(n - k, stride) + 1
  }

  lemma ScaleMonotone(q: int, stride: int)
    requires stride >= 1
    ensures q >= 0 ==> q * stride >= q
    ensures q < 0 ==> q * stride <= q
  {
  }

  /** The computation behind each output cell of a stage. */
  datatype Stage =
    | Convolution(input: Grid, kernel: Grid, stride: int)
    | Activation(input: Grid)
    | Pooling(input: Grid, poolSize: int)

  /** The in-bounds element of g at (row, col), or 0 outside it. */
  function ValueAt(g: Grid, row: int, col: int): Fixed {
    if InBounds(g, row, col) then Cell(g, row, col) else 0
  }

  /** The inner loops of `cnn_convolve` for the window whose top-left input cell is
      (r0, c0), from kernel position (ki, kj) on with running sum `acc`: ki outer,
      kj inner, each step reading the input and the kernel, multiplying, and adding
      the product to the sum. */
  function ConvSum(input: Grid, kernel: Grid, r0: int, c0: int, ki: int, kj: int, acc: Fixed): Result<Fixed>
    decreases kernel.rows - ki, kernel.cols - kj
  {
    if ki >= kernel.rows then Ok(acc)
    else if kj >= kernel.cols then ConvSum(input, kernel, r0, c0, ki + 1, 0, acc)
    else match Get(input, r0 + ki, c0 + kj)
      case Err(e) => Err(e)
      case Ok(x) =>
        match Get(kernel, ki, kj)
        case Err(e) => Err(e)
        case Ok(w) =>
          match Multiply(x, w)
          case Err(e) => Err(e)
          case Ok(p) =>
            match Add(p, acc)
            case Err(e) => Err(e)
            case Ok(s) => ConvSum(input, kernel, r0, c0, ki, kj + 1, s)
  }

  /** The exact sum the fold computes when nothing fails: every truncated product
      of the remaining kernel positions. */
  function ProductSum(input: Grid, kernel: Grid, r0: int, c0: int, ki: int, kj: int): int
    decreases kernel.rows - ki, kernel.cols - kj
  {
    if ki >= kernel.rows then 0
    else if kj >= kernel.cols then ProductSum(input, kernel, r0, c0, ki + 1, 0)
    else
      ShiftRight(ValueAt(input, r0 + ki, c0 + kj) * ValueAt(kernel, ki, kj))
        + ProductSum(input, kernel, r0, c0, ki, kj + 1)
  }

  /** The kernel positions from (ki, kj) on in row-major order. */
  predicate KernelRemaining(kernel: Grid, ki: int, kj: int, a: int, b: int) {
    0 <= a < kernel.rows && 0 <= b < kernel.cols && (a > ki || (a == ki && b >= kj))
  }

  /** When the fold succeeds, its value is the accumulated sum plus the exact sum of
      truncated products, and every input position it read lies inside the input. */
  lemma {:induction false} ConvSumExact(input: Grid, kernel: Grid, r0: int, c0: int, ki: int, kj: int, acc: Fixed)
    requires ConvSum(input, kernel, r0, c0, ki, kj, acc).Ok?
    ensures ConvSum(input, kernel, r0, c0, ki, kj, acc).value == acc + ProductSum(input, kernel, r0, c0, ki, kj)
    ensures forall a, b :: KernelRemaining(kernel, ki, kj, a, b) ==> InBounds(input, r0 + a, c0 + b)
    decreases kernel.rows - ki, kernel.cols - kj
  {
    if ki >= kernel.rows {
    } else if kj >= kernel.cols {
      ConvSumExact(input, kernel, r0, c0, ki + 1, 0, acc);
      forall a, b | KernelRemaining(kernel, ki, kj, a, b)
        ensures InBounds(input, r0 + a, c0 + b)
      {
        assert KernelRemaining(kernel, ki + 1, 0, a, b);
      }
    } else {
      var x := Get(input, r0 + ki, c0 + kj).value;
      var w := Get(kernel, ki, kj).value;
      var p := Multiply(x, w).value;
      var s := Add(p, acc).value;
      ConvSumExact(input, kernel, r0, c0, ki, kj + 1, s);
      MultiplyValue(x, w);
      forall a, b | KernelRemaining(kernel, ki, kj, a, b)
        ensures InBounds(input, r0 + a, c0 + b)
      {
        if a != ki || b != kj {
          assert KernelRemaining(kernel, ki, kj + 1, a, b);
        }
      }
    }
  }

  /** The inner loops of `cnn_max_pool` for the p x p block whose top-left input
      cell is (r0, c0): the running maximum from block position (pi, pj) on. */
  function BlockMax(input: Grid, p: int, r0: int, c0: int, pi: int, pj: int, acc: Fixed): Result<Fixed>
    decreases p - pi, p - pj
  {
    if pi >= p then Ok(acc)
    else if pj >= p then BlockMax(input, p, r0, c0, pi + 1, 0, acc)
    else match Get(input, r0 + pi, c0 + pj)
      case Err(e) => Err(e)
      case Ok(v) => BlockMax(input, p, r0, c0, pi, pj + 1, if v > acc then v else acc)
  }

  /** The block positions from (pi, pj) on in row-major order. */
  predicate BlockRemaining(p: int, pi: int, pj: int, a: int, b: int) {
    0 <= a < p && 0 <= b < p && (a > pi || (a == pi && b >= pj))
  }

  /** A successful running maximum is at least the seed and every remaining block
      element, all of which lie inside the input. */
  lemma {:induction false} BlockMaxBounds(input: Grid, p: int, r0: int, c0: int, pi: int, pj: int, acc: Fixed)
    requires BlockMax(input, p, r0, c0, pi, pj, acc).Ok?
    ensures var m := BlockMax(input, p, r0, c0, pi, pj, acc).value;
      && m >= acc
      && forall a, b :: BlockRemaining(p, pi, pj, a, b) ==>
           InBounds(input, r0 + a, c0 + b) && m >= Cell(input, r0 + a, c0 + b)
    decreases p - pi, p - pj
  {
    if pi >= p {
    } else if pj >= p {
      BlockMaxBounds(input, p, r0, c0, pi + 1, 0, acc);
      forall a, b | BlockRemaining(p, pi, pj, a, b)
        ensures BlockRemaining(p, pi + 1, 0, a, b)
      {
      }
    } else {
      var v := Get(input, r0 + pi, c0 + pj).value;
      BlockMaxBounds(input, p, r0, c0, pi, pj + 1, if v > acc then v else acc);
      forall a, b | BlockRemaining(p, pi, pj, a, b) && (a != pi || b != pj)
        ensures BlockRemaining(p, pi, pj + 1, a, b)
      {
      }
    }
  }

  /** A successful running maximum is the seed or one of the remaining block
      elements, the one at (wa, wb). */
  lemma {:induction false} BlockMaxAttained(input: Grid, p: int, r0: int, c0: int, pi: int, pj: int, acc: Fixed)
    returns (wa: int, wb: int)
    requires 0 <= pi && 0 <= pj && BlockMax(input, p, r0, c0, pi, pj, acc).Ok?
    ensures var m := BlockMax(input, p, r0, c0, pi, pj, acc).value;
      m == acc || (BlockRemaining(p, pi, pj, wa, wb) && Get(input, r0 + wa, c0 + wb) == Ok(m))
    decreases p - pi, p - pj
  {
    wa, wb := 0, 0;
    if pi >= p {
    } else if pj >= p {
      wa, wb := BlockMaxAttained(input, p, r0, c0, pi + 1, 0, acc);
      if BlockMax(input, p, r0, c0, pi, pj, acc).value != acc {
        assert BlockRemaining(p, pi + 1, 0, wa, wb);
      }
    } else {
      var v := Get(input, r0 + pi, c0 + pj).value;
      var next := if v > acc then v else acc;
      wa, wb := BlockMaxAttained(input, p, r0, c0, pi, pj + 1, next);
      var m := BlockMax(input, p, r0, c0, pi, pj + 1, next).value;
      if m != acc {
        if BlockRemaining(p, pi, pj + 1, wa, wb) && Get(input, r0 + wa, c0 + wb) == Ok(m) {
          assert BlockRemaining(p, pi, pj, wa, wb);
        } else {
          assert m == v;
          wa, wb := pi, pj;
        }
      }
    }
  }

  /** The value a stage writes at output (i, j), or the error that stops it. */
  function StageCell(stage: Stage, i: int, j: int): Result<Fixed> {
    match stage
    case Convolution(input, kernel, stride) => ConvSum(input, kernel, i * stride, j * stride, 0, 0, 0)
    case Activation(input) =>
      (match Get(input, i, j)
       case Err(e) => Err(e)
       case Ok(v) => Ok(Relu(v)))
    case Pooling(input, p) => BlockMax(input, p, i * p, j * p, 0, 0, FIXED_MIN)
  }

  /** A stage's per-cell computation as a value, so that the loop structure below is
      stated once for every stage. */
  function CellsOf(stage: Stage): (int, int) -> Result<Fixed> {
    (i, j) => StageCell(stage, i, j)
  }

  datatype Outcome = Outcome(status: Status, out: Grid)

  /** The outer loops of every stage: output cells (i, j) for i < rows and j < cols
      in row-major order from (i, j) on, each computed by `cell` and then stored with
      `matrix_set`; the first error is returned with the cells written so far. */
  function Fill(cell: (int, int) -> Result<Fixed>, out: Grid, rows: int, cols: int, i: int, j: int): Outcome
    decreases rows - i, cols - j
  {
    if i >= rows then Outcome(Success, out)
    else if j >= cols then Fill(cell, out, rows, cols, i + 1, 0)
    else match cell(i, j)
      case Err(e) => Outcome(e, out)
      case Ok(v) =>
        match Put(out, i, j, v)
        case Err(e) => Outcome(e, out)
        case Ok(next) => Fill(cell, next, rows, cols, i, j + 1)
  }

  /** The output positions the loops visit from (i, j) on. */
  predicate Pending(rows: int, cols: int, i: int, j: int, a: int, b: int) {
    0 <= a < rows && 0 <= b < cols && (a > i || (a == i && b >= j))
  }

  /** Row-major order: (a, b) comes before (fi, fj). */
  predicate Before(a: int, b: int, fi: int, fj: int) {
    a < fi || (a == fi && b < fj)
  }

  /** A stage keeps the output's shape and touches no cell outside the positions it visits. */
  lemma {:induction false} FillFrame(cell: (int, int) -> Result<Fixed>, out: Grid, rows: int, cols: int, i: int, j: int)
    ensures var r := Fill(cell, out, rows, cols, i, j);
      && r.out.rows == out.rows && r.out.cols == out.cols
      && forall a, b :: !Pending(rows, cols, i, j, a, b) ==> Get(r.out, a, b) == Get(out, a, b)
    requires 0 <= i && 0 <= j
    decreases rows - i, cols - j
  {
    if i >= rows {
    } else if j >= cols {
      FillFrame(cell, out, rows, cols, i + 1, 0);
      forall a, b | !Pending(rows, cols, i, j, a, b)
        ensures !Pending(rows, cols, i + 1, 0, a, b)
      {
      }
    } else if cell(i, j).Ok? && Put(out, i, j, cell(i, j).value).Ok? {
      var v := cell(i, j).value;
      var next := Put(out, i, j, v).value;
      FillFrame(cell, next, rows, cols, i, j + 1);
      forall a, b | !Pending(rows, cols, i, j, a, b)
        ensures Get(Fill(cell, out, rows, cols, i, j).out, a, b) == Get(out, a, b)
      {
        assert !Pending(rows, cols, i, j + 1, a, b);
        PutKeepsOthers(out, i, j, v, a, b);
      }
    }
  }

  /** A stage succeeds exactly when every visited cell computes and lies inside the output. */
  lemma {:induction false} FillSucceeds(cell: (int, int) -> Result<Fixed>, out: Grid, rows: int, cols: int, i: int, j: int)
    ensures Fill(cell, out, rows, cols, i, j).status == Success <==>
      forall a, b :: Pending(rows, cols, i, j, a, b) ==> cell(a, b).Ok? && InBounds(out, a, b)
    requires 0 <= i && 0 <= j
    decreases rows - i, cols - j
  {
    if i >= rows {
    } else if j >= cols {
      FillSucceeds(cell, out, rows, cols, i + 1, 0);
      forall a, b | Pending(rows, cols, i, j, a, b)
        ensures Pending(rows, cols, i + 1, 0, a, b)
      {
      }
    } else if cell(i, j).Ok? && Put(out, i, j, cell(i, j).value).Ok? {
      var next := Put(out, i, j, cell(i, j).value).value;
      FillSucceeds(cell, next, rows, cols, i, j + 1);
      forall a, b | Pending(rows, cols, i, j, a, b) && (a != i || b != j)
        ensures Pending(rows, cols, i, j + 1, a, b)
      {
      }
    } else {
      assert Pending(rows, cols, i, j, i, j);
    }
  }

  /** After a successful stage every visited cell holds the value computed for it. */
  lemma {:induction false} FillValues(cell: (int, int) -> Result<Fixed>, out: Grid, rows: int, cols: int, i: int, j: int)
    requires Fill(cell, out, rows, cols, i, j).status == Success
    ensures forall a, b :: Pending(rows, cols, i, j, a, b) ==>
      Get(Fill(cell, out, rows, cols, i, j).out, a, b) == cell(a, b)
    requires 0 <= i && 0 <= j
    decreases rows - i, cols - j
  {
    if i >= rows {
    } else if j >= cols {
      FillValues(cell, out, rows, cols, i + 1, 0);
      forall a, b | Pending(rows, cols, i, j, a, b)
        ensures Pending(rows, cols, i + 1, 0, a, b)
      {
      }
    } else {
      var v := cell(i, j).value;
      var next := Put(out, i, j, v).value;
      FillValues(cell, next, rows, cols, i, j + 1);
      FillFrame(cell, next, rows, cols, i, j + 1);
      forall a, b | Pending(rows, cols, i, j, a, b) && (a != i || b != j)
        ensures Pending(rows, cols, i, j + 1, a, b)
      {
      }
      assert !Pending(rows, cols, i, j + 1, i, j);
    }
  }

  /** Fail-fast: a failing stage stops at some visited cell (fi, fj), either because the
      computation there failed (its status is returned) or because the cell lies outside
      the output (InvalidParam); every earlier visited cell holds its value and all other
      cells are as they were. */
  lemma {:induction false} FillFailure(cell: (int, int) -> Result<Fixed>, out: Grid, rows: int, cols: int, i: int, j: int)
    returns (fi: int, fj: int)
    requires Fill(cell, out, rows, cols, i, j).status != Success
    ensures Pending(rows, cols, i, j, fi, fj)
    ensures var r := Fill(cell, out, rows, cols, i, j);
      || (cell(fi, fj).Err? && r.status == cell(fi, fj).status)
      || (cell(fi, fj).Ok? && !InBounds(out, fi, fj) && r.status == InvalidParam)
    ensures forall a, b :: Pending(rows, cols, i, j, a, b) && Before(a, b, fi, fj) ==>
      Get(Fill(cell, out, rows, cols, i, j).out, a, b) == cell(a, b)
    ensures forall a, b :: !(Pending(rows, cols, i, j, a, b) && Before(a, b, fi, fj)) ==>
      Get(Fill(cell, out, rows, cols, i, j).out, a, b) == Get(out, a, b)
    requires 0 <= i && 0 <= j
    decreases rows - i, cols - j
  {
    if i >= rows {
      assert false;
    } else if j >= cols {
      fi, fj := FillFailure(cell, out, rows, cols, i + 1, 0);
      forall a, b | Pending(rows, cols, i, j, a, b)
        ensures Pending(rows, cols, i + 1, 0, a, b)
      {
      }
    } else if cell(i, j).Ok? && Put(out, i, j, cell(i, j).value).Ok? {
      var v := cell(i, j).value;
      var next := Put(out, i, j, v).value;
      fi, fj := FillFailure(cell, next, rows, cols, i, j + 1);
      FillFrame(cell, next, rows, cols, i, j + 1);
      forall a, b | Pending(rows, cols, i, j, a, b) && (a != i || b != j)
        ensures Pending(rows, cols, i, j + 1, a, b)
      {
      }
      forall a, b | !(Pending(rows, cols, i, j, a, b) && Before(a, b, fi, fj))
        ensures Get(Fill(cell, out, rows, cols, i, j).out, a, b) == Get(out, a, b)
      {
        PutKeepsOthers(out, i, j, v, a, b);
      }
    } else {
      fi, fj := i, j;
    }
  }

  lemma ScaleGrows(q: int, stride: int)
    requires q >= 1 && stride >= 2
    ensures q * stride > q
  {
    assert q * stride == q + q * (stride - 1);
  }

  /** Whether a stage succeeds, and with which status it fails, depends on the
      output's shape and not on its contents. */
  lemma {:induction false} FillStatusShapeOnly(cell: (int, int) -> Result<Fixed>, o1: Grid, o2: Grid, rows: int, cols: int, i: int, j: int)
    requires o1.rows == o2.rows && o1.cols == o2.cols
    ensures Fill(cell, o1, rows, cols, i, j).status == Fill(cell, o2, rows, cols, i, j).status
    decreases rows - i, cols - j
  {
    if i >= rows {
    } else if j >= cols {
      FillStatusShapeOnly(cell, o1, o2, rows, cols, i + 1, 0);
    } else if cell(i, j).Ok? && InBounds(o1, i, j) {
      var v := cell(i, j).value;
      FillStatusShapeOnly(cell, Put(o1, i, j, v).value, Put(o2, i, j, v).value, rows, cols, i, j + 1);
    }
  }

  /** A successful stage whose loops cover the whole output determines every cell of it. */
  lemma FillCoversOutput(cell: (int, int) -> Result<Fixed>, out: Grid)
    requires Fill(cell, out, out.rows, out.cols, 0, 0).status == Success
    ensures var r := Fill(cell, out, out.rows, out.cols, 0, 0).out;
      && r.rows == out.rows && r.cols == out.cols
      && forall a, b :: Get(r, a, b) == if InBounds(out, a, b) then cell(a, b) else Err(InvalidParam)
  {
    FillFrame(cell, out, out.rows, out.cols, 0, 0);
    FillValues(cell, out, out.rows, out.cols, 0, 0);
  }

  /** `cnn_relu_activate` succeeds exactly when the output is at least as large as the input. */
  lemma ReluSucceeds(input: Grid, out: Grid)
    ensures Fill(CellsOf(Activation(input)), out, input.rows, input.cols, 0, 0).status == Success <==>
      out.rows >= input.rows && out.cols >= input.cols
  {
    FillSucceeds(CellsOf(Activation(input)), out, input.rows, input.cols, 0, 0);
    assert Pending(input.rows, input.cols, 0, 0, input.rows - 1, input.cols - 1);
  }

  /** After a successful `cnn_relu_activate`, each output cell inside the input's shape
      holds the input element if it is positive and zero otherwise; the rest are untouched. */
  lemma ReluValues(input: Grid, out: Grid, a: int, b: int)
    requires Fill(CellsOf(Activation(input)), out, input.rows, input.cols, 0, 0).status == Success
    ensures var r := Fill(CellsOf(Activation(input)), out, input.rows, input.cols, 0, 0).out;
      && (InBounds(input, a, b) ==>
            Get(r, a, b) == Ok(if Cell(input, a, b) > 0 then Cell(input, a, b) else 0))
      && (!InBounds(input, a, b) ==> Get(r, a, b) == Get(out, a, b))
  {
    FillValues(CellsOf(Activation(input)), out, input.rows, input.cols, 0, 0);
    FillFrame(CellsOf(Activation(input)), out, input.rows, input.cols, 0, 0);
    if InBounds(input, a, b) {
      assert Pending(input.rows, input.cols, 0, 0, a, b);
    }
  }

  /** After a successful `cnn_convolve`, output cell (a, b) of the visited range holds the
      exact sum of truncated products over the kernel placed at (a * stride, b * stride),
      and that window lies inside the input. */
  lemma ConvolveValues(input: Grid, kernel: Grid, stride: int, out: Grid, a: int, b: int)
    requires stride > 0
    requires Fill(CellsOf(Convolution(input, kernel, stride)), out,
                  ConvDim(input.rows, kernel.rows, stride), ConvDim(input.cols, kernel.cols, stride), 0, 0).status == Success
    requires 0 <= a < ConvDim(input.rows, kernel.rows, stride) && 0 <= b < ConvDim(input.cols, kernel.cols, stride)
    ensures var r := Fill(CellsOf(Convolution(input, kernel, stride)), out,
                          ConvDim(input.rows, kernel.rows, stride), ConvDim(input.cols, kernel.cols, stride), 0, 0).out;
      && Get(r, a, b) == Ok(ProductSum(input, kernel, a * stride, b * stride, 0, 0))
      && forall ki, kj :: KernelRemaining(kernel, 0, 0, ki, kj) ==> InBounds(input, a * stride + ki, b * stride + kj)
  {
    var rows, cols := ConvDim(input.rows, kernel.rows, stride), ConvDim(input.cols, kernel.cols, stride);
    var cell := CellsOf(Convolution(input, kernel, stride));
    FillValues(cell, out, rows, cols, 0, 0);
    FillSucceeds(cell, out, rows, cols, 0, 0);
    assert Pending(rows, cols, 0, 0, a, b);
    assert cell(a, b) == ConvSum(input, kernel, a * stride, b * stride, 0, 0, 0);
    ConvSumExact(input, kernel, a * stride, b * stride, 0, 0, 0);
  }

  /** A block inside the input never fails to read. */
  lemma {:induction false} BlockMaxInside(input: Grid, p: int, r0: int, c0: int, pi: int, pj: int, acc: Fixed)
    requires 0 <= r0 && r0 + p <= input.rows && 0 <= c0 && c0 + p <= input.cols
    requires 0 <= pi && 0 <= pj
    ensures BlockMax(input, p, r0, c0, pi, pj, acc).Ok?
    decreases p - pi, p - pj
  {
    if pi >= p {
    } else if pj >= p {
      BlockMaxInside(input, p, r0, c0, pi + 1, 0, acc);
    } else {
      var v := Get(input, r0 + pi, c0 + pj).value;
      BlockMaxInside(input, p, r0, c0, pi, pj + 1, if v > acc then v else acc);
    }
  }

  /** Output (i, j) of the pooling range reads a block inside the input. */
  lemma PoolBlockInside(n: int, p: int, i: int)
    requires n > 0 && p > 0 && 0 <= i < n / p
    ensures 0 <= i * p && i * p + p <= n
  {
    assert (i + 1) * p <= (n / p) * p;
  }

  /** `cnn_max_pool` never fails on a read: it succeeds exactly when the output covers
      the (rows / p) x (cols / p) cells it writes. */
  lemma MaxPoolSucceeds(input: Grid, p: int, out: Grid)
    requires p > 0
    ensures Fill(CellsOf(Pooling(input, p)), out, input.rows / p, input.cols / p, 0, 0).status == Success <==>
      input.rows / p == 0 || input.cols / p == 0 || (out.rows >= input.rows / p && out.cols >= input.cols / p)
  {
    var rows, cols := input.rows / p, input.cols / p;
    FillSucceeds(CellsOf(Pooling(input, p)), out, rows, cols, 0, 0);
    forall a, b | Pending(rows, cols, 0, 0, a, b)
      ensures CellsOf(Pooling(input, p))(a, b).Ok?
    {
      PoolCellOk(input, p, a, b);
    }
    if rows > 0 && cols > 0 {
      assert Pending(rows, cols, 0, 0, rows - 1, cols - 1);
    }
  }

  /** Every cell in the pooled range reads a block inside the input, so it computes. */
  lemma PoolCellOk(input: Grid, p: int, a: int, b: int)
    requires p > 0 && 0 <= a < input.rows / p && 0 <= b < input.cols / p
    ensures CellsOf(Pooling(input, p))(a, b).Ok?
  {
    PoolBlockInside(input.rows, p, a);
    PoolBlockInside(input.cols, p, b);
    BlockMaxInside(input, p, a * p, b * p, 0, 0, FIXED_MIN);
  }

  /** After a successful `cnn_max_pool`, output (i, j) of the visited range holds the
      maximum of its p x p block: no block element exceeds it and the element at
      (i * p + wa, j * p + wb) equals it. */
  lemma MaxPoolValues(input: Grid, p: int, out: Grid, i: int, j: int) returns (wa: int, wb: int)
    requires p > 0
    requires Fill(CellsOf(Pooling(input, p)), out, input.rows / p, input.cols / p, 0, 0).status == Success
    requires 0 <= i < input.rows / p && 0 <= j < input.cols / p
    ensures var r := Fill(CellsOf(Pooling(input, p)), out, input.rows / p, input.cols / p, 0, 0).out;
      && Get(r, i, j).Ok?
      && 0 <= wa < p && 0 <= wb < p
      && Get(input, i * p + wa, j * p + wb) == Get(r, i, j)
      && forall a, b :: BlockRemaining(p, 0, 0, a, b) ==>
           InBounds(input, i * p + a, j * p + b) && Cell(input, i * p + a, j * p + b) <= Get(r, i, j).value
  {
    var rows, cols := input.rows / p, input.cols / p;
    FillValues(CellsOf(Pooling(input, p)), out, rows, cols, 0, 0);
    assert Pending(rows, cols, 0, 0, i, j);
    PoolBlockInside(input.rows, p, i);
    PoolBlockInside(input.cols, p, j);
    BlockMaxInside(input, p, i * p, j * p, 0, 0, FIXED_MIN);
    BlockMaxBounds(input, p, i * p, j * p, 0, 0, FIXED_MIN);
    wa, wb := BlockMaxAttained(input, p, i * p, j * p, 0, 0, FIXED_MIN);
    var m := BlockMax(input, p, i * p, j * p, 0, 0, FIXED_MIN).value;
    assert BlockRemaining(p, 0, 0, 0, 0);
    if !(BlockRemaining(p, 0, 0, wa, wb) && Get(input, i * p + wa, j * p + wb) == Ok(m)) {
      wa, wb := 0, 0;
    }
  }

  /** The 4 x 4 ramp that `matrix_initialize` produces (element k is k in fixed point). */
  function Ramp4(): Grid {
    GridData(4, 4, seq(16, k requires 0 <= k < 16 => k * SCALE))
  }

  /** [[5, 7], [13, 15]] in fixed point. */
  function PooledRamp4(): Grid {
    GridData(2, 2, [5 * SCALE, 7 * SCALE, 13 * SCALE, 15 * SCALE])
  }

  /** A stage over a 2 x 2 output whose four cells all compute writes them in order. */
  lemma FillTwoByTwo(cell: (int, int) -> Result<Fixed>, out: Grid, v00: Fixed, v01: Fixed, v10: Fixed, v11: Fixed)
    requires out.rows == 2 && out.cols == 2
    requires cell(0, 0) == Ok(v00) && cell(0, 1) == Ok(v01) && cell(1, 0) == Ok(v10) && cell(1, 1) == Ok(v11)
    ensures Fill(cell, out, 2, 2, 0, 0) == Outcome(Success, GridData(2, 2, [v00, v01, v10, v11]))
  {
    var o1 := Put(out, 0, 0, v00).value;
    assert o1.cols == 2 && o1.cells == out.cells[0 := v00];
    var o2 := Put(o1, 0, 1, v01).value;
    assert o2.cols == 2 && o2.cells == o1.cells[1 := v01];
    var o3 := Put(o2, 1, 0, v10).value;
    assert o3.cols == 2 && o3.cells == o2.cells[2 := v10];
    var o4 := Put(o3, 1, 1, v11).value;
    assert o4.cells == o3.cells[3 := v11];
    assert Fill(cell, o4, 2, 2, 1, 2) == Outcome(Success, o4);
    assert Fill(cell, o3, 2, 2, 1, 1) == Outcome(Success, o4);
    assert Fill(cell, o2, 2, 2, 1, 0) == Outcome(Success, o4);
    assert Fill(cell, o2, 2, 2, 0, 2) == Outcome(Success, o4);
    assert Fill(cell, o1, 2, 2, 0, 1) == Outcome(Success, o4);
    FourUpdates(out.cells, v00, v01, v10, v11);
  }

  lemma FourUpdates(s: seq<Fixed>, a: Fixed, b: Fixed, c: Fixed, d: Fixed)
    requires |s| == 4
    ensures s[0 := a][1 := b][2 := c][3 := d] == [a, b, c, d]
  {
  }

  /** Pooling the 4 x 4 ramp with p = 2 gives [[5, 7], [13, 15]] in fixed point. */
  lemma RampPoolExample(out: Grid)
    requires out.rows == 2 && out.cols == 2
    ensures Fill(CellsOf(Pooling(Ramp4(), 2)), out, 2, 2, 0, 0) == Outcome(Success, PooledRamp4())
  {
    RampBlock(0, 0);
    RampBlock(0, 1);
    RampBlock(1, 0);
    RampBlock(1, 1);
    FillTwoByTwo(CellsOf(Pooling(Ramp4(), 2)), out, 5 * SCALE, 7 * SCALE, 13 * SCALE, 15 * SCALE);
  }

  /** Each 2 x 2 block of the ramp has its maximum in its bottom-right corner. */
  lemma RampBlock(i: int, j: int)
    requires 0 <= i < 2 && 0 <= j < 2
    ensures CellsOf(Pooling(Ramp4(), 2))(i, j) == Ok((8 * i + 2 * j + 5) * SCALE)
  {
    RampBlockCorner(i, j);
    BlockMaxAtCorner(Ramp4(), 2, i * 2, j * 2);
    RampCell(i * 2 + 1, j * 2 + 1);
  }

  /** In every 2 x 2 block of the ramp the bottom-right element is the largest. */
  lemma RampBlockCorner(i: int, j: int)
    requires 0 <= i < 2 && 0 <= j < 2
    ensures forall a, b :: BlockRemaining(2, 0, 0, a, b) ==>
      Cell(Ramp4(), i * 2 + a, j * 2 + b) <= Cell(Ramp4(), i * 2 + 1, j * 2 + 1)
  {
    forall a, b | BlockRemaining(2, 0, 0, a, b)
      ensures Cell(Ramp4(), i * 2 + a, j * 2 + b) <= Cell(Ramp4(), i * 2 + 1, j * 2 + 1)
    {
      RampCell(i * 2 + a, j * 2 + b);
      RampCell(i * 2 + 1, j * 2 + 1);
    }
  }

  /** A block inside the input whose bottom-right element is its largest pools to that element. */
  lemma BlockMaxAtCorner(input: Grid, p: int, r0: int, c0: int)
    requires p > 0 && 0 <= r0 && r0 + p <= input.rows && 0 <= c0 && c0 + p <= input.cols
    requires forall a, b :: BlockRemaining(p, 0, 0, a, b) ==>
      Cell(input, r0 + a, c0 + b) <= Cell(input, r0 + p - 1, c0 + p - 1)
    ensures BlockMax(input, p, r0, c0, 0, 0, FIXED_MIN) == Ok(Cell(input, r0 + p - 1, c0 + p - 1))
  {
    BlockMaxInside(input, p, r0, c0, 0, 0, FIXED_MIN);
    BlockMaxBounds(input, p, r0, c0, 0, 0, FIXED_MIN);
    var wa, wb := BlockMaxAttained(input, p, r0, c0, 0, 0, FIXED_MIN);
    assert BlockRemaining(p, 0, 0, p - 1, p - 1);
  }

  /** The ramp holds its row-major index, in fixed point. */
  lemma RampCell(r: int, c: int)
    requires 0 <= r < 4 && 0 <= c < 4
    ensures Cell(Ramp4(), r, c) == (4 * r + c) * SCALE
  {
  }

  /** With intermediates of the shape the STRIDE-convolution writes (so whenever the
      `stride` argument equals STRIDE), `cnn_forward`'s result does not depend on the
      uninitialised contents of the intermediates. */
  lemma PipelineIgnoresScratch(input: Grid, kernel: Grid, c1: Grid, c2: Grid, r1: Grid, r2: Grid, output: Grid)
    requires c1.rows == c2.rows == r1.rows == r2.rows == ConvDim(input.rows, kernel.rows, STRIDE)
    requires c1.cols == c2.cols == r1.cols == r2.cols == ConvDim(input.cols, kernel.cols, STRIDE)
    ensures Pipeline(input, kernel, c1, r1, output) == Pipeline(input, kernel, c2, r2, output)
  {
    var convCell := CellsOf(Convolution(input, kernel, STRIDE));
    FillStatusShapeOnly(convCell, c1, c2, c1.rows, c1.cols, 0, 0);
    var conv1 := Fill(convCell, c1, c1.rows, c1.cols, 0, 0);
    var conv2 := Fill(convCell, c2, c1.rows, c1.cols, 0, 0);
    if conv1.status == Success {
      FillCoversOutput(convCell, c1);
      FillCoversOutput(convCell, c2);
      GridExt(conv1.out, conv2.out);
      var reluCell := CellsOf(Activation(conv1.out));
      FillStatusShapeOnly(reluCell, r1, r2, r1.rows, r1.cols, 0, 0);
      var relu1 := Fill(reluCell, r1, r1.rows, r1.cols, 0, 0);
      var relu2 := Fill(reluCell, r2, r1.rows, r1.cols, 0, 0);
      if relu1.status == Success {
        FillCoversOutput(reluCell, r1);
        FillCoversOutput(reluCell, r2);
        GridExt(relu1.out, relu2.out);
      }
    }
  }

  /** With a `stride` argument above STRIDE on an input at least `stride` rows taller
      than the kernel, the convolution intermediate is too small for the STRIDE
      convolution written into it, so `cnn_forward` never succeeds. */
  lemma StrideMismatchFails(input: Grid, kernel: Grid, stride: int, convInit: Grid, reluInit: Grid, output: Grid)
    requires stride > STRIDE && input.rows - kernel.rows >= stride && input.cols >= kernel.cols
    requires convInit.rows == ConvDim(input.rows, kernel.rows, stride)
    requires convInit.cols == ConvDim(input.cols, kernel.cols, stride)
    ensures Pipeline(input, kernel, convInit, reluInit, output).status != Success
  {
    var n := input.rows - kernel.rows;
    var d := ConvDim(input.rows, kernel.rows, stride);
    var rows, cols := ConvDim(input.rows, kernel.rows, STRIDE), ConvDim(input.cols, kernel.cols, STRIDE);
    assert rows == n + 1;
    if d >= 2 {
      ScaleGrows(d - 1, stride);
    }
    assert d < rows;
    FillSucceeds(CellsOf(Convolution(input, kernel, STRIDE)), convInit, rows, cols, 0, 0);
    assert Pending(rows, cols, 0, 0, rows - 1, 0);
  }

  /** The `ki`/`kj` loops of `cnn_convolve` for the window at (r0, c0), from a zero sum. */
  method ConvolveCell(input: Matrix, kernel: Matrix, r0: int, c0: int) returns (r: Result<Fixed>)
    requires input.Valid() && kernel.Valid()
    ensures r == ConvSum(input.Snapshot(), kernel.Snapshot(), r0, c0, 0, 0, 0)
  {
    var zero := IntToFixed(0);
    assert zero.Ok?;
    var sum := zero.value;
    ghost var spec := ConvSum(input.Snapshot(), kernel.Snapshot(), r0, c0, 0, 0, 0);
    var ki := 0;
    while ki < kernel.rows
      invariant 0 <= ki
      invariant ConvSum(input.Snapshot(), kernel.Snapshot(), r0, c0, ki, 0, sum) == spec
    {
      var kj := 0;
      while kj < kernel.cols
        invariant 0 <= kj
        invariant ConvSum(input.Snapshot(), kernel.Snapshot(), r0, c0, ki, kj, sum) == spec
      {
        var inVal := Get(input.Snapshot(), r0 + ki, c0 + kj);
        if inVal.Err? {
          return Err(inVal.status);
        }
        var kernVal := Get(kernel.Snapshot(), ki, kj);
        assert kernVal.Ok?;
        var prod := Multiply(inVal.value, kernVal.value);
        if prod.Err? {
          return Err(prod.status);
        }
        var total := Add(prod.value, sum);
        if total.Err? {
          return Err(total.status);
        }
        sum := total.value;
        kj := kj + 1;
      }
      ki := ki + 1;
    }
    return Ok(sum);
  }

  /** `cnn_convolve`. */
  method Convolve(input: Matrix, kernel: Matrix, stride: int, output: Matrix) returns (st: Status)
    requires input.Valid() && kernel.Valid() && output.Valid()
    requires output.data != input.data && output.data != kernel.data
    modifies output.data
    ensures stride <= 0 ==> st == InvalidParam && output.data[..] == old(output.data[..])
    ensures stride > 0 ==>
      Outcome(st, output.Snapshot()) ==
      Fill(CellsOf(Convolution(input.Snapshot(), kernel.Snapshot(), stride)), old(output.Snapshot()),
           ConvDim(input.rows, kernel.rows, stride), ConvDim(input.cols, kernel.cols, stride), 0, 0)
  {
    if stride <= 0 {
      return InvalidParam;
    }
    var rows := ConvDim(input.rows, kernel.rows, stride);
    var cols := ConvDim(input.cols, kernel.cols, stride);
    ghost var cell := CellsOf(Convolution(input.Snapshot(), kernel.Snapshot(), stride));
    ghost var spec := Fill(cell, output.Snapshot(), rows, cols, 0, 0);
    var i := 0;
    while i < rows
      invariant 0 <= i
      invariant Fill(cell, output.Snapshot(), rows, cols, i, 0) == spec
    {
      var j := 0;
      while j < cols
        invariant 0 <= j
        invariant Fill(cell, output.Snapshot(), rows, cols, i, j) == spec
      {
        var sum := ConvolveCell(input, kernel, i * stride, j * stride);
        if sum.Err? {
          return sum.status;
        }
        st := output.Set(i, j, sum.value);
        if st != Success {
          return st;
        }
        j := j + 1;
      }
      i := i + 1;
    }
    return Success;
  }

  /** `cnn_relu_activate`, with `relu_fp` applied to each element of the input's shape. */
  method ReluActivate(input: Matrix, output: Matrix) returns (st: Status)
    requires input.Valid() && output.Valid()
    requires output.data != input.data
    modifies output.data
    ensures Outcome(st, output.Snapshot()) ==
      Fill(CellsOf(Activation(input.Snapshot())), old(output.Snapshot()), input.rows, input.cols, 0, 0)
  {
    ghost var cell := CellsOf(Activation(input.Snapshot()));
    ghost var spec := Fill(cell, output.Snapshot(), input.rows, input.cols, 0, 0);
    var i := 0;
    while i < input.rows
      invariant 0 <= i
      invariant Fill(cell, output.Snapshot(), input.rows, input.cols, i, 0) == spec
    {
      var j := 0;
      while j < input.cols
        invariant 0 <= j
        invariant Fill(cell, output.Snapshot(), input.rows, input.cols, i, j) == spec
      {
        var val := Get(input.Snapshot(), i, j);
        assert val.Ok?;
        var result := Relu(val.value);
        assert cell(i, j) == Ok(result);
        st := output.Set(i, j, result);
        if st != Success {
          return st;
        }
        j := j + 1;
      }
      i := i + 1;
    }
    return Success;
  }

  /** The `pi`/`pj` loops of `cnn_max_pool` for the p x p block at (r0, c0), seeded
      with FIXED_POINT_MIN. */
  method PoolCell(input: Matrix, p: int, r0: int, c0: int) returns (r: Result<Fixed>)
    requires input.Valid()
    ensures r == BlockMax(input.Snapshot(), p, r0, c0, 0, 0, FIXED_MIN)
  {
    var max: Fixed := FIXED_MIN;
    ghost var spec := BlockMax(input.Snapshot(), p, r0, c0, 0, 0, FIXED_MIN);
    var pi := 0;
    while pi < p
      invariant 0 <= pi
      invariant BlockMax(input.Snapshot(), p, r0, c0, pi, 0, max) == spec
    {
      var pj := 0;
      while pj < p
        invariant 0 <= pj
        invariant BlockMax(input.Snapshot(), p, r0, c0, pi, pj, max) == spec
      {
        var val := Get(input.Snapshot(), r0 + pi, c0 + pj);
        if val.Err? {
          return Err(val.status);
        }
        if val.value > max {
          max := val.value;
        }
        pj := pj + 1;
      }
      pi := pi + 1;
    }
    return Ok(max);
  }

  /** `cnn_max_pool`: (rows / p) x (cols / p) output cells, the remainder dropped. */
  method MaxPool(input: Matrix, poolSize: int, output: Matrix) returns (st: Status)
    requires input.Valid() && output.Valid()
    requires output.data != input.data
    modifies output.data
    ensures poolSize <= 0 ==> st == InvalidParam && output.data[..] == old(output.data[..])
    ensures poolSize > 0 ==>
      Outcome(st, output.Snapshot()) ==
      Fill(CellsOf(Pooling(input.Snapshot(), poolSize)), old(output.Snapshot()),
           input.rows / poolSize, input.cols / poolSize, 0, 0)
  {
    if poolSize <= 0 {
      return InvalidParam;
    }
    var rows := input.rows / poolSize;
    var cols := input.cols / poolSize;
    ghost var cell := CellsOf(Pooling(input.Snapshot(), poolSize));
    ghost var spec := Fill(cell, output.Snapshot(), rows, cols, 0, 0);
    var i := 0;
    while i < rows
      invariant 0 <= i
      invariant Fill(cell, output.Snapshot(), rows, cols, i, 0) == spec
    {
      var j := 0;
      while j < cols
        invariant 0 <= j
        invariant Fill(cell, output.Snapshot(), rows, cols, i, j) == spec
      {
        var max := PoolCell(input, poolSize, i * poolSize, j * poolSize);
        if max.Err? {
          return max.status;
        }
        st := output.Set(i, j, max.value);
        if st != Success {
          return st;
        }
        j := j + 1;
      }
      i := i + 1;
    }
    return Success;
  }

  /** The stage sequence of `cnn_forward` once both intermediates exist, with their
      initial contents `convInit` and `reluInit`: convolution with `stride` into the
      first, ReLU into the second, pooling with `poolSize` into the output; the first
      failing stage's status is returned. */
  function PipelineWith(input: Grid, kernel: Grid, stride: int, poolSize: int,
                        convInit: Grid, reluInit: Grid, output: Grid): Outcome
    requires stride > 0 && poolSize > 0
  {
    var conv := Fill(CellsOf(Convolution(input, kernel, stride)), convInit,
                     ConvDim(input.rows, kernel.rows, stride), ConvDim(input.cols, kernel.cols, stride), 0, 0);
    if conv.status != Success then Outcome(conv.status, output)
    else
      var relu := Fill(CellsOf(Activation(conv.out)), reluInit, conv.out.rows, conv.out.cols, 0, 0);
      if relu.status != Success then Outcome(relu.status, output)
      else
        Fill(CellsOf(Pooling(relu.out, poolSize)), output,
             relu.out.rows / poolSize, relu.out.cols / poolSize, 0, 0)
  }

  /** What `cnn_forward` runs as written: the stages with the constants STRIDE and
      POOL_SIZE, whatever its `stride` and `pool_size` arguments. */
  function Pipeline(input: Grid, kernel: Grid, convInit: Grid, reluInit: Grid, output: Grid): Outcome {
    PipelineWith(input, kernel, STRIDE, POOL_SIZE, convInit, reluInit, output)
  }

  /** Run with the `stride` argument, as the sizing of the intermediates intends, the
      convolution always fits its intermediate: it fails only when a window fails
      (out of the input, or an overflow), never for want of room in the output. */
  lemma ConvolutionFitsIntermediate(input: Grid, kernel: Grid, stride: int, convInit: Grid)
    requires stride > 0
    requires convInit.rows == ConvDim(input.rows, kernel.rows, stride)
    requires convInit.cols == ConvDim(input.cols, kernel.cols, stride)
    ensures Fill(CellsOf(Convolution(input, kernel, stride)), convInit, convInit.rows, convInit.cols, 0, 0).status
              == Success <==>
            forall a, b :: Pending(convInit.rows, convInit.cols, 0, 0, a, b) ==>
              CellsOf(Convolution(input, kernel, stride))(a, b).Ok?
  {
    FillSucceeds(CellsOf(Convolution(input, kernel, stride)), convInit, convInit.rows, convInit.cols, 0, 0);
  }

  /** The allocator state after `cnn_forward` creates its two rows x cols
      intermediates, and how many of them it managed to create (it stops at the
      first failure). */
  function Intermediates(base: int, s: AllocatorState, rows: int32, cols: int32): (r: (AllocatorState, nat))
    ensures r.1 <= 2
    ensures r.1 >= 1 <==> CreateStep(base, s, rows, cols).1.Some?
    ensures r.1 == 2 <==>
      CreateStep(base, s, rows, cols).1.Some? &&
      CreateStep(base, CreateStep(base, s, rows, cols).0, rows, cols).1.Some?
    ensures r.1 == 0 ==> r.0 == CreateStep(base, s, rows, cols).0
    ensures r.1 >= 1 ==> r.0 == CreateStep(base, CreateStep(base, s, rows, cols).0, rows, cols).0
    ensures Inv(base, s) ==> Inv(base, r.0)
  {
    var (s1, conv) := CreateStep(base, s, rows, cols);
    if conv.None? then (s1, 0)
    else
      var (s2, relu) := CreateStep(base, s1, rows, cols);
      (s2, if relu.None? then 1 else 2)
  }

  /** `cnn_forward`. The intermediates are sized with the `stride` argument but the
      stages run with the constants STRIDE and POOL_SIZE, as in the source.
      `created` lists the intermediates it allocated; `convInit` and `reluInit` are
      their contents right after creation. */
  method Forward(a: Allocator, input: Matrix, kernel: Matrix, poolSize: int, stride: int, output: Matrix)
    returns (st: Status, ghost created: seq<Matrix>, ghost convInit: Grid, ghost reluInit: Grid)
    requires a.Valid() && input.Valid() && kernel.Valid() && output.Valid()
    requires output.data != input.data && output.data != kernel.data
    modifies a, output.data
    ensures a.Valid()
    ensures forall k :: 0 <= k < |created| ==> fresh(created[k]) && created[k].destroyed
    ensures poolSize <= 0 || stride <= 0 ==>
      st == InvalidParam && created == [] &&
      a.Snapshot() == old(a.Snapshot()) && output.data[..] == old(output.data[..])
    ensures poolSize > 0 && stride > 0 ==>
      var rows := ConvDim(input.rows, kernel.rows, stride);
      var cols := ConvDim(input.cols, kernel.cols, stride);
      var (s, n) := Intermediates(a.base, old(a.Snapshot()), rows, cols);
      && a.Snapshot() == s
      && |created| == n
      && (n < 2 ==> st == MemoryError && output.data[..] == old(output.data[..]))
      && (n == 2 ==>
            && convInit.rows == rows && convInit.cols == cols
            && reluInit.rows == rows && reluInit.cols == cols
            && Outcome(st, output.Snapshot()) ==
               Pipeline(old(input.Snapshot()), old(kernel.Snapshot()), convInit, reluInit, old(output.Snapshot())))
  {
    if poolSize <= 0 || stride <= 0 {
      return InvalidParam, [], GridData(1, 1, [0]), GridData(1, 1, [0]);
    }
    var rows := ConvDim(input.rows, kernel.rows, stride);
    var cols := ConvDim(input.cols, kernel.cols, stride);
    st, created, convInit, reluInit := ForwardSized(a, input, kernel, rows, cols, output);
  }

  /** Lines 181-226 of `cnn_forward`, once the intermediate shape rows x cols is known. */
  method ForwardSized(a: Allocator, input: Matrix, kernel: Matrix, rows: int32, cols: int32, output: Matrix)
    returns (st: Status, ghost created: seq<Matrix>, ghost convInit: Grid, ghost reluInit: Grid)
    requires a.Valid() && input.Valid() && kernel.Valid() && output.Valid()
    requires output.data != input.data && output.data != kernel.data
    modifies a, output.data
    ensures a.Valid()
    ensures forall k :: 0 <= k < |created| ==> fresh(created[k]) && created[k].destroyed
    ensures var (s, n) := Intermediates(a.base, old(a.Snapshot()), rows, cols);
      && a.Snapshot() == s
      && |created| == n
      && (n < 2 ==> st == MemoryError && output.data[..] == old(output.data[..]))
      && (n == 2 ==>
            && convInit.rows == rows && convInit.cols == cols
            && reluInit.rows == rows && reluInit.cols == cols
            && Outcome(st, output.Snapshot()) ==
               Pipeline(old(input.Snapshot()), old(kernel.Snapshot()), convInit, reluInit, old(output.Snapshot())))
  {
    created := [];
    convInit, reluInit := GridData(1, 1, [0]), GridData(1, 1, [0]);
    var convOut, reluOut := CreateIntermediates(a, rows, cols);
    if reluOut == null {
      if convOut != null {
        created := [convOut];
      }
      return MemoryError, created, convInit, reluInit;
    }
    created, convInit, reluInit := [convOut, reluOut], convOut.Snapshot(), reluOut.Snapshot();
    st := RunStages(a, input, kernel, convOut, reluOut, output);
  }

  /** Lines 181-193 of `cnn_forward`: create the two intermediates, destroying the
      first when the second cannot be created. */
  method CreateIntermediates(a: Allocator, rows: int32, cols: int32) returns (convOut: Matrix?, reluOut: Matrix?)
    requires a.Valid()
    modifies a
    ensures a.Valid()
    ensures var (s, n) := Intermediates(a.base, old(a.Snapshot()), rows, cols);
      && a.Snapshot() == s
      && (n == 0 ==> convOut == null && reluOut == null)
      && (n == 1 ==> convOut != null && fresh(convOut) && convOut.destroyed && reluOut == null)
      && (n == 2 ==>
            && convOut != null && reluOut != null && convOut != reluOut
            && fresh(convOut) && fresh(convOut.data) && fresh(reluOut) && fresh(reluOut.data)
            && convOut.data != reluOut.data
            && convOut.Valid() && reluOut.Valid() && !convOut.destroyed && !reluOut.destroyed
            && convOut.rows == rows && convOut.cols == cols && reluOut.rows == rows && reluOut.cols == cols)
  {
    convOut := Create(a, rows, cols);
    if convOut == null {
      return null, null;
    }
    reluOut := Create(a, rows, cols);
    if reluOut == null {
      Destroy(a, convOut);
      return convOut, null;
    }
  }

  /** The stage sequence of `cnn_forward` (lines 195-226): each stage runs only if the
      previous one succeeded, and both intermediates are destroyed on every exit. */
  method RunStages(a: Allocator, input: Matrix, kernel: Matrix, convOut: Matrix, reluOut: Matrix, output: Matrix)
    returns (st: Status)
    requires input.Valid() && kernel.Valid() && convOut.Valid() && reluOut.Valid() && output.Valid()
    requires convOut.rows == reluOut.rows && convOut.cols == reluOut.cols
    requires {input.data, kernel.data} !! {convOut.data, reluOut.data, output.data}
    requires reluOut.data != convOut.data
    requires output.data != reluOut.data && output.data != convOut.data
    modifies convOut, reluOut, convOut.data, reluOut.data, output.data
    ensures a.Snapshot() == old(a.Snapshot())
    ensures convOut.destroyed && reluOut.destroyed
    ensures input.data[..] == old(input.data[..]) && kernel.data[..] == old(kernel.data[..])
    ensures Outcome(st, output.Snapshot()) ==
      Pipeline(old(input.Snapshot()), old(kernel.Snapshot()), old(convOut.Snapshot()), old(reluOut.Snapshot()),
               old(output.Snapshot()))
  {
    ghost var in0, k0, c0, r0, out0 :=
      input.Snapshot(), kernel.Snapshot(), convOut.Snapshot(), reluOut.Snapshot(), output.Snapshot();
    ghost var spec := Pipeline(in0, k0, c0, r0, out0);
    ghost var conv := Fill(CellsOf(Convolution(in0, k0, STRIDE)), c0,
                           ConvDim(in0.rows, k0.rows, STRIDE), ConvDim(in0.cols, k0.cols, STRIDE), 0, 0);
    st := Convolve(input, kernel, STRIDE, convOut);
    assert Outcome(st, convOut.Snapshot()) == conv;
    if st != Success {
      assert spec == Outcome(st, out0);
      Destroy(a, convOut);
      Destroy(a, reluOut);
      return;
    }
    ghost var relu := Fill(CellsOf(Activation(conv.out)), r0, conv.out.rows, conv.out.cols, 0, 0);
    st := ReluActivate(convOut, reluOut);
    assert Outcome(st, reluOut.Snapshot()) == relu;
    if st != Success {
      assert spec == Outcome(st, out0);
      Destroy(a, convOut);
      Destroy(a, reluOut);
      return;
    }
    assert spec == Fill(CellsOf(Pooling(relu.out, POOL_SIZE)), out0,
                        relu.out.rows / POOL_SIZE, relu.out.cols / POOL_SIZE, 0, 0);
    st := MaxPool(reluOut, POOL_SIZE, output);
    Destroy(a, convOut);
    Destroy(a, reluOut);
  }
}
