/** The accelerator driver of accelerator.c: arming the convolution kernel in the
    register file and handing a matrix pair to the DMA engine.

    The memory-mapped register file behind `registers_write` is an array of
    32-bit words; the DMA engine behind `dma_transfer` is a channel object whose
    reply status is set by its environment and which records every request. */
module Accel {
  import opened CInt
  import opened Results
  import opened Config
  import opened Matrices

  /** The accelerator's register file, one 32-bit word per register index. */
  class RegisterFile {
    const regs: array<uint32>
    /** The register indices written so far, in the order of the writes. */
    ghost var written: seq<int>

    ghost predicate Valid() {
      regs.Length >= NUMBER_OF_REGS
    }

    constructor (count: nat)
      requires count >= NUMBER_OF_REGS
      ensures Valid() && regs.Length == count && written == []
      ensures fresh(regs)
    {
      regs := new uint32[count];
      written := [];
    }

    /** `registers_write`: store `value` in register `index`; the store cannot fail. */
    method Write(index: int, value: uint32) returns (st: Status)
      requires 0 <= index < regs.Length
      modifies this, regs
      ensures st == Success
      ensures regs[..] == old(regs[..])[index := value]
      ensures written == old(written) + [index]
    {
      regs[index] := value;
      written := written + [index];
      st := Success;
    }
  }

  /** The signed word a register holds back as `fixed_point_t`: the inverse of the
      `fixed_point_t` to `u32` conversion at the register write. */
  function AsSigned(u: uint32): (x: int32)
    ensures Wrap32(x) == u
  {
    if u <= INT32_MAX then u else u - UINT32_MODULUS
  }

  /** The conversion of a weight to a register word loses nothing. */
  lemma AsSignedWrap(x: int32)
    ensures AsSigned(Wrap32(x)) == x
  {
    if x < 0 {
      assert Wrap32(x) == x + UINT32_MODULUS;
    }
  }

  /** The register words of an armed 3 x 3 kernel: weight (i, j) in register i*3+j. */
  function KernelImage(k: Grid): (r: seq<uint32>)
    requires k.rows == KERNEL_SIZE && k.cols == KERNEL_SIZE
    ensures |r| == NUMBER_OF_REGS
    ensures forall i, j :: 0 <= i < KERNEL_SIZE && 0 <= j < KERNEL_SIZE ==>
              r[i * KERNEL_SIZE + j] == Wrap32(Cell(k, i, j))
  {
    seq(NUMBER_OF_REGS, n requires 0 <= n < NUMBER_OF_REGS => Wrap32(k.cells[n]))
  }

  /** The registers determine the kernel: two kernels armed alike are equal. */
  lemma KernelImageInjective(k1: Grid, k2: Grid)
    requires k1.rows == KERNEL_SIZE && k1.cols == KERNEL_SIZE
    requires k2.rows == KERNEL_SIZE && k2.cols == KERNEL_SIZE
    requires KernelImage(k1) == KernelImage(k2)
    ensures k1 == k2
  {
    forall n | 0 <= n < NUMBER_OF_REGS
      ensures k1.cells[n] == k2.cells[n]
    {
      AsSignedWrap(k1.cells[n]);
      AsSignedWrap(k2.cells[n]);
      assert Wrap32(Cell(k1, n / 3, n % 3)) == Wrap32(Cell(k2, n / 3, n % 3));
    }
  }

  /** The register indices 0 .. count-1 in increasing order. */
  function Ascending(count: nat): (r: seq<int>)
    ensures |r| == count && forall n :: 0 <= n < count ==> r[n] == n
  {
    seq(count, n => n)
  }

  /** `accelerator_set_kernel`: write the nine weights of a 3 x 3 kernel to
      registers 0 .. 8 in row-major order. */
  method SetKernel(rf: RegisterFile, kernel: Matrix?) returns (st: Status)
    requires rf.Valid()
    requires kernel != null ==> kernel.Valid()
    modifies rf, rf.regs
    ensures rf.Valid()
    ensures st == Success <==>
      kernel != null && kernel.rows == KERNEL_SIZE && kernel.cols == KERNEL_SIZE
    ensures st != Success ==>
      st == InvalidParam && rf.regs[..] == old(rf.regs[..]) && rf.written == old(rf.written)
    ensures st == Success ==>
      rf.regs[..NUMBER_OF_REGS] == KernelImage(kernel.Snapshot()) &&
      rf.regs[NUMBER_OF_REGS..] == old(rf.regs[NUMBER_OF_REGS..]) &&
      rf.written == old(rf.written) + Ascending(NUMBER_OF_REGS)
  {
    if kernel == null {
      return InvalidParam;
    }
    if kernel.rows != KERNEL_SIZE || kernel.cols != KERNEL_SIZE {
      return InvalidParam;
    }
    ghost var k := kernel.Snapshot();
    ghost var image := KernelImage(k);
    ghost var before := rf.regs[..];
    ghost var log := rf.written;
    var i := 0;
    while i < kernel.rows
      invariant 0 <= i <= KERNEL_SIZE
      invariant kernel.Snapshot() == k
      invariant forall n :: 0 <= n < i * 3 ==> rf.regs[n] == image[n]
      invariant forall n :: i * 3 <= n < rf.regs.Length ==> rf.regs[n] == before[n]
      invariant rf.written == log + Ascending(i * 3)
    {
      var j := 0;
      while j < kernel.cols
        invariant 0 <= j <= KERNEL_SIZE
        invariant kernel.Snapshot() == k
        invariant forall n :: 0 <= n < i * 3 + j ==> rf.regs[n] == image[n]
        invariant forall n :: i * 3 + j <= n < rf.regs.Length ==> rf.regs[n] == before[n]
        invariant rf.written == log + Ascending(i * 3 + j)
      {
        var val := Get(kernel.Snapshot(), i, j);
        assert val.Ok?;
        var status := rf.Write(i * kernel.cols + j, Wrap32(val.value));
        assert status == Success;
        assert Ascending(i * 3 + j + 1) == Ascending(i * 3 + j) + [i * 3 + j];
        j := j + 1;
      }
      i := i + 1;
    }
    assert rf.regs[..NUMBER_OF_REGS] == image;
    assert rf.regs[NUMBER_OF_REGS..] == before[NUMBER_OF_REGS..];
    return Success;
  }

  /** One request handed to the DMA engine: the transmit buffer and its length in
      bytes, then the receive buffer and its length in bytes. */
  datatype Request = Request(txAddr: int, txBytes: uint32, rxAddr: int, rxBytes: uint32)

  /** The DMA engine behind `dma_transfer`. */
  class DmaChannel {
    /** The status the engine reports for the next transfer. */
    var outcome: Status
    /** Every request made so far, oldest first. */
    var requests: seq<Request>

    constructor (outcome: Status)
      ensures this.outcome == outcome && requests == []
    {
      this.outcome := outcome;
      requests := [];
    }

    /** `dma_transfer`: record the request and report the engine's status. */
    method Transfer(txAddr: int, txBytes: uint32, rxAddr: int, rxBytes: uint32) returns (st: Status)
      modifies this
      ensures st == outcome && outcome == old(outcome)
      ensures requests == old(requests) + [Request(txAddr, txBytes, rxAddr, rxBytes)]
    {
      requests := requests + [Request(txAddr, txBytes, rxAddr, rxBytes)];
      st := outcome;
    }
  }

  /** The byte length of a matrix's data buffer as `accelerator_compute` passes it. */
  function BufferBytes(m: Grid): (r: uint32)
    requires m.rows * m.cols * ELEMENT_BYTES <= UINT32_MAX
    ensures r == |m.cells| * ELEMENT_BYTES
  {
    m.rows * m.cols * ELEMENT_BYTES
  }

  /** `accelerator_compute`: one transfer of the whole input buffer out and the
      whole output buffer back, whose status is returned unchanged. */
  method Compute(dma: DmaChannel, input: Matrix, output: Matrix) returns (st: Status)
    requires input.Valid() && output.Valid()
    modifies dma
    ensures st == old(dma.outcome) && dma.outcome == old(dma.outcome)
    ensures dma.requests == old(dma.requests) +
      [Request(input.dataAddr, BufferBytes(input.Snapshot()), output.dataAddr, BufferBytes(output.Snapshot()))]
  {
    st := dma.Transfer(input.dataAddr, input.rows * input.cols * ELEMENT_BYTES,
                       output.dataAddr, output.rows * output.cols * ELEMENT_BYTES);
  }
}
