/** Build-time constants of config.h. */
module Config {
  const CACHE_LINE_SIZE: int := 64
  const MATRIX_MEM_SIZE: int := 0x0400_0000  // 64 MiB
  const INPUT_SIZE: int := 128
  const KERNEL_SIZE: int := 3
  const STRIDE: int := 1
  const POOL_SIZE: int := 2
  const OUTPUT_SIZE: int := ((INPUT_SIZE - KERNEL_SIZE) / STRIDE + 1) / POOL_SIZE
  const NUMBER_OF_REGS: int := KERNEL_SIZE * KERNEL_SIZE
}
