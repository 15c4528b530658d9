/** Sizes and latencies of the simulated disk (include/lba.h, include/band.h, include/pba.h). */
module Geometry {
  const TRACK_SIZE: nat := 2097152
  const BLOCK_SIZE: nat := 2097152
  const BAND_TRACKS: nat := 256
  const CMR_TRACKS: nat := 170

  /** Latencies in nanoseconds. */
  const L_SEEK: nat := 8000000
  const L_ROTATIONAL: nat := 8330000
  const L_TRANSFER: nat := 13443282

  /** The number of values an `unsigned` of the C program can hold. */
  const UINT_RANGE: nat := 0x1_0000_0000

  /** The compile-time flavours of the simulator. */
  datatype Build = CMR | NativeA | NativeB | FluidSMR | Hybrid
}
