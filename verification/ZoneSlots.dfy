/** The records of zone slots, which the hybrid and the FluidSMR journals share (include/Hybrid.h, include/FluidSMR.h). */
module ZoneSlots {
  import opened Geometry

  datatype Record = Record(fid: nat, lba: nat)

  datatype Slot = Slot(isSealed: bool, record: Record)

  /** The slots a zone of a type can fill: a conventional zone (type 0) has fewer than a shingled one. */
  function Capacity(zoneType: int): nat {
    if zoneType == 0 then CMR_TRACKS else BAND_TRACKS
  }

  const ULONG_MAX: nat := 0xFFFF_FFFF_FFFF_FFFF

  /** Decrement of an unsigned long. */
  function Decrement(x: nat): nat { if x == 0 then ULONG_MAX else x - 1 }

  /** Addition of unsigned longs. */
  function Plus(x: nat, y: nat): nat { (x + y) % (ULONG_MAX + 1) }

  /** Subtraction of unsigned longs. */
  function Minus(x: nat, y: nat): nat { (x - y) % (ULONG_MAX + 1) }
}
