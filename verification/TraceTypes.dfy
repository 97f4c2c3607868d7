/** Machine integers, trace constants and the trace record shared by every trace module. */
module TraceTypes {
  const TWO64: int := 0x1_0000_0000_0000_0000

  type u8 = x: int | 0 <= x < 0x100
  type u16 = x: int | 0 <= x < 0x1_0000
  type u32 = x: int | 0 <= x < 0x1_0000_0000
  type u64 = x: int | 0 <= x < TWO64

  datatype Option<+T> = None | Some(value: T)

  const RECORD_SIZE: nat := 64
  const HEADER_SIZE: nat := 336
  const HEADER_INTERVAL: nat := 64
  const RING_CAPACITY: nat := 1023
  const ARCHIVE_CAPACITY: nat := 131071
  const CONSOLE_CAPACITY: nat := 16368
  const CMD_CAPACITY: nat := 64

  const KIND_MMIO: u8 := 1
  const KIND_SMC_ENTER: u8 := 2
  const KIND_SMC_REGS: u8 := 3
  const KIND_SMC_EXIT: u8 := 4
  const KIND_CMD: u8 := 5
  const KIND_GUEST: u8 := 6

  /** The part of a record that the caller of `trace_emit` fills in. The reserved bytes are always zero. */
  datatype Body = Body(pc: u64, addr: u64, value: u64, esr: u32, vcpu: u16, kind: u8, size: u8, flags: u8)

  /** A whole record: `trace_emit` adds the sequence number `num`, the time stamp and the producer. */
  datatype Record = Record(num: u64, time: u64, producer: u8, body: Body)

  /** 64-bit unsigned arithmetic wraps. */
  function Inc64(x: u64): u64 {
    (x + 1) % TWO64
  }

  function Sub64(x: u64, y: u64): u64 {
    (x - y) % TWO64
  }
}
