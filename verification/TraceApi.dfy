/**
  The records that the kernel writes: what the bits of an action mean, and how the fields of
  a record lie in memory.
 */
module TraceApi {
  import opened Common

  // ---------- actions ----------

  const TC_READ: bv32 := 0x1
  const TC_WRITE: bv32 := 0x2
  const TC_QUEUE: bv32 := 0x10
  const TC_REQUEUE: bv32 := 0x20
  const TC_ISSUE: bv32 := 0x40
  const TC_COMPLETE: bv32 := 0x80
  const TC_FS: bv32 := 0x100
  const TC_PC: bv32 := 0x200
  const TC_DRV_DATA: bv32 := 0x4000

  /** `BLK_TC_ACT`: categories are in the upper half of an action. */
  function Act(category: bv32): bv32 {
    category << 16
  }

  predicate Has(action: bv32, category: bv32) {
    action & Act(category) != 0
  }

  const TA_QUEUE := 1 | Act(TC_QUEUE)
  const TA_BACKMERGE := 2 | Act(TC_QUEUE)
  const TA_FRONTMERGE := 3 | Act(TC_QUEUE)
  const TA_GETRQ := 4 | Act(TC_QUEUE)
  const TA_SLEEPRQ := 5 | Act(TC_QUEUE)
  const TA_REQUEUE := 6 | Act(TC_REQUEUE)
  const TA_ISSUE := 7 | Act(TC_ISSUE)
  const TA_COMPLETE := 8 | Act(TC_COMPLETE)
  const TA_DRV_DATA := 17 | Act(TC_DRV_DATA)

  /** What may be added to an action: the direction and kind of the request. */
  predicate Masked(extra: bv32) {
    extra & !Act(0xbb0f) == 0
  }

  // ---------- records in memory ----------

  /** `struct blk_io_trace` without what follows it. */
  datatype Header = Header(
    magic: U32, sequence: U32, time: U64, sector: U64, bytes: U32, action: U32,
    pid: U32, device: U32, cpu: U32, error: U16, pduLen: U16)

  /** The bytes of a number, the lowest first. */
  function LowFirst(x: nat, n: nat): (s: seq<Byte>)
    ensures |s| == n
  {
    if n == 0 then [] else [x % 256] + LowFirst(x / 256, n - 1)
  }

  function HighFirst(x: nat, n: nat): (s: seq<Byte>)
    ensures |s| == n
  {
    if n == 0 then [] else HighFirst(x / 256, n - 1) + [x % 256]
  }

  /** A field of `n` bytes as the machine stores it. */
  function Field(x: nat, n: nat, bigEndian: bool): (s: seq<Byte>)
    ensures |s| == n
  {
    if bigEndian then HighFirst(x, n) else LowFirst(x, n)
  }

  function HeaderBytes(h: Header, bigEndian: bool): (s: seq<Byte>)
    ensures |s| == 48
  {
    Field(h.magic, 4, bigEndian) + Field(h.sequence, 4, bigEndian)
    + Field(h.time, 8, bigEndian) + Field(h.sector, 8, bigEndian)
    + Field(h.bytes, 4, bigEndian) + Field(h.action, 4, bigEndian)
    + Field(h.pid, 4, bigEndian) + Field(h.device, 4, bigEndian) + Field(h.cpu, 4, bigEndian)
    + Field(h.error, 2, bigEndian) + Field(h.pduLen, 2, bigEndian)
  }

  /** A record is a header and as many bytes of payload as that says. */
  datatype TraceRecord = TraceRecord(header: Header, payload: seq<Byte>) {
    predicate Valid() {
      |payload| == header.pduLen
    }

    function Bytes(bigEndian: bool): seq<Byte> {
      HeaderBytes(header, bigEndian) + payload
    }
  }
}
