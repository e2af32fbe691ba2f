/** Value types shared by the whole model. */
module RtpsTypes {

  datatype Option<+T> = None | Some(value: T)

  type byte = x: int | 0 <= x < 0x100
  type uint16 = x: int | 0 <= x < 0x1_0000
  type uint32 = x: int | 0 <= x < 0x1_0000_0000
  type int32 = x: int | -0x8000_0000 <= x < 0x8000_0000

  /** A sequence number stands for the 64-bit value of the pair (high, low);
      module SequenceNumbers proves that the pair's operators agree with it. */
  type SN = int

  /** The pair {-1, 0}. */
  const SEQUENCENUMBER_UNKNOWN: SN := -0x1_0000_0000

  type Payload = seq<byte>

  datatype ChangeKind = INVALID | ALIVE | NOT_ALIVE_DISPOSED | NOT_ALIVE_UNREGISTERED

  /** One entry of a writer's history. */
  datatype CacheChange = CacheChange(
    kind: ChangeKind,
    inLineQoS: bool,
    disposeAfterWrite: bool,
    sentTickCount: nat,
    sn: SN,
    data: Payload)

  /** The state of an array slot that was never used, or was reset. */
  const EMPTY_CHANGE := CacheChange(INVALID, false, false, 0, SEQUENCENUMBER_UNKNOWN, [])

  /** What a change keeps of the caller's data. PBufWrapper::reserve narrows the size to a signed
      16-bit number; above 32767 bytes it sees no need to allocate, and nothing is stored. */
  function Stored(data: Payload): Payload {
    if |data| <= 0x7FFF then data else []
  }

  function Max(a: int, b: int): int {
    if a < b then b else a
  }

  function Min(a: int, b: int): int {
    if a < b then a else b
  }
}
