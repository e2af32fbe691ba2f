/** Builds the bytes of the writer's and the reader's packets. */
module MessageFactory {
  import opened RtpsTypes
  import opened Endpoints
  import opened Messages
  import opened SequenceNumbers
  import opened Wire
  import opened PBufWrapper

  const ACKNACK: byte := 0x06
  const HEARTBEAT: byte := 0x07
  const GAP: byte := 0x08
  const INFO_TS: byte := 0x09
  const DATA: byte := 0x15

  const FLAG_LITTLE_ENDIAN := 1
  const FLAG_INVALIDATE := 2
  const FLAG_FINAL := 2
  const FLAG_INLINE_QOS := 2
  const FLAG_DATA_PAYLOAD := 4

  datatype Time = Time(seconds: int32, fraction: uint32)

  // --- The layout ---

  /** "RTPS", version 2.2, the vendor and the sender. */
  function HeaderBytes(prefix: GuidPrefix): (b: seq<byte>)
    ensures |b| == 20
  {
    [0x52, 0x54, 0x50, 0x53] + [2, 2] + [13, 37] + prefix
  }

  function SubHeaderBytes(id: byte, flags: byte, octetsToNextHeader: uint16): (b: seq<byte>)
    ensures |b| == 4
  {
    [id, flags] + Bytes16(octetsToNextHeader)
  }

  function TimeStampBytes(now: Time): (b: seq<byte>)
    ensures |b| == 12
  {
    SubHeaderBytes(INFO_TS, FLAG_LITTLE_ENDIAN, 8) + (Signed(now.seconds) + Bytes32(now.fraction))
  }

  predicate IsSn(sn: SN) {
    MIN_VALUE <= sn <= MAX_VALUE
  }

  /** A submessage that the writer or the reader can put into a packet. */
  predicate Printable(sub: Submessage) {
    match sub
    case Data(_, _, sn, payload) => IsSn(sn) && |payload| + 56 < 0x1_0000
    case Gap(_, _, gapStart, gapList) =>
      IsSn(gapStart) && IsSn(gapList.base) && gapList.numBits == 0 && gapList.bitMap == EMPTY_BITMAP
    case Heartbeat(_, _, firstSN, lastSN, count) =>
      IsSn(firstSN) && IsSn(lastSN) && -0x8000_0000 <= count < 0x8000_0000
    case AckNack(_, _, set_, count, _) =>
      IsSn(set_.base) && set_.numBits <= 256 && -0x8000_0000 <= count < 0x8000_0000
  }

  function Ids(sub: Submessage): (b: seq<byte>)
    ensures |b| == 8
  {
    IdBytes(sub.readerId) + IdBytes(sub.writerId)
  }

  function DataFlags(inLineQoS: bool, hasPayload: bool): byte {
    FLAG_LITTLE_ENDIAN + (if inLineQoS then FLAG_INLINE_QOS else 0) + if hasPayload then FLAG_DATA_PAYLOAD else 0
  }

  /** Everything but the payload. */
  function DataBytes(sub: Submessage, inLineQoS: bool): (b: seq<byte>)
    requires sub.Data? && Printable(sub)
    ensures |b| == 24
  {
    SubHeaderBytes(DATA, DataFlags(inLineQoS, sub.payload != []), 20 + |sub.payload|)
    + ((Bytes16(0) + Bytes16(16)) + (Ids(sub) + SnBytes(sub.writerSN)))
  }

  function HeartbeatBytes(sub: Submessage): (b: seq<byte>)
    requires sub.Heartbeat? && Printable(sub)
    ensures |b| == 32
  {
    SubHeaderBytes(HEARTBEAT, FLAG_LITTLE_ENDIAN, 28)
    + (Ids(sub) + (SnBytes(sub.firstSN) + (SnBytes(sub.lastSN) + Signed(sub.count))))
  }

  function GapBytes(sub: Submessage): (b: seq<byte>)
    requires sub.Gap? && Printable(sub)
    ensures |b| == 36
  {
    SubHeaderBytes(GAP, FLAG_LITTLE_ENDIAN, 32)
    + (Ids(sub) + (SnBytes(sub.gapStart)
                   + (SnBytes(sub.gapList.base) + (Bytes32(sub.gapList.numBits) + Bytes32(sub.gapList.numBits)))))
  }

  /** The declared size of an AckNack; that of its bitmap is always 0 or 32. */
  function AckNackSize(set_: SequenceNumberSet): uint16 {
    if set_.numBits == 0 then 28 else 60
  }

  /** How many words of the bitmap are written. For 256 bits, another word follows them that lies
      behind the bitmap in memory, and takes the place of the count. */
  function WrittenWords(set_: SequenceNumberSet): nat {
    if set_.numBits == 0 then 0 else Min(set_.numBits / 32 + 1, 8)
  }

  /** What is written of a set. */
  function SetBytes(set_: SequenceNumberSet): (b: seq<byte>)
    requires IsSn(set_.base)
    ensures |b| == 12 + 4 * WrittenWords(set_)
  {
    (SnBytes(set_.base) + Bytes32(set_.numBits)) + WordBytes(set_.bitMap, WrittenWords(set_))
  }

  function AckNackFlags(finalFlag: bool): byte {
    FLAG_LITTLE_ENDIAN + if finalFlag then FLAG_FINAL else 0
  }

  function CountBytes(sub: Submessage): (b: seq<byte>)
    requires sub.AckNack? && Printable(sub)
    ensures |b| == if sub.readerSNState.numBits == 256 then 0 else 4
  {
    if sub.readerSNState.numBits == 256 then [] else Signed(sub.count)
  }

  /** What is known of the bytes of an AckNack. */
  function AckNackBytes(sub: Submessage): (b: seq<byte>)
    requires sub.AckNack? && Printable(sub)
    ensures |b| == AckNackSize(sub.readerSNState) - Unknown(sub.readerSNState)
  {
    SubHeaderBytes(ACKNACK, AckNackFlags(sub.finalFlag), AckNackSize(sub.readerSNState) - 4)
    + (Ids(sub) + (SetBytes(sub.readerSNState) + CountBytes(sub)))
  }

  /** How many of the declared bytes are not known: reserved and never written, or copied from behind
      the bitmap. */
  function Unknown(set_: SequenceNumberSet): nat
    requires set_.numBits <= 256
  {
    AckNackSize(set_) - 24 - 4 * WrittenWords(set_) - if set_.numBits == 256 then 0 else 4
  }

  /** The packet of a submessage; only in an AckNack anything is left over. */
  function PacketBytes(prefix: GuidPrefix, now: Time, sub: Submessage, inLineQoS: bool, left: seq<byte>): seq<byte>
    requires Printable(sub)
  {
    match sub
    case Data(_, _, _, payload) => HeaderBytes(prefix) + (TimeStampBytes(now) + (DataBytes(sub, inLineQoS) + payload))
    case Gap(_, _, _, _) => HeaderBytes(prefix) + (TimeStampBytes(now) + GapBytes(sub))
    case Heartbeat(_, _, _, _, _) => HeaderBytes(prefix) + HeartbeatBytes(sub)
    case AckNack(_, _, _, _, _) => HeaderBytes(prefix) + (AckNackBytes(sub) + left)
  }

  // --- Appending to a buffer ---

  /** What was written since start. */
  ghost predicate Wrote(buffer: Buffer, start: seq<byte>, b: seq<byte>)
    reads buffer
  {
    buffer.Valid() && buffer.isValid && buffer.Used() == start + b
  }

  /** Appends bytes for which there is room. */
  method Put(buffer: Buffer, data: seq<byte>, ghost start: seq<byte>, ghost before: seq<byte>)
    requires Wrote(buffer, start, before) && |data| <= buffer.freeSpace
    modifies buffer`bytes, buffer`freeSpace
    ensures Wrote(buffer, start, before + data)
    ensures buffer.freeSpace == old(buffer.freeSpace) - |data| && |buffer.bytes| == |old(buffer.bytes)|
  {
    hide Buffer.Used;
    var ok := buffer.Append(data);
    assert (start + before) + data == start + (before + data);
  }

  /** The buffer can take in n more bytes, of which it may have reserved some. */
  ghost predicate Room(buffer: Buffer, n: nat)
    reads buffer
  {
    && 0 < n <= 0x100 && buffer.Valid() && buffer.freeSpace <= 0x100
    && |buffer.bytes| + Max(n - buffer.freeSpace, 0) < 0x1_0000
  }

  /** reserve, for the sizes of headers and submessages. */
  method Require(buffer: Buffer, n: uint16)
    requires Room(buffer, n)
    modifies buffer
    ensures Wrote(buffer, old(buffer.Used()), []) && buffer.Used() == old(buffer.Used())
    ensures buffer.freeSpace == Max(old(buffer.freeSpace), n)
    ensures |buffer.bytes| == |old(buffer.bytes)| + Max(n - old(buffer.freeSpace), 0)
  {
    hide Narrow, Additional, Buffer.Used;
    AdditionalSmall(n, buffer.freeSpace);
    var ok := buffer.Reserve(n, true);
    assert old(buffer.Used()) + [] == old(buffer.Used());
  }

  method AddHeader(buffer: Buffer, prefix: GuidPrefix)
    requires Room(buffer, 20)
    modifies buffer
    ensures Wrote(buffer, old(buffer.Used()), HeaderBytes(prefix))
    ensures buffer.freeSpace == Max(old(buffer.freeSpace), 20) - 20
    ensures |buffer.bytes| == |old(buffer.bytes)| + Max(20 - old(buffer.freeSpace), 0)
  {
    ghost var start := buffer.Used();
    Require(buffer, 20);
    hide Wrote;
    Put(buffer, [0x52, 0x54, 0x50, 0x53], start, []);
    Put(buffer, [2, 2], start, [0x52, 0x54, 0x50, 0x53]);
    Put(buffer, [13, 37], start, [0x52, 0x54, 0x50, 0x53] + [2, 2]);
    Put(buffer, prefix, start, [0x52, 0x54, 0x50, 0x53] + [2, 2] + [13, 37]);
  }

  /** Reserves as much as a message header needs, which is more than it writes. */
  method SerializeSubHeader(buffer: Buffer, id: byte, flags: byte, octetsToNextHeader: uint16)
    requires Room(buffer, 20)
    modifies buffer
    ensures Wrote(buffer, old(buffer.Used()), SubHeaderBytes(id, flags, octetsToNextHeader))
    ensures buffer.freeSpace == Max(old(buffer.freeSpace), 20) - 4
    ensures |buffer.bytes| == |old(buffer.bytes)| + Max(20 - old(buffer.freeSpace), 0)
  {
    ghost var start := buffer.Used();
    Require(buffer, 20);
    Require(buffer, 4);
    hide Wrote;
    Put(buffer, [id], start, []);
    Put(buffer, [flags], start, [id]);
    Put(buffer, Bytes16(octetsToNextHeader), start, [id, flags]);
  }

  /** Reserves a whole submessage and writes its header. */
  method StartSubmessage(buffer: Buffer, size: uint16, id: byte, flags: byte, octetsToNextHeader: uint16)
    requires 20 <= size && Room(buffer, size)
    modifies buffer
    ensures Wrote(buffer, old(buffer.Used()), SubHeaderBytes(id, flags, octetsToNextHeader))
    ensures buffer.freeSpace == Max(old(buffer.freeSpace), size) - 4
    ensures |buffer.bytes| == |old(buffer.bytes)| + Max(size - old(buffer.freeSpace), 0)
  {
    Require(buffer, size);
    SerializeSubHeader(buffer, id, flags, octetsToNextHeader);
  }

  function InvalidTimeStampBytes(): seq<byte> {
    SubHeaderBytes(INFO_TS, FLAG_LITTLE_ENDIAN + FLAG_INVALIDATE, 0)
  }

  method AddSubMessageTimeStamp(buffer: Buffer, now: Time, setInvalid: bool)
    requires Room(buffer, 28)
    modifies buffer
    ensures Wrote(buffer, old(buffer.Used()), if setInvalid then InvalidTimeStampBytes() else TimeStampBytes(now))
    ensures buffer.freeSpace == Max(old(buffer.freeSpace), 20) - if setInvalid then 4 else 12
    ensures |buffer.bytes| == |old(buffer.bytes)| + Max(20 - old(buffer.freeSpace), 0)
  {
    ghost var start := buffer.Used();
    if setInvalid {
      SerializeSubHeader(buffer, INFO_TS, FLAG_LITTLE_ENDIAN + FLAG_INVALIDATE, 0);
      return;
    }
    ghost var h := SubHeaderBytes(INFO_TS, FLAG_LITTLE_ENDIAN, 8);
    SerializeSubHeader(buffer, INFO_TS, FLAG_LITTLE_ENDIAN, 8);
    Require(buffer, 8);
    hide Wrote;
    Put(buffer, Signed(now.seconds), start, h);
    Put(buffer, Bytes32(now.fraction), start, h + Signed(now.seconds));
    assert h + Signed(now.seconds) + Bytes32(now.fraction) == TimeStampBytes(now);
  }

  method PutIds(buffer: Buffer, sub: Submessage, ghost start: seq<byte>, ghost before: seq<byte>)
    requires Wrote(buffer, start, before) && 8 <= buffer.freeSpace
    modifies buffer`bytes, buffer`freeSpace
    ensures Wrote(buffer, start, before + Ids(sub))
    ensures buffer.freeSpace == old(buffer.freeSpace) - 8 && |buffer.bytes| == |old(buffer.bytes)|
  {
    hide Wrote;
    Put(buffer, sub.readerId.entityKey, start, before);
    Put(buffer, [sub.readerId.entityKind], start, before + sub.readerId.entityKey);
    assert before + sub.readerId.entityKey + [sub.readerId.entityKind] == before + IdBytes(sub.readerId);
    Put(buffer, sub.writerId.entityKey, start, before + IdBytes(sub.readerId));
    Put(buffer, [sub.writerId.entityKind], start, before + IdBytes(sub.readerId) + sub.writerId.entityKey);
    assert before + IdBytes(sub.readerId) + sub.writerId.entityKey + [sub.writerId.entityKind] == before + Ids(sub);
  }

  method PutSn(buffer: Buffer, sn: SN, ghost start: seq<byte>, ghost before: seq<byte>)
    requires Wrote(buffer, start, before) && 8 <= buffer.freeSpace && IsSn(sn)
    modifies buffer`bytes, buffer`freeSpace
    ensures Wrote(buffer, start, before + SnBytes(sn))
    ensures buffer.freeSpace == old(buffer.freeSpace) - 8 && |buffer.bytes| == |old(buffer.bytes)|
  {
    hide Wrote, Signed, Bytes32;
    Put(buffer, Signed(FromValue(sn).high), start, before);
    Put(buffer, Bytes32(FromValue(sn).low), start, before + Signed(FromValue(sn).high));
    assert before + Signed(FromValue(sn).high) + Bytes32(FromValue(sn).low) == before + SnBytes(sn);
  }

  /** Data without its payload. */
  method SerializeData(buffer: Buffer, sub: Submessage, inLineQoS: bool)
    requires sub.Data? && Printable(sub) && Room(buffer, 24)
    modifies buffer
    ensures Wrote(buffer, old(buffer.Used()), DataBytes(sub, inLineQoS))
    ensures buffer.freeSpace == Max(old(buffer.freeSpace), 24) - 24
    ensures |buffer.bytes| == |old(buffer.bytes)| + Max(24 - old(buffer.freeSpace), 0)
  {
    hide Wrote, SubHeaderBytes, Bytes16, Ids, SnBytes;
    ghost var start := buffer.Used();
    var flags, octets := DataFlags(inLineQoS, sub.payload != []), 20 + |sub.payload|;
    StartSubmessage(buffer, 24, DATA, flags, octets);
    ghost var h, b := SubHeaderBytes(DATA, flags, octets), Bytes16(0) + Bytes16(16);
    Put(buffer, Bytes16(0), start, h);
    Put(buffer, Bytes16(16), start, h + Bytes16(0));
    assert h + Bytes16(0) + Bytes16(16) == h + b;
    PutIds(buffer, sub, start, h + b);
    PutSn(buffer, sub.writerSN, start, h + b + Ids(sub));
    Regroup(h, b, Ids(sub), SnBytes(sub.writerSN));
  }

  lemma Regroup(h: seq<byte>, a: seq<byte>, b: seq<byte>, c: seq<byte>)
    ensures h + a + b + c == h + (a + (b + c))
  {
  }

  method AddHeartbeat(buffer: Buffer, sub: Submessage)
    requires sub.Heartbeat? && Printable(sub) && Room(buffer, 32)
    modifies buffer
    ensures Wrote(buffer, old(buffer.Used()), HeartbeatBytes(sub))
    ensures buffer.freeSpace == Max(old(buffer.freeSpace), 32) - 32
    ensures |buffer.bytes| == |old(buffer.bytes)| + Max(32 - old(buffer.freeSpace), 0)
  {
    hide Wrote, SubHeaderBytes, Signed, Ids, SnBytes;
    ghost var start, h := buffer.Used(), SubHeaderBytes(HEARTBEAT, FLAG_LITTLE_ENDIAN, 28);
    StartSubmessage(buffer, 32, HEARTBEAT, FLAG_LITTLE_ENDIAN, 28);
    PutIds(buffer, sub, start, h);
    PutSn(buffer, sub.firstSN, start, h + Ids(sub));
    PutSn(buffer, sub.lastSN, start, h + Ids(sub) + SnBytes(sub.firstSN));
    Put(buffer, Signed(sub.count), start, h + Ids(sub) + SnBytes(sub.firstSN) + SnBytes(sub.lastSN));
    Regroup(h + Ids(sub), SnBytes(sub.firstSN), SnBytes(sub.lastSN), Signed(sub.count));
    assert h + Ids(sub) + (SnBytes(sub.firstSN) + (SnBytes(sub.lastSN) + Signed(sub.count))) == HeartbeatBytes(sub);
  }

  method AddSubmessageGap(buffer: Buffer, sub: Submessage)
    requires sub.Gap? && Printable(sub) && Room(buffer, 36)
    modifies buffer
    ensures Wrote(buffer, old(buffer.Used()), GapBytes(sub))
    ensures buffer.freeSpace == Max(old(buffer.freeSpace), 36) - 36
    ensures |buffer.bytes| == |old(buffer.bytes)| + Max(36 - old(buffer.freeSpace), 0)
  {
    hide Wrote, SubHeaderBytes, Bytes32, Ids, SnBytes;
    ghost var start, h := buffer.Used(), SubHeaderBytes(GAP, FLAG_LITTLE_ENDIAN, 32);
    StartSubmessage(buffer, 36, GAP, FLAG_LITTLE_ENDIAN, 32);
    PutIds(buffer, sub, start, h);
    PutSn(buffer, sub.gapStart, start, h + Ids(sub));
    PutSn(buffer, sub.gapList.base, start, h + Ids(sub) + SnBytes(sub.gapStart));
    ghost var b, n := h + Ids(sub) + SnBytes(sub.gapStart), Bytes32(sub.gapList.numBits);
    Put(buffer, Bytes32(sub.gapList.numBits), start, b + SnBytes(sub.gapList.base));
    Put(buffer, Bytes32(sub.gapList.numBits), start, b + SnBytes(sub.gapList.base) + n);
    Regroup(b, SnBytes(sub.gapList.base), n, n);
    Regroup(h, Ids(sub), SnBytes(sub.gapStart), SnBytes(sub.gapList.base) + (n + n));
  }

  method PutSet(buffer: Buffer, set_: SequenceNumberSet, ghost start: seq<byte>, ghost before: seq<byte>)
    requires IsSn(set_.base) && set_.numBits <= 255
    requires Wrote(buffer, start, before) && 12 + 4 * WrittenWords(set_) <= buffer.freeSpace
    modifies buffer`bytes, buffer`freeSpace
    ensures Wrote(buffer, start, before + SetBytes(set_))
    ensures buffer.freeSpace == old(buffer.freeSpace) - 12 - 4 * WrittenWords(set_)
    ensures |buffer.bytes| == |old(buffer.bytes)|
  {
    hide Wrote, SnBytes, WordBytes, Bytes32;
    PutSetStart(buffer, set_, start, before);
    ghost var b := SnBytes(set_.base) + Bytes32(set_.numBits);
    if set_.numBits != 0 {
      Put(buffer, WordBytes(set_.bitMap, set_.numBits / 32 + 1), start, before + b);
      assert before + b + WordBytes(set_.bitMap, WrittenWords(set_)) == before + SetBytes(set_);
    } else {
      assert b == SetBytes(set_) by { NoWords(set_.bitMap, b); }
    }
  }

  method PutSetStart(buffer: Buffer, set_: SequenceNumberSet, ghost start: seq<byte>, ghost before: seq<byte>)
    requires IsSn(set_.base) && Wrote(buffer, start, before) && 12 <= buffer.freeSpace
    modifies buffer`bytes, buffer`freeSpace
    ensures Wrote(buffer, start, before + (SnBytes(set_.base) + Bytes32(set_.numBits)))
    ensures buffer.freeSpace == old(buffer.freeSpace) - 12 && |buffer.bytes| == |old(buffer.bytes)|
  {
    hide Wrote, SnBytes, Bytes32;
    PutSn(buffer, set_.base, start, before);
    Put(buffer, Bytes32(set_.numBits), start, before + SnBytes(set_.base));
    assert before + SnBytes(set_.base) + Bytes32(set_.numBits) == before + (SnBytes(set_.base) + Bytes32(set_.numBits));
  }

  lemma NoWords(bitMap: Bitmap, b: seq<byte>)
    ensures b + WordBytes(bitMap, 0) == b
  {
  }

  /** A set of 256 bits: one word too many is copied, and that uses up what was reserved. */
  method PutFullSet(buffer: Buffer, set_: SequenceNumberSet, beyond: uint32,
                    ghost start: seq<byte>, ghost before: seq<byte>)
    requires IsSn(set_.base) && set_.numBits == 256
    requires Wrote(buffer, start, before) && 48 <= buffer.freeSpace
    modifies buffer`bytes, buffer`freeSpace
    ensures Wrote(buffer, start, before + (SetBytes(set_) + Bytes32(beyond)))
    ensures buffer.freeSpace == old(buffer.freeSpace) - 48 && |buffer.bytes| == |old(buffer.bytes)|
  {
    hide Wrote, SnBytes, WordBytes, Bytes32;
    PutSetStart(buffer, set_, start, before);
    Put(buffer, WordBytes(set_.bitMap, 8) + Bytes32(beyond), start,
        before + (SnBytes(set_.base) + Bytes32(set_.numBits)));
    JoinFour(before, SnBytes(set_.base) + Bytes32(set_.numBits), WordBytes(set_.bitMap, 8), Bytes32(beyond));
  }

  lemma JoinFour(before: seq<byte>, a: seq<byte>, b: seq<byte>, c: seq<byte>)
    ensures before + a + (b + c) == before + (a + b + c)
  {
  }

  /** What an AckNack leaves behind: with fewer than 256 bits, reserved bytes that were not written;
      with 256, the word from behind the bitmap, and no count. */
  method AddAckNack(buffer: Buffer, sub: Submessage, beyond: uint32)
    requires sub.AckNack? && Printable(sub) && Room(buffer, 60) && buffer.freeSpace == 0
    modifies buffer
    ensures var set_ := sub.readerSNState;
            && |buffer.bytes| == |old(buffer.bytes)| + AckNackSize(set_)
            && Wrote(buffer, old(buffer.Used()),
                     AckNackBytes(sub) + if set_.numBits == 256 then Bytes32(beyond) else [])
            && buffer.freeSpace == if set_.numBits == 256 then 0 else Unknown(set_)
  {
    hide Wrote, SubHeaderBytes, Signed, Ids, SetBytes, Bytes32;
    ghost var start := buffer.Used();
    var set_, size, flags := sub.readerSNState, AckNackSize(sub.readerSNState), AckNackFlags(sub.finalFlag);
    ghost var h := SubHeaderBytes(ACKNACK, flags, size - 4);
    StartSubmessage(buffer, size, ACKNACK, flags, size - 4);
    PutIds(buffer, sub, start, h);
    if set_.numBits == 256 {
      PutFullSet(buffer, set_, beyond, start, h + Ids(sub));
      PutInVain(buffer, Signed(sub.count));
      JoinFull(h, Ids(sub), SetBytes(set_), Bytes32(beyond));
    } else {
      PutSet(buffer, set_, start, h + Ids(sub));
      Put(buffer, Signed(sub.count), start, h + Ids(sub) + SetBytes(set_));
      Regroup(h, Ids(sub), SetBytes(set_), Signed(sub.count));
      assert AckNackBytes(sub) + [] == AckNackBytes(sub);
    }
  }

  lemma JoinFull(h: seq<byte>, ids: seq<byte>, b: seq<byte>, last: seq<byte>)
    ensures h + ids + (b + last) == h + (ids + (b + [])) + last
  {
  }

  /** An append for which there is no room does nothing; the caller does not look at its result. */
  method PutInVain(buffer: Buffer, data: seq<byte>)
    requires buffer.Valid() && buffer.freeSpace < |data|
    modifies buffer`bytes, buffer`freeSpace
    ensures buffer.bytes == old(buffer.bytes) && buffer.freeSpace == old(buffer.freeSpace)
  {
    var ok := buffer.Append(data);
  }

  /** The payload's chain follows whatever is unwritten, which is nothing in the packets below. */
  method AddSubMessageData(buffer: Buffer, filledPayload: Buffer, inLineQoS: bool, sub: Submessage)
    requires sub.Data? && Printable(sub) && filledPayload != buffer && filledPayload.Valid()
    requires filledPayload.Used() == filledPayload.bytes == sub.payload
    requires filledPayload.isValid <==> sub.payload != []
    requires Room(buffer, 24) && |buffer.bytes| + Max(24 - buffer.freeSpace, 0) + |sub.payload| < 0x1_0000
    modifies buffer
    ensures buffer.Valid() && buffer.isValid && buffer.freeSpace == Max(old(buffer.freeSpace), 24) - 24
    ensures old(buffer.Used()) + DataBytes(sub, inLineQoS) <= buffer.bytes
    ensures |buffer.bytes| == |old(buffer.Used())| + 24 + buffer.freeSpace + |sub.payload|
    ensures buffer.bytes[|buffer.bytes| - |sub.payload|..] == sub.payload
  {
    hide DataBytes;
    SerializeData(buffer, sub, inLineQoS);
    if filledPayload.isValid {
      buffer.AppendChain(filledPayload);
    }
  }

  // --- Whole packets ---

  /** sendData and sendDataWRMulticast */
  method DataPacket(prefix: GuidPrefix, now: Time, sub: Submessage, inLineQoS: bool, data: Buffer)
    returns (b: seq<byte>)
    requires sub.Data? && Printable(sub) && data.Valid()
    requires data.Used() == data.bytes == sub.payload && (data.isValid <==> sub.payload != [])
    ensures b == PacketBytes(prefix, now, sub, inLineQoS, [])
  {
    hide HeaderBytes, TimeStampBytes, DataBytes;
    var buffer := StartPacket(prefix, now);
    ghost var start, body := HeaderBytes(prefix) + TimeStampBytes(now), DataBytes(sub, inLineQoS);
    AddSubMessageData(buffer, data, inLineQoS, sub);
    b := buffer.bytes;
    assert b == (start + body) + sub.payload;
    assert (start + body) + sub.payload == PacketBytes(prefix, now, sub, inLineQoS, []);
  }

  method StartPacket(prefix: GuidPrefix, now: Time) returns (buffer: Buffer)
    ensures fresh(buffer) && Wrote(buffer, [], HeaderBytes(prefix) + TimeStampBytes(now)) && buffer.freeSpace == 8
    ensures buffer.Used() == HeaderBytes(prefix) + TimeStampBytes(now)
  {
    hide HeaderBytes, TimeStampBytes;
    buffer := new Buffer();
    AddHeader(buffer, prefix);
    AddSubMessageTimeStamp(buffer, now, false);
  }

  /** sendGap */
  method GapPacket(prefix: GuidPrefix, now: Time, sub: Submessage) returns (b: seq<byte>)
    requires sub.Gap? && Printable(sub)
    ensures b == PacketBytes(prefix, now, sub, false, [])
  {
    hide HeaderBytes, TimeStampBytes, GapBytes;
    var buffer := StartPacket(prefix, now);
    AddSubmessageGap(buffer, sub);
    assert (HeaderBytes(prefix) + TimeStampBytes(now)) + GapBytes(sub) == PacketBytes(prefix, now, sub, false, []);
    b := buffer.bytes;
  }

  /** sendHeartBeat; no time stamp */
  method HeartbeatPacket(prefix: GuidPrefix, sub: Submessage) returns (b: seq<byte>)
    requires sub.Heartbeat? && Printable(sub)
    ensures b == HeaderBytes(prefix) + HeartbeatBytes(sub)
  {
    hide HeaderBytes, HeartbeatBytes;
    var buffer := new Buffer();
    AddHeader(buffer, prefix);
    AddHeartbeat(buffer, sub);
    b := buffer.bytes;
  }

  /** The reader's requests. What is sent includes the bytes of which nothing is known. */
  method AckNackPacket(prefix: GuidPrefix, sub: Submessage, beyond: uint32) returns (b: seq<byte>)
    requires sub.AckNack? && Printable(sub)
    ensures HeaderBytes(prefix) + AckNackBytes(sub) <= b && |b| == 20 + AckNackSize(sub.readerSNState)
  {
    hide HeaderBytes, AckNackBytes, Bytes32;
    var buffer := new Buffer();
    AddHeader(buffer, prefix);
    AddAckNack(buffer, sub, beyond);
    b := buffer.bytes;
  }
}
