/** The layout of messages, written out field by field as section 9.4 of RTPS 2.2 has it: what the
    factory prints has it, and the receiver takes apart whatever has it. */
module Layout {
  import opened RtpsTypes
  import opened Endpoints
  import opened Messages
  import opened SequenceNumbers
  import opened Wire
  import opened MessageFactory
  import opened MessageReceiver

  /** The number that n bytes denote, the least significant one first. */
  function LittleEndian(d: seq<byte>, pos: nat, n: nat): nat
    requires pos + n <= |d|
    decreases n
  {
    if n == 0 then 0 else d[pos] + 0x100 * LittleEndian(d, pos + 1, n - 1)
  }

  predicate HalfAt(d: seq<byte>, pos: nat, v: uint16) {
    pos + 2 <= |d| && LittleEndian(d, pos, 2) == v
  }

  /** A word of 32 bits, in two's complement if it is negative. */
  predicate WordAt(d: seq<byte>, pos: nat, v: int) {
    pos + 4 <= |d| && LittleEndian(d, pos, 4) == v % WORD
  }

  /** The high word first, then the low one. */
  predicate SnAt(d: seq<byte>, pos: nat, sn: SN) {
    MIN_VALUE <= sn <= MAX_VALUE && WordAt(d, pos, sn / WORD) && WordAt(d, pos + 4, sn)
  }

  predicate IdAt(d: seq<byte>, pos: nat, id: EntityId) {
    pos + 4 <= |d| && d[pos..pos + 3] == id.entityKey && d[pos + 3] == id.entityKind
  }

  predicate IdsAt(d: seq<byte>, pos: nat, readerId: EntityId, writerId: EntityId) {
    IdAt(d, pos, readerId) && IdAt(d, pos + 4, writerId)
  }

  predicate HeaderAt(d: seq<byte>, pos: nat, id: byte, flags: byte, octets: uint16) {
    pos + 4 <= |d| && d[pos] == id && d[pos + 1] == flags && HalfAt(d, pos + 2, octets)
  }

  /** How many words of bitmap stand for n bits. */
  function Words(n: nat): nat {
    (n + 31) / 32
  }

  /** A set with no more words than its bits need. */
  predicate SetAt(d: seq<byte>, pos: nat, set_: SequenceNumberSet) {
    && set_.numBits <= 256 && SnAt(d, pos, set_.base) && WordAt(d, pos + 8, set_.numBits)
    && (forall k :: 0 <= k < Words(set_.numBits) ==> WordAt(d, pos + 12 + 4 * k, set_.bitMap[k]))
    && (forall k :: Words(set_.numBits) <= k < 8 ==> set_.bitMap[k] == 0)
  }

  /** A submessage with octets bytes behind its header. The flags of Heartbeat, Gap and Data may be any. */
  predicate SubmessageAt(d: seq<byte>, pos: nat, flags: byte, octets: uint16, sub: Submessage) {
    match sub
    case Heartbeat(readerId, writerId, firstSN, lastSN, count) =>
      && HeaderAt(d, pos, 0x07, flags, octets) && octets == 28 && IdsAt(d, pos + 4, readerId, writerId)
      && SnAt(d, pos + 12, firstSN) && SnAt(d, pos + 20, lastSN)
      && -0x8000_0000 <= count < 0x8000_0000 && WordAt(d, pos + 28, count)
    case Gap(readerId, writerId, gapStart, gapList) =>
      && HeaderAt(d, pos, 0x08, flags, octets) && IdsAt(d, pos + 4, readerId, writerId)
      && SnAt(d, pos + 12, gapStart) && SetAt(d, pos + 20, gapList)
      && if gapList.numBits == 0 then 28 <= octets else octets == 28 + 4 * Words(gapList.numBits)
    case Data(readerId, writerId, writerSN, payload) =>
      && HeaderAt(d, pos, 0x15, flags, octets) && octets == 20 + |payload| && IdsAt(d, pos + 8, readerId, writerId)
      && HalfAt(d, pos + 4, 0) && HalfAt(d, pos + 6, 16)
      && SnAt(d, pos + 16, writerSN) && pos + 4 + octets <= |d| && d[pos + 24..pos + 24 + |payload|] == payload
    case AckNack(readerId, writerId, readerSNState, count, finalFlag) =>
      && HeaderAt(d, pos, 0x06, flags, octets) && IdsAt(d, pos + 4, readerId, writerId)
      && SetAt(d, pos + 12, readerSNState) && octets == 24 + 4 * Words(readerSNState.numBits)
      && -0x8000_0000 <= count < 0x8000_0000 && WordAt(d, pos + octets, count)
      && (finalFlag <==> flags / 2 % 2 == 1)
  }

  // --- Printing ---

  lemma LittleEndian2(d: seq<byte>, pos: nat)
    requires pos + 2 <= |d|
    ensures LittleEndian(d, pos, 2) == d[pos] as int + 0x100 * d[pos + 1] as int
  {
    assert LittleEndian(d, pos + 1, 1) == d[pos + 1];
  }

  lemma LittleEndian4(d: seq<byte>, pos: nat)
    requires pos + 4 <= |d|
    ensures LittleEndian(d, pos, 4) == LittleEndian(d, pos, 2) + 0x1_0000 * LittleEndian(d, pos + 2, 2)
  {
    LittleEndian2(d, pos);
    LittleEndian2(d, pos + 2);
    assert LittleEndian(d, pos + 1, 3) == d[pos + 1] + 0x100 * LittleEndian(d, pos + 2, 2);
  }

  lemma HalfPrinted(d: seq<byte>, pos: nat, v: uint16)
    requires Holds(d, pos, Bytes16(v))
    ensures HalfAt(d, pos, v)
  {
    HoldsAt(d, pos, Bytes16(v), 0);
    HoldsAt(d, pos, Bytes16(v), 1);
    LittleEndian2(d, pos);
  }

  lemma WordPrinted(d: seq<byte>, pos: nat, v: uint32)
    requires Holds(d, pos, Bytes32(v))
    ensures WordAt(d, pos, v)
  {
    HoldsParts(d, pos, Bytes16(v % 0x1_0000), Bytes16(v / 0x1_0000));
    HalfPrinted(d, pos, v % 0x1_0000);
    HalfPrinted(d, pos + 2, v / 0x1_0000);
    LittleEndian4(d, pos);
  }

  lemma SignedPrinted(d: seq<byte>, pos: nat, v: int32)
    requires Holds(d, pos, Signed(v))
    ensures WordAt(d, pos, v)
  {
    WordPrinted(d, pos, v % WORD);
  }

  lemma SnPrinted(d: seq<byte>, pos: nat, sn: SN)
    requires MIN_VALUE <= sn <= MAX_VALUE && Holds(d, pos, SnBytes(sn))
    ensures SnAt(d, pos, sn)
  {
    hide LittleEndian;
    HoldsParts(d, pos, Signed(FromValue(sn).high), Bytes32(FromValue(sn).low));
    SignedPrinted(d, pos, FromValue(sn).high);
    WordPrinted(d, pos + 4, FromValue(sn).low);
  }

  lemma IdPrinted(d: seq<byte>, pos: nat, id: EntityId)
    requires Holds(d, pos, IdBytes(id))
    ensures IdAt(d, pos, id)
  {
    HoldsParts(d, pos, id.entityKey, [id.entityKind]);
  }

  lemma IdsPrinted(d: seq<byte>, pos: nat, sub: Submessage)
    requires Holds(d, pos, Ids(sub))
    ensures IdsAt(d, pos, sub.readerId, sub.writerId)
  {
    HoldsParts(d, pos, IdBytes(sub.readerId), IdBytes(sub.writerId));
    IdPrinted(d, pos, sub.readerId);
    IdPrinted(d, pos + 4, sub.writerId);
  }

  lemma HeaderPrinted(d: seq<byte>, pos: nat, id: byte, flags: byte, octets: uint16)
    requires Holds(d, pos, SubHeaderBytes(id, flags, octets))
    ensures HeaderAt(d, pos, id, flags, octets)
  {
    HoldsAt(d, pos, SubHeaderBytes(id, flags, octets), 0);
    HoldsAt(d, pos, SubHeaderBytes(id, flags, octets), 1);
    HoldsParts(d, pos, [id, flags], Bytes16(octets));
    HalfPrinted(d, pos + 2, octets);
  }

  lemma HeartbeatPrinted(d: seq<byte>, pos: nat, sub: Submessage)
    requires sub.Heartbeat? && Printable(sub) && Holds(d, pos, HeartbeatBytes(sub))
    ensures SubmessageAt(d, pos, 1, 28, sub)
  {
    hide SubHeaderBytes, Ids, SnBytes, Signed, Holds, HeaderAt, IdsAt, SnAt, WordAt;
    var count := Signed(sub.count);
    HoldsParts(d, pos, SubHeaderBytes(HEARTBEAT, FLAG_LITTLE_ENDIAN, 28),
               Ids(sub) + (SnBytes(sub.firstSN) + (SnBytes(sub.lastSN) + count)));
    HoldsParts(d, pos + 4, Ids(sub), SnBytes(sub.firstSN) + (SnBytes(sub.lastSN) + count));
    HoldsParts(d, pos + 12, SnBytes(sub.firstSN), SnBytes(sub.lastSN) + count);
    HoldsParts(d, pos + 20, SnBytes(sub.lastSN), count);
    HeaderPrinted(d, pos, HEARTBEAT, FLAG_LITTLE_ENDIAN, 28);
    IdsPrinted(d, pos + 4, sub);
    SnPrinted(d, pos + 12, sub.firstSN);
    SnPrinted(d, pos + 20, sub.lastSN);
    SignedPrinted(d, pos + 28, sub.count);
  }

  /** The writer's Gaps have an empty set and behind it one more word, which is zero. */
  lemma GapPrinted(d: seq<byte>, pos: nat, sub: Submessage)
    requires sub.Gap? && Printable(sub) && Holds(d, pos, GapBytes(sub))
    ensures SubmessageAt(d, pos, 1, 32, sub) && WordAt(d, pos + 32, 0)
  {
    hide SubHeaderBytes, Ids, SnBytes, Bytes32, Holds, HeaderAt, IdsAt, SnAt, WordAt;
    var n := Bytes32(sub.gapList.numBits);
    HoldsParts(d, pos, SubHeaderBytes(GAP, FLAG_LITTLE_ENDIAN, 32),
               Ids(sub) + (SnBytes(sub.gapStart) + (SnBytes(sub.gapList.base) + (n + n))));
    HoldsParts(d, pos + 4, Ids(sub), SnBytes(sub.gapStart) + (SnBytes(sub.gapList.base) + (n + n)));
    HoldsParts(d, pos + 12, SnBytes(sub.gapStart), SnBytes(sub.gapList.base) + (n + n));
    HoldsParts(d, pos + 20, SnBytes(sub.gapList.base), n + n);
    HoldsParts(d, pos + 28, n, n);
    HeaderPrinted(d, pos, GAP, FLAG_LITTLE_ENDIAN, 32);
    IdsPrinted(d, pos + 4, sub);
    SnPrinted(d, pos + 12, sub.gapStart);
    SnPrinted(d, pos + 20, sub.gapList.base);
    WordPrinted(d, pos + 28, sub.gapList.numBits);
    WordPrinted(d, pos + 32, sub.gapList.numBits);
  }

  lemma DataPrinted(d: seq<byte>, pos: nat, sub: Submessage, inLineQoS: bool)
    requires sub.Data? && Printable(sub) && Holds(d, pos, DataBytes(sub, inLineQoS) + sub.payload)
    ensures SubmessageAt(d, pos, (if inLineQoS then 3 else 1) + (if sub.payload != [] then 4 else 0),
                         20 + |sub.payload|, sub)
  {
    hide SubHeaderBytes, Ids, SnBytes, Bytes16, HeaderAt, IdsAt, SnAt, HalfAt;
    var flags, octets := DataFlags(inLineQoS, sub.payload != []), 20 + |sub.payload|;
    HoldsParts(d, pos, DataBytes(sub, inLineQoS), sub.payload);
    HoldsParts(d, pos, SubHeaderBytes(DATA, flags, octets),
               (Bytes16(0) + Bytes16(16)) + (Ids(sub) + SnBytes(sub.writerSN)));
    HoldsParts(d, pos + 4, Bytes16(0) + Bytes16(16), Ids(sub) + SnBytes(sub.writerSN));
    HoldsParts(d, pos + 4, Bytes16(0), Bytes16(16));
    HoldsParts(d, pos + 8, Ids(sub), SnBytes(sub.writerSN));
    HeaderPrinted(d, pos, DATA, flags, octets);
    HalfPrinted(d, pos + 4, 0);
    HalfPrinted(d, pos + 6, 16);
    IdsPrinted(d, pos + 8, sub);
    SnPrinted(d, pos + 16, sub.writerSN);
  }

  lemma {:induction false} WordsPrinted(d: seq<byte>, pos: nat, bitMap: Bitmap, n: nat, k: nat)
    requires k < n <= 8 && Holds(d, pos, WordBytes(bitMap, n))
    ensures WordAt(d, pos + 4 * k, bitMap[k])
  {
    hide WordAt, Bytes32;
    HoldsParts(d, pos, WordBytes(bitMap, n - 1), Bytes32(bitMap[n - 1]));
    if k == n - 1 {
      WordPrinted(d, pos + 4 * k, bitMap[k]);
    } else {
      WordsPrinted(d, pos, bitMap, n - 1, k);
    }
  }

  /** A request declares room for all eight words or none, and writes one word for each 32 numbers asked
      for, and one more as long as there is one. */
  predicate RequestAt(d: seq<byte>, pos: nat, sub: Submessage)
    requires sub.AckNack?
  {
    var set_ := sub.readerSNState;
    var n := if set_.numBits == 0 then 0 else Min(8, set_.numBits / 32 + 1);
    && HeaderAt(d, pos, 0x06, if sub.finalFlag then 3 else 1, if set_.numBits == 0 then 24 else 56)
    && IdsAt(d, pos + 4, sub.readerId, sub.writerId)
    && SnAt(d, pos + 12, set_.base) && WordAt(d, pos + 20, set_.numBits)
    && (forall k :: 0 <= k < n ==> WordAt(d, pos + 24 + 4 * k, set_.bitMap[k]))
    && (set_.numBits < 256 ==> WordAt(d, pos + 24 + 4 * n, sub.count))
  }

  lemma SetPrinted(d: seq<byte>, pos: nat, set_: SequenceNumberSet)
    requires IsSn(set_.base) && set_.numBits <= 256 && Holds(d, pos, SetBytes(set_))
    ensures SnAt(d, pos, set_.base) && WordAt(d, pos + 8, set_.numBits)
    ensures forall k :: 0 <= k < WrittenWords(set_) ==> WordAt(d, pos + 12 + 4 * k, set_.bitMap[k])
  {
    hide SnBytes, Bytes32, Holds, SnAt, WordAt, WordBytes;
    HoldsParts(d, pos, SnBytes(set_.base) + Bytes32(set_.numBits), WordBytes(set_.bitMap, WrittenWords(set_)));
    HoldsParts(d, pos, SnBytes(set_.base), Bytes32(set_.numBits));
    SnPrinted(d, pos, set_.base);
    WordPrinted(d, pos + 8, set_.numBits);
    forall k | 0 <= k < WrittenWords(set_)
      ensures WordAt(d, pos + 12 + 4 * k, set_.bitMap[k])
    {
      WordsPrinted(d, pos + 12, set_.bitMap, WrittenWords(set_), k);
    }
  }

  lemma AckNackPrinted(d: seq<byte>, pos: nat, sub: Submessage)
    requires sub.AckNack? && Printable(sub) && Holds(d, pos, AckNackBytes(sub))
    ensures RequestAt(d, pos, sub)
  {
    hide SubHeaderBytes, Ids, SetBytes, Signed, Holds, HeaderAt, IdsAt, SnAt, WordAt;
    var set_, tail := sub.readerSNState, SetBytes(sub.readerSNState) + CountBytes(sub);
    var header := SubHeaderBytes(ACKNACK, AckNackFlags(sub.finalFlag), AckNackSize(set_) - 4);
    HoldsParts(d, pos, header, Ids(sub) + tail);
    HoldsParts(d, pos + 4, Ids(sub), tail);
    HoldsParts(d, pos + 12, SetBytes(set_), CountBytes(sub));
    HeaderPrinted(d, pos, ACKNACK, AckNackFlags(sub.finalFlag), AckNackSize(set_) - 4);
    IdsPrinted(d, pos + 4, sub);
    SetPrinted(d, pos + 12, set_);
    if set_.numBits < 256 { SignedPrinted(d, pos + 24 + 4 * WrittenWords(set_), sub.count); }
  }

  /** The header of the message. */
  predicate MessageHeaderAt(d: seq<byte>, prefix: GuidPrefix) {
    && 20 <= |d| && d[0..4] == [0x52, 0x54, 0x50, 0x53] && d[4] == 2 && d[5] == 2 && d[6] == 13 && d[7] == 37
    && d[8..20] == prefix
  }

  lemma MessageHeaderPrinted(prefix: GuidPrefix, rest: seq<byte>)
    ensures MessageHeaderAt(HeaderBytes(prefix) + rest, prefix)
  {
    var d := HeaderBytes(prefix) + rest;
    assert d[0..4] == [0x52, 0x54, 0x50, 0x53];
    assert d[8..20] == prefix;
  }

  predicate TimeStampAt(d: seq<byte>, pos: nat, now: Time) {
    HeaderAt(d, pos, 0x09, 1, 8) && WordAt(d, pos + 4, now.seconds) && WordAt(d, pos + 8, now.fraction)
  }

  lemma TimeStampPrinted(d: seq<byte>, pos: nat, now: Time)
    requires Holds(d, pos, TimeStampBytes(now))
    ensures TimeStampAt(d, pos, now)
  {
    hide SubHeaderBytes, Signed, Bytes32, Holds, HeaderAt, WordAt;
    HoldsParts(d, pos, SubHeaderBytes(INFO_TS, FLAG_LITTLE_ENDIAN, 8), Signed(now.seconds) + Bytes32(now.fraction));
    HoldsParts(d, pos + 4, Signed(now.seconds), Bytes32(now.fraction));
    HeaderPrinted(d, pos, INFO_TS, FLAG_LITTLE_ENDIAN, 8);
    SignedPrinted(d, pos + 4, now.seconds);
    WordPrinted(d, pos + 8, now.fraction);
  }

  /** What stands in a packet, and where. */
  ghost predicate PacketAt(d: seq<byte>, prefix: GuidPrefix, now: Time, sub: Submessage, inLineQoS: bool) {
    MessageHeaderAt(d, prefix) &&
    match sub
    case Data(_, _, _, payload) =>
      && |d| == 56 + |payload| < 0x1_0000 && TimeStampAt(d, 20, now)
      && var flags := (if inLineQoS then 3 else 1) + if payload != [] then 4 else 0;
         SubmessageAt(d, 32, flags, 20 + |payload|, sub)
    case Gap(_, _, _, _) =>
      |d| == 68 && TimeStampAt(d, 20, now) && SubmessageAt(d, 32, 1, 32, sub) && WordAt(d, 64, 0)
    case Heartbeat(_, _, _, _, _) => |d| == 52 && SubmessageAt(d, 20, 1, 28, sub)
    case AckNack(_, _, set_, _, _) => |d| == (if set_.numBits == 0 then 48 else 80) && RequestAt(d, 20, sub)
  }

  /** Every packet that is printed has the layout of its kind. */
  lemma PacketPrinted(prefix: GuidPrefix, now: Time, sub: Submessage, inLineQoS: bool, left: seq<byte>)
    requires Printable(sub) && |left| == if sub.AckNack? then Unknown(sub.readerSNState) else 0
    ensures PacketAt(PacketBytes(prefix, now, sub, inLineQoS, left), prefix, now, sub, inLineQoS)
  {
    hide HeaderBytes, TimeStampBytes, DataBytes, GapBytes, HeartbeatBytes, AckNackBytes;
    hide MessageHeaderAt, TimeStampAt, SubmessageAt, RequestAt, WordAt;
    var d := PacketBytes(prefix, now, sub, inLineQoS, left);
    var rest := d[20..];
    assert Holds(d, 20, rest);
    assert d == HeaderBytes(prefix) + rest;
    MessageHeaderPrinted(prefix, rest);
    match sub
    case Data(_, _, _, payload) =>
      HoldsParts(d, 20, TimeStampBytes(now), DataBytes(sub, inLineQoS) + payload);
      TimeStampPrinted(d, 20, now);
      DataPrinted(d, 32, sub, inLineQoS);
    case Gap(_, _, _, _) =>
      HoldsParts(d, 20, TimeStampBytes(now), GapBytes(sub));
      TimeStampPrinted(d, 20, now);
      GapPrinted(d, 32, sub);
    case Heartbeat(_, _, _, _, _) => HeartbeatPrinted(d, 20, sub);
    case AckNack(_, _, _, _, _) =>
      HoldsParts(d, 20, AckNackBytes(sub), left);
      AckNackPrinted(d, 20, sub);
  }

  // --- Taking apart ---

  lemma HalfRead(d: seq<byte>, pos: nat, v: uint16)
    requires HalfAt(d, pos, v)
    ensures Read16(d, pos) == v
  {
    LittleEndian2(d, pos);
  }

  lemma WordRead(d: seq<byte>, pos: nat, v: int)
    requires WordAt(d, pos, v)
    ensures Read32(d, pos) == v % WORD
    ensures -0x8000_0000 <= v < 0x8000_0000 ==> ReadSigned(d, pos) == v
  {
    LittleEndian4(d, pos);
    LittleEndian2(d, pos);
    LittleEndian2(d, pos + 2);
  }

  lemma SnRead(d: seq<byte>, pos: nat, sn: SN)
    requires SnAt(d, pos, sn)
    ensures ReadSn(d, pos) == sn
  {
    hide WordAt;
    WordRead(d, pos, sn / WORD);
    WordRead(d, pos + 4, sn);
  }

  lemma IdRead(d: seq<byte>, pos: nat, id: EntityId)
    requires IdAt(d, pos, id)
    ensures ReadId(d, pos) == id
  {
    assert d[pos..pos + 3][0] == d[pos] && d[pos..pos + 3][1] == d[pos + 1] && d[pos..pos + 3][2] == d[pos + 2];
    assert ReadId(d, pos).entityKey == id.entityKey;
  }

  lemma IdsRead(d: seq<byte>, pos: nat, readerId: EntityId, writerId: EntityId)
    requires IdsAt(d, pos, readerId, writerId)
    ensures ReadId(d, pos) == readerId && ReadId(d, pos + 4) == writerId
  {
    IdRead(d, pos, readerId);
    IdRead(d, pos + 4, writerId);
  }

  lemma HeaderRead(d: seq<byte>, pos: nat, id: byte, flags: byte, octets: uint16)
    requires HeaderAt(d, pos, id, flags, octets)
    ensures ReadSubHeader(d, pos) == SubHeader(id, flags, octets)
  {
    HalfRead(d, pos + 2, octets);
  }

  lemma SetWordRead(d: seq<byte>, pos: nat, set_: SequenceNumberSet, k: nat)
    requires SetAt(d, pos, set_) && k < 8
    ensures ReadWord(d, pos + 12, 4 * Words(set_.numBits), k) == set_.bitMap[k]
  {
    hide SnAt;
    if k < Words(set_.numBits) { WordRead(d, pos + 12 + 4 * k, set_.bitMap[k]); }
  }

  lemma SetRead(d: seq<byte>, pos: nat, set_: SequenceNumberSet, size: int)
    requires SetAt(d, pos, set_) && (set_.numBits == 0 || size == 4 * Words(set_.numBits))
    ensures ReadSet(d, pos, size) == set_
  {
    hide SnAt, WordAt, ReadWord;
    SnRead(d, pos, set_.base);
    WordRead(d, pos + 8, set_.numBits);
    forall k | 0 <= k < 8
      ensures ReadWord(d, pos + 12, 4 * Words(set_.numBits), k) == set_.bitMap[k]
    {
      SetWordRead(d, pos, set_, k);
    }
    if set_.numBits == 0 {
      assert set_.bitMap == EMPTY_BITMAP;
    } else {
      assert ReadWords(d, pos + 12, size) == set_.bitMap;
    }
  }

  lemma HeartbeatRead(d: seq<byte>, pos: nat, flags: byte, octets: uint16, sub: Submessage)
    requires sub.Heartbeat? && SubmessageAt(d, pos, flags, octets, sub)
    ensures ReadHeartbeat(d, pos) == sub
  {
    hide HeaderAt, SnAt, WordAt, IdsAt;
    IdsRead(d, pos + 4, sub.readerId, sub.writerId);
    SnRead(d, pos + 12, sub.firstSN);
    SnRead(d, pos + 20, sub.lastSN);
    WordRead(d, pos + 28, sub.count);
  }

  lemma GapRead(d: seq<byte>, pos: nat, flags: byte, octets: uint16, sub: Submessage)
    requires sub.Gap? && SubmessageAt(d, pos, flags, octets, sub)
    ensures ReadGap(d, pos) == sub
  {
    hide HeaderAt, SnAt, SetAt, IdsAt;
    HeaderRead(d, pos, 0x08, flags, octets);
    IdsRead(d, pos + 4, sub.readerId, sub.writerId);
    SnRead(d, pos + 12, sub.gapStart);
    SetRead(d, pos + 20, sub.gapList, octets as int - 28);
  }

  lemma DataRead(d: seq<byte>, pos: nat, flags: byte, octets: uint16, sub: Submessage)
    requires sub.Data? && SubmessageAt(d, pos, flags, octets, sub)
    ensures ReadData(d, pos) == sub
  {
    hide HeaderAt, SnAt, HalfAt, IdsAt;
    HeaderRead(d, pos, 0x15, flags, octets);
    IdsRead(d, pos + 8, sub.readerId, sub.writerId);
    SnRead(d, pos + 16, sub.writerSN);
  }

  lemma AckNackRead(d: seq<byte>, pos: nat, flags: byte, octets: uint16, sub: Submessage)
    requires sub.AckNack? && SubmessageAt(d, pos, flags, octets, sub)
    ensures ReadAckNack(d, pos) == sub
  {
    hide HeaderAt, SnAt, SetAt, WordAt, IdsAt;
    HeaderRead(d, pos, 0x06, flags, octets);
    IdsRead(d, pos + 4, sub.readerId, sub.writerId);
    SetRead(d, pos + 12, sub.readerSNState, octets as int - 24);
    assert octets == 24 <==> sub.readerSNState.numBits == 0;
    WordRead(d, pos + octets, sub.count);
  }

  /** A part of a message: a submessage that the receiver knows, or one of another kind. */
  datatype Part = Part(flags: byte, octets: uint16, content: Option<Submessage>)

  predicate PartAt(d: seq<byte>, pos: nat, part: Part) {
    && pos + 4 + part.octets <= |d|
    && match part.content
       case Some(sub) => SubmessageAt(d, pos, part.flags, part.octets, sub)
       case None => d[pos] !in {0x06, 0x07, 0x08, 0x15} && HalfAt(d, pos + 2, part.octets)
  }

  /** The parts stand one behind the other, up to end. */
  predicate PartsAt(d: seq<byte>, pos: nat, parts: seq<Part>, end: nat)
    decreases parts
  {
    if parts == [] then pos == end
    else PartAt(d, pos, parts[0]) && PartsAt(d, pos + 4 + parts[0].octets, parts[1..], end)
  }

  /** The submessages among the parts. */
  function Contents(parts: seq<Part>): seq<Submessage> {
    if parts == [] then []
    else (if parts[0].content.Some? then [parts[0].content.value] else []) + Contents(parts[1..])
  }

  lemma KnownPartHanded(d: seq<byte>, pos: nat, part: Part)
    requires |d| < 0x1_0000 && PartAt(d, pos, part) && part.content.Some?
    ensures Handed(d, pos) == [part.content.value] && Read16(d, pos + 2) == part.octets
  {
    hide HeaderAt, SnAt, SetAt, HalfAt, WordAt, IdsAt, ReadGap, ReadHeartbeat, ReadData, ReadAckNack, Read16;
    var sub, flags, octets := part.content.value, part.flags, part.octets;
    match sub
    case Heartbeat(_, _, _, _, _) =>
      HeaderRead(d, pos, 0x07, flags, octets);
      HeartbeatRead(d, pos, flags, octets, sub);
    case Gap(_, _, _, _) =>
      HeaderRead(d, pos, 0x08, flags, octets);
      GapRead(d, pos, flags, octets, sub);
    case Data(_, _, _, _) =>
      HeaderRead(d, pos, 0x15, flags, octets);
      DataRead(d, pos, flags, octets, sub);
    case AckNack(_, _, _, _, _) =>
      HeaderRead(d, pos, 0x06, flags, octets);
      AckNackRead(d, pos, flags, octets, sub);
  }

  lemma PartHanded(d: seq<byte>, pos: nat, part: Part)
    requires |d| < 0x1_0000 && PartAt(d, pos, part)
    ensures Handed(d, pos) == (if part.content.Some? then [part.content.value] else [])
    ensures NextPos(d, pos) == pos + 4 + part.octets
  {
    if part.content.Some? {
      hide PartAt, Handed, Read16;
      KnownPartHanded(d, pos, part);
      assert pos + 4 + part.octets <= |d| by { PartFits(d, pos, part); }
    } else {
      HalfRead(d, pos + 2, part.octets);
    }
  }

  lemma PartFits(d: seq<byte>, pos: nat, part: Part)
    requires PartAt(d, pos, part)
    ensures pos + 4 + part.octets <= |d|
  {
  }

  /** One round of the loop. */
  lemma OneRound(d: seq<byte>, pos: nat, n: nat, next: nat)
    requires 0 < n && pos + 4 <= |d| && NextPos(d, pos) == next && Stops(d, PosAfter(d, next, n - 1))
    ensures Stops(d, PosAfter(d, pos, n))
    ensures var rest := Processed(d, next, n - 1);
            Processed(d, pos, n) == rest.(handed := Handed(d, pos) + rest.handed)
  {
    hide Handed;
  }

  /** Whoever made the message: it is taken apart into exactly its parts, and those of a known kind are
      handed on in their order. Up to three bytes may follow; then it counts as malformed. */
  lemma {:induction false} PartsHandedInOrder(d: seq<byte>, pos: nat, parts: seq<Part>, end: nat)
    requires |d| < 0x1_0000 && PartsAt(d, pos, parts, end) && end <= |d| < end + 4
    ensures Stops(d, PosAfter(d, pos, |parts|))
    ensures Processed(d, pos, |parts|) == Outcome(end == |d|, Contents(parts), end)
    decreases parts
  {
    if parts != [] {
      hide Handed, NextPos, PartAt, Processed, PosAfter, Stops;
      var next := pos + 4 + parts[0].octets;
      PartHanded(d, pos, parts[0]);
      PartFits(d, pos, parts[0]);
      PartsHandedInOrder(d, next, parts[1..], end);
      OneRound(d, pos, |parts|, next);
    }
  }

  /** The same for the whole message, as processMessage sees it. */
  lemma MessageHanded(d: seq<byte>, prefix: GuidPrefix, own: GuidPrefix, parts: seq<Part>, end: nat)
    requires |d| < 0x1_0000 && MessageHeaderAt(d, prefix) && prefix != own
    requires PartsAt(d, 20, parts, end) && end <= |d| < end + 4
    ensures Accepted(d, own) && Stops(d, PosAfter(d, 20, |d|))
    ensures Processed(d, 20, |d|) == Outcome(end == |d|, Contents(parts), end)
  {
    PartsHandedInOrder(d, 20, parts, end);
    EndsIff(d, 20);
    SameOutcome(d, 20, |parts|, |d|);
  }
}
