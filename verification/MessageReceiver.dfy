/** Takes received bytes apart and hands each submessage on. */
module MessageReceiver {
  import opened Counting
  import opened RtpsTypes
  import opened Endpoints
  import opened Messages
  import opened Wire
  import opened MessageFactory

  // --- What the deserializers see at a position ---

  datatype SubHeader = SubHeader(id: byte, flags: byte, octetsToNextHeader: uint16)

  function ReadSubHeader(d: seq<byte>, pos: nat): SubHeader {
    SubHeader(At(d, pos), At(d, pos + 1), Read16(d, pos + 2))
  }

  /** SubmessageHeader::finalFlag */
  predicate FinalFlag(flags: byte) {
    flags / 2 % 2 == 1
  }

  /** Word k of a bitmap of which size bytes were copied over zeroes. */
  function ReadWord(d: seq<byte>, pos: nat, size: nat, k: nat): uint32 {
    if 4 * k + 4 <= size then Read32(d, pos + 4 * k)
    else Read32(d[..Min(|d|, pos + size)], pos + 4 * k)
  }

  /** deserializeSNS. A negative number of bytes wraps to one above 32. */
  function ReadSet(d: seq<byte>, pos: nat, numBytes: int): SequenceNumberSet {
    var base, numBits := ReadSn(d, pos), Read32(d, pos + 8);
    if numBits == 0 then SequenceNumberSet(base, 0, EMPTY_BITMAP)
    else
      var size := if 0 <= numBytes <= 32 then numBytes else 32;
      SequenceNumberSet(base, numBits, ReadWords(d, pos + 12, size))
  }

  function ReadWords(d: seq<byte>, pos: nat, size: nat): Bitmap {
    [ReadWord(d, pos, size, 0), ReadWord(d, pos, size, 1), ReadWord(d, pos, size, 2), ReadWord(d, pos, size, 3),
     ReadWord(d, pos, size, 4), ReadWord(d, pos, size, 5), ReadWord(d, pos, size, 6), ReadWord(d, pos, size, 7)]
  }

  function ReadData(d: seq<byte>, pos: nat): Submessage {
    Data(ReadId(d, pos + 8), ReadId(d, pos + 12), ReadSn(d, pos + 16),
         ReadBytes(d, pos + 24, (Read16(d, pos + 2) - 20) % 0x1_0000))
  }

  function ReadHeartbeat(d: seq<byte>, pos: nat): Submessage {
    Heartbeat(ReadId(d, pos + 4), ReadId(d, pos + 8), ReadSn(d, pos + 12), ReadSn(d, pos + 20), ReadSigned(d, pos + 28))
  }

  function ReadGap(d: seq<byte>, pos: nat): Submessage {
    Gap(ReadId(d, pos + 4), ReadId(d, pos + 8), ReadSn(d, pos + 12), ReadSet(d, pos + 20, Read16(d, pos + 2) - 28))
  }

  /** The count is looked for behind as many bytes of bitmap as the header declares. */
  function ReadAckNack(d: seq<byte>, pos: nat): Submessage {
    var octets := Read16(d, pos + 2);
    var set_ := ReadSet(d, pos + 12, octets - 24);
    AckNack(ReadId(d, pos + 4), ReadId(d, pos + 8), set_,
            ReadSigned(d, if set_.numBits == 0 then pos + 24 else pos + octets), FinalFlag(At(d, pos + 1)))
  }

  /** getRemainingSize */
  function Remaining(d: seq<byte>, pos: nat): uint16 {
    (|d| - pos) % 0x1_0000
  }

  /** What the submessage at a position makes the receiver hand on. */
  function Handed(d: seq<byte>, pos: nat): seq<Submessage> {
    var h := ReadSubHeader(d, pos);
    if h.id == ACKNACK then (if Remaining(d, pos) < 16 then [] else [ReadAckNack(d, pos)])
    else if h.id == DATA then
      if Remaining(d, pos) < 4 || Remaining(d, pos) < 4 + h.octetsToNextHeader then [] else [ReadData(d, pos)]
    else if h.id == HEARTBEAT then (if Remaining(d, pos) < 32 then [] else [ReadHeartbeat(d, pos)])
    else if h.id == GAP then (if Remaining(d, pos) < 20 then [] else [ReadGap(d, pos)])
    else []
  }

  datatype Outcome = Outcome(ok: bool, handed: seq<Submessage>, end: nat)

  /** The 16-bit position after the submessage at pos. */
  function NextPos(d: seq<byte>, pos: nat): uint16 {
    (pos + Read16(d, pos + 2) + 4) % 0x1_0000
  }

  /** The loop ends here: no submessage header is left. */
  predicate Stops(d: seq<byte>, pos: nat) {
    |d| < pos + 4
  }

  /** The position after n rounds of the loop, or where it ended before. */
  function PosAfter(d: seq<byte>, pos: nat, n: nat): nat
    decreases n
  {
    if n == 0 || Stops(d, pos) then pos else PosAfter(d, NextPos(d, pos), n - 1)
  }

  /** What a loop that ends within n rounds hands on. */
  function Processed(d: seq<byte>, pos: nat, n: nat): Outcome
    requires Stops(d, PosAfter(d, pos, n))
    decreases n
  {
    if pos >= |d| then Outcome(true, [], pos)
    else if Stops(d, pos) then Outcome(false, [], pos)
    else
      var rest := Processed(d, NextPos(d, pos), n - 1);
      rest.(handed := Handed(d, pos) + rest.handed)
  }

  /** The number of rounds is only a bound. */
  lemma {:induction false} SameOutcome(d: seq<byte>, pos: nat, n: nat, m: nat)
    requires Stops(d, PosAfter(d, pos, n)) && Stops(d, PosAfter(d, pos, m))
    ensures Processed(d, pos, n) == Processed(d, pos, m)
    decreases n
  {
    if !Stops(d, pos) {
      SameOutcome(d, NextPos(d, pos), n - 1, m - 1);
    }
  }

  /** The position wraps to where it was when a submessage declares 0xFFFC bytes: such a message keeps
      the loop going forever. */
  lemma {:induction false} LoopsForever(d: seq<byte>, pos: nat, n: nat)
    requires !Stops(d, pos) && pos < 0x1_0000 && Read16(d, pos + 2) == 0xFFFC
    ensures !Stops(d, PosAfter(d, pos, n))
  {
    if n > 0 {
      LoopsForever(d, pos, n - 1);
    }
  }

  lemma {:induction false} PosCompose(d: seq<byte>, pos: nat, a: nat, b: nat)
    ensures PosAfter(d, pos, a + b) == PosAfter(d, PosAfter(d, pos, a), b)
    decreases a
  {
    if a > 0 && !Stops(d, pos) {
      PosCompose(d, NextPos(d, pos), a - 1, b);
    }
  }

  lemma {:induction false} FirstStop(d: seq<byte>, pos: nat, n: nat) returns (m: nat)
    requires Stops(d, PosAfter(d, pos, n))
    ensures Stops(d, PosAfter(d, pos, m)) && forall k: nat :: k < m ==> !Stops(d, PosAfter(d, pos, k))
    decreases n
  {
    if k: nat :| k < n && Stops(d, PosAfter(d, pos, k)) {
      m := FirstStop(d, pos, k);
    } else {
      m := n;
    }
  }

  /** The positions of the first m rounds. */
  ghost function Visited(d: seq<byte>, pos: nat, m: nat): set<nat> {
    if m == 0 then {} else Visited(d, pos, m - 1) + {PosAfter(d, pos, m - 1)}
  }

  lemma {:induction false} VisitedAt(d: seq<byte>, pos: nat, m: nat, p: nat)
    requires p in Visited(d, pos, m)
    ensures exists k: nat :: k < m && p == PosAfter(d, pos, k)
  {
    if p != PosAfter(d, pos, m - 1) {
      VisitedAt(d, pos, m - 1, p);
    }
  }

  /** Before the loop ends, no position comes back, since it would come back again and again. */
  lemma NeverReturns(d: seq<byte>, pos: nat, m: nat, j: nat, k: nat)
    requires k < j < m && Stops(d, PosAfter(d, pos, m))
    requires forall i: nat :: i < m ==> !Stops(d, PosAfter(d, pos, i))
    ensures PosAfter(d, pos, j) != PosAfter(d, pos, k)
  {
    assert !Stops(d, PosAfter(d, pos, k + (m - j)));
    PosCompose(d, pos, j, m - j);
    PosCompose(d, pos, k, m - j);
  }

  lemma {:induction false} VisitsNew(d: seq<byte>, pos: nat, m: nat, n: nat)
    requires n <= m && Stops(d, PosAfter(d, pos, m)) && forall k: nat :: k < m ==> !Stops(d, PosAfter(d, pos, k))
    ensures |Visited(d, pos, n)| == n && forall p :: p in Visited(d, pos, n) ==> p < |d|
    decreases n
  {
    if n > 0 {
      VisitsNew(d, pos, m, n - 1);
      if PosAfter(d, pos, n - 1) in Visited(d, pos, n - 1) {
        VisitedAt(d, pos, n - 1, PosAfter(d, pos, n - 1));
        var k: nat :| k < n - 1 && PosAfter(d, pos, n - 1) == PosAfter(d, pos, k);
        NeverReturns(d, pos, m, n - 1, k);
      }
    }
  }

  /** The loop ends if and only if it ends within as many rounds as the message has bytes. */
  lemma EndsIff(d: seq<byte>, pos: nat)
    ensures (exists n :: Stops(d, PosAfter(d, pos, n))) <==> Stops(d, PosAfter(d, pos, |d|))
  {
    if n :| Stops(d, PosAfter(d, pos, n)) {
      var m := FirstStop(d, pos, n);
      VisitsNew(d, pos, m, m);
      SubsetSize(Visited(d, pos, m), Below(|d|));
      PosCompose(d, pos, m, |d| - m);
    }
  }

  /** Whether the message header is accepted: it is long enough, comes from someone else, and
      names the protocol and its major version. */
  predicate Accepted(d: seq<byte>, own: GuidPrefix) {
    && 20 <= |d| && ReadBytes(d, 8, 12) != own
    && ReadBytes(d, 0, 4) == [0x52, 0x54, 0x50, 0x53] && At(d, 4) == 2
  }

  /** How many bytes must be left for a submessage of each kind. An AckNack takes 28 bytes and a Gap 32,
      so that shorter ones are handed on whose last fields are not in the message. */
  lemma HandedIff(d: seq<byte>, pos: nat)
    requires pos + 4 <= |d| < 0x1_0000
    ensures var left := |d| - pos;
            Handed(d, pos) != [] <==>
            || (d[pos] == 0x06 && 16 <= left)
            || (d[pos] == 0x07 && 32 <= left)
            || (d[pos] == 0x08 && 20 <= left)
            || (d[pos] == 0x15 && 4 + d[pos + 2] as int + 0x100 * d[pos + 3] as int <= left)
    ensures |Handed(d, pos)| <= 1
  {
  }

  /** Nothing is handed on of messages that are short, one's own, or of another protocol or major
      version; the minor version and the vendor may be any. */
  lemma RefusedIff(d: seq<byte>, own: GuidPrefix)
    ensures !Accepted(d, own)
            <==> |d| < 20 || d[0] != 0x52 || d[1] != 0x54 || d[2] != 0x50 || d[3] != 0x53 || d[4] != 2
                 || d[8..20] == own
  {
    if 20 <= |d| {
      assert d[0..4] == [d[0], d[1], d[2], d[3]];
      assert ReadBytes(d, 8, 12) == d[8..20];
    }
  }

  // --- The deserializers, with a moving position ---

  method TakeId(d: seq<byte>, pos: nat) returns (id: EntityId, next: nat)
    ensures id == ReadId(d, pos) && next == pos + 4
  {
    var entityKey, entityKind := [At(d, pos), At(d, pos + 1), At(d, pos + 2)], At(d, pos + 3);
    return EntityId(entityKey, entityKind), pos + 4;
  }

  method TakeSn(d: seq<byte>, pos: nat) returns (sn: SN, next: nat)
    ensures sn == ReadSn(d, pos) && next == pos + 8
  {
    sn := ReadSn(d, pos);
    next := pos + 8;
  }

  method DeserializeSubHeader(d: seq<byte>, pos: nat) returns (header: Option<SubHeader>)
    ensures header == if Remaining(d, pos) < 4 then None else Some(ReadSubHeader(d, pos))
  {
    if Remaining(d, pos) < 4 {
      return None;
    }
    var currentPos := pos;
    var submessageId := At(d, currentPos);
    currentPos := currentPos + 1;
    var flags := At(d, currentPos);
    currentPos := currentPos + 1;
    return Some(SubHeader(submessageId, flags, Read16(d, currentPos)));
  }

  method DeserializeData(d: seq<byte>, pos: nat) returns (msg: Option<Submessage>)
    ensures msg == if Remaining(d, pos) < 4 || Remaining(d, pos) < 4 + Read16(d, pos + 2) then None
                   else Some(ReadData(d, pos))
  {
    var header := DeserializeSubHeader(d, pos);
    if header == None || Remaining(d, pos) < 4 + header.value.octetsToNextHeader {
      return None;
    }
    var currentPos := pos + 4;
    currentPos := currentPos + 2 + 2;
    var readerId, writerId, writerSN;
    readerId, currentPos := TakeId(d, currentPos);
    writerId, currentPos := TakeId(d, currentPos);
    writerSN, currentPos := TakeSn(d, currentPos);
    var size := (header.value.octetsToNextHeader - 24 + 4) % 0x1_0000;
    return Some(Data(readerId, writerId, writerSN, ReadBytes(d, pos + 24, size)));
  }

  method DeserializeHeartbeat(d: seq<byte>, pos: nat) returns (msg: Option<Submessage>)
    ensures msg == if Remaining(d, pos) < 32 then None else Some(ReadHeartbeat(d, pos))
  {
    if Remaining(d, pos) < 32 {
      return None;
    }
    var currentPos := pos + 4;
    var readerId, writerId, firstSN, lastSN;
    readerId, currentPos := TakeId(d, currentPos);
    writerId, currentPos := TakeId(d, currentPos);
    firstSN, currentPos := TakeSn(d, currentPos);
    lastSN, currentPos := TakeSn(d, currentPos);
    return Some(Heartbeat(readerId, writerId, firstSN, lastSN, ReadSigned(d, currentPos)));
  }

  method DeserializeSNS(d: seq<byte>, pos: nat, numBytes: int) returns (set_: SequenceNumberSet, next: int)
    ensures set_ == ReadSet(d, pos, numBytes)
    ensures next == pos + 12 + if set_.numBits == 0 then 0 else numBytes
  {
    var base, position := TakeSn(d, pos);
    var numBits := Read32(d, position);
    next := position + 4;
    if numBits == 0 {
      return SequenceNumberSet(base, 0, EMPTY_BITMAP), next;
    }
    var size := if 0 <= numBytes <= 32 then numBytes else 32;
    set_ := SequenceNumberSet(base, numBits, ReadWords(d, next, size));
    next := next + size;
    next := next + (numBytes - size);
  }

  method DeserializeAckNack(d: seq<byte>, pos: nat) returns (msg: Option<Submessage>)
    ensures msg == if Remaining(d, pos) < 16 then None else Some(ReadAckNack(d, pos))
  {
    if Remaining(d, pos) < 16 {
      return None;
    }
    var octets: int := Read16(d, pos + 2);
    var currentPos := pos + 4;
    var readerId, writerId, set_, next;
    readerId, currentPos := TakeId(d, currentPos);
    writerId, currentPos := TakeId(d, currentPos);
    set_, next := DeserializeSNS(d, currentPos, octets - 4 - 4 - 8 - 4 - 4);
    return Some(AckNack(readerId, writerId, set_, ReadSigned(d, next), FinalFlag(At(d, pos + 1))));
  }

  method DeserializeGap(d: seq<byte>, pos: nat) returns (msg: Option<Submessage>)
    ensures msg == if Remaining(d, pos) < 20 then None else Some(ReadGap(d, pos))
  {
    if Remaining(d, pos) < 20 {
      return None;
    }
    var octets: int := Read16(d, pos + 2);
    var currentPos := pos + 4;
    var readerId, writerId, gapStart, gapList, next;
    readerId, currentPos := TakeId(d, currentPos);
    writerId, currentPos := TakeId(d, currentPos);
    gapStart, currentPos := TakeSn(d, currentPos);
    gapList, next := DeserializeSNS(d, currentPos, octets - 4 - 4 - 8 - 8 - 4);
    return Some(Gap(readerId, writerId, gapStart, gapList));
  }

  /** The receiver of one participant. The endpoints that submessages are handed to are not part of
      this model; it records what is handed to them. */
  class Receiver {
    const own: GuidPrefix
    var sourceGuidPrefix: GuidPrefix
    var nextPos: nat
    var handed: seq<Submessage>

    constructor (own: GuidPrefix)
      ensures this.own == own && handed == []
    {
      this.own := own;
      sourceGuidPrefix, nextPos, handed := GUIDPREFIX_UNKNOWN, 0, [];
    }

    method ProcessHeader(d: seq<byte>) returns (ok: bool)
      requires nextPos == 0 && |d| < 0x1_0000
      modifies this`sourceGuidPrefix, this`nextPos
      ensures ok <==> Accepted(d, own)
      ensures ok ==> nextPos == 20 && sourceGuidPrefix == ReadBytes(d, 8, 12)
      ensures !ok ==> nextPos == 0 && sourceGuidPrefix == old(sourceGuidPrefix)
    {
      if Remaining(d, nextPos) < 20 {
        return false;
      }
      var guidPrefix := ReadBytes(d, 8, 12);
      if guidPrefix == own {
        return false;
      }
      if ReadBytes(d, 0, 4) != [0x52, 0x54, 0x50, 0x53] || At(d, 4) != 2 {
        return false;
      }
      sourceGuidPrefix := guidPrefix;
      nextPos := nextPos + 20;
      return true;
    }

    method ProcessSubmessage(d: seq<byte>, header: SubHeader)
      requires header == ReadSubHeader(d, nextPos)
      modifies this`nextPos, this`handed
      ensures handed == old(handed) + Handed(d, old(nextPos))
      ensures nextPos == NextPos(d, old(nextPos))
    {
      var msg: Option<Submessage> := None;
      if header.id == ACKNACK {
        msg := DeserializeAckNack(d, nextPos);
      } else if header.id == DATA {
        msg := DeserializeData(d, nextPos);
      } else if header.id == HEARTBEAT {
        msg := DeserializeHeartbeat(d, nextPos);
      } else if header.id == GAP {
        msg := DeserializeGap(d, nextPos);
      }
      if msg.Some? {
        handed := handed + [msg.value];
      }
      nextPos := (nextPos + header.octetsToNextHeader + 4) % 0x1_0000;
    }

    /** Required to end, which EndsIff decides; the position may wrap on the way. */
    method ProcessMessage(d: seq<byte>) returns (ok: bool)
      requires |d| < 0x1_0000 && Stops(d, PosAfter(d, 20, |d|))
      modifies this`sourceGuidPrefix, this`nextPos, this`handed
      ensures Accepted(d, own) ==>
                var outcome := Processed(d, 20, |d|);
                ok == outcome.ok && handed == old(handed) + outcome.handed && nextPos == outcome.end
                && sourceGuidPrefix == ReadBytes(d, 8, 12)
      ensures !Accepted(d, own) ==>
                !ok && handed == old(handed) && nextPos == 0 && sourceGuidPrefix == GUIDPREFIX_UNKNOWN
    {
      sourceGuidPrefix, nextPos := GUIDPREFIX_UNKNOWN, 0;
      ok := ProcessHeader(d);
      if ok {
        ok := ProcessSubmessages(d, |d|);
      }
    }

    method ProcessSubmessages(d: seq<byte>, ghost rounds: nat) returns (ok: bool)
      requires |d| < 0x1_0000 && Stops(d, PosAfter(d, nextPos, rounds))
      modifies this`nextPos, this`handed
      ensures var outcome := Processed(d, old(nextPos), rounds);
              ok == outcome.ok && handed == old(handed) + outcome.handed && nextPos == outcome.end
    {
      hide Handed, Read16, ReadSubHeader, NextPos;
      ghost var left := rounds;
      while nextPos < |d|
        invariant Stops(d, PosAfter(d, nextPos, left))
        invariant handed + Processed(d, nextPos, left).handed == old(handed) + Processed(d, old(nextPos), rounds).handed
        invariant Processed(d, nextPos, left).ok == Processed(d, old(nextPos), rounds).ok
        invariant Processed(d, nextPos, left).end == Processed(d, old(nextPos), rounds).end
        decreases left
      {
        var header := DeserializeSubHeader(d, nextPos);
        if header == None {
          return false;
        }
        ghost var rest := Processed(d, NextPos(d, nextPos), left - 1).handed;
        assert handed + (Handed(d, nextPos) + rest) == (handed + Handed(d, nextPos)) + rest;
        ProcessSubmessage(d, header.value);
        left := left - 1;
      }
      return true;
    }
  }

  // --- What is read ---

  function BitmapBytes(d: seq<byte>, pos: nat, numBytes: int): nat {
    if Read32(d, pos + 8) == 0 then 0 else if 0 <= numBytes <= 32 then numBytes else 32
  }

  /** How many bytes from pos on the deserializer of a submessage reads. */
  function Extent(d: seq<byte>, pos: nat): nat {
    var octets: int := Read16(d, pos + 2);
    if At(d, pos) == ACKNACK then
      24 + Max(BitmapBytes(d, pos + 12, octets - 24), if Read32(d, pos + 20) == 0 then 4 else octets - 20)
    else if At(d, pos) == HEARTBEAT then 32
    else if At(d, pos) == GAP then 32 + BitmapBytes(d, pos + 20, octets - 28)
    else if At(d, pos) == DATA then 24 + (octets - 20) % 0x1_0000
    else 4
  }

  lemma SameAt(d: seq<byte>, behind: seq<byte>, pos: nat)
    ensures pos < |d| ==> At(d + behind, pos) == At(d, pos)
    ensures pos + 2 <= |d| ==> Read16(d + behind, pos) == Read16(d, pos)
    ensures pos + 4 <= |d| ==> Read32(d + behind, pos) == Read32(d, pos)
    ensures pos + 4 <= |d| ==> ReadId(d + behind, pos) == ReadId(d, pos)
  {
  }

  lemma SameSn(d: seq<byte>, behind: seq<byte>, pos: nat)
    ensures pos + 8 <= |d| ==> ReadSn(d + behind, pos) == ReadSn(d, pos)
  {
    SameAt(d, behind, pos);
    SameAt(d, behind, pos + 4);
  }

  lemma SameWord(d: seq<byte>, behind: seq<byte>, pos: nat, size: nat, k: nat)
    requires pos + size <= |d|
    ensures ReadWord(d + behind, pos, size, k) == ReadWord(d, pos, size, k)
  {
    SameAt(d, behind, pos + 4 * k);
    assert (d + behind)[..pos + size] == d[..pos + size];
  }

  lemma SameSet(d: seq<byte>, behind: seq<byte>, pos: nat, numBytes: int)
    requires pos + 12 + BitmapBytes(d, pos, numBytes) <= |d|
    ensures ReadSet(d + behind, pos, numBytes) == ReadSet(d, pos, numBytes)
  {
    hide ReadWord, ReadSn, Read32;
    SameSn(d, behind, pos);
    SameAt(d, behind, pos + 8);
    var size := BitmapBytes(d, pos, numBytes);
    if Read32(d, pos + 8) != 0 {
      SameWord(d, behind, pos + 12, size, 0);
      SameWord(d, behind, pos + 12, size, 1);
      SameWord(d, behind, pos + 12, size, 2);
      SameWord(d, behind, pos + 12, size, 3);
      SameWord(d, behind, pos + 12, size, 4);
      SameWord(d, behind, pos + 12, size, 5);
      SameWord(d, behind, pos + 12, size, 6);
      SameWord(d, behind, pos + 12, size, 7);
    }
  }

  lemma ReadBytesWithin(d: seq<byte>, behind: seq<byte>, pos: nat, n: nat)
    requires pos + n <= |d|
    ensures ReadBytes(d + behind, pos, n) == ReadBytes(d, pos, n)
  {
    assert (d + behind)[pos..pos + n] == d[pos..pos + n];
  }

  /** A submessage whose extent lies within the message is read the same whatever lies behind it. */
  lemma ReadsOnlyWithin(d: seq<byte>, behind: seq<byte>, pos: nat)
    requires pos + Extent(d, pos) <= |d|
    ensures At(d, pos) == ACKNACK ==> ReadAckNack(d + behind, pos) == ReadAckNack(d, pos)
    ensures At(d, pos) == HEARTBEAT ==> ReadHeartbeat(d + behind, pos) == ReadHeartbeat(d, pos)
    ensures At(d, pos) == GAP ==> ReadGap(d + behind, pos) == ReadGap(d, pos)
    ensures At(d, pos) == DATA ==> ReadData(d + behind, pos) == ReadData(d, pos)
  {
    if At(d, pos) == ACKNACK { AckNackWithin(d, behind, pos); }
    if At(d, pos) == HEARTBEAT { HeartbeatWithin(d, behind, pos); }
    if At(d, pos) == GAP { GapWithin(d, behind, pos); }
    if At(d, pos) == DATA { DataWithin(d, behind, pos); }
  }

  lemma AckNackWithin(d: seq<byte>, behind: seq<byte>, pos: nat)
    requires At(d, pos) == ACKNACK && pos + Extent(d, pos) <= |d|
    ensures ReadAckNack(d + behind, pos) == ReadAckNack(d, pos)
  {
    hide At, Read16, ReadId, ReadSet, FinalFlag;
    var octets: int := Read16(d, pos + 2);
    SameAt(d, behind, pos);
    SameAt(d, behind, pos + 1);
    SameAt(d, behind, pos + 2);
    SameAt(d, behind, pos + 4);
    SameAt(d, behind, pos + 8);
    SameSet(d, behind, pos + 12, octets - 24);
    SetBits(d, pos + 12, octets - 24);
    SameAt(d, behind, if Read32(d, pos + 20) == 0 then pos + 24 else pos + octets);
  }

  lemma SetBits(d: seq<byte>, pos: nat, numBytes: int)
    ensures ReadSet(d, pos, numBytes).numBits == Read32(d, pos + 8)
  {
  }

  lemma HeartbeatWithin(d: seq<byte>, behind: seq<byte>, pos: nat)
    requires pos + 32 <= |d|
    ensures ReadHeartbeat(d + behind, pos) == ReadHeartbeat(d, pos)
  {
    hide ReadId, ReadSn, Read32;
    SameAt(d, behind, pos + 4);
    SameAt(d, behind, pos + 8);
    SameSn(d, behind, pos + 12);
    SameSn(d, behind, pos + 20);
    SameAt(d, behind, pos + 28);
  }

  lemma GapWithin(d: seq<byte>, behind: seq<byte>, pos: nat)
    requires At(d, pos) == GAP && pos + Extent(d, pos) <= |d|
    ensures ReadGap(d + behind, pos) == ReadGap(d, pos)
  {
    hide At, Read16, Read32, ReadId, ReadSn, ReadSet;
    SameAt(d, behind, pos + 2);
    SameAt(d, behind, pos + 4);
    SameAt(d, behind, pos + 8);
    SameSn(d, behind, pos + 12);
    SameSet(d, behind, pos + 20, Read16(d, pos + 2) - 28);
  }

  lemma DataWithin(d: seq<byte>, behind: seq<byte>, pos: nat)
    requires At(d, pos) == DATA && pos + Extent(d, pos) <= |d|
    ensures ReadData(d + behind, pos) == ReadData(d, pos)
  {
    hide At, Read16, ReadId, ReadSn, ReadBytes;
    SameAt(d, behind, pos + 2);
    SameAt(d, behind, pos + 8);
    SameAt(d, behind, pos + 12);
    SameSn(d, behind, pos + 16);
    ReadBytesWithin(d, behind, pos + 24, (Read16(d, pos + 2) - 20) % 0x1_0000);
  }
}
