/** What the factory prints, the receiver reads back. */
module RoundTrip {
  import opened RtpsTypes
  import opened Endpoints
  import opened Messages
  import opened Wire
  import opened SequenceNumbers
  import opened MessageFactory
  import opened MessageReceiver
  import opened Layout
  import opened History
  import opened WriterSpec
  import opened NackService
  import opened ReaderSpec
  import Protocol

  lemma ReadsSubHeader(d: seq<byte>, pos: nat, id: byte, flags: byte, octets: uint16)
    requires Holds(d, pos, SubHeaderBytes(id, flags, octets))
    ensures ReadSubHeader(d, pos) == SubHeader(id, flags, octets)
  {
    HoldsAt(d, pos, SubHeaderBytes(id, flags, octets), 0);
    HoldsAt(d, pos, SubHeaderBytes(id, flags, octets), 1);
    HoldsParts(d, pos, [id, flags], Bytes16(octets));
    Reads16(d, pos + 2, octets);
  }

  lemma ReadsIds(d: seq<byte>, pos: nat, sub: Submessage)
    requires Holds(d, pos, Ids(sub))
    ensures ReadId(d, pos) == sub.readerId && ReadId(d, pos + 4) == sub.writerId
  {
    HoldsParts(d, pos, IdBytes(sub.readerId), IdBytes(sub.writerId));
    ReadsId(d, pos, sub.readerId);
    ReadsId(d, pos + 4, sub.writerId);
  }

  lemma HeaderIsAccepted(prefix: GuidPrefix, own: GuidPrefix, rest: seq<byte>)
    requires prefix != own
    ensures var d := HeaderBytes(prefix) + rest;
            Accepted(d, own) && ReadBytes(d, 8, 12) == prefix && Holds(d, 20, rest)
  {
    var d := HeaderBytes(prefix) + rest;
    assert d[8..20] == prefix;
    assert d[0..4] == [0x52, 0x54, 0x50, 0x53];
  }

  /** The whole message is taken, from position pos on, as one submessage. */
  lemma LastSubmessage(d: seq<byte>, pos: nat, n: nat)
    requires n > 0 && pos + 4 <= |d| < 0x1_0000 && NextPos(d, pos) == |d|
    ensures Stops(d, PosAfter(d, pos, n)) && Processed(d, pos, n) == Outcome(true, Handed(d, pos), |d|)
  {
    assert Processed(d, |d|, n - 1) == Outcome(true, [], |d|);
  }

  /** The bytes are a message from prefix; processing them ends exactly at their end and hands on one
      submessage. */
  ghost predicate Delivers(d: seq<byte>, own: GuidPrefix, prefix: GuidPrefix, sub: Submessage) {
    && |d| < 0x1_0000 && Accepted(d, own) && ReadBytes(d, 8, 12) == prefix
    && Stops(d, PosAfter(d, 20, |d|)) && Processed(d, 20, |d|) == Outcome(true, [sub], |d|)
  }

  /** The parts of a packet that the writer sends. */
  function PartsOf(sub: Submessage, inLineQoS: bool): seq<Part>
    requires Printable(sub) && !sub.AckNack?
  {
    match sub
    case Data(_, _, _, payload) =>
      [Part(1, 8, None), Part(DataFlags(inLineQoS, payload != []), 20 + |payload|, Some(sub))]
    case Gap(_, _, _, _) => [Part(1, 8, None), Part(1, 32, Some(sub))]
    case Heartbeat(_, _, _, _, _) => [Part(1, 28, Some(sub))]
  }

  lemma TwoParts(d: seq<byte>, pos: nat, a: Part, b: Part)
    requires PartAt(d, pos, a) && PartAt(d, pos + 4 + a.octets, b) && pos + 8 + a.octets + b.octets == |d|
    ensures PartsAt(d, pos, [a, b], |d|)
  {
    hide PartAt;
    assert [b][1..] == [] && PartsAt(d, |d|, [], |d|);
    assert PartsAt(d, pos + 4 + a.octets, [b], |d|);
    assert [a, b][1..] == [b];
  }

  lemma TwoContents(a: Part, b: Part)
    requires a.content.None? && b.content.Some?
    ensures Contents([a, b]) == [b.content.value]
  {
    assert [a, b][1..] == [b];
    assert Contents([b]) == [b.content.value];
  }

  lemma PacketHasParts(d: seq<byte>, prefix: GuidPrefix, now: Time, sub: Submessage, inLineQoS: bool)
    requires Printable(sub) && !sub.AckNack? && PacketAt(d, prefix, now, sub, inLineQoS)
    ensures PartsAt(d, 20, PartsOf(sub, inLineQoS), |d|) && Contents(PartsOf(sub, inLineQoS)) == [sub]
  {
    hide SubmessageAt, WordAt, HalfAt;
    var parts := PartsOf(sub, inLineQoS);
    if sub.Heartbeat? {
      assert PartAt(d, 20, parts[0]);
    } else {
      TwoParts(d, 20, parts[0], parts[1]);
      TwoContents(parts[0], parts[1]);
    }
  }

  /** Every printed Data, Gap and Heartbeat arrives unchanged at any other participant. */
  lemma MessageRoundTrip(prefix: GuidPrefix, own: GuidPrefix, now: Time, sub: Submessage, inLineQoS: bool)
    requires prefix != own && Printable(sub) && !sub.AckNack?
    ensures Delivers(PacketBytes(prefix, now, sub, inLineQoS, []), own, prefix, sub)
  {
    hide PacketBytes, TimeStampAt, SubmessageAt, WordAt, PartsAt, Contents, Accepted, Processed, Stops, PosAfter;
    var d := PacketBytes(prefix, now, sub, inLineQoS, []);
    PacketPrinted(prefix, now, sub, inLineQoS, []);
    PacketHasParts(d, prefix, now, sub, inLineQoS);
    MessageHanded(d, prefix, own, PartsOf(sub, inLineQoS), |d|);
  }

  // --- Requests ---

  /** The same numbers are asked for. */
  ghost predicate SameRequest(a: SequenceNumberSet, b: SequenceNumberSet) {
    a.base == b.base && a.numBits == b.numBits && forall i: nat :: i < a.numBits ==> (a.IsSet(i) <==> b.IsSet(i))
  }

  /** Bits of words that were written are read back. */
  lemma SameWords(a: SequenceNumberSet, b: SequenceNumberSet)
    requires a.base == b.base && a.numBits == b.numBits <= 256
    requires forall k :: 0 <= k < WrittenWords(a) ==> a.bitMap[k] == b.bitMap[k]
    ensures SameRequest(a, b)
  {
    forall i: nat | i < a.numBits
      ensures a.IsSet(i) <==> b.IsSet(i)
    {
      assert a.bitMap[i / 32] == b.bitMap[i / 32];
    }
  }

  lemma ReadsSet(d: seq<byte>, pos: nat, set_: SequenceNumberSet)
    requires IsSn(set_.base) && set_.numBits <= 256 && Holds(d, pos, SetBytes(set_))
    ensures SameRequest(set_, ReadSet(d, pos, if set_.numBits == 0 then 0 else 32))
  {
    var words := WordBytes(set_.bitMap, WrittenWords(set_));
    HoldsParts(d, pos, SnBytes(set_.base) + Bytes32(set_.numBits), words);
    HoldsParts(d, pos, SnBytes(set_.base), Bytes32(set_.numBits));
    ReadsSn(d, pos, set_.base);
    Reads32(d, pos + 8, set_.numBits);
    if set_.numBits != 0 {
      var read := ReadSet(d, pos, 32);
      forall k | 0 <= k < WrittenWords(set_)
        ensures read.bitMap[k] == set_.bitMap[k]
      {
        ReadsWord(d, pos + 12, set_.bitMap, WrittenWords(set_), k);
      }
      SameWords(set_, read);
    }
  }

  /** Where the count of an AckNack at pos is written, and where it is looked for. */
  function CountWritten(set_: SequenceNumberSet, pos: nat): nat {
    pos + 24 + 4 * WrittenWords(set_)
  }

  function CountRead(set_: SequenceNumberSet, pos: nat): nat {
    pos + AckNackSize(set_) - 4
  }

  lemma ReadsAckNack(d: seq<byte>, pos: nat, sub: Submessage, left: seq<byte>)
    requires sub.AckNack? && Printable(sub) && Holds(d, pos, AckNackBytes(sub) + left)
    ensures ReadSubHeader(d, pos)
            == SubHeader(ACKNACK, AckNackFlags(sub.finalFlag), AckNackSize(sub.readerSNState) - 4)
    ensures var read := ReadAckNack(d, pos);
            && read.readerId == sub.readerId && read.writerId == sub.writerId && read.finalFlag == sub.finalFlag
            && SameRequest(sub.readerSNState, read.readerSNState)
            && read.count == ReadSigned(d, CountRead(sub.readerSNState, pos))
    ensures sub.readerSNState.numBits < 256 ==> ReadSigned(d, CountWritten(sub.readerSNState, pos)) == sub.count
  {
    hide Ids, SetBytes, Signed, ReadId, ReadSet, ReadSigned;
    var set_ := sub.readerSNState;
    var flags, octets := AckNackFlags(sub.finalFlag), AckNackSize(set_) - 4;
    var tail := Ids(sub) + (SetBytes(set_) + CountBytes(sub));
    HoldsParts(d, pos, AckNackBytes(sub), left);
    HoldsParts(d, pos, SubHeaderBytes(ACKNACK, flags, octets), tail);
    HoldsParts(d, pos + 4, Ids(sub), SetBytes(set_) + CountBytes(sub));
    HoldsParts(d, pos + 12, SetBytes(set_), CountBytes(sub));
    ReadsSubHeader(d, pos, ACKNACK, flags, octets);
    ReadsIds(d, pos + 4, sub);
    ReadsSet(d, pos + 12, set_);
    if set_.numBits < 256 { ReadsSigned(d, CountWritten(set_, pos), sub.count); }
  }

  function RequestBytes(prefix: GuidPrefix, sub: Submessage, left: seq<byte>): seq<byte>
    requires sub.AckNack? && Printable(sub)
  {
    HeaderBytes(prefix) + (AckNackBytes(sub) + left)
  }

  /** The submessage that a request arrives as. */
  function ArrivesAs(prefix: GuidPrefix, sub: Submessage, left: seq<byte>): Submessage
    requires sub.AckNack? && Printable(sub)
  {
    ReadAckNack(RequestBytes(prefix, sub, left), 20)
  }

  /** A request arrives as one that asks for the same numbers, whatever the unknown bytes are. */
  lemma RequestRoundTrip(prefix: GuidPrefix, own: GuidPrefix, sub: Submessage, left: seq<byte>)
    requires prefix != own && sub.AckNack? && Printable(sub) && |left| == Unknown(sub.readerSNState)
    ensures var got := ArrivesAs(prefix, sub, left);
            && Delivers(RequestBytes(prefix, sub, left), own, prefix, got)
            && got.readerId == sub.readerId && got.writerId == sub.writerId && got.finalFlag == sub.finalFlag
            && SameRequest(sub.readerSNState, got.readerSNState)
  {
    hide HeaderBytes, AckNackBytes, Accepted, SameRequest, ReadAckNack;
    var d := RequestBytes(prefix, sub, left);
    HeaderIsAccepted(prefix, own, AckNackBytes(sub) + left);
    ReadsAckNack(d, 20, sub, left);
    LastSubmessage(d, 20, |d|);
  }

  /** The count arrives, whatever the unknown bytes are, exactly for requests whose declared and
      written bitmaps have the same length: for none, or for 224 to 255 numbers. */
  lemma CountSurvivesIff(prefix: GuidPrefix, sub: Submessage)
    requires sub.AckNack? && Printable(sub)
    ensures var n := sub.readerSNState.numBits;
            (forall left: seq<byte> :: |left| == Unknown(sub.readerSNState) ==>
               ArrivesAs(prefix, sub, left).count == sub.count)
            <==> n == 0 || 224 <= n < 256
  {
    var set_ := sub.readerSNState;
    if set_.numBits == 0 || 224 <= set_.numBits < 256 {
      forall left: seq<byte> | |left| == Unknown(set_)
        ensures ArrivesAs(prefix, sub, left).count == sub.count
      {
        SameCountPlace(set_, 20);
        RequestCount(prefix, sub, left);
      }
    } else {
      var left := MisleadingBytes(prefix, sub);
      assert ArrivesAs(prefix, sub, left).count != sub.count;
    }
  }

  lemma SameCountPlace(set_: SequenceNumberSet, pos: nat)
    requires set_.numBits == 0 || 224 <= set_.numBits < 256
    ensures CountRead(set_, pos) == CountWritten(set_, pos)
  {
  }

  lemma RequestCount(prefix: GuidPrefix, sub: Submessage, left: seq<byte>)
    requires sub.AckNack? && Printable(sub) && |left| == Unknown(sub.readerSNState)
    ensures ArrivesAs(prefix, sub, left).count
            == ReadSigned(RequestBytes(prefix, sub, left), CountRead(sub.readerSNState, 20))
    ensures sub.readerSNState.numBits < 256 ==>
              sub.count == ReadSigned(RequestBytes(prefix, sub, left), CountWritten(sub.readerSNState, 20))
  {
    hide ReadSigned, HeaderBytes, AckNackBytes, ReadAckNack;
    var d := RequestBytes(prefix, sub, left);
    assert d[20..] == AckNackBytes(sub) + left;
    ReadsAckNack(d, 20, sub, left);
  }

  lemma MisleadingBytes(prefix: GuidPrefix, sub: Submessage) returns (left: seq<byte>)
    requires sub.AckNack? && Printable(sub)
    requires 0 < sub.readerSNState.numBits < 224 || sub.readerSNState.numBits == 256
    ensures |left| == Unknown(sub.readerSNState) && ArrivesAs(prefix, sub, left).count != sub.count
  {
    hide ReadSigned, HeaderBytes, AckNackBytes, ReadAckNack, Signed;
    var wrong: int32 := if sub.count == 0 then 1 else 0;
    var padding := ReadBytes([], 0, Unknown(sub.readerSNState) - 4);
    left := padding + Signed(wrong);
    var d := RequestBytes(prefix, sub, left);
    assert d[|d| - 4..] == Signed(wrong);
    ReadsSigned(d, |d| - 4, wrong);
    RequestCount(prefix, sub, left);
  }

  // --- What the writer makes of a request ---

  lemma StepsAlike(h: seq<CacheChange>, last: SN, a: SequenceNumberSet, b: SequenceNumberSet, i: nat)
    requires a.base == b.base && a.base + i <= last && (a.IsSet(i) <==> b.IsSet(i))
    ensures Resume(h, last, a, i) == Resume(h, last, b, i) && Step(h, last, a, i) == Step(h, last, b, i)
  {
  }

  lemma {:induction false} ServesAlike(h: seq<CacheChange>, last: SN,
                                       a: SequenceNumberSet, b: SequenceNumberSet, i: nat)
    requires SameRequest(a, b)
    ensures Serve(h, last, a, i) == Serve(h, last, b, i)
    decreases last + 1 - (a.base + i)
  {
    if i < a.numBits && a.base + i <= last {
      assert a.IsSet(i) <==> b.IsSet(i);
      hide Serve, Resume, Step;
      ServeStep(h, last, a, i);
      ServeStep(h, last, b, i);
      StepsAlike(h, last, a, b, i);
      ServesAlike(h, last, a, b, Resume(h, last, a, i) - a.base);
    }
  }

  lemma RespondsAlike(w: Core, a: SequenceNumberSet, b: SequenceNumberSet)
    requires SameRequest(a, b)
    ensures Responded(w, a) == Responded(w, b)
  {
    hide Serve;
    ServesAlike(w.history, w.lastUsed, a, b, 0);
  }

  /** The writer answers the request that arrives as it would have answered the one that was made. */
  lemma AnsweredAsAsked(w: Core, prefix: GuidPrefix, own: GuidPrefix, sub: Submessage, left: seq<byte>)
    requires prefix != own && sub.AckNack? && Printable(sub) && |left| == Unknown(sub.readerSNState)
    ensures Responded(w, ArrivesAs(prefix, sub, left).readerSNState) == Responded(w, sub.readerSNState)
  {
    hide SameRequest, Responded, Delivers;
    RequestRoundTrip(prefix, own, sub, left);
    RespondsAlike(w, sub.readerSNState, ArrivesAs(prefix, sub, left).readerSNState);
  }

  /** Every Data that a writer ever puts on the network reaches any other participant byte for byte
      as it is in the model of the protocol, with the payload that newChange was given. */
  lemma SentDataArrives(s: Protocol.System, k: nat, own: GuidPrefix, now: Time, inLineQoS: bool)
    requires Protocol.WriterSide(s) && k < |s.net| && s.net[k].sub.Data?
    requires |s.given| <= MAX_VALUE && own != s.writer.prefix
    ensures var sub := s.net[k].sub;
            && 1 <= sub.writerSN <= |s.given| && sub.payload == Stored(s.given[sub.writerSN - 1]) && Printable(sub)
            && Delivers(PacketBytes(s.writer.prefix, now, sub, inLineQoS, []), own, s.writer.prefix, sub)
  {
    Protocol.DeliveredIsGiven(s, k);
    MessageRoundTrip(s.writer.prefix, own, now, s.net[k].sub, inLineQoS);
  }
}
