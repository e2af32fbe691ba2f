/** What a reliable reader makes of Data, Gap and Heartbeat. It keeps one expected number for
    each writer and stores no packets. */
module ReaderSpec {
  import opened RtpsTypes
  import opened Endpoints
  import opened Messages

  /** The numbers of a gap: those before the base of its list, and the set bits of the list. */
  predicate Skipped(n: SN, gapStart: SN, gapList: SequenceNumberSet) {
    || gapStart <= n < gapList.base
    || (gapList.base <= n < gapList.base + SNS_MAX_NUM_BITS && gapList.IsSet(n - gapList.base))
  }

  /** The least number at or above n that is not in the gap. */
  function LeastOutside(n: SN, gapStart: SN, gapList: SequenceNumberSet): (r: SN)
    ensures n <= r && !Skipped(r, gapStart, gapList)
    ensures forall k :: n <= k < r ==> Skipped(k, gapStart, gapList)
    decreases gapList.base + SNS_MAX_NUM_BITS - n
  {
    if Skipped(n, gapStart, gapList) then LeastOutside(n + 1, gapStart, gapList) else n
  }

  /** The request for everything from the expected number up to lastAvail, cut off at 256
      numbers, of which only the first 32 are marked. */
  function Missing(expected: SN, lastAvail: SN): SequenceNumberSet {
    if lastAvail < expected then SequenceNumberSet(expected, 0, EMPTY_BITMAP)
    else
      var n := Min(lastAvail - expected + 1, SNS_MAX_NUM_BITS);
      SequenceNumberSet(expected, n, FirstBits(n))
  }

  /** A reader asks for everything it misses, but for no more than 32 numbers at once. */
  lemma AsksForMissing(e: SN, lastSN: SN)
    ensures AsksFirst(Missing(e, lastSN), Min(Missing(e, lastSN).numBits, 32))
    ensures Missing(e, lastSN).base == e
    ensures Missing(e, lastSN).numBits == Min(Max(lastSN - e + 1, 0), 256)
  {
    var set_ := Missing(e, lastSN);
    forall bit: nat | bit < set_.numBits
      ensures set_.IsSet(bit) <==> bit < Min(set_.numBits, 32)
    {
      FirstBitsSet(e, set_.numBits, set_.numBits, bit);
    }
  }

  datatype Request = Request(set_: SequenceNumberSet, count: int, finalFlag: bool)

  datatype Reaction = Reaction(proxy: WriterProxy, handled: bool, request: Option<Request>)

  function OnGap(p: WriterProxy, gapStart: SN, gapList: SequenceNumberSet): Reaction {
    if p.expectedSN < gapStart then
      Reaction(p.(ackNackCount := p.ackNackCount + 1), true,
               Some(Request(Missing(p.expectedSN, gapStart - 1), p.ackNackCount, false)))
    else
      var e := LeastOutside(p.expectedSN, gapStart, gapList);
      if p.expectedSN < gapList.base then Reaction(p.(expectedSN := e), true, None)
      else if e < gapList.base + SNS_MAX_NUM_BITS then
        Reaction(p.(expectedSN := e, ackNackCount := p.ackNackCount + 1), true,
                 Some(Request(SequenceNumberSet(e, 1, FirstBits(1)), p.ackNackCount, false)))
      else Reaction(p.(expectedSN := e), false, None)
  }

  function OnHeartbeat(p: WriterProxy, firstSN: SN, lastSN: SN, count: int): Reaction {
    var e := Max(p.expectedSN, firstSN);
    var missing := Missing(e, lastSN);
    Reaction(p.(expectedSN := e, hbCount := count, ackNackCount := p.ackNackCount + 1), true,
             Some(Request(missing, p.ackNackCount, missing.numBits == 0)))
  }

  // --- The reader as a whole ---

  datatype Delivery = Delivery(writer: Guid, sn: SN, data: Payload)

  datatype ReaderState = ReaderState(
    initialized: bool,
    callbackCount: nat,
    proxies: seq<WriterProxy>,
    delivered: seq<Delivery>,
    sent: seq<Packet>)

  /** The first proxy for a writer, as getProxy finds it. */
  function ProxyIndex(proxies: seq<WriterProxy>, writer: Guid): (i: nat)
    ensures i <= |proxies|
    ensures i < |proxies| ==> proxies[i].remoteWriterGuid == writer
    ensures forall j :: 0 <= j < i ==> proxies[j].remoteWriterGuid != writer
  {
    if proxies == [] || proxies[0].remoteWriterGuid == writer then 0
    else 1 + ProxyIndex(proxies[1..], writer)
  }

  predicate Expects(p: WriterProxy, writer: Guid, sn: SN) {
    p.remoteWriterGuid == writer && p.expectedSN == sn
  }

  function ExpectingIndex(proxies: seq<WriterProxy>, writer: Guid, sn: SN): (i: nat)
    ensures i <= |proxies|
    ensures i < |proxies| ==> Expects(proxies[i], writer, sn)
    ensures forall j :: 0 <= j < i ==> !Expects(proxies[j], writer, sn)
  {
    if proxies == [] || Expects(proxies[0], writer, sn) then 0
    else 1 + ExpectingIndex(proxies[1..], writer, sn)
  }

  function Answer(p: WriterProxy, writerId: EntityId, readerId: EntityId, request: Option<Request>): seq<Packet> {
    if request == None then []
    else
      var q := request.value;
      [Packet(p.remoteLocator.address, p.remoteLocator.port, AckNack(readerId, writerId, q.set_, q.count, q.finalFlag))]
  }

  function Reacted(r: ReaderState, i: nat, reaction: Reaction, writerId: EntityId, readerId: EntityId): ReaderState
    requires i < |r.proxies|
  {
    r.(proxies := r.proxies[i := reaction.proxy],
       sent := r.sent + Answer(r.proxies[i], writerId, readerId, reaction.request))
  }

  function OnData(r: ReaderState, writer: Guid, sn: SN, data: Payload): ReaderState {
    var i := ExpectingIndex(r.proxies, writer, sn);
    if r.callbackCount == 0 || !r.initialized || i == |r.proxies| then r
    else r.(proxies := r.proxies[i := r.proxies[i].(expectedSN := sn + 1)],
            delivered := r.delivered + [Delivery(writer, sn, data)])
  }

  function Received(r: ReaderState, source: GuidPrefix, msg: Submessage): ReaderState {
    var writer := Guid(source, msg.writerId);
    var i := ProxyIndex(r.proxies, writer);
    match msg
    case Data(_, _, sn, data) => OnData(r, writer, sn, data)
    case Gap(readerId, writerId, gapStart, gapList) =>
      if !r.initialized || i == |r.proxies| then r
      else Reacted(r, i, OnGap(r.proxies[i], gapStart, gapList), writerId, readerId)
    case Heartbeat(readerId, writerId, firstSN, lastSN, count) =>
      if !r.initialized || i == |r.proxies| then r
      else Reacted(r, i, OnHeartbeat(r.proxies[i], firstSN, lastSN, count), writerId, readerId)
    case AckNack(_, _, _, _, _) => r
  }

  // --- In order and at most once, whatever arrives ---

  datatype Arrival = Arrival(source: GuidPrefix, msg: Submessage)

  function ReceivedAll(r: ReaderState, arrivals: seq<Arrival>): ReaderState
    decreases |arrivals|
  {
    if arrivals == [] then r
    else ReceivedAll(Received(r, arrivals[0].source, arrivals[0].msg), arrivals[1..])
  }

  ghost predicate OneProxyForEach(proxies: seq<WriterProxy>) {
    forall i, j :: 0 <= i < j < |proxies| ==> proxies[i].remoteWriterGuid != proxies[j].remoteWriterGuid
  }

  /** The numbers handed to the callbacks for one writer, in the order in which they were. */
  function NumbersFrom(delivered: seq<Delivery>, writer: Guid): seq<SN> {
    if delivered == [] then []
    else
      var d := delivered[|delivered| - 1];
      NumbersFrom(delivered[..|delivered| - 1], writer) + if d.writer == writer then [d.sn] else []
  }

  ghost predicate AscendingBelow(s: seq<SN>, bound: SN) {
    && (forall i, j :: 0 <= i < j < |s| ==> s[i] < s[j])
    && (forall i :: 0 <= i < |s| ==> s[i] < bound)
  }

  ghost predicate InOrder(r: ReaderState) {
    && OneProxyForEach(r.proxies)
    && forall i :: 0 <= i < |r.proxies| ==>
         AscendingBelow(NumbersFrom(r.delivered, r.proxies[i].remoteWriterGuid), r.proxies[i].expectedSN)
  }

  /** The same writers, none of them expected to send less than before. */
  ghost predicate Advanced(before: seq<WriterProxy>, after: seq<WriterProxy>) {
    && |before| == |after|
    && forall i :: 0 <= i < |before| ==>
         && before[i].remoteWriterGuid == after[i].remoteWriterGuid
         && before[i].expectedSN <= after[i].expectedSN
  }

  lemma AdvanceKeepsOrder(r: ReaderState, r': ReaderState, i: nat)
    requires InOrder(r) && i < |r.proxies| == |r'.proxies| && r'.delivered == r.delivered
    requires r'.proxies == r.proxies[i := r'.proxies[i]]
    requires r'.proxies[i].remoteWriterGuid == r.proxies[i].remoteWriterGuid
    requires r'.proxies[i].expectedSN >= r.proxies[i].expectedSN
    ensures InOrder(r') && Advanced(r.proxies, r'.proxies)
  {
  }

  lemma AppendAscends(s: seq<SN>, sn: SN)
    requires AscendingBelow(s, sn)
    ensures AscendingBelow(s + [sn], sn + 1)
  {
  }

  lemma DeliveryKeepsOrder(r: ReaderState, i: nat, data: Payload)
    requires InOrder(r) && i < |r.proxies|
    ensures var p := r.proxies[i];
            var r' := r.(proxies := r.proxies[i := p.(expectedSN := p.expectedSN + 1)],
                         delivered := r.delivered + [Delivery(p.remoteWriterGuid, p.expectedSN, data)]);
            InOrder(r') && Advanced(r.proxies, r'.proxies)
  {
    hide NumbersFrom, AscendingBelow;
    var p := r.proxies[i];
    var d := Delivery(p.remoteWriterGuid, p.expectedSN, data);
    forall j | 0 <= j < |r.proxies|
      ensures AscendingBelow(NumbersFrom(r.delivered + [d], r.proxies[j].remoteWriterGuid),
                             r.proxies[j].expectedSN + if j == i then 1 else 0)
    {
      AppendedNumber(r.delivered, d, r.proxies[j].remoteWriterGuid);
      if j == i {
        AppendAscends(NumbersFrom(r.delivered, p.remoteWriterGuid), p.expectedSN);
      } else {
        assert NumbersFrom(r.delivered, r.proxies[j].remoteWriterGuid) + []
               == NumbersFrom(r.delivered, r.proxies[j].remoteWriterGuid);
      }
    }
  }

  lemma AppendedNumber(delivered: seq<Delivery>, d: Delivery, writer: Guid)
    ensures NumbersFrom(delivered + [d], writer)
            == NumbersFrom(delivered, writer) + if d.writer == writer then [d.sn] else []
  {
    assert (delivered + [d])[..|delivered|] == delivered;
  }

  lemma ArrivalKeepsOrder(r: ReaderState, source: GuidPrefix, msg: Submessage)
    requires InOrder(r)
    ensures InOrder(Received(r, source, msg)) && Advanced(r.proxies, Received(r, source, msg).proxies)
    ensures r.delivered <= Received(r, source, msg).delivered
  {
    var r' := Received(r, source, msg);
    var writer := Guid(source, msg.writerId);
    if r'.delivered != r.delivered {
      DeliveryKeepsOrder(r, ExpectingIndex(r.proxies, writer, msg.writerSN), msg.payload);
    } else if r' != r {
      AdvanceKeepsOrder(r, r', ProxyIndex(r.proxies, writer));
    }
  }

  /** For any sequence of messages, true or false, from anyone: the expected numbers never
      decrease, and the callbacks see the numbers of each writer in strictly ascending order. */
  lemma {:induction false} DeliveryInOrderAtMostOnce(r: ReaderState, arrivals: seq<Arrival>)
    requires InOrder(r)
    ensures InOrder(ReceivedAll(r, arrivals)) && Advanced(r.proxies, ReceivedAll(r, arrivals).proxies)
    ensures r.delivered <= ReceivedAll(r, arrivals).delivered
    decreases |arrivals|
  {
    if arrivals != [] {
      ArrivalKeepsOrder(r, arrivals[0].source, arrivals[0].msg);
      DeliveryInOrderAtMostOnce(Received(r, arrivals[0].source, arrivals[0].msg), arrivals[1..]);
    }
  }
}
