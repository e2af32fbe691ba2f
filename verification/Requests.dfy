/** Which AckNacks a reader sends, and what it leaves alone. */
module Requests {
  import opened RtpsTypes
  import opened Endpoints
  import opened Messages
  import opened ReaderSpec

  /** An AckNack to the writer's own address that asks for the n numbers from base on, as far as 32 of
      them can be marked. */
  ghost predicate Asks(q: Packet, p: WriterProxy, writerId: EntityId, readerId: EntityId,
                       base: SN, n: nat, finalFlag: bool)
  {
    && q.address == p.remoteLocator.address && q.port == p.remoteLocator.port
    && q.sub.AckNack? && q.sub.readerId == readerId && q.sub.writerId == writerId
    && q.sub.count == p.ackNackCount && q.sub.finalFlag == finalFlag
    && q.sub.readerSNState.base == base && q.sub.readerSNState.numBits == n
    && AsksFirst(q.sub.readerSNState, Min(n, 32))
  }

  /** One packet was sent, and it asks for that; the next one will have a higher count. */
  ghost predicate AskedOnce(r: ReaderState, r': ReaderState, i: nat, writerId: EntityId, readerId: EntityId,
                            base: SN, n: nat, finalFlag: bool)
    requires i < |r.proxies| == |r'.proxies|
  {
    && |r'.sent| == |r.sent| + 1 && r'.sent[..|r.sent|] == r.sent
    && Asks(r'.sent[|r.sent|], r.proxies[i], writerId, readerId, base, n, finalFlag)
    && r'.proxies[i].ackNackCount == r.proxies[i].ackNackCount + 1
  }

  /** Of the reader's state, only what it expects from one writer, and its counts, may have changed. */
  ghost predicate OnlyProxyMoves(r: ReaderState, r': ReaderState, i: nat, expected: SN)
    requires i < |r.proxies|
  {
    && r'.initialized == r.initialized && r'.callbackCount == r.callbackCount && r'.delivered == r.delivered
    && |r'.proxies| == |r.proxies|
    && (forall j :: 0 <= j < |r.proxies| && j != i ==> r'.proxies[j] == r.proxies[j])
    && r'.proxies[i].remoteWriterGuid == r.proxies[i].remoteWriterGuid
    && r'.proxies[i].remoteLocator == r.proxies[i].remoteLocator
    && r'.proxies[i].expectedSN == expected
  }

  /** The reader has a proxy for the writer, and it is the first one. */
  ghost predicate Knows(r: ReaderState, writer: Guid, i: nat) {
    && r.initialized && i < |r.proxies| && r.proxies[i].remoteWriterGuid == writer
    && forall j :: 0 <= j < i ==> r.proxies[j].remoteWriterGuid != writer
  }

  lemma {:induction false} FirstIs(proxies: seq<WriterProxy>, writer: Guid, i: nat)
    requires i < |proxies| && proxies[i].remoteWriterGuid == writer
    requires forall j :: 0 <= j < i ==> proxies[j].remoteWriterGuid != writer
    ensures ProxyIndex(proxies, writer) == i
  {
    var k := ProxyIndex(proxies, writer);
    assert !(k < i) && !(i < k);
  }

  /** A Gap that starts beyond what is expected: everything before it is asked for. */
  lemma EarlyGapAsks(r: ReaderState, source: GuidPrefix, writerId: EntityId, readerId: EntityId,
                     gapStart: SN, gapList: SequenceNumberSet, i: nat)
    requires Knows(r, Guid(source, writerId), i) && r.proxies[i].expectedSN < gapStart
    ensures var r', e := Received(r, source, Gap(readerId, writerId, gapStart, gapList)), r.proxies[i].expectedSN;
            && OnlyProxyMoves(r, r', i, e) && r'.proxies[i].hbCount == r.proxies[i].hbCount
            && AskedOnce(r, r', i, writerId, readerId, e, Min(gapStart - e, 256), false)
  {
    FirstIs(r.proxies, Guid(source, writerId), i);
    AsksForMissing(r.proxies[i].expectedSN, gapStart - 1);
  }

  /** A Gap that moves the expected number over the base of its list: nothing is asked for. */
  lemma GapMovesOn(r: ReaderState, source: GuidPrefix, writerId: EntityId, readerId: EntityId,
                   gapStart: SN, gapList: SequenceNumberSet, i: nat)
    requires Knows(r, Guid(source, writerId), i) && gapStart <= r.proxies[i].expectedSN < gapList.base
    ensures var r', e := Received(r, source, Gap(readerId, writerId, gapStart, gapList)), r.proxies[i].expectedSN;
            && OnlyProxyMoves(r, r', i, LeastOutside(e, gapStart, gapList)) && r'.sent == r.sent
            && r'.proxies[i].hbCount == r.proxies[i].hbCount && r'.proxies[i].ackNackCount == r.proxies[i].ackNackCount
  {
    FirstIs(r.proxies, Guid(source, writerId), i);
  }

  /** A Gap whose list begins at or before what is expected: the first number that the list leaves out is
      asked for, unless the list covers all of its 256 numbers. */
  lemma LateGapAsks(r: ReaderState, source: GuidPrefix, writerId: EntityId, readerId: EntityId,
                    gapStart: SN, gapList: SequenceNumberSet, i: nat)
    requires Knows(r, Guid(source, writerId), i)
    requires gapStart <= r.proxies[i].expectedSN && gapList.base <= r.proxies[i].expectedSN
    ensures var r' := Received(r, source, Gap(readerId, writerId, gapStart, gapList));
            var e := LeastOutside(r.proxies[i].expectedSN, gapStart, gapList);
            && OnlyProxyMoves(r, r', i, e) && r'.proxies[i].hbCount == r.proxies[i].hbCount
            && if e < gapList.base + 256 then AskedOnce(r, r', i, writerId, readerId, e, 1, false)
               else r'.sent == r.sent && r'.proxies[i].ackNackCount == r.proxies[i].ackNackCount
  {
    FirstIs(r.proxies, Guid(source, writerId), i);
    OneIsMarked(LeastOutside(r.proxies[i].expectedSN, gapStart, gapList));
  }

  /** The last case is the only one that counts as not handled. */
  lemma GapIsUnhandledIff(p: WriterProxy, gapStart: SN, gapList: SequenceNumberSet)
    ensures !OnGap(p, gapStart, gapList).handled
            <==> && gapStart <= p.expectedSN && gapList.base <= p.expectedSN
                 && forall n :: p.expectedSN <= n < gapList.base + 256 ==> Skipped(n, gapStart, gapList)
  {
  }

  lemma OneIsMarked(base: SN)
    ensures AsksFirst(SequenceNumberSet(base, 1, FirstBits(1)), 1)
  {
    FirstBitsSet(base, 1, 1, 0);
  }

  /** A Heartbeat: the reader moves up to the announced first number, stores the count, and asks for all
      it misses; the final flag says that this is nothing. */
  lemma HeartbeatAsks(r: ReaderState, source: GuidPrefix, writerId: EntityId, readerId: EntityId,
                      firstSN: SN, lastSN: SN, count: int, i: nat)
    requires Knows(r, Guid(source, writerId), i)
    ensures var r' := Received(r, source, Heartbeat(readerId, writerId, firstSN, lastSN, count));
            var e := if r.proxies[i].expectedSN < firstSN then firstSN else r.proxies[i].expectedSN;
            && OnlyProxyMoves(r, r', i, e) && r'.proxies[i].hbCount == count
            && AskedOnce(r, r', i, writerId, readerId, e, Min(Max(lastSN - e + 1, 0), 256), lastSN < e)
  {
    FirstIs(r.proxies, Guid(source, writerId), i);
    AsksForMissing(Max(r.proxies[i].expectedSN, firstSN), lastSN);
  }

  /** Data: the change is handed on, and the next one expected, exactly if it is the one that some proxy of
      its writer expects and there is someone to hand it to; nothing is ever sent in return. */
  lemma DataIsHandedOn(r: ReaderState, source: GuidPrefix, writerId: EntityId, readerId: EntityId,
                       sn: SN, data: Payload, i: nat)
    requires OneProxyForEach(r.proxies) && i < |r.proxies| && r.proxies[i].remoteWriterGuid == Guid(source, writerId)
    ensures var r' := Received(r, source, Data(readerId, writerId, sn, data));
            if r.initialized && r.callbackCount > 0 && r.proxies[i].expectedSN == sn then
              && r'.delivered == r.delivered + [Delivery(Guid(source, writerId), sn, data)] && r'.sent == r.sent
              && r' == r.(delivered := r'.delivered, proxies := r.proxies[i := r.proxies[i].(expectedSN := sn + 1)])
            else r' == r
  {
    var k := ExpectingIndex(r.proxies, Guid(source, writerId), sn);
    assert k < |r.proxies| ==> k == i;
    assert Expects(r.proxies[i], Guid(source, writerId), sn) <==> r.proxies[i].expectedSN == sn;
  }

  /** Messages of unknown writers, AckNacks, and anything before initialization change nothing. */
  lemma OthersAreIgnored(r: ReaderState, source: GuidPrefix, msg: Submessage)
    requires || !r.initialized || msg.AckNack?
             || forall i :: 0 <= i < |r.proxies| ==> r.proxies[i].remoteWriterGuid != Guid(source, msg.writerId)
    ensures Received(r, source, msg) == r
  {
    var writer := Guid(source, msg.writerId);
    if msg.Data? {
      var k := ExpectingIndex(r.proxies, writer, msg.writerSN);
      assert k < |r.proxies| ==> Expects(r.proxies[k], writer, msg.writerSN);
    }
  }

  // --- Counts ---

  /** The counts of the AckNacks that were sent are first, first + 1 and so on, up to the next one. */
  ghost predicate CountsFrom(r: ReaderState, first: int) {
    && |r.proxies| == 1 && r.proxies[0].ackNackCount == first + |r.sent|
    && forall k :: 0 <= k < |r.sent| ==> r.sent[k].sub.AckNack? && r.sent[k].sub.count == first + k
  }

  lemma ArrivalCounts(r: ReaderState, source: GuidPrefix, msg: Submessage, first: int)
    requires CountsFrom(r, first)
    ensures CountsFrom(Received(r, source, msg), first)
  {
    hide Missing, LeastOutside, FirstBits;
  }

  /** Whatever arrives, no two AckNacks to a writer carry the same count: each is one higher than the one
      before it. */
  lemma {:induction false} CountsRise(r: ReaderState, arrivals: seq<Arrival>, first: int)
    requires CountsFrom(r, first)
    ensures CountsFrom(ReceivedAll(r, arrivals), first)
    decreases |arrivals|
  {
    if arrivals != [] {
      ArrivalCounts(r, arrivals[0].source, arrivals[0].msg, first);
      CountsRise(Received(r, arrivals[0].source, arrivals[0].msg), arrivals[1..], first);
    }
  }
}
