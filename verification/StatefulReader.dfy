/** The reliable reader with its stored proxies. */
module StatefulReader {
  import opened RtpsTypes
  import opened Endpoints
  import opened Messages
  import opened ReaderSpec

  /** getMissing. For the 33rd number on, the shift count is out of range, which C++ leaves
      undefined; word 0 has all bits set by then, and or-ing any word into it changes nothing. */
  method GetMissing(expected: SN, lastAvail: SN) returns (missing: SequenceNumberSet)
    ensures missing == Missing(expected, lastAvail)
  {
    hide OrBit;
    if lastAvail < expected {
      return SequenceNumberSet(expected, 0, EMPTY_BITMAP);
    }
    var word: uint32, numBits: nat := 0, 0;
    var i, bit := expected, 0;
    while i <= lastAvail && bit < SNS_MAX_NUM_BITS
      invariant 0 <= bit <= SNS_MAX_NUM_BITS && i == expected + bit <= lastAvail + 1
      invariant numBits == bit && word == FirstOnes(Min(bit, 32))
      decreases SNS_MAX_NUM_BITS - bit
    {
      if bit < 32 {
        word := OrBit(word, 31 - bit);
      }
      numBits := numBits + 1;
      i, bit := i + 1, bit + 1;
    }
    return SequenceNumberSet(expected, numBits, EMPTY_BITMAP[0 := word]);
  }

  class Reader {
    var initialized: bool
    var callbackCount: nat
    var proxies: seq<WriterProxy>
    var delivered: seq<Delivery>
    var sent: seq<Packet>

    constructor ()
      ensures State() == ReaderState(true, 0, [], [], [])
    {
      initialized, callbackCount, proxies, delivered, sent := true, 0, [], [], [];
    }

    ghost function State(): ReaderState
      reads this
    {
      ReaderState(initialized, callbackCount, proxies, delivered, sent)
    }

    method NewChange(writer: Guid, sn: SN, data: Payload)
      modifies this
      ensures State() == OnData(old(State()), writer, sn, data)
    {
      if callbackCount == 0 || !initialized {
        return;
      }
      for i := 0 to |proxies|
        invariant State() == old(State())
        invariant forall j :: 0 <= j < i ==> !Expects(proxies[j], writer, sn)
      {
        if proxies[i].remoteWriterGuid == writer {
          if proxies[i].expectedSN == sn {
            delivered := delivered + [Delivery(writer, sn, data)];
            proxies := proxies[i := proxies[i].(expectedSN := proxies[i].expectedSN + 1)];
            return;
          }
        }
      }
    }

    method GetProxy(writer: Guid) returns (i: nat)
      ensures i == ProxyIndex(proxies, writer)
    {
      i := 0;
      while i < |proxies|
        invariant i <= |proxies| && forall j :: 0 <= j < i ==> proxies[j].remoteWriterGuid != writer
      {
        if proxies[i].remoteWriterGuid == writer {
          return;
        }
        i := i + 1;
      }
    }

    method NextAckNackCount(i: nat) returns (count: int)
      requires i < |proxies|
      modifies this`proxies
      ensures count == old(proxies)[i].ackNackCount
      ensures proxies == old(proxies)[i := old(proxies)[i].(ackNackCount := count + 1)]
    {
      count := proxies[i].ackNackCount;
      proxies := proxies[i := proxies[i].(ackNackCount := count + 1)];
    }

    method SendAckNack(i: nat, writerId: EntityId, readerId: EntityId, missing: SequenceNumberSet, finalFlag: bool)
      requires i < |proxies|
      modifies this`proxies, this`sent
      ensures var p := old(proxies)[i];
              && proxies == old(proxies)[i := p.(ackNackCount := p.ackNackCount + 1)]
              && sent == old(sent) + Answer(p, writerId, readerId, Some(Request(missing, p.ackNackCount, finalFlag)))
    {
      var locator := proxies[i].remoteLocator;
      var count := NextAckNackCount(i);
      sent := sent + [Packet(locator.address, locator.port, AckNack(readerId, writerId, missing, count, finalFlag))];
    }

    method SetExpected(i: nat, sn: SN)
      requires i < |proxies|
      modifies this`proxies
      ensures proxies == old(proxies)[i := old(proxies)[i].(expectedSN := sn)]
    {
      proxies := proxies[i := proxies[i].(expectedSN := sn)];
    }

    /** Case 2: the expected number lies before the base of the list. */
    method SkipToBase(i: nat, gapStart: SN, gapList: SequenceNumberSet)
      requires i < |proxies| && gapStart <= proxies[i].expectedSN < gapList.base
      modifies this`proxies
      ensures proxies == old(proxies)[i := old(proxies)[i].(
                expectedSN := LeastOutside(old(proxies)[i].expectedSN, gapStart, gapList))]
    {
      ghost var was := proxies[i];
      SetExpected(i, gapList.base);
      var bit := 0;
      while bit < SNS_MAX_NUM_BITS
        invariant 0 <= bit <= SNS_MAX_NUM_BITS
        invariant proxies == old(proxies)[i := was.(expectedSN := gapList.base + bit)]
        invariant forall k :: was.expectedSN <= k < gapList.base + bit ==> Skipped(k, gapStart, gapList)
      {
        if !gapList.IsSet(bit) {
          break;
        }
        SetExpected(i, proxies[i].expectedSN + 1);
        bit := bit + 1;
      }
      LeastIs(was.expectedSN, gapStart, gapList, gapList.base + bit);
    }

    /** Case 3: the expected number lies at or beyond the base of the list. */
    method SkipWithinList(i: nat, gapStart: SN, gapList: SequenceNumberSet) returns (stopped: bool)
      requires i < |proxies| && gapStart <= proxies[i].expectedSN && gapList.base <= proxies[i].expectedSN
      modifies this`proxies
      ensures var e := LeastOutside(old(proxies)[i].expectedSN, gapStart, gapList);
              && proxies == old(proxies)[i := old(proxies)[i].(expectedSN := e)]
              && (stopped <==> e < gapList.base + SNS_MAX_NUM_BITS)
    {
      ghost var was := proxies[i];
      var sn, bit := gapList.base, 0;
      while bit < SNS_MAX_NUM_BITS
        invariant 0 <= bit <= SNS_MAX_NUM_BITS && sn == gapList.base + bit
        invariant proxies == old(proxies)[i := was.(expectedSN := Max(was.expectedSN, sn))]
        invariant forall k :: was.expectedSN <= k < sn ==> Skipped(k, gapStart, gapList)
      {
        if sn >= proxies[i].expectedSN {
          if gapList.IsSet(bit) {
            SetExpected(i, proxies[i].expectedSN + 1);
          } else {
            LeastIs(was.expectedSN, gapStart, gapList, sn);
            return true;
          }
        }
        sn, bit := sn + 1, bit + 1;
      }
      LeastIs(was.expectedSN, gapStart, gapList, proxies[i].expectedSN);
      return false;
    }

    method OnNewGapMessage(source: GuidPrefix, writerId: EntityId, readerId: EntityId,
                           gapStart: SN, gapList: SequenceNumberSet) returns (handled: bool)
      modifies this
      ensures State() == Received(old(State()), source, Gap(readerId, writerId, gapStart, gapList))
      ensures var i := ProxyIndex(old(proxies), Guid(source, writerId));
              handled <==> old(initialized) && i < |old(proxies)| && OnGap(old(proxies)[i], gapStart, gapList).handled
    {
      if !initialized {
        return false;
      }
      var i := GetProxy(Guid(source, writerId));
      if i == |proxies| {
        return false;
      }
      handled := HandleGap(i, writerId, readerId, gapStart, gapList);
    }

    method HandleGap(i: nat, writerId: EntityId, readerId: EntityId, gapStart: SN, gapList: SequenceNumberSet)
      returns (handled: bool)
      requires i < |proxies|
      modifies this`proxies, this`sent
      ensures State() == Reacted(old(State()), i, OnGap(old(proxies)[i], gapStart, gapList), writerId, readerId)
      ensures handled == OnGap(old(proxies)[i], gapStart, gapList).handled
    {
      hide LeastOutside, Missing, FirstBits;
      if proxies[i].expectedSN < gapStart {
        var missing := GetMissing(proxies[i].expectedSN, gapStart - 1);
        SendAckNack(i, writerId, readerId, missing, false);
        return true;
      }
      if proxies[i].expectedSN < gapList.base {
        SkipToBase(i, gapStart, gapList);
        return true;
      }
      var stopped := SkipWithinList(i, gapStart, gapList);
      if stopped {
        RequestNext(i, writerId, readerId);
      }
      return stopped;
    }

    /** Asks for the one number that is expected. */
    method RequestNext(i: nat, writerId: EntityId, readerId: EntityId)
      requires i < |proxies|
      modifies this`proxies, this`sent
      ensures var p := old(proxies)[i];
              && proxies == old(proxies)[i := p.(ackNackCount := p.ackNackCount + 1)]
              && sent == old(sent) + Answer(p, writerId, readerId, Some(Request(
                           SequenceNumberSet(p.expectedSN, 1, FirstBits(1)), p.ackNackCount, false)))
    {
      assert FirstOnes(1) == OrBit(FirstOnes(0), 31);
      hide FirstOnes, OrBit;
      var one := SequenceNumberSet(proxies[i].expectedSN, 1, EMPTY_BITMAP[0 := OrBit(0, 31)]);
      SendAckNack(i, writerId, readerId, one, false);
    }

    method OnNewHeartbeat(source: GuidPrefix, writerId: EntityId, readerId: EntityId,
                          firstSN: SN, lastSN: SN, count: int) returns (handled: bool)
      modifies this
      ensures State() == Received(old(State()), source, Heartbeat(readerId, writerId, firstSN, lastSN, count))
      ensures handled <==> old(initialized) && ProxyIndex(old(proxies), Guid(source, writerId)) < |old(proxies)|
    {
      if !initialized {
        return false;
      }
      var i := GetProxy(Guid(source, writerId));
      if i == |proxies| {
        return false;
      }
      HandleHeartbeat(i, writerId, readerId, firstSN, lastSN, count);
      return true;
    }

    method HandleHeartbeat(i: nat, writerId: EntityId, readerId: EntityId, firstSN: SN, lastSN: SN, count: int)
      requires i < |proxies|
      modifies this`proxies, this`sent
      ensures var reaction := OnHeartbeat(old(proxies)[i], firstSN, lastSN, count);
              State() == Reacted(old(State()), i, reaction, writerId, readerId)
    {
      hide FirstOnes;
      ghost var was := proxies[i];
      if proxies[i].expectedSN < firstSN {
        SetExpected(i, firstSN);
      }
      proxies := proxies[i := proxies[i].(hbCount := count)];
      assert proxies[i] == was.(expectedSN := Max(was.expectedSN, firstSN), hbCount := count);
      var missing := GetMissing(proxies[i].expectedSN, lastSN);
      SendAckNack(i, writerId, readerId, missing, missing.numBits == 0);
    }
  }

  lemma {:induction false} LeastIs(n: SN, gapStart: SN, gapList: SequenceNumberSet, r: SN)
    requires n <= r && !Skipped(r, gapStart, gapList)
    requires forall k :: n <= k < r ==> Skipped(k, gapStart, gapList)
    ensures LeastOutside(n, gapStart, gapList) == r
  {
    var least := LeastOutside(n, gapStart, gapList);
    assert !(r < least) && !(least < r);
  }
}
