/** The reliable writer: its history, its send cursor, its queue of delayed disposals and the
    packets it sends. */
module StatefulWriter {
  import opened RtpsTypes
  import opened Endpoints
  import opened Messages
  import opened History
  import opened WriterSpec
  import opened NackService
  import HistoryCacheWithDeletion
  import CircularBuffer
  import SendOptions

  // --- What is sent to whom ---

  function DataTo(p: ReaderProxy, writerId: EntityId, c: CacheChange): Packet {
    Packet(p.remoteLocator.address, p.remoteLocator.port,
           Data(p.remoteReaderGuid.entityId, writerId, c.sn, c.data))
  }

  /** sendDataWRMulticast, or sendData when unicast is enforced. */
  function DataPackets(p: ReaderProxy, enforceUnicast: bool, writerId: EntityId, c: CacheChange): seq<Packet> {
    if enforceUnicast then [DataTo(p, writerId, c)]
    else
      var to := SendOptions.DestinationOf(p);
      if to == None then []
      else
        var readerId := if p.useMulticast then ENTITYID_UNKNOWN else p.remoteReaderGuid.entityId;
        [Packet(to.value.address, to.value.port, Data(readerId, writerId, c.sn, c.data))]
  }

  /** One change, sent to each proxy in turn. */
  function DataRound(proxies: seq<ReaderProxy>, enforceUnicast: bool, writerId: EntityId, c: CacheChange): seq<Packet> {
    if proxies == [] then []
    else DataRound(proxies[..|proxies| - 1], enforceUnicast, writerId, c)
         + DataPackets(proxies[|proxies| - 1], enforceUnicast, writerId, c)
  }

  lemma OneMoreProxy(proxies: seq<ReaderProxy>, i: nat, enforceUnicast: bool, writerId: EntityId, c: CacheChange)
    requires i < |proxies|
    ensures DataRound(proxies[..i + 1], enforceUnicast, writerId, c)
            == DataRound(proxies[..i], enforceUnicast, writerId, c)
               + DataPackets(proxies[i], enforceUnicast, writerId, c)
  {
    assert proxies[..i + 1][..i] == proxies[..i];
  }

  /** A proxy that has confirmed everything, and does not want to hear of it again. */
  predicate Confirmed(p: ReaderProxy, lastSN: SN) {
    p.lastAckNackSequenceNumber > lastSN && p.finalFlag && p.ackNackCount > 0
  }

  function Beats(w: Core, p: ReaderProxy, writerId: EntityId, count: int): seq<Packet> {
    var r := Announced(w);
    if w.history != [] && Confirmed(p, r.lastSN) then []
    else [Packet(p.remoteLocator.address, p.remoteLocator.port,
                 Heartbeat(p.remoteReaderGuid.entityId, writerId, r.firstSN, r.lastSN, count))]
  }

  function BeatRound(w: Core, proxies: seq<ReaderProxy>, writerId: EntityId, count: int): seq<Packet> {
    if proxies == [] then []
    else BeatRound(w, proxies[..|proxies| - 1], writerId, count) + Beats(w, proxies[|proxies| - 1], writerId, count)
  }

  lemma OneMoreBeat(w: Core, proxies: seq<ReaderProxy>, i: nat, writerId: EntityId, count: int)
    requires i < |proxies|
    ensures BeatRound(w, proxies[..i + 1], writerId, count)
            == BeatRound(w, proxies[..i], writerId, count) + Beats(w, proxies[i], writerId, count)
  {
    assert proxies[..i + 1][..i] == proxies[..i];
  }

  function ReplyTo(p: ReaderProxy, writerId: EntityId, r: Reply): Packet {
    Packet(p.remoteLocator.address, p.remoteLocator.port,
           match r
           case SendData(sn, data) => Data(p.remoteReaderGuid.entityId, writerId, sn, data)
           case SendGap(firstMissing, nextValid) =>
             Gap(p.remoteReaderGuid.entityId, writerId, firstMissing, SequenceNumberSet(nextValid, 0, EMPTY_BITMAP)))
  }

  function RepliesTo(p: ReaderProxy, writerId: EntityId, replies: seq<Reply>): seq<Packet> {
    if replies == [] then []
    else RepliesTo(p, writerId, replies[..|replies| - 1]) + [ReplyTo(p, writerId, replies[|replies| - 1])]
  }

  lemma OneMoreReply(p: ReaderProxy, writerId: EntityId, replies: seq<Reply>, r: Reply)
    ensures RepliesTo(p, writerId, replies + [r]) == RepliesTo(p, writerId, replies) + [ReplyTo(p, writerId, r)]
    ensures RepliesTo(p, writerId, [r]) == [ReplyTo(p, writerId, r)]
  {
    assert (replies + [r])[..|replies|] == replies;
    assert RepliesTo(p, writerId, [r][..0]) == [];
  }

  /** The packets that answer an AckNack. */
  function Answers(w: Core, reader: ReaderProxy, set_: SequenceNumberSet, proxies: seq<ReaderProxy>,
                   writerId: EntityId, hbCount: int): seq<Packet>
  {
    match Responded(w, set_)
    case Beat => BeatRound(w, proxies, writerId, hbCount)
    case Replies(replies) => RepliesTo(reader, writerId, replies)
  }

  function ReaderIndex(proxies: seq<ReaderProxy>, reader: Guid): (i: nat)
    ensures i <= |proxies|
    ensures i < |proxies| ==> proxies[i].remoteReaderGuid == reader
    ensures forall j :: 0 <= j < i ==> proxies[j].remoteReaderGuid != reader
  {
    if proxies == [] || proxies[0].remoteReaderGuid == reader then 0
    else 1 + ReaderIndex(proxies[1..], reader)
  }

  function Acknowledged(p: ReaderProxy, set_: SequenceNumberSet, count: int, finalFlag: bool): ReaderProxy {
    p.(ackNackCount := count, finalFlag := finalFlag, lastAckNackSequenceNumber := set_.base)
  }

  class Writer {
    const history: HistoryCacheWithDeletion.Cache
    const disposeWithDelay: CircularBuffer.Fifo<SN>
    const entityId: EntityId
    const enforceUnicast: bool
    var initialized: bool
    var nextSequenceNumberToSend: SN
    var hbCount: int
    var proxies: seq<ReaderProxy>
    var sent: seq<Packet>
    var workRequests: nat      // calls of ThreadPool::addWorkload for this writer

    ghost predicate Valid()
      reads this, history, history.buffer, disposeWithDelay, disposeWithDelay.buffer
    {
      && history.Valid() && disposeWithDelay.Valid()
      && history.buffer as object != disposeWithDelay.buffer
      && WellFormed(State())
    }

    /** The part of the state that the protocol is about. */
    ghost function State(): Core
      reads this, history, disposeWithDelay
    {
      Core(history.size, history.contents, history.lastUsed, nextSequenceNumberToSend,
           disposeWithDelay.size, disposeWithDelay.contents)
    }

    constructor (entityId: EntityId, enforceUnicast: bool, capacity: nat, delayCapacity: nat)
      requires 1 <= capacity < 0x1_0000 && delayCapacity + 1 < 0xFFFF
      ensures Valid() && State() == Fresh(capacity, delayCapacity)
      ensures initialized && hbCount == 1 && proxies == [] && sent == []
    {
      this.entityId := entityId;
      this.enforceUnicast := enforceUnicast;
      history := new HistoryCacheWithDeletion.Cache(capacity);
      disposeWithDelay := new CircularBuffer.Fifo<SN>(delayCapacity);
      initialized, nextSequenceNumberToSend, hbCount := true, 1, 1;
      proxies, sent, workRequests := [], [], 0;
    }

    method NewChange(kind: ChangeKind, data: Payload, inLineQoS: bool, markDisposedAfterWrite: bool)
      returns (result: Option<CacheChange>)
      requires Valid()
      modifies this`nextSequenceNumberToSend, this`workRequests
      modifies history`head, history`tail, history`lastUsed, history`contents, history.buffer
      ensures Valid()
      ensures result.Some? <==> kind == ALIVE && old(initialized)
      ensures State() == if result.Some? then NewChanged(old(State()), data, inLineQoS, markDisposedAfterWrite)
                         else old(State())
      ensures result.Some? ==> result == Lookup(State().history, State().lastUsed)
      ensures workRequests == old(workRequests) + if result.Some? then 1 else 0
    {
      if kind != ALIVE || !initialized {
        return None;
      }
      var change := Append(data, inLineQoS, markDisposedAfterWrite);
      workRequests := workRequests + 1;
      return Some(change);
    }

    method Append(data: Payload, inLineQoS: bool, disposeAfterWrite: bool) returns (change: CacheChange)
      requires Valid()
      modifies this`nextSequenceNumberToSend
      modifies history`head, history`tail, history`lastUsed, history`contents, history.buffer
      ensures Valid() && State() == NewChanged(old(State()), data, inLineQoS, disposeAfterWrite)
      ensures Some(change) == Lookup(State().history, State().lastUsed)
    {
      NewChangeWellFormed(State(), data, inLineQoS, disposeAfterWrite);
      NewChangeLookup(State(), data, inLineQoS, disposeAfterWrite, history.lastUsed + 1);
      hide WellFormed, Lookup, NewChanged;
      change := StoreChange(data, inLineQoS, disposeAfterWrite);
    }

    method StoreChange(data: Payload, inLineQoS: bool, disposeAfterWrite: bool) returns (change: CacheChange)
      requires Valid()
      modifies this`nextSequenceNumberToSend
      modifies history`head, history`tail, history`lastUsed, history`contents, history.buffer
      ensures history.Valid() && disposeWithDelay.Valid()
      ensures State() == NewChanged(old(State()), data, inLineQoS, disposeAfterWrite)
      ensures State().lastUsed == old(State()).lastUsed + 1
      ensures change == CacheChange(ALIVE, inLineQoS, disposeAfterWrite, 0, State().lastUsed, Stored(data))
    {
      hide Newest, Increasing, AtMost, Stored;
      MakeRoom();
      change := history.AddChange(Stored(data), inLineQoS, disposeAfterWrite);
    }

    /** A full history is about to lose its oldest change; the cursor must not stay on that. */
    method MakeRoom()
      requires Valid()
      modifies this`nextSequenceNumberToSend
      ensures nextSequenceNumberToSend ==
              if |State().history| == State().capacity then Max(old(nextSequenceNumberToSend), MinSN(State()) + 1)
              else old(nextSequenceNumberToSend)
    {
      var full := history.IsFull();
      if full {
        var newMin := history.CurrentSeqNumMin();
        newMin := newMin + 1;
        if nextSequenceNumberToSend < newMin {
          nextSequenceNumberToSend := newMin;
        }
      }
    }

    method SendDataToAll(c: CacheChange)
      requires Valid()
      modifies this`sent
      ensures Valid() && State() == old(State())
      ensures sent == old(sent) + DataRound(proxies, enforceUnicast, entityId, c)
    {
      hide WellFormed, DataRound, DataPackets;
      assert DataRound(proxies[..0], enforceUnicast, entityId, c) == [] by { NoProxies(c); }
      for i := 0 to |proxies|
        invariant sent == old(sent) + DataRound(proxies[..i], enforceUnicast, entityId, c)
      {
        OneMoreProxy(proxies, i, enforceUnicast, entityId, c);
        SendDataTo(proxies[i], c);
      }
      assert proxies[..|proxies|] == proxies;
    }

    lemma NoProxies(c: CacheChange)
      ensures DataRound(proxies[..0], enforceUnicast, entityId, c) == []
      ensures BeatRound(State(), proxies[..0], entityId, hbCount) == []
    {
    }

    /** sendDataWRMulticast or sendData */
    method SendDataTo(p: ReaderProxy, c: CacheChange)
      modifies this`sent
      ensures sent == old(sent) + DataPackets(p, enforceUnicast, entityId, c)
    {
      if !enforceUnicast {
        if p.useMulticast || !p.suppressUnicast {
          var locator := if p.useMulticast then p.remoteMulticastLocator else p.remoteLocator;
          var readerId := if p.useMulticast then ENTITYID_UNKNOWN else p.remoteReaderGuid.entityId;
          sent := sent + [Packet(locator.address, locator.port, Data(readerId, entityId, c.sn, c.data))];
        }
      } else {
        sent := sent + [DataTo(p, entityId, c)];
      }
    }

    method Progress(tick: nat)
      requires Valid()
      modifies this`nextSequenceNumberToSend, this`sent, this`hbCount
      modifies history`tail, history`contents, history.buffer
      modifies disposeWithDelay, disposeWithDelay.buffer
      ensures Valid() && State() == Progressed(old(State()), tick)
      ensures Lookup(old(State()).history, old(State()).next) == None ==> sent == old(sent)
      ensures var found := Lookup(old(State()).history, old(State()).next);
              found.Some? ==> sent == old(sent) + DataRound(proxies, enforceUnicast, entityId, found.value)
                                      + Heartbeats(State(), old(hbCount))
      ensures hbCount == if Live(old(State()).history, old(State()).next) then Counted(old(hbCount)) else old(hbCount)
    {
      var found := history.Find(nextSequenceNumberToSend);
      if found.Some? {
        SendNext(found.value, tick);
        SendHeartBeat();
      }
    }

    /** The change at the cursor goes to all proxies, and the cursor moves on. */
    method SendNext(next: CacheChange, tick: nat)
      requires Valid() && Lookup(State().history, State().next) == Some(next)
      modifies this`nextSequenceNumberToSend, this`sent
      modifies history`tail, history`contents, history.buffer
      modifies disposeWithDelay, disposeWithDelay.buffer
      ensures Valid() && State() == Progressed(old(State()), tick)
      ensures sent == old(sent) + DataRound(proxies, enforceUnicast, entityId, next)
    {
      SendDataToAll(next);
      MoveOn(next, tick);
    }

    /** The change at the cursor has been sent. */
    method MoveOn(next: CacheChange, tick: nat)
      requires Valid() && Lookup(State().history, State().next) == Some(next)
      modifies this`nextSequenceNumberToSend
      modifies history`tail, history`contents, history.buffer
      modifies disposeWithDelay, disposeWithDelay.buffer
      ensures Valid() && State() == Progressed(old(State()), tick)
    {
      ProgressWellFormed(State(), tick);
      if next.disposeAfterWrite {
        ScheduleDisposal(next.sn, tick);
      }
      nextSequenceNumberToSend := nextSequenceNumberToSend + 1;
    }

    /** A sent change that is to be disposed of is kept a while, or dropped if the queue is full. */
    method ScheduleDisposal(sn: SN, tick: nat)
      requires Valid() && Live(State().history, sn)
      modifies history`tail, history`contents, history.buffer
      modifies disposeWithDelay, disposeWithDelay.buffer
      ensures history.Valid() && disposeWithDelay.Valid()
      ensures var w, stamped := old(State()), Stamped(old(State()).history, sn, tick);
              State() == if |w.delay| < w.delayCapacity then w.(history := stamped, delay := w.delay + [sn])
                         else w.(history := Without(stamped, sn))
    {
      history.Stamp(sn, tick);
      var queued := disposeWithDelay.Insert(sn);
      if !queued {
        var dropped := history.DropChange(sn);
      }
    }

    method SendHeartBeat()
      requires Valid()
      modifies this`sent, this`hbCount
      ensures Valid() && State() == old(State())
      ensures sent == old(sent) + Heartbeats(State(), old(hbCount))
      ensures hbCount == Counted(old(hbCount))
    {
      if proxies == [] || !initialized {
        return;
      }
      hide WellFormed, BeatRound, Beats;
      assert BeatRound(State(), proxies[..0], entityId, hbCount) == [] by { NoProxies(EMPTY_CHANGE); }
      for i := 0 to |proxies|
        invariant hbCount == old(hbCount) && sent == old(sent) + BeatRound(State(), proxies[..i], entityId, hbCount)
      {
        OneMoreBeat(State(), proxies, i, entityId, hbCount);
        SendHeartBeatTo(proxies[i]);
      }
      assert proxies[..|proxies|] == proxies;
      hbCount := hbCount + 1;
    }

    /** The body of the loop. */
    method SendHeartBeatTo(p: ReaderProxy)
      requires history.Valid() && disposeWithDelay.Valid()
      modifies this`sent
      ensures sent == old(sent) + Beats(State(), p, entityId, hbCount)
    {
      hide Announced;
      var firstSN, lastSN := Announce();
      var empty := history.IsEmpty();
      if !empty && p.lastAckNackSequenceNumber > lastSN && p.finalFlag && p.ackNackCount > 0 {
        return;
      }
      sent := sent + [Packet(p.remoteLocator.address, p.remoteLocator.port,
                             Heartbeat(p.remoteReaderGuid.entityId, entityId, firstSN, lastSN, hbCount))];
    }

    ghost function Heartbeats(w: Core, count: int): seq<Packet>
      reads this
    {
      if initialized then BeatRound(w, proxies, entityId, count) else []
    }

    /** The heartbeat count after a round of heartbeats. */
    ghost function Counted(count: int): int
      reads this
    {
      if proxies == [] || !initialized then count else count + 1
    }

    /** The range that a heartbeat carries. */
    method Announce() returns (firstSN: SN, lastSN: SN)
      requires history.Valid() && disposeWithDelay.Valid()
      ensures Range(firstSN, lastSN) == Announced(State())
    {
      var empty := history.IsEmpty();
      if !empty {
        firstSN := history.CurrentSeqNumMin();
        lastSN := history.CurrentSeqNumMax();
        if lastSN > nextSequenceNumberToSend || lastSN == nextSequenceNumberToSend {
          lastSN := nextSequenceNumberToSend - 1;
        }
      } else if history.lastUsed == 0 {
        firstSN, lastSN := 1, 0;
      } else {
        firstSN, lastSN := 1, history.lastUsed;
      }
    }

    method SendReply(p: ReaderProxy, r: Reply)
      requires Valid()
      modifies this`sent
      ensures Valid() && State() == old(State())
      ensures sent == old(sent) + [ReplyTo(p, entityId, r)]
    {
      sent := sent + [ReplyTo(p, entityId, r)];
    }

    method FindReader(reader: Guid) returns (i: nat)
      ensures i == ReaderIndex(proxies, reader)
    {
      i := 0;
      while i < |proxies|
        invariant i <= |proxies| && forall j :: 0 <= j < i ==> proxies[j].remoteReaderGuid != reader
      {
        if proxies[i].remoteReaderGuid == reader {
          return;
        }
        i := i + 1;
      }
    }

    method OnNewAckNack(source: GuidPrefix, readerId: EntityId, set_: SequenceNumberSet, count: int, finalFlag: bool)
      requires Valid()
      modifies this`proxies, this`sent, this`hbCount
      ensures Valid() && State() == old(State())
      ensures var i := ReaderIndex(old(proxies), Guid(source, readerId));
              if !initialized || i == |old(proxies)| then
                proxies == old(proxies) && sent == old(sent) && hbCount == old(hbCount)
              else
                && proxies == old(proxies)[i := Acknowledged(old(proxies)[i], set_, count, finalFlag)]
                && proxies[i].lastAckNackSequenceNumber == set_.base
                && proxies[i].ackNackCount == count && proxies[i].finalFlag == finalFlag
                && sent == old(sent) + Answers(State(), proxies[i], set_, proxies, entityId, old(hbCount))
                && hbCount == if Responded(State(), set_).Beat? then Counted(old(hbCount)) else old(hbCount)
    {
      if !initialized {
        return;
      }
      var i := FindReader(Guid(source, readerId));
      if i == |proxies| {
        return;
      }
      proxies := proxies[i := proxies[i].(ackNackCount := count, finalFlag := finalFlag,
                                          lastAckNackSequenceNumber := set_.base)];
      Answer(proxies[i], set_);
    }

    method Answer(reader: ReaderProxy, set_: SequenceNumberSet)
      requires Valid() && initialized
      modifies this`sent, this`hbCount
      ensures Valid() && State() == old(State())
      ensures sent == old(sent) + Answers(State(), reader, set_, proxies, entityId, old(hbCount))
      ensures hbCount == if Responded(State(), set_).Beat? then Counted(old(hbCount)) else old(hbCount)
    {
      hide WellFormed, Serve, RepliesTo, BeatRound, Resume;
      OneMoreReply(reader, entityId, [], SendGap(set_.base, history.lastUsed + 1));
      OneMoreReply(reader, entityId, [], SendGap(set_.base, MinSN(State())));
      // Preemptive ack nack
      if set_.base == 0 {
        SendHeartBeat();
        return;
      }
      var empty := history.IsEmpty();
      if empty {
        if history.lastUsed == 0 {
          SendHeartBeat();
        } else {
          SendReply(reader, SendGap(set_.base, history.lastUsed + 1));
        }
        return;
      }
      var minSN := history.CurrentSeqNumMin();
      if set_.base < minSN {
        SendReply(reader, SendGap(set_.base, minSN));
        return;
      }
      ServeRequest(reader, set_);
    }

    /** The loop over the requested bits. */
    method ServeRequest(reader: ReaderProxy, set_: SequenceNumberSet)
      requires Valid()
      modifies this`sent
      ensures Valid() && State() == old(State())
      ensures sent == old(sent) + RepliesTo(reader, entityId, Serve(State().history, State().lastUsed, set_, 0))
    {
      hide WellFormed, Resume, Step, Serve, RepliesTo;
      ghost var w := State();
      var i, nextSN := 0, set_.base;
      while i < set_.numBits && nextSN <= history.lastUsed
        invariant 0 <= i && nextSN == set_.base + i && Valid() && State() == w
        invariant sent + RepliesTo(reader, entityId, Serve(w.history, w.lastUsed, set_, i))
                  == old(sent) + RepliesTo(reader, entityId, Serve(w.history, w.lastUsed, set_, 0))
        decreases w.lastUsed + 1 - nextSN
      {
        RepliesUnfold(reader, entityId, w, set_, i, sent);
        i := ServeOne(reader, set_, i);
        nextSN := set_.base + i;
      }
      NothingMore(reader, entityId, w, set_, i);
    }

    /** The body of the loop. */
    method ServeOne(reader: ReaderProxy, set_: SequenceNumberSet, bit: nat) returns (i: nat)
      requires Valid() && bit < set_.numBits && set_.base + bit <= State().lastUsed
      modifies this`sent
      ensures Valid() && State() == old(State())
      ensures i == Resume(State().history, State().lastUsed, set_, bit) - set_.base
      ensures sent == old(sent) + RepliesTo(reader, entityId, Step(State().history, State().lastUsed, set_, bit))
    {
      hide WellFormed;
      if set_.IsSet(bit) {
        OneMoreReply(reader, entityId, [], Step(State().history, State().lastUsed, set_, bit)[0]);
        i := ServeBit(reader, set_, bit);
      } else {
        i := bit + 1;
      }
    }

    /** The body of the loop for a requested bit: Data for a live number; for a dead one, both
        loop variables move on to just before the next live change, and then over it. */
    method ServeBit(reader: ReaderProxy, set_: SequenceNumberSet, bit: nat) returns (i: nat)
      requires Valid() && set_.base + bit <= State().lastUsed && set_.IsSet(bit)
      modifies this`sent
      ensures Valid() && State() == old(State())
      ensures i == Resume(State().history, State().lastUsed, set_, bit) - set_.base
      ensures sent == old(sent) + [ReplyTo(reader, entityId, Step(State().history, State().lastUsed, set_, bit)[0])]
    {
      hide WellFormed;
      i := bit;
      var nextSN := set_.base + i;
      var cache := history.Find(nextSN);
      if cache.Some? {
        SendReply(reader, SendData(nextSN, cache.value.data));
      } else {
        var j, found := 0, false;
        nextSN, j, found := SkipDead(reader, nextSN, i);
        if !found {
          return j;
        }
        nextSN := nextSN - 1;
        j := j - 1;
        i := j;
      }
      i, nextSN := i + 1, nextSN + 1;
    }

    /** The inner loop: looks for the next live change and sends a Gap up to it. */
    method SkipDead(reader: ReaderProxy, gapBegin: SN, i: nat) returns (nextSN: SN, j: nat, found: bool)
      requires Valid() && gapBegin <= State().lastUsed
      modifies this`sent
      ensures nextSN == NextLive(State().history, gapBegin + 1, State().lastUsed)
      ensures j == i + (nextSN - gapBegin) && (found <==> nextSN <= State().lastUsed)
      ensures sent == old(sent) + [ReplyTo(reader, entityId, SendGap(gapBegin, nextSN))]
      ensures Valid() && State() == old(State())
    {
      ghost var h, last := State().history, State().lastUsed;
      var nextValidChange: Option<CacheChange> := None;
      nextSN, j := gapBegin + 1, i + 1;
      while nextSN <= history.lastUsed
        invariant gapBegin < nextSN <= last + 1 && j == i + (nextSN - gapBegin) && nextValidChange == None
        invariant sent == old(sent) && Valid() && State() == old(State())
        invariant forall k :: gapBegin < k < nextSN ==> !Live(h, k)
      {
        nextValidChange := history.Find(nextSN);
        if nextValidChange.Some? {
          break;
        }
        nextSN, j := nextSN + 1, j + 1;
      }
      NextLiveIs(h, gapBegin + 1, last, nextSN);
      found := nextValidChange.Some?;
      if found {
        nextSN := nextValidChange.value.sn;
      }
      SendReply(reader, SendGap(gapBegin, nextSN));
    }

    method RemoveFromHistory(sn: SN) returns (removed: bool)
      requires Valid()
      modifies history`tail, history`contents, history.buffer
      ensures Valid() && State() == Removed(old(State()), sn)
      ensures removed <==> Live(old(State()).history, sn)
    {
      RemovalWellFormed(State(), sn);
      removed := history.DropChange(sn);
    }

    /** Unlike the other operations, this one does not hold the writer's lock in the original. */
    method DropDisposeAfterWriteChanges(now: nat, retention: nat)
      requires Valid()
      modifies history`tail, history`contents, history.buffer
      modifies disposeWithDelay`tail, disposeWithDelay`numElements, disposeWithDelay`contents
      ensures Valid() && State() == Swept(old(State()), now, retention)
    {
      hide WellFormed, Stale, Expired;
      ghost var was := State();
      var present, oldestRetained := disposeWithDelay.PeakFirst(0);
      while present
        invariant Valid() && (present <==> State().delay != [])
        invariant present ==> oldestRetained == State().delay[0]
        invariant Swept(State(), now, retention) == Swept(was, now, retention)
        decreases |State().delay|
      {
        var goOn := SweepOnce(oldestRetained, now, retention);
        if !goOn {
          return;
        }
        present, oldestRetained := disposeWithDelay.PeakFirst(oldestRetained);
      }
    }

    /** The body of the loop. */
    method SweepOnce(oldestRetained: SN, now: nat, retention: nat) returns (goOn: bool)
      requires Valid() && State().delay != [] && oldestRetained == State().delay[0]
      modifies history`tail, history`contents, history.buffer
      modifies disposeWithDelay`tail, disposeWithDelay`numElements, disposeWithDelay`contents
      ensures Valid() && (goOn <==> Expired(old(State()), now, retention)) && (goOn ==> !Stale(old(State())))
      ensures State() == if goOn then Dequeued(Removed(old(State()), oldestRetained))
                         else if Stale(old(State())) then Dequeued(old(State()))
                         else old(State())
    {
      var change := history.Find(oldestRetained);
      if change == None || !change.value.disposeAfterWrite {
        Dequeue(oldestRetained);
        return false;
      }
      var age := Age(now, change.value.sentTickCount);
      goOn := age > retention;
      if goOn {
        var dropped := RemoveFromHistory(change.value.sn);
        Dequeue(0);
      }
    }

    method Dequeue(hull: SN)
      requires Valid() && State().delay != []
      modifies disposeWithDelay`tail, disposeWithDelay`numElements, disposeWithDelay`contents
      ensures Valid() && State() == Dequeued(old(State()))
    {
      var moved, first := disposeWithDelay.MoveFirstInto(hull);
    }
  }

  lemma {:induction false} RepliesJoin(p: ReaderProxy, writerId: EntityId, a: seq<Reply>, b: seq<Reply>)
    ensures RepliesTo(p, writerId, a + b) == RepliesTo(p, writerId, a) + RepliesTo(p, writerId, b)
  {
    if b == [] {
      assert a + b == a;
    } else {
      assert (a + b)[..|a + b| - 1] == a + b[..|b| - 1];
      RepliesJoin(p, writerId, a, b[..|b| - 1]);
    }
  }

  /** What is sent for bit i comes before what is sent for the rest. */
  lemma RepliesUnfold(p: ReaderProxy, writerId: EntityId, w: Core, set_: SequenceNumberSet, i: nat, sent: seq<Packet>)
    requires i < set_.numBits && set_.base + i <= w.lastUsed
    ensures sent + RepliesTo(p, writerId, Serve(w.history, w.lastUsed, set_, i))
            == (sent + RepliesTo(p, writerId, Step(w.history, w.lastUsed, set_, i)))
               + RepliesTo(p, writerId, Serve(w.history, w.lastUsed, set_,
                                              Resume(w.history, w.lastUsed, set_, i) - set_.base))
  {
    hide Serve, Step, Resume, RepliesTo;
    ServeUnfolds(w.history, w.lastUsed, set_, i);
    RepliesJoin(p, writerId, Step(w.history, w.lastUsed, set_, i),
                Serve(w.history, w.lastUsed, set_, Resume(w.history, w.lastUsed, set_, i) - set_.base));
  }

  lemma NothingMore(p: ReaderProxy, writerId: EntityId, w: Core, set_: SequenceNumberSet, i: nat)
    requires i >= set_.numBits || set_.base + i > w.lastUsed
    ensures RepliesTo(p, writerId, Serve(w.history, w.lastUsed, set_, i)) == []
  {
  }

  lemma {:induction false} NextLiveIs(h: seq<CacheChange>, sn: SN, last: SN, n: SN)
    requires sn <= n <= last + 1 && (n <= last ==> Live(h, n))
    requires forall k :: sn <= k < n ==> !Live(h, k)
    ensures NextLive(h, sn, last) == n
  {
    var m := NextLive(h, sn, last);
    assert !(m < n) && !(n < m);
  }
}
