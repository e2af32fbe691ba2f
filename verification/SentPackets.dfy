/** Which packets a writer sends, said of each packet and each matched reader. */
module SentPackets {
  import opened RtpsTypes
  import opened Endpoints
  import opened Messages
  import opened History
  import opened WriterSpec
  import opened NackService
  import opened StatefulWriter
  import SendOptions

  // --- Data ---

  /** The change as it goes to one reader's own address. */
  predicate IsUnicast(q: Packet, p: ReaderProxy, writerId: EntityId, c: CacheChange) {
    && q.address == p.remoteLocator.address && q.port == p.remoteLocator.port
    && q.sub.Data? && q.sub.readerId == p.remoteReaderGuid.entityId
    && q.sub.writerId == writerId && q.sub.writerSN == c.sn && q.sub.payload == c.data
  }

  /** The change as it goes to the reader's multicast address, for no reader in particular. */
  predicate IsMulticast(q: Packet, p: ReaderProxy, writerId: EntityId, c: CacheChange) {
    && q.address == p.remoteMulticastLocator.address && q.port == p.remoteMulticastLocator.port
    && q.sub.Data? && q.sub.readerId == ENTITYID_UNKNOWN
    && q.sub.writerId == writerId && q.sub.writerSN == c.sn && q.sub.payload == c.data
  }

  /** What the send options ask for. */
  ghost predicate Due(q: Packet, p: ReaderProxy, enforceUnicast: bool, writerId: EntityId, c: CacheChange) {
    if !enforceUnicast && p.useMulticast then IsMulticast(q, p, writerId, c)
    else (enforceUnicast || !p.suppressUnicast) && IsUnicast(q, p, writerId, c)
  }

  predicate IsSentTo(p: ReaderProxy, enforceUnicast: bool) {
    enforceUnicast || p.useMulticast || !p.suppressUnicast
  }

  /** How many of the proxies are sent to. */
  function SentTo(proxies: seq<ReaderProxy>, enforceUnicast: bool): nat {
    if proxies == [] then 0
    else SentTo(proxies[..|proxies| - 1], enforceUnicast)
         + if IsSentTo(proxies[|proxies| - 1], enforceUnicast) then 1 else 0
  }

  /** A round of Data has one packet for each proxy that is sent to, in the order of the proxies, with
      the change's number and payload, and no other packet. */
  lemma {:induction false} DataGoesOut(proxies: seq<ReaderProxy>, enforceUnicast: bool, writerId: EntityId,
                                       c: CacheChange, i: nat)
    requires i < |proxies| && IsSentTo(proxies[i], enforceUnicast)
    ensures var k, packets := SentTo(proxies[..i], enforceUnicast), DataRound(proxies, enforceUnicast, writerId, c);
            k < |packets| && Due(packets[k], proxies[i], enforceUnicast, writerId, c)
  {
    var n := |proxies| - 1;
    DataIsCounted(proxies[..n], enforceUnicast, writerId, c);
    if i == n {
      assert proxies[..i] == proxies[..n];
    } else {
      assert proxies[..n][..i] == proxies[..i];
      DataGoesOut(proxies[..n], enforceUnicast, writerId, c, i);
    }
  }

  lemma {:induction false} DataIsCounted(proxies: seq<ReaderProxy>, enforceUnicast: bool, writerId: EntityId,
                                         c: CacheChange)
    ensures |DataRound(proxies, enforceUnicast, writerId, c)| == SentTo(proxies, enforceUnicast)
  {
    if proxies != [] {
      DataIsCounted(proxies[..|proxies| - 1], enforceUnicast, writerId, c);
    }
  }

  lemma {:induction false} NothingElseGoesOut(proxies: seq<ReaderProxy>, enforceUnicast: bool, writerId: EntityId,
                                              c: CacheChange, k: nat) returns (i: nat)
    requires k < |DataRound(proxies, enforceUnicast, writerId, c)|
    ensures i < |proxies| && IsSentTo(proxies[i], enforceUnicast)
    ensures Due(DataRound(proxies, enforceUnicast, writerId, c)[k], proxies[i], enforceUnicast, writerId, c)
  {
    var n := |proxies| - 1;
    if k < |DataRound(proxies[..n], enforceUnicast, writerId, c)| {
      i := NothingElseGoesOut(proxies[..n], enforceUnicast, writerId, c, k);
    } else {
      i := n;
    }
  }

  /** Some packet is for the reader: addressed to it, or to its multicast address. */
  ghost predicate Gets(packets: seq<Packet>, p: ReaderProxy, writerId: EntityId, c: CacheChange) {
    exists k :: 0 <= k < |packets| && (IsUnicast(packets[k], p, writerId, c) || IsMulticast(packets[k], p, writerId, c))
  }

  /** Enforced unicast brings every change to every matched reader. */
  lemma UnicastReachesAll(proxies: seq<ReaderProxy>, writerId: EntityId, c: CacheChange, i: nat)
    requires i < |proxies|
    ensures Gets(DataRound(proxies, true, writerId, c), proxies[i], writerId, c)
  {
    DataGoesOut(proxies, true, writerId, c, i);
  }

  /** In every state that matching and removing readers can lead to, some packet of a round goes to the
      reader's own address with its own id, or to its multicast address with no id. */
  lemma EveryReaderIsServed(changes: seq<SendOptions.Change>, capacity: nat, writerId: EntityId, c: CacheChange, i: nat)
    requires i < |SendOptions.Run(changes, capacity, false)|
    ensures var ps := SendOptions.Run(changes, capacity, false);
            exists k :: 0 <= k < |DataRound(ps, false, writerId, c)|
                        && ServesAddress(DataRound(ps, false, writerId, c)[k], ps[i], writerId, c)
  {
    var ps := SendOptions.Run(changes, capacity, false);
    SendOptions.EveryReaderIsCovered(changes, capacity, false);
    assert SendOptions.ConsistentAt(ps, i);
    if ps[i].suppressUnicast {
      var j :| SendOptions.Suits(ps, j, i);
      DataGoesOut(ps, false, writerId, c, j);
      assert ServesAddress(DataRound(ps, false, writerId, c)[SentTo(ps[..j], false)], ps[i], writerId, c);
    } else {
      DataGoesOut(ps, false, writerId, c, i);
      assert ServesAddress(DataRound(ps, false, writerId, c)[SentTo(ps[..i], false)], ps[i], writerId, c);
    }
  }

  /** As Gets, but on any port of the multicast address. */
  predicate ServesAddress(q: Packet, p: ReaderProxy, writerId: EntityId, c: CacheChange) {
    || IsUnicast(q, p, writerId, c)
    || (q.address == p.remoteMulticastLocator.address && q.sub.Data? && q.sub.readerId == ENTITYID_UNKNOWN
        && q.sub.writerId == writerId && q.sub.writerSN == c.sn && q.sub.payload == c.data)
  }

  ghost predicate KnownIds(ps: seq<ReaderProxy>) {
    forall i :: 0 <= i < |ps| ==> ps[i].remoteReaderGuid.entityId != ENTITYID_UNKNOWN
  }

  /** What SendOptions says about destinations is so of the packets. */
  lemma GetsIffReached(ps: seq<ReaderProxy>, writerId: EntityId, c: CacheChange, i: nat)
    requires i < |ps| && SendOptions.Consistent(ps) && SendOptions.DistinctUnicast(ps) && KnownIds(ps)
    ensures Gets(DataRound(ps, false, writerId, c), ps[i], writerId, c) <==> SendOptions.Reached(ps, i)
  {
    var packets := DataRound(ps, false, writerId, c);
    assert SendOptions.ConsistentAt(ps, i);
    SendOptions.ReachedNowIff(ps, i);
    if !ps[i].suppressUnicast {
      DataGoesOut(ps, false, writerId, c, i);
    } else if k :| SendOptions.SendsToPortOf(ps, k, i) {
      DataGoesOut(ps, false, writerId, c, k);
      assert IsMulticast(packets[SentTo(ps[..k], false)], ps[i], writerId, c);
    } else if Gets(packets, ps[i], writerId, c) {
      SomeoneSends(ps, writerId, c, i);
    }
  }

  lemma SomeoneSends(ps: seq<ReaderProxy>, writerId: EntityId, c: CacheChange, i: nat)
    requires i < |ps| && SendOptions.DistinctUnicast(ps) && KnownIds(ps)
    requires Gets(DataRound(ps, false, writerId, c), ps[i], writerId, c)
    ensures !ps[i].suppressUnicast || exists k :: SendOptions.SendsToPortOf(ps, k, i)
  {
    var packets := DataRound(ps, false, writerId, c);
    var k :| && 0 <= k < |packets|
             && (IsUnicast(packets[k], ps[i], writerId, c) || IsMulticast(packets[k], ps[i], writerId, c));
    var j := NothingElseGoesOut(ps, false, writerId, c, k);
    assert ps[j].useMulticast ==> SendOptions.SendsToPortOf(ps, j, i);
  }

  /** After resetSendOptions with distinct unicast addresses, a change is sent to a reader, on its own
      port, exactly when it shares its multicast address with none or listens on the port of the first
      reader that has it. */
  lemma SentIff(ps: seq<ReaderProxy>, writerId: EntityId, c: CacheChange, i: nat)
    requires SendOptions.PlainKinds(ps) && SendOptions.DistinctUnicast(ps) && KnownIds(ps) && i < |ps|
    ensures var qs := SendOptions.ManageFrom(SendOptions.Reset(ps), 0);
            Gets(DataRound(qs, false, writerId, c), qs[i], writerId, c) <==>
            (SendOptions.Shares(ps, i) ==>
               ps[SendOptions.FirstOfGroup(ps, i)].remoteMulticastLocator.port == ps[i].remoteMulticastLocator.port)
  {
    var qs := SendOptions.ManageFrom(SendOptions.Reset(ps), 0);
    SendOptions.ReachedIff(ps, i);
    SendOptions.ManageKeeps(SendOptions.Reset(ps), 0);
    hide SendOptions.ManageFrom, SendOptions.Reached;
    assert SendOptions.SameReaders(ps, qs);
    GetsIffReached(qs, writerId, c, i);
  }

  // --- Heartbeats ---

  /** A reader that has asked for everything up to the cursor to be left alone. */
  predicate LeftAlone(w: Core, p: ReaderProxy) {
    w.history != [] && p.lastAckNackSequenceNumber >= w.next && p.finalFlag && p.ackNackCount > 0
  }

  /** The heartbeat for one reader, to its own address. */
  ghost predicate IsBeat(q: Packet, w: Core, p: ReaderProxy, writerId: EntityId, count: int) {
    && q.address == p.remoteLocator.address && q.port == p.remoteLocator.port
    && q.sub.Heartbeat? && q.sub.readerId == p.remoteReaderGuid.entityId && q.sub.writerId == writerId
    && q.sub.count == count && q.sub.lastSN == w.next - 1 && 1 <= q.sub.firstSN <= w.next
    && (forall sn :: Live(w.history, sn) && sn < w.next ==> q.sub.firstSN <= sn <= q.sub.lastSN)
    && (forall sn :: sn < q.sub.firstSN ==> !Live(w.history, sn))
    && (if w.history == [] then q.sub.firstSN == 1 else Live(w.history, q.sub.firstSN))
  }

  /** How many of the proxies get a heartbeat. */
  function Told(w: Core, proxies: seq<ReaderProxy>): nat {
    if proxies == [] then 0
    else Told(w, proxies[..|proxies| - 1]) + if LeftAlone(w, proxies[|proxies| - 1]) then 0 else 1
  }

  lemma BeatIs(w: Core, p: ReaderProxy, writerId: EntityId, count: int)
    requires WellFormed(w) && CursorSound(w)
    ensures |Beats(w, p, writerId, count)| == if LeftAlone(w, p) then 0 else 1
    ensures !LeftAlone(w, p) ==> IsBeat(Beats(w, p, writerId, count)[0], w, p, writerId, count)
  {
    HeartbeatTellsTheTruth(w);
    NoneBelowFirst(w);
    EmptiedAnnouncesFromOne(w);
  }

  lemma {:induction false} BeatsAreCounted(w: Core, proxies: seq<ReaderProxy>, writerId: EntityId, count: int)
    requires WellFormed(w) && CursorSound(w)
    ensures |BeatRound(w, proxies, writerId, count)| == Told(w, proxies)
  {
    if proxies != [] {
      BeatsAreCounted(w, proxies[..|proxies| - 1], writerId, count);
      BeatIs(w, proxies[|proxies| - 1], writerId, count);
    }
  }

  /** A round of heartbeats has one packet for each proxy that is not to be left alone, in the order of
      the proxies, with the round's count and the range of all that was sent; and no other packet. */
  lemma {:induction false} BeatsGoOut(w: Core, proxies: seq<ReaderProxy>, writerId: EntityId, count: int, i: nat)
    requires WellFormed(w) && CursorSound(w) && i < |proxies| && !LeftAlone(w, proxies[i])
    ensures var k, packets := Told(w, proxies[..i]), BeatRound(w, proxies, writerId, count);
            k < |packets| && IsBeat(packets[k], w, proxies[i], writerId, count)
  {
    var n := |proxies| - 1;
    BeatsAreCounted(w, proxies[..n], writerId, count);
    if i == n {
      assert proxies[..i] == proxies[..n];
      BeatIs(w, proxies[n], writerId, count);
    } else {
      assert proxies[..n][..i] == proxies[..i];
      BeatsGoOut(w, proxies[..n], writerId, count, i);
    }
  }

  lemma {:induction false} NoOtherBeats(w: Core, proxies: seq<ReaderProxy>, writerId: EntityId, count: int, k: nat)
    returns (i: nat)
    requires WellFormed(w) && CursorSound(w) && k < |BeatRound(w, proxies, writerId, count)|
    ensures i < |proxies| && !LeftAlone(w, proxies[i])
    ensures IsBeat(BeatRound(w, proxies, writerId, count)[k], w, proxies[i], writerId, count)
  {
    var n := |proxies| - 1;
    if k < |BeatRound(w, proxies[..n], writerId, count)| {
      i := NoOtherBeats(w, proxies[..n], writerId, count, k);
    } else {
      i := n;
      BeatIs(w, proxies[n], writerId, count);
    }
  }

  // --- Answers to AckNacks ---

  /** The packet says what the reply says, to the reader that asked. */
  predicate Carries(q: Packet, p: ReaderProxy, writerId: EntityId, r: Reply) {
    && q.address == p.remoteLocator.address && q.port == p.remoteLocator.port
    && q.sub.readerId == p.remoteReaderGuid.entityId && q.sub.writerId == writerId
    && match r
       case SendData(sn, data) => q.sub.Data? && q.sub.writerSN == sn && q.sub.payload == data
       case SendGap(firstMissing, nextValid) =>
         q.sub.Gap? && q.sub.gapStart == firstMissing && q.sub.gapList.base == nextValid && q.sub.gapList.numBits == 0
         && forall bit: nat :: bit < SNS_MAX_NUM_BITS ==> !q.sub.gapList.IsSet(bit)
  }

  lemma {:induction false} RepliesGoOut(p: ReaderProxy, writerId: EntityId, replies: seq<Reply>, k: nat)
    requires k < |replies|
    ensures |RepliesTo(p, writerId, replies)| == |replies|
    ensures Carries(RepliesTo(p, writerId, replies)[k], p, writerId, replies[k])
  {
    var n := |replies| - 1;
    RepliesAreCounted(p, writerId, replies[..n]);
    if k < n {
      RepliesGoOut(p, writerId, replies[..n], k);
    } else {
      NoBits();
    }
  }

  lemma NoBits()
    ensures forall base: SN, bit: nat :: bit < SNS_MAX_NUM_BITS ==> !SequenceNumberSet(base, 0, EMPTY_BITMAP).IsSet(bit)
  {
    forall base: SN, bit: nat | bit < SNS_MAX_NUM_BITS
      ensures !SequenceNumberSet(base, 0, EMPTY_BITMAP).IsSet(bit)
    {
      EmptySet(base, bit);
    }
  }

  lemma {:induction false} RepliesAreCounted(p: ReaderProxy, writerId: EntityId, replies: seq<Reply>)
    ensures |RepliesTo(p, writerId, replies)| == |replies|
  {
    if replies != [] {
      RepliesAreCounted(p, writerId, replies[..|replies| - 1]);
    }
  }

  /** A preemptive AckNack, or any to a writer that never had a change, is answered with a heartbeat to
      every proxy that is not to be left alone. */
  lemma AnsweredWithBeats(w: Core, p: ReaderProxy, set_: SequenceNumberSet, proxies: seq<ReaderProxy>,
                          writerId: EntityId, count: int, i: nat)
    requires WellFormed(w) && CursorSound(w) && (set_.base == 0 || w.lastUsed == 0)
    requires i < |proxies| && !LeftAlone(w, proxies[i])
    ensures var k, packets := Told(w, proxies[..i]), Answers(w, p, set_, proxies, writerId, count);
            k < |packets| && IsBeat(packets[k], w, proxies[i], writerId, count)
    ensures |Answers(w, p, set_, proxies, writerId, count)| == Told(w, proxies)
  {
    BeatsGoOut(w, proxies, writerId, count, i);
    BeatsAreCounted(w, proxies, writerId, count);
    NothingWritten(w);
  }

  lemma NothingWritten(w: Core)
    requires WellFormed(w)
    ensures w.lastUsed == 0 ==> w.history == []
  {
    assert w.history != [] ==> 1 <= w.history[0].sn <= w.lastUsed;
  }

  /** A request that starts below everything that is left is answered with one Gap up to the least live
      number; one to an emptied history with one Gap up to the next number to be written. */
  lemma AnsweredWithOneGap(w: Core, p: ReaderProxy, set_: SequenceNumberSet, proxies: seq<ReaderProxy>,
                           writerId: EntityId, count: int, n: SN)
    requires WellFormed(w) && set_.base != 0 && w.lastUsed > 0
    requires || (w.history == [] && n == w.lastUsed + 1)
             || (set_.base < n && Live(w.history, n) && forall sn :: sn < n ==> !Live(w.history, sn))
    ensures var packets := Answers(w, p, set_, proxies, writerId, count);
            |packets| == 1 && Carries(packets[0], p, writerId, SendGap(set_.base, n))
  {
    NoneBelowFirst(w);
    RepliesGoOut(p, writerId, [SendGap(set_.base, n)], 0);
  }
}
