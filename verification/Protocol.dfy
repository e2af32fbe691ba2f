/** One reliable writer, one reliable reader, and a network that keeps every packet ever sent and
    may deliver it never, once or many times, in any order. */
module Protocol {
  import opened RtpsTypes
  import opened Endpoints
  import opened Messages
  import opened History
  import opened WriterSpec
  import opened NackService
  import opened ReaderSpec
  import opened StatefulWriter

  /** A submessage in flight, together with the state of the writer when it was sent. */
  datatype Envelope = Envelope(sub: Submessage, sender: Core)

  datatype System = System(
    writer: Guid,
    enforceUnicast: bool,
    core: Core,
    proxies: seq<ReaderProxy>,
    hbCount: int,
    given: seq<Payload>,      // what newChange was called with, in order
    net: seq<Envelope>,
    reader: ReaderState)

  datatype Action =
    | Write(data: Payload, inLineQoS: bool, disposeAfterWrite: bool)
    | Progress(tick: nat)
    | SendBeat
    | Sweep(now: nat, retention: nat)
    | Remove(sn: SN)
    | Rematch(proxies: seq<ReaderProxy>)
    | Nack(from: nat, set_: SequenceNumberSet, count: int, finalFlag: bool)
    | Deliver(k: nat)
    | SetCallbacks(n: nat)

  function Sealed(packets: seq<Packet>, sender: Core): seq<Envelope> {
    seq(|packets|, i requires 0 <= i < |packets| => Envelope(packets[i].sub, sender))
  }

  /** The heartbeat count after a round of heartbeats. */
  function NextCount(count: int, proxies: seq<ReaderProxy>): int {
    if proxies == [] then count else count + 1
  }

  function Step(s: System, a: Action): System {
    match a
    case Write(data, inLineQoS, disposeAfterWrite) =>
      s.(core := NewChanged(s.core, data, inLineQoS, disposeAfterWrite), given := s.given + [data])
    case Progress(tick) =>
      var found := Lookup(s.core.history, s.core.next);
      if found == None then s
      else
        var core := Progressed(s.core, tick);
        s.(core := core, hbCount := NextCount(s.hbCount, s.proxies),
           net := s.net + Sealed(DataRound(s.proxies, s.enforceUnicast, s.writer.entityId, found.value), s.core)
                  + Sealed(BeatRound(core, s.proxies, s.writer.entityId, s.hbCount), core))
    case SendBeat =>
      s.(hbCount := NextCount(s.hbCount, s.proxies),
         net := s.net + Sealed(BeatRound(s.core, s.proxies, s.writer.entityId, s.hbCount), s.core))
    case Sweep(now, retention) => s.(core := Swept(s.core, now, retention))
    case Remove(sn) => s.(core := Removed(s.core, sn))
    case Rematch(proxies) => s.(proxies := proxies)
    case Nack(from, set_, count, finalFlag) =>
      if from >= |s.proxies| then s
      else
        var proxies := s.proxies[from := Acknowledged(s.proxies[from], set_, count, finalFlag)];
        s.(proxies := proxies,
           hbCount := if Responded(s.core, set_).Beat? then NextCount(s.hbCount, proxies) else s.hbCount,
           net := s.net + Sealed(Answers(s.core, proxies[from], set_, proxies, s.writer.entityId, s.hbCount), s.core))
    case Deliver(k) =>
      if k >= |s.net| then s
      else s.(reader := Received(s.reader, s.writer.prefix, s.net[k].sub))
    case SetCallbacks(n) => s.(reader := s.reader.(callbackCount := n))
  }

  function Initial(writer: Guid, enforceUnicast: bool, capacity: nat, delayCapacity: nat, locator: Locator): System {
    System(writer, enforceUnicast, Fresh(capacity, delayCapacity), [], 1, [], [],
           ReaderState(true, 0, [WriterProxy(writer, locator, 1, 1, 0)], [], []))
  }

  function Run(s: System, actions: seq<Action>): System {
    if actions == [] then s
    else Step(Run(s, actions[..|actions| - 1]), actions[|actions| - 1])
  }

  // --- What every message says is true ---

  /** A submessage of the writer says nothing that was false when it was sent. */
  ghost predicate Honest(sub: Submessage, writerId: EntityId, w: Core) {
    sub.writerId == writerId &&
    match sub
    case Data(_, _, sn, data) => Live(w.history, sn) && data == Lookup(w.history, sn).value.data
    case Gap(_, _, gapStart, gapList) =>
      && gapList == SequenceNumberSet(gapList.base, 0, EMPTY_BITMAP) && gapList.base <= w.lastUsed + 1
      && forall n :: gapStart <= n < gapList.base ==> !Live(w.history, n)
    case Heartbeat(_, _, firstSN, lastSN, _) =>
      && 1 <= firstSN <= w.lastUsed + 1
      && forall n :: n < firstSN ==> !Live(w.history, n)
    case AckNack(_, _, _, _, _) => false
  }

  ghost predicate AllHonest(packets: seq<Packet>, writerId: EntityId, w: Core) {
    forall i :: 0 <= i < |packets| ==> Honest(packets[i].sub, writerId, w)
  }

  lemma {:induction false} DataIsHonest(proxies: seq<ReaderProxy>, enforceUnicast: bool, writerId: EntityId,
                                        w: Core, c: CacheChange)
    requires Lookup(w.history, c.sn) == Some(c)
    ensures AllHonest(DataRound(proxies, enforceUnicast, writerId, c), writerId, w)
  {
    if proxies != [] {
      DataIsHonest(proxies[..|proxies| - 1], enforceUnicast, writerId, w, c);
    }
  }

  lemma {:induction false} BeatsAreHonest(proxies: seq<ReaderProxy>, writerId: EntityId, w: Core, count: int)
    requires WellFormed(w)
    ensures AllHonest(BeatRound(w, proxies, writerId, count), writerId, w)
  {
    NoneBelowFirst(w);
    if proxies != [] {
      BeatsAreHonest(proxies[..|proxies| - 1], writerId, w, count);
    }
  }

  lemma {:induction false} RepliesAreHonest(p: ReaderProxy, writerId: EntityId, w: Core, replies: seq<Reply>)
    requires forall k :: 0 <= k < |replies| ==> Truthful(w.history, w.lastUsed, replies[k])
    ensures AllHonest(RepliesTo(p, writerId, replies), writerId, w)
  {
    if replies != [] {
      RepliesAreHonest(p, writerId, w, replies[..|replies| - 1]);
    }
  }

  lemma AnswersAreHonest(w: Core, p: ReaderProxy, set_: SequenceNumberSet, proxies: seq<ReaderProxy>,
                         writerId: EntityId, count: int)
    requires WellFormed(w)
    ensures AllHonest(Answers(w, p, set_, proxies, writerId, count), writerId, w)
  {
    match Responded(w, set_)
    case Beat => BeatsAreHonest(proxies, writerId, w, count);
    case Replies(replies) =>
      forall k | 0 <= k < |replies|
        ensures Truthful(w.history, w.lastUsed, replies[k])
      {
        ResponsesAreTruthful(w, set_, k);
      }
      RepliesAreHonest(p, writerId, w, replies);
  }

  // --- The invariant ---

  /** The history holds what was given, as far as it still holds it. */
  ghost predicate HoldsGiven(w: Core, given: seq<Payload>) {
    && WellFormed(w) && w.lastUsed <= |given|
    && forall i :: 0 <= i < |w.history| ==> w.history[i].data == Stored(given[w.history[i].sn - 1])
  }

  ghost predicate GoodEnvelope(e: Envelope, s: System) {
    HoldsGiven(e.sender, s.given) && Later(e.sender, s.core) && Honest(e.sub, s.writer.entityId, e.sender)
  }

  ghost predicate WriterSide(s: System) {
    && HoldsGiven(s.core, s.given) && s.core.lastUsed == |s.given|
    && forall k :: 0 <= k < |s.net| ==> GoodEnvelope(s.net[k], s)
  }

  /** The callbacks were handed the change numbered sn, with the payload it was given. */
  ghost predicate WasDelivered(s: System, sn: SN)
    requires 1 <= sn <= |s.given|
  {
    Delivery(s.writer, sn, Stored(s.given[sn - 1])) in s.reader.delivered
  }

  predicate SkippedBy(sub: Submessage, sn: SN) {
    match sub
    case Gap(_, _, gapStart, gapList) => gapStart <= sn < gapList.base
    case Heartbeat(_, _, firstSN, _, _) => sn < firstSN
    case _ => false
  }

  /** Envelope k passes over sn, and sn had left the writer's history when it was sent. */
  ghost predicate SkipsDead(net: seq<Envelope>, k: int, sn: SN) {
    && 0 <= k < |net| && SkippedBy(net[k].sub, sn)
    && sn <= net[k].sender.lastUsed && !Live(net[k].sender.history, sn)
  }

  ghost predicate WasSkipped(s: System, sn: SN) {
    exists k :: SkipsDead(s.net, k, sn)
  }

  function Expected(s: System): SN
    requires |s.reader.proxies| == 1
  {
    s.reader.proxies[0].expectedSN
  }

  ghost predicate ReaderSide(s: System) {
    && |s.reader.proxies| == 1 && s.reader.proxies[0].remoteWriterGuid == s.writer
    && 1 <= Expected(s) <= |s.given| + 1
    && (forall d :: d in s.reader.delivered ==>
          d.writer == s.writer && 1 <= d.sn < Expected(s) && d.data == Stored(s.given[d.sn - 1]))
    && (forall sn :: 1 <= sn < Expected(s) ==> WasDelivered(s, sn) || WasSkipped(s, sn))
  }

  // The writer's steps

  /** What changes at the writer's side: more was given, more was sent, the history moved on. */
  ghost predicate WriterMoves(s: System, s': System) {
    && s'.writer == s.writer && s'.reader == s.reader && s.given <= s'.given && s.net <= s'.net
    && Later(s.core, s'.core)
  }

  lemma EnvelopesStayGood(s: System, s': System, k: nat)
    requires WriterSide(s) && WriterMoves(s, s') && k < |s.net|
    ensures GoodEnvelope(s'.net[k], s')
  {
    assert GoodEnvelope(s.net[k], s);
    LaterTransitive(s.net[k].sender, s.core, s'.core);
  }

  lemma WriterMovesKeepReader(s: System, s': System)
    requires ReaderSide(s) && WriterMoves(s, s')
    ensures ReaderSide(s')
  {
    forall sn | 1 <= sn < Expected(s)
      ensures WasDelivered(s', sn) || WasSkipped(s', sn)
    {
      if WasSkipped(s, sn) {
        var k :| SkipsDead(s.net, k, sn);
        assert SkipsDead(s'.net, k, sn);
      }
    }
  }

  lemma SentEnvelopesAreGood(s: System, packets: seq<Packet>, sender: Core, e: Envelope)
    requires HoldsGiven(sender, s.given) && Later(sender, s.core)
    requires AllHonest(packets, s.writer.entityId, sender) && e in Sealed(packets, sender)
    ensures GoodEnvelope(e, s)
  {
  }

  lemma LaterHolds(w: Core, w': Core, given: seq<Payload>)
    requires HoldsGiven(w, given) && WellFormed(w') && Later(w, w') && w'.lastUsed == w.lastUsed
    ensures HoldsGiven(w', given)
  {
    forall i | 0 <= i < |w'.history|
      ensures w'.history[i].data == Stored(given[w'.history[i].sn - 1])
    {
      LookupAt(w'.history, i);
      assert w'.history[i].sn <= w.lastUsed;
      var c := Lookup(w.history, w'.history[i].sn).value;
      assert c in w.history;
    }
  }

  lemma SelfLater(w: Core)
    ensures Later(w, w)
  {
  }

  lemma WriteHoldsAt(w: Core, given: seq<Payload>, data: Payload, inLineQoS: bool, disposeAfterWrite: bool, sn: SN)
    requires HoldsGiven(w, given) && w.lastUsed == |given| && 1 <= sn <= w.lastUsed + 1
    requires Live(NewChanged(w, data, inLineQoS, disposeAfterWrite).history, sn)
    ensures Lookup(NewChanged(w, data, inLineQoS, disposeAfterWrite).history, sn).value.data
            == Stored((given + [data])[sn - 1])
  {
    hide NewChanged;
    NewChangeLookup(w, data, inLineQoS, disposeAfterWrite, sn);
    if sn <= w.lastUsed {
      assert Lookup(w.history, sn).value in w.history;
    }
  }

  lemma WriteHolds(w: Core, given: seq<Payload>, data: Payload, inLineQoS: bool, disposeAfterWrite: bool)
    requires HoldsGiven(w, given) && w.lastUsed == |given|
    ensures HoldsGiven(NewChanged(w, data, inLineQoS, disposeAfterWrite), given + [data])
  {
    NewChangeWellFormed(w, data, inLineQoS, disposeAfterWrite);
    var w' := NewChanged(w, data, inLineQoS, disposeAfterWrite);
    assert w'.lastUsed == |given| + 1;
    hide NewChanged, Newest;
    forall i | 0 <= i < |w'.history|
      ensures w'.history[i].data == Stored((given + [data])[w'.history[i].sn - 1])
    {
      LookupAt(w'.history, i);
      WriteHoldsAt(w, given, data, inLineQoS, disposeAfterWrite, w'.history[i].sn);
    }
  }

  lemma WriteKeeps(s: System, a: Action)
    requires WriterSide(s) && a.Write?
    ensures WriterSide(Step(s, a)) && WriterMoves(s, Step(s, a))
  {
    var s' := Step(s, a);
    WriteHolds(s.core, s.given, a.data, a.inLineQoS, a.disposeAfterWrite);
    NewChangeLater(s.core, a.data, a.inLineQoS, a.disposeAfterWrite);
    forall k | 0 <= k < |s'.net|
      ensures GoodEnvelope(s'.net[k], s')
    {
      EnvelopesStayGood(s, s', k);
    }
  }

  /** A step that only moves the core on and sends honest packets, of the state before or after it. */
  lemma SendingKeeps(s: System, s': System, first: seq<Packet>, second: seq<Packet>)
    requires WriterSide(s) && WriterMoves(s, s') && WellFormed(s'.core)
    requires s'.given == s.given && s'.core.lastUsed == s.core.lastUsed
    requires s'.net == s.net + Sealed(first, s.core) + Sealed(second, s'.core)
    requires AllHonest(first, s.writer.entityId, s.core) && AllHonest(second, s.writer.entityId, s'.core)
    ensures WriterSide(s')
  {
    LaterHolds(s.core, s'.core, s.given);
    SelfLater(s'.core);
    forall k | 0 <= k < |s'.net|
      ensures GoodEnvelope(s'.net[k], s')
    {
      if k < |s.net| {
        EnvelopesStayGood(s, s', k);
      } else if k < |s.net| + |first| {
        SentEnvelopesAreGood(s', first, s.core, s'.net[k]);
      } else {
        SentEnvelopesAreGood(s', second, s'.core, s'.net[k]);
      }
    }
  }

  lemma ProgressKeeps(s: System, a: Action)
    requires WriterSide(s) && a.Progress?
    ensures WriterSide(Step(s, a)) && WriterMoves(s, Step(s, a))
  {
    var s' := Step(s, a);
    var found := Lookup(s.core.history, s.core.next);
    SelfLater(s.core);
    if found.Some? {
      ProgressWellFormed(s.core, a.tick);
      ProgressLater(s.core, a.tick);
      DataIsHonest(s.proxies, s.enforceUnicast, s.writer.entityId, s.core, found.value);
      BeatsAreHonest(s.proxies, s.writer.entityId, s'.core, s.hbCount);
      SendingKeeps(s, s', DataRound(s.proxies, s.enforceUnicast, s.writer.entityId, found.value),
                   BeatRound(s'.core, s.proxies, s.writer.entityId, s.hbCount));
    }
  }

  lemma BeatKeeps(s: System)
    requires WriterSide(s)
    ensures WriterSide(Step(s, SendBeat)) && WriterMoves(s, Step(s, SendBeat))
  {
    SelfLater(s.core);
    BeatsAreHonest(s.proxies, s.writer.entityId, s.core, s.hbCount);
    SendingKeeps(s, Step(s, SendBeat), [], BeatRound(s.core, s.proxies, s.writer.entityId, s.hbCount));
  }

  lemma NackKeeps(s: System, a: Action)
    requires WriterSide(s) && a.Nack?
    ensures WriterSide(Step(s, a)) && WriterMoves(s, Step(s, a))
  {
    SelfLater(s.core);
    if a.from < |s.proxies| {
      var s' := Step(s, a);
      AnswersAreHonest(s.core, s'.proxies[a.from], a.set_, s'.proxies, s.writer.entityId, s.hbCount);
      SendingKeeps(s, s', [], Answers(s.core, s'.proxies[a.from], a.set_, s'.proxies, s.writer.entityId, s.hbCount));
    }
  }

  lemma DroppingKeeps(s: System, a: Action)
    requires WriterSide(s) && (a.Sweep? || a.Remove?)
    ensures WriterSide(Step(s, a)) && WriterMoves(s, Step(s, a))
  {
    var s' := Step(s, a);
    if a.Sweep? {
      SweepLater(s.core, a.now, a.retention);
    } else {
      RemovalWellFormed(s.core, a.sn);
    }
    SendingKeeps(s, s', [], []);
  }

  // The reader's steps

  lemma EmptyGapSkips(n: SN, gapStart: SN, base: SN)
    requires gapStart <= n
    ensures LeastOutside(n, gapStart, SequenceNumberSet(base, 0, EMPTY_BITMAP)) == Max(n, base)
  {
    var gapList := SequenceNumberSet(base, 0, EMPTY_BITMAP);
    forall k
      ensures Skipped(k, gapStart, gapList) <==> gapStart <= k < base
    {
      if base <= k { EmptySet(base, k - base); }
    }
    assert !Skipped(Max(n, base), gapStart, gapList);
  }

  /** The cases of DeliveryMoves. */
  ghost predicate MovesBy(s: System, s': System, sub: Submessage)
    requires |s.reader.proxies| == 1 && |s'.reader.proxies| == 1
  {
    var e := Expected(s);
    || (Expected(s') == e && s'.reader.delivered == s.reader.delivered)
    || (sub.Data? && sub.writerSN == e && Expected(s') == e + 1
        && s'.reader.delivered == s.reader.delivered + [Delivery(s.writer, e, sub.payload)])
    || (sub.Gap? && sub.gapStart <= e < sub.gapList.base == Expected(s')
        && s'.reader.delivered == s.reader.delivered)
    || (sub.Heartbeat? && e < sub.firstSN == Expected(s') && s'.reader.delivered == s.reader.delivered)
  }

  /** What the delivery of one envelope does to the expected number. */
  lemma DeliveryMoves(s: System, k: nat)
    requires WriterSide(s) && ReaderSide(s) && k < |s.net|
    ensures var s' := Step(s, Deliver(k));
            && |s'.reader.proxies| == 1 && s'.reader.proxies[0].remoteWriterGuid == s.writer
            && MovesBy(s, s', s.net[k].sub)
  {
    hide WasDelivered, WasSkipped, Later, HoldsGiven;
    assert GoodEnvelope(s.net[k], s);
    EnvelopeMoves(s, k);
  }

  lemma EnvelopeMoves(s: System, k: nat)
    requires k < |s.net| && Honest(s.net[k].sub, s.writer.entityId, s.net[k].sender)
    requires |s.reader.proxies| == 1 && s.reader.proxies[0].remoteWriterGuid == s.writer
    ensures var s' := Step(s, Deliver(k));
            && |s'.reader.proxies| == 1 && s'.reader.proxies[0].remoteWriterGuid == s.writer
            && MovesBy(s, s', s.net[k].sub)
  {
    hide Live, Lookup, LeastOutside, Missing;
    var sub, p := s.net[k].sub, s.reader.proxies[0];
    var writer := Guid(s.writer.prefix, sub.writerId);
    assert writer == s.writer && ProxyIndex(s.reader.proxies, writer) == 0;
    if sub.Gap? && sub.gapStart <= p.expectedSN {
      EmptyGapSkips(p.expectedSN, sub.gapStart, sub.gapList.base);
    }
  }

  /** Nothing changed at the writer's side. */
  lemma SameWriterSide(s: System, s': System)
    requires WriterSide(s) && s' == s.(reader := s'.reader)
    ensures WriterSide(s')
  {
    forall i | 0 <= i < |s'.net|
      ensures GoodEnvelope(s'.net[i], s')
    {
      assert GoodEnvelope(s.net[i], s);
    }
  }

  /** What was delivered or skipped before stays so while the reader takes in more. */
  lemma StaysAccounted(s: System, s': System, sn: SN)
    requires s' == s.(reader := s'.reader) && s.reader.delivered <= s'.reader.delivered
    requires 1 <= sn <= |s.given| && (WasDelivered(s, sn) || WasSkipped(s, sn))
    ensures WasDelivered(s', sn) || WasSkipped(s', sn)
  {
    if WasSkipped(s, sn) {
      var k :| SkipsDead(s.net, k, sn);
      assert SkipsDead(s'.net, k, sn);
    }
  }

  /** A number that an envelope passes over was dead when it was sent. */
  lemma PassedWasDead(s: System, k: nat, sn: SN)
    requires WriterSide(s) && k < |s.net| && 1 <= sn && SkippedBy(s.net[k].sub, sn)
    ensures SkipsDead(s.net, k, sn)
  {
    assert GoodEnvelope(s.net[k], s);
  }

  /** No envelope passes over numbers that were not written yet. */
  lemma PassesOnlyWritten(s: System, k: nat)
    requires WriterSide(s) && k < |s.net|
    ensures s.net[k].sub.Gap? ==> s.net[k].sub.gapList.base <= |s.given| + 1
    ensures s.net[k].sub.Heartbeat? ==> s.net[k].sub.firstSN <= |s.given| + 1
  {
    assert GoodEnvelope(s.net[k], s);
  }

  lemma DeliverKeeps(s: System, k: nat)
    requires WriterSide(s) && ReaderSide(s) && k < |s.net|
    ensures WriterSide(Step(s, Deliver(k))) && ReaderSide(Step(s, Deliver(k)))
    ensures Expected(s) <= Expected(Step(s, Deliver(k)))
  {
    hide Received, Honest, Later, HoldsGiven, SkipsDead;
    var s' := Step(s, Deliver(k));
    DeliveryMoves(s, k);
    SameWriterSide(s, s');
    PassesOnlyWritten(s, k);
    if s.net[k].sub.Data? { DeliveredIsGiven(s, k); }
    forall sn | 1 <= sn < Expected(s')
      ensures WasDelivered(s', sn) || WasSkipped(s', sn)
    {
      if sn < Expected(s) {
        StaysAccounted(s, s', sn);
      } else if !s.net[k].sub.Data? {
        PassedWasDead(s, k, sn);
        assert SkipsDead(s'.net, k, sn);
      }
    }
  }

  lemma DeliveredIsGiven(s: System, k: nat)
    requires WriterSide(s) && k < |s.net| && s.net[k].sub.Data?
    ensures var sub := s.net[k].sub;
            1 <= sub.writerSN <= |s.given| && sub.payload == Stored(s.given[sub.writerSN - 1])
  {
    var e := s.net[k];
    assert GoodEnvelope(e, s);
    var c := Lookup(e.sender.history, e.sub.writerSN).value;
    assert c in e.sender.history;
  }

  // --- Safety ---

  lemma StepKeeps(s: System, a: Action)
    requires WriterSide(s) && ReaderSide(s)
    ensures WriterSide(Step(s, a)) && ReaderSide(Step(s, a))
    ensures Later(s.core, Step(s, a).core) && Expected(s) <= Expected(Step(s, a))
  {
    SelfLater(s.core);
    match a
    case Write(_, _, _) => WriteKeeps(s, a); WriterMovesKeepReader(s, Step(s, a));
    case Progress(_) => ProgressKeeps(s, a); WriterMovesKeepReader(s, Step(s, a));
    case SendBeat => BeatKeeps(s); WriterMovesKeepReader(s, Step(s, a));
    case Nack(_, _, _, _) => NackKeeps(s, a); WriterMovesKeepReader(s, Step(s, a));
    case Sweep(_, _) => DroppingKeeps(s, a); WriterMovesKeepReader(s, Step(s, a));
    case Remove(_) => DroppingKeeps(s, a); WriterMovesKeepReader(s, Step(s, a));
    case Rematch(_) => SendingKeeps(s, Step(s, a), [], []); WriterMovesKeepReader(s, Step(s, a));
    case Deliver(k) => if k < |s.net| { DeliverKeeps(s, k); }
    case SetCallbacks(n) => CallbacksKeep(s, n);
  }

  lemma CallbacksKeep(s: System, n: nat)
    requires WriterSide(s) && ReaderSide(s)
    ensures WriterSide(Step(s, SetCallbacks(n))) && ReaderSide(Step(s, SetCallbacks(n)))
  {
    var s' := Step(s, SetCallbacks(n));
    SameWriterSide(s, s');
    forall sn | 1 <= sn < Expected(s')
      ensures WasDelivered(s', sn) || WasSkipped(s', sn)
    {
      StaysAccounted(s, s', sn);
    }
  }

  /** In every run, whatever is lost, repeated or reordered and whatever AckNacks ask for: every
      number the reader has passed was delivered with the payload it was given, or had left the
      writer's history when the message that passed over it was sent; and the reader never gets
      ahead of the writer. */
  lemma {:induction false} EndToEndSafety(s: System, actions: seq<Action>)
    requires WriterSide(s) && ReaderSide(s)
    ensures var t := Run(s, actions);
            && WriterSide(t) && ReaderSide(t)
            && Later(s.core, t.core) && Expected(s) <= Expected(t) <= t.core.lastUsed + 1
            && forall sn :: 1 <= sn < Expected(t) ==> WasDelivered(t, sn) || WasSkipped(t, sn)
  {
    SelfLater(s.core);
    if actions != [] {
      var t := Run(s, actions[..|actions| - 1]);
      EndToEndSafety(s, actions[..|actions| - 1]);
      StepKeeps(t, actions[|actions| - 1]);
      LaterTransitive(s.core, t.core, Run(s, actions).core);
    }
  }

  lemma InitiallySafe(writer: Guid, enforceUnicast: bool, capacity: nat, delayCapacity: nat, locator: Locator)
    requires 1 <= capacity
    ensures var s := Initial(writer, enforceUnicast, capacity, delayCapacity, locator); WriterSide(s) && ReaderSide(s)
  {
  }

  /** A number that was skipped is dead for good: it is in no later state of the history. */
  lemma SkippedStaysDead(s: System, actions: seq<Action>, sn: SN)
    requires WriterSide(s) && ReaderSide(s) && WasSkipped(s, sn)
    ensures !Live(Run(s, actions).core.history, sn)
  {
    var k :| SkipsDead(s.net, k, sn);
    assert GoodEnvelope(s.net[k], s);
    EndToEndSafety(s, actions);
  }

  /** No change is lost while the writer still has it: what the reader has passed and is still in the
      history was delivered. */
  lemma LiveMeansDelivered(s: System, actions: seq<Action>, sn: SN)
    requires WriterSide(s) && ReaderSide(s)
    requires 1 <= sn < Expected(EndToEnd(s, actions)) && Live(EndToEnd(s, actions).core.history, sn)
    ensures WasDelivered(EndToEnd(s, actions), sn)
  {
    var t := EndToEnd(s, actions);
    if WasSkipped(t, sn) {
      SkippedStaysDead(t, [], sn);
    }
  }

  /** Run, with what it keeps. */
  ghost function EndToEnd(s: System, actions: seq<Action>): (t: System)
    requires WriterSide(s) && ReaderSide(s)
    ensures t == Run(s, actions) && WriterSide(t) && ReaderSide(t)
  {
    EndToEndSafety(s, actions);
    Run(s, actions)
  }

  lemma CallbacksKeepOrder(r: ReaderState, n: nat)
    requires InOrder(r)
    ensures InOrder(r.(callbackCount := n))
  {
  }

  /** The callbacks see the writer's changes in strictly ascending order, and so none twice. */
  lemma {:induction false} DeliveredInOrder(s: System, actions: seq<Action>)
    requires InOrder(s.reader)
    ensures InOrder(Run(s, actions).reader) && s.reader.delivered <= Run(s, actions).reader.delivered
  {
    if actions != [] {
      var t, a := Run(s, actions[..|actions| - 1]), actions[|actions| - 1];
      DeliveredInOrder(s, actions[..|actions| - 1]);
      hide InOrder, Received, NewChanged, Progressed, Swept, Removed, Answers;
      CallbacksKeepOrder(t.reader, if a.SetCallbacks? then a.n else 0);
      if a.Deliver? && a.k < |t.net| {
        ArrivalKeepsOrder(t.reader, t.writer.prefix, t.net[a.k].sub);
      }
    }
  }

  /** Every heartbeat that was sent has a lower count than the next one will have. */
  ghost predicate CountsBelow(s: System) {
    forall k :: 0 <= k < |s.net| && s.net[k].sub.Heartbeat? ==> s.net[k].sub.count < s.hbCount
  }

  /** The heartbeats among the packets carry that count. */
  ghost predicate CountIs(packets: seq<Packet>, count: int) {
    forall k :: 0 <= k < |packets| && packets[k].sub.Heartbeat? ==> packets[k].sub.count == count
  }

  ghost predicate NoBeats(packets: seq<Packet>) {
    forall k :: 0 <= k < |packets| ==> !packets[k].sub.Heartbeat?
  }

  lemma {:induction false} RoundCounts(w: Core, proxies: seq<ReaderProxy>, writerId: EntityId, count: int)
    ensures CountIs(BeatRound(w, proxies, writerId, count), count)
  {
    if proxies != [] {
      RoundCounts(w, proxies[..|proxies| - 1], writerId, count);
    }
  }

  lemma {:induction false} DataHasNoBeats(proxies: seq<ReaderProxy>, enforceUnicast: bool, writerId: EntityId,
                                          c: CacheChange)
    ensures NoBeats(DataRound(proxies, enforceUnicast, writerId, c))
  {
    if proxies != [] {
      DataHasNoBeats(proxies[..|proxies| - 1], enforceUnicast, writerId, c);
    }
  }

  lemma {:induction false} RepliesHaveNoBeats(p: ReaderProxy, writerId: EntityId, replies: seq<Reply>)
    ensures NoBeats(RepliesTo(p, writerId, replies))
  {
    if replies != [] {
      RepliesHaveNoBeats(p, writerId, replies[..|replies| - 1]);
    }
  }

  /** First packets that are no heartbeats are sent, and then others. */
  lemma SendingCounts(s: System, t: System, first: seq<Packet>, second: seq<Packet>, a: Core, b: Core)
    requires CountsBelow(s) && t.net == s.net + Sealed(first, a) + Sealed(second, b)
    requires NoBeats(first) && CountIs(second, s.hbCount) && s.hbCount <= t.hbCount
    requires NoBeats(second) || s.hbCount < t.hbCount
    ensures Counted(s, t)
  {
  }

  /** What is sent of heartbeats carries the one count, and uses it up. */
  ghost predicate Counted(s: System, t: System) {
    && CountsBelow(t) && s.hbCount <= t.hbCount && s.net <= t.net
    && forall k :: |s.net| <= k < |t.net| && t.net[k].sub.Heartbeat? ==> t.net[k].sub.count == s.hbCount
  }

  lemma StepCounts(s: System, a: Action)
    requires CountsBelow(s)
    ensures Counted(s, Step(s, a))
  {
    hide CountsBelow, Counted, NoBeats, CountIs;
    var t, id := Step(s, a), s.writer.entityId;
    match a
    case Progress(_) =>
      var found := Lookup(s.core.history, s.core.next);
      if found.Some? {
        DataHasNoBeats(s.proxies, s.enforceUnicast, id, found.value);
        RoundIsSent(s, t, DataRound(s.proxies, s.enforceUnicast, id, found.value), s.core, t.core, s.proxies);
      } else {
        NothingSent(s, t);
      }
    case SendBeat =>
      NoPackets();
      RoundIsSent(s, t, [], s.core, s.core, s.proxies);
    case Nack(from, set_, _, _) =>
      if from < |s.proxies| {
        NackCounts(s, a);
      } else {
        NothingSent(s, t);
      }
    case _ => NothingSent(s, t);
  }

  lemma NackCounts(s: System, a: Action)
    requires CountsBelow(s) && a.Nack? && a.from < |s.proxies|
    ensures Counted(s, Step(s, a))
  {
    hide CountsBelow, Counted, NoBeats, CountIs, Responded;
    var t, p := Step(s, a), Step(s, a).proxies[a.from];
    match Responded(s.core, a.set_)
    case Beat =>
      NoPackets();
      RoundIsSent(s, t, [], s.core, s.core, t.proxies);
    case Replies(replies) =>
      RepliesHaveNoBeats(p, s.writer.entityId, replies);
      OnlyReplies(s, t, RepliesTo(p, s.writer.entityId, replies), s.core);
  }

  lemma NoPackets()
    ensures NoBeats([])
  {
  }

  lemma NothingSent(s: System, t: System)
    requires CountsBelow(s) && t.net == s.net && t.hbCount == s.hbCount
    ensures Counted(s, t)
  {
  }

  lemma OnlyReplies(s: System, t: System, replies: seq<Packet>, a: Core)
    requires CountsBelow(s) && t.net == s.net + Sealed(replies, a) && NoBeats(replies) && t.hbCount == s.hbCount
    ensures Counted(s, t)
  {
    assert t.net == s.net + Sealed(replies, a) + Sealed([], a);
    SendingCounts(s, t, replies, [], a, a);
  }

  lemma RoundIsSent(s: System, t: System, first: seq<Packet>, a: Core, b: Core, proxies: seq<ReaderProxy>)
    requires CountsBelow(s) && NoBeats(first) && t.hbCount == NextCount(s.hbCount, proxies)
    requires t.net == s.net + Sealed(first, a) + Sealed(BeatRound(b, proxies, s.writer.entityId, s.hbCount), b)
    ensures Counted(s, t)
  {
    RoundCounts(b, proxies, s.writer.entityId, s.hbCount);
    SendingCounts(s, t, first, BeatRound(b, proxies, s.writer.entityId, s.hbCount), a, b);
  }

  /** In every run, the counts of the rounds of heartbeats go up. */
  lemma {:induction false} BeatCountsRise(s: System, actions: seq<Action>)
    requires CountsBelow(s)
    ensures var t := Run(s, actions); CountsBelow(t) && s.hbCount <= t.hbCount && s.net <= t.net
  {
    if actions != [] {
      BeatCountsRise(s, actions[..|actions| - 1]);
      StepCounts(Run(s, actions[..|actions| - 1]), actions[|actions| - 1]);
    }
  }

  /** What arrives is the payload that newChange was called with exactly when that was not longer
      than 32767 bytes. */
  lemma PayloadSurvivesIff(s: System, actions: seq<Action>, d: Delivery)
    requires WriterSide(s) && ReaderSide(s) && d in EndToEnd(s, actions).reader.delivered
    ensures var t := EndToEnd(s, actions);
            1 <= d.sn <= |t.given| && (d.data == t.given[d.sn - 1] <==> |t.given[d.sn - 1]| <= 0x7FFF)
  {
    var t := EndToEnd(s, actions);
    assert d.data == Stored(t.given[d.sn - 1]);
  }
}
