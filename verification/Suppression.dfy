/** A writer stops sending heartbeats to a reader that has confirmed everything: why that is safe,
    although the AckNacks it goes by may be old, repeated or out of order. */
module Suppression {
  import opened RtpsTypes
  import opened Endpoints
  import opened Messages
  import opened WriterSpec
  import opened ReaderSpec
  import opened StatefulWriter
  import opened Protocol

  ghost predicate AskedFrom(sent: seq<Packet>, k: int, base: SN) {
    0 <= k < |sent| && sent[k].sub.AckNack? && sent[k].sub.readerSNState.base == base
  }

  /** The reader once sent an AckNack with this base, or it is the preemptive one, which asks for
      nothing. */
  ghost predicate Offered(r: ReaderState, base: SN) {
    base == 0 || exists k :: AskedFrom(r.sent, k, base)
  }

  /** A proxy as it is created, or with what was known of the reader before. */
  ghost predicate Carried(proxies: seq<ReaderProxy>, me: Guid, p: ReaderProxy) {
    p.lastAckNackSequenceNumber == 1 ||
    exists q :: q in proxies && q.remoteReaderGuid == me
                && q.lastAckNackSequenceNumber == p.lastAckNackSequenceNumber
  }

  /** AckNacks that arrive in the name of the reader are its own. Those of others may say anything. */
  ghost predicate Genuine(s: System, me: Guid, a: Action) {
    match a
    case Nack(from, set_, _, _) =>
      from < |s.proxies| && s.proxies[from].remoteReaderGuid == me ==> Offered(s.reader, set_.base)
    case Rematch(proxies) => forall p :: p in proxies && p.remoteReaderGuid == me ==> Carried(s.proxies, me, p)
    case _ => true
  }

  ghost predicate AllGenuine(s: System, me: Guid, actions: seq<Action>) {
    actions == [] ||
    (&& AllGenuine(s, me, actions[..|actions| - 1])
     && Genuine(Run(s, actions[..|actions| - 1]), me, actions[|actions| - 1]))
  }

  ghost predicate AsksFromAtMost(sent: seq<Packet>, sn: SN) {
    forall k :: 0 <= k < |sent| && sent[k].sub.AckNack? ==> sent[k].sub.readerSNState.base <= sn
  }

  /** The writer never believes that the reader has more than it has. */
  ghost predicate NotOverrated(s: System, me: Guid) {
    && |s.reader.proxies| == 1 && 1 <= Expected(s) && AsksFromAtMost(s.reader.sent, Expected(s))
    && forall p :: p in s.proxies && p.remoteReaderGuid == me ==> p.lastAckNackSequenceNumber <= Expected(s)
  }

  /** A request starts at the number that is expected once the message has been handled. */
  lemma RequestsFromExpected(r: ReaderState, source: GuidPrefix, msg: Submessage)
    requires |r.proxies| == 1 && AsksFromAtMost(r.sent, r.proxies[0].expectedSN)
    ensures var r' := Received(r, source, msg);
            && |r'.proxies| == 1 && r.proxies[0].expectedSN <= r'.proxies[0].expectedSN
            && AsksFromAtMost(r'.sent, r'.proxies[0].expectedSN)
  {
    hide LeastOutside, Missing;
    var i, p := ProxyIndex(r.proxies, Guid(source, msg.writerId)), r.proxies[0];
    if i == 0 && msg.Gap? {
      MissingStarts(p.expectedSN, msg.gapStart - 1);
      var e := LeastOutside(p.expectedSN, msg.gapStart, msg.gapList);
    }
    if i == 0 && msg.Heartbeat? {
      MissingStarts(Max(p.expectedSN, msg.firstSN), msg.lastSN);
    }
  }

  lemma MissingStarts(expected: SN, lastAvail: SN)
    ensures Missing(expected, lastAvail).base == expected
  {
  }

  lemma StepKeepsRating(s: System, me: Guid, a: Action)
    requires NotOverrated(s, me) && Genuine(s, me, a)
    ensures NotOverrated(Step(s, a), me)
  {
    hide Received, NewChanged, Progressed, Swept, Removed, DataRound, BeatRound, Answers;
    if a.Deliver? && a.k < |s.net| {
      RequestsFromExpected(s.reader, s.writer.prefix, s.net[a.k].sub);
    }
  }

  lemma {:induction false} RunKeepsRating(s: System, me: Guid, actions: seq<Action>)
    requires NotOverrated(s, me) && AllGenuine(s, me, actions)
    ensures NotOverrated(Run(s, actions), me)
  {
    if actions != [] {
      RunKeepsRating(s, me, actions[..|actions| - 1]);
      StepKeepsRating(Run(s, actions[..|actions| - 1]), me, actions[|actions| - 1]);
    }
  }

  /** In every run in which the AckNacks in the reader's name are its own, however old: if the writer
      withholds heartbeats from it, the reader has passed every number that they would announce. */
  lemma SuppressionIsSafe(s: System, me: Guid, actions: seq<Action>, p: ReaderProxy)
    requires WriterSide(s) && ReaderSide(s) && NotOverrated(s, me) && AllGenuine(s, me, actions)
    requires var t := EndToEnd(s, actions);
             && p in t.proxies && p.remoteReaderGuid == me
             && Beats(t.core, p, t.writer.entityId, t.hbCount) == []
    ensures var t := EndToEnd(s, actions);
            && Announced(t.core).lastSN < Expected(t)
            && forall sn :: 1 <= sn <= Announced(t.core).lastSN ==>
                 sn < Expected(t) && (WasDelivered(t, sn) || WasSkipped(t, sn))
  {
    RunKeepsRating(s, me, actions);
    EndToEndSafety(s, actions);
  }

  lemma InitiallyNotOverrated(writer: Guid, enforceUnicast: bool, capacity: nat, delayCapacity: nat,
                              locator: Locator, me: Guid)
    ensures NotOverrated(Initial(writer, enforceUnicast, capacity, delayCapacity, locator), me)
  {
  }
}
