/** Runs of the protocol in which everything arrives. */
module Recovery {
  import opened RtpsTypes
  import opened Endpoints
  import opened Messages
  import opened History
  import opened WriterSpec
  import opened ReaderSpec
  import opened StatefulWriter
  import opened Protocol
  import opened Repair
  import opened SentPackets

  /** The reader has sent this request. */
  ghost predicate Requested(r: ReaderState, q: Submessage) {
    q.AckNack? && exists k :: 0 <= k < |r.sent| && r.sent[k].sub == q
  }

  /** What a network that loses nothing, the writer's threads and the reader do by themselves: the writer
      goes on, packets that were sent arrive, and so do requests that the reader sent. */
  ghost predicate ByItself(s: System, a: Action) {
    match a
    case Progress(_) => true
    case SendBeat => true
    case Deliver(k) => k < |s.net|
    case Nack(from, set_, count, finalFlag) =>
      exists q :: Requested(s.reader, q) && a == Nack(from, q.readerSNState, q.count, q.finalFlag)
    case _ => false
  }

  ghost predicate AllByItself(s: System, actions: seq<Action>) {
    actions == []
    || var n := |actions| - 1; AllByItself(s, actions[..n]) && ByItself(Run(s, actions[..n]), actions[n])
  }

  lemma {:induction false} RunJoins(s: System, a: seq<Action>, b: seq<Action>)
    requires AllByItself(s, a) && AllByItself(Run(s, a), b)
    ensures Run(s, a + b) == Run(Run(s, a), b) && AllByItself(s, a + b)
  {
    hide Protocol.Step, ByItself;
    if b == [] {
      assert a + b == a;
    } else {
      var n := |b| - 1;
      RunJoins(s, a, b[..n]);
      assert (a + b)[..|a| + n] == a + b[..n];
    }
  }

  lemma RunOne(s: System, a: Action)
    requires ByItself(s, a)
    ensures Run(s, [a]) == Step(s, a) && AllByItself(s, [a])
  {
    assert [a][..0] == [];
    assert Run(s, []) == s;
  }

  // --- Delivering packets in order ---

  function Deliveries(from: nat, n: nat): seq<Action> {
    seq(n, k requires 0 <= k < n => Deliver(from + k))
  }

  lemma {:induction false} ReceivedLast(r: ReaderState, arrivals: seq<Arrival>, last: Arrival)
    ensures ReceivedAll(r, arrivals + [last]) == Received(ReceivedAll(r, arrivals), last.source, last.msg)
    decreases |arrivals|
  {
    if arrivals == [] {
      assert (arrivals + [last])[1..] == [];
    } else {
      assert (arrivals + [last])[1..] == arrivals[1..] + [last];
      ReceivedLast(Received(r, arrivals[0].source, arrivals[0].msg), arrivals[1..], last);
    }
  }

  lemma HandledLast(r: ReaderState, writer: Guid, packets: seq<Packet>)
    requires packets != []
    ensures var n := |packets| - 1;
            Handled(r, writer, packets) == Received(Handled(r, writer, packets[..n]), writer.prefix, packets[n].sub)
  {
    var n := |packets| - 1;
    assert ArrivalsOf(writer, packets) == ArrivalsOf(writer, packets[..n]) + [Arrival(writer.prefix, packets[n].sub)];
    ReceivedLast(r, ArrivalsOf(writer, packets[..n]), Arrival(writer.prefix, packets[n].sub));
  }

  /** The packets stand on the network, one behind the other. */
  ghost predicate OnNet(net: seq<Envelope>, from: nat, packets: seq<Packet>) {
    from + |packets| <= |net| && forall k :: 0 <= k < |packets| ==> net[from + k].sub == packets[k].sub
  }

  lemma DeliveriesLast(from: nat, n: nat)
    ensures Deliveries(from, n + 1) == Deliveries(from, n) + [Deliver(from + n)]
  {
  }

  lemma DeliverIs(s: System, k: nat)
    requires k < |s.net|
    ensures Protocol.Step(s, Deliver(k)) == s.(reader := Received(s.reader, s.writer.prefix, s.net[k].sub))
    ensures ByItself(s, Deliver(k))
  {
  }

  lemma NoDeliveries(s: System, from: nat)
    ensures Run(s, Deliveries(from, 0)) == s == s.(reader := Handled(s.reader, s.writer, []))
    ensures AllByItself(s, Deliveries(from, 0))
  {
    assert ArrivalsOf(s.writer, []) == [];
  }

  lemma {:induction false} DeliveriesHandle(s: System, from: nat, packets: seq<Packet>)
    requires OnNet(s.net, from, packets)
    ensures Run(s, Deliveries(from, |packets|)) == s.(reader := Handled(s.reader, s.writer, packets))
    ensures AllByItself(s, Deliveries(from, |packets|))
    decreases |packets|
  {
    hide Received, ReceivedAll, Handled, Protocol.Step, Run, ByItself, AllByItself, Deliveries;
    if packets == [] {
      NoDeliveries(s, from);
    } else {
      var n := |packets| - 1;
      var s1 := s.(reader := Handled(s.reader, s.writer, packets[..n]));
      DeliveriesHandle(s, from, packets[..n]);
      HandledLast(s.reader, s.writer, packets);
      DeliverIs(s1, from + n);
      RunOne(s1, Deliver(from + n));
      RunJoins(s, Deliveries(from, n), [Deliver(from + n)]);
      DeliveriesLast(from, n);
    }
  }

  // --- A round ---

  /** The writer is not to leave the reader alone, and the reader listens. */
  ghost predicate InTouch(s: System, i: nat) {
    i < |s.proxies| && !LeftAlone(s.core, s.proxies[i]) && Listens(s.reader, s.writer)
  }

  /** Of the writer's side, only what it knows of its readers may differ. */
  predicate SameWriter(s: System, t: System) {
    t.core == s.core && t.writer == s.writer && t.given == s.given && |t.proxies| == |s.proxies|
  }

  /** A heartbeat reaches the reader. */
  lemma BeatArrives(s: System, i: nat) returns (actions: seq<Action>, k: nat)
    requires WellFormed(s.core) && CursorSound(s.core) && InTouch(s, i)
    ensures var beats := BeatRound(s.core, s.proxies, s.writer.entityId, s.hbCount);
            && k < |beats| && AllByItself(s, actions)
            && var t := Run(s, actions);
               && SameWriter(s, t) && t.proxies == s.proxies
               && t.reader == Received(s.reader, s.writer.prefix, beats[k].sub)
  {
    hide BeatRound, Received, LeftAlone;
    var beats := BeatRound(s.core, s.proxies, s.writer.entityId, s.hbCount);
    BeatsGoOut(s.core, s.proxies, s.writer.entityId, s.hbCount, i);
    k := Told(s.core, s.proxies[..i]);
    RunOne(s, SendBeat);
    var s1 := Protocol.Step(s, SendBeat);
    RunOne(s1, Deliver(|s.net| + k));
    RunJoins(s, [SendBeat], [Deliver(|s.net| + k)]);
    actions := [SendBeat] + [Deliver(|s.net| + k)];
  }

  /** The reader's last request reaches the writer, and the answers reach the reader. */
  lemma AnswersArrive(s: System, i: nat, q: Submessage) returns (actions: seq<Action>)
    requires i < |s.proxies| && Requested(s.reader, q)
    ensures AllByItself(s, actions)
    ensures var t := Run(s, actions);
            && SameWriter(s, t)
            && t.proxies == s.proxies[i := Acknowledged(s.proxies[i], q.readerSNState, q.count, q.finalFlag)]
            && t.reader == Handled(s.reader, s.writer, Answers(s.core, t.proxies[i], q.readerSNState, t.proxies,
                                                               s.writer.entityId, s.hbCount))
  {
    hide Answers, Handled;
    var nack := Nack(i, q.readerSNState, q.count, q.finalFlag);
    var s1 := Protocol.Step(s, nack);
    var packets := Answers(s.core, s1.proxies[i], q.readerSNState, s1.proxies, s.writer.entityId, s.hbCount);
    RunOne(s, nack);
    DeliveriesHandle(s1, |s.net|, packets);
    RunJoins(s, [nack], Deliveries(|s.net|, |packets|));
    actions := [nack] + Deliveries(|s.net|, |packets|);
  }

  /** What the reader has sent last is a request. */
  lemma BeatIsAnswered(r: ReaderState, writer: Guid, beat: Submessage) returns (q: Submessage)
    requires Listens(r, writer) && beat.Heartbeat? && beat.writerId == writer.entityId
    ensures var r' := Received(r, writer.prefix, beat);
            Requested(r', q) && q.readerSNState == LastRequest(r') && q.readerSNState.base == r'.proxies[0].expectedSN
  {
    hide Missing;
    assert ProxyIndex(r.proxies, writer) == 0;
    var r' := Received(r, writer.prefix, beat);
    q := r'.sent[|r.sent|].sub;
    AsksForMissing(Max(r.proxies[0].expectedSN, beat.firstSN), beat.lastSN);
  }

  /** A round of the repair, as a run of the protocol. */
  lemma RoundRuns(s: System, i: nat) returns (actions: seq<Action>, t: Turn)
    requires WellFormed(s.core) && CursorSound(s.core) && InTouch(s, i)
    ensures AllByItself(s, actions) && SameWriter(s, Run(s, actions)) && Sends(s.core, s.writer, t)
    ensures Run(s, actions).reader == Round(s.core, s.reader, s.writer, t)
    ensures var e := Received(s.reader, s.writer.prefix,
                              BeatRound(s.core, t.proxies, s.writer.entityId, t.count)[t.k].sub);
            |e.proxies| == 1 && Run(s, actions).proxies[i].lastAckNackSequenceNumber == e.proxies[0].expectedSN
  {
    hide BeatRound, Received, LeftAlone, LastRequest, Answers, Handled;
    var first, k := BeatArrives(s, i);
    var beat := BeatRound(s.core, s.proxies, s.writer.entityId, s.hbCount)[k].sub;
    BeatsAnnounce(s.core, s.proxies, s.writer.entityId, s.hbCount);
    HeartbeatProvokes(s.reader, s.writer, beat);
    var q := BeatIsAnswered(s.reader, s.writer, beat);
    var s1 := Run(s, first);
    var second := AnswersArrive(s1, i, q);
    var s2 := Run(s1, second);
    RunJoins(s, first, second);
    actions := first + second;
    t := Turn(s.hbCount, s.proxies, k, s2.proxies[i], s2.proxies, s1.hbCount);
  }

  /** What a round achieves, said of what the writer then knows of the reader. */
  lemma UpToDateOrInTouch(w: Core, r: ReaderState, r': ReaderState, writer: Guid, p: ReaderProxy)
    requires WellFormed(w) && CursorSound(w) && Listens(r, writer) && 1 <= r.proxies[0].expectedSN < w.next
    requires |r'.proxies| == 1 && Repaired(w, r, r', writer)
    requires p.lastAckNackSequenceNumber == Max(r.proxies[0].expectedSN, Announced(w).firstSN)
    ensures var e, n := r.proxies[0].expectedSN, r'.proxies[0].expectedSN;
            && BroughtTo(r, r', writer, n, LiveBetween(writer, w.history, e, n - 1))
            && e < n <= w.next && (n < w.next ==> !LeftAlone(w, p))
  {
    hide LiveBetween;
    HeartbeatTellsTheTruth(w);
  }

  /** The actions bring the reader to n. */
  ghost predicate Brings(s: System, actions: seq<Action>, n: SN)
    requires |s.reader.proxies| == 1
  {
    && AllByItself(s, actions) && SameWriter(s, Run(s, actions))
    && BroughtTo(s.reader, Run(s, actions).reader, s.writer, n,
                 LiveBetween(s.writer, s.core.history, Expected(s), n - 1))
  }

  /** Unless the reader is up to date after the round, the writer will not leave it alone. */
  lemma RoundBrings(s: System, i: nat) returns (actions: seq<Action>, n: SN)
    requires WellFormed(s.core) && CursorSound(s.core) && InTouch(s, i) && 1 <= Expected(s) < s.core.next
    ensures Brings(s, actions, n) && Expected(s) < n <= s.core.next
    ensures n < s.core.next ==> InTouch(Run(s, actions), i)
  {
    hide BeatRound, Received, LiveBetween, Round, WellFormed, CursorSound, Announced, Repaired, LeftAlone;
    hide Run, AllByItself;
    var turn;
    actions, turn := RoundRuns(s, i);
    var t := Run(s, actions);
    RoundRepairs(s.core, s.reader, s.writer, turn);
    BeatsAnnounce(s.core, turn.proxies, s.writer.entityId, turn.count);
    HeartbeatProvokes(s.reader, s.writer, BeatRound(s.core, turn.proxies, s.writer.entityId, turn.count)[turn.k].sub);
    UpToDateOrInTouch(s.core, s.reader, t.reader, s.writer, t.proxies[i]);
    n := Expected(t);
  }

  lemma BringsOn(s: System, first: seq<Action>, rest: seq<Action>, n: SN, m: SN)
    requires |s.reader.proxies| == 1 && Expected(s) <= n <= m
    requires Brings(s, first, n) && Brings(Run(s, first), rest, m)
    ensures Brings(s, first + rest, m)
  {
    hide LiveBetween, Run, AllByItself;
    RunJoins(s, first, rest);
    LiveJoins(s.writer, s.core.history, Expected(s), n, m - 1);
  }

  lemma NothingBrings(s: System)
    requires Listens(s.reader, s.writer)
    ensures Brings(s, [], Expected(s))
  {
  }

  /** From any state in which nothing is missing from the cursor on, the protocol can by itself bring the
      reader up to the cursor, and the callbacks see exactly the live changes on the way. */
  lemma {:induction false} ReaderCatchesUp(s: System, i: nat) returns (actions: seq<Action>)
    requires WellFormed(s.core) && CursorSound(s.core) && InTouch(s, i) && 1 <= Expected(s) <= s.core.next
    ensures Brings(s, actions, s.core.next)
    decreases s.core.next - Expected(s)
  {
    if Expected(s) == s.core.next {
      NothingBrings(s);
      actions := [];
    } else {
      var first, n := RoundBrings(s, i);
      if n < s.core.next {
        BroughtThere(s, first, n);
        hide Brings, WellFormed, CursorSound, LeftAlone;
        var rest := ReaderCatchesUp(Run(s, first), i);
        BringsOn(s, first, rest, n, s.core.next);
        actions := first + rest;
      } else {
        actions := first;
      }
    }
  }

  lemma BroughtThere(s: System, actions: seq<Action>, n: SN)
    requires |s.reader.proxies| == 1 && Brings(s, actions, n)
    ensures var t := Run(s, actions); SameWriter(s, t) && |t.reader.proxies| == 1 && Expected(t) == n
  {
  }

  // --- From writing to delivery ---

  lemma ProgressStaysInTouch(s: System, tick: nat, i: nat)
    requires WriterSide(s) && CursorSound(s.core) && InTouch(s, i) && s.core.next <= s.core.lastUsed
    ensures var t := Protocol.Step(s, Progress(tick));
            && WriterSide(t) && CursorSound(t.core) && InTouch(t, i) && t.core.next == s.core.next + 1
            && t.core.lastUsed == s.core.lastUsed && t.given == s.given && t.writer == s.writer && t.reader == s.reader
  {
    ProgressKeeps(s, Progress(tick));
    ProgressKeepsCursor(s.core, tick);
  }

  /** All that was written is sent. */
  lemma {:induction false} WriterCatchesUp(s: System, i: nat) returns (actions: seq<Action>)
    requires WriterSide(s) && CursorSound(s.core) && InTouch(s, i)
    ensures AllByItself(s, actions)
    ensures var t := Run(s, actions);
            && WriterSide(t) && CursorSound(t.core) && InTouch(t, i) && t.core.next == |s.given| + 1
            && t.given == s.given && t.writer == s.writer && t.reader == s.reader
    decreases s.core.lastUsed - s.core.next
  {
    if s.core.next > s.core.lastUsed {
      actions := [];
    } else {
      hide WriterSide, CursorSound, InTouch, Protocol.Step;
      ProgressStaysInTouch(s, 0, i);
      RunOne(s, Progress(0));
      var rest := WriterCatchesUp(Protocol.Step(s, Progress(0)), i);
      RunJoins(s, [Progress(0)], rest);
      actions := [Progress(0)] + rest;
    }
  }

  /** From every safe state with a sound cursor, whatever was lost before, the protocol can by itself get to
      one in which the reader expects the number after the last that was written, and every change that the
      writer still has was delivered. */
  lemma EverythingCanArrive(s: System, i: nat) returns (actions: seq<Action>)
    requires WriterSide(s) && ReaderSide(s) && CursorSound(s.core) && InTouch(s, i)
    ensures AllByItself(s, actions)
    ensures var t := Run(s, actions);
            && ReaderSide(t) && t.given == s.given && Expected(t) == |s.given| + 1
            && forall sn :: Live(t.core.history, sn) ==> 1 <= sn <= |s.given| && WasDelivered(t, sn)
  {
    hide WriterSide, ReaderSide, CursorSound, LiveBetween;
    var first := WriterCatchesUp(s, i);
    var t1 := Run(s, first);
    assert 1 <= Expected(s) <= |s.given| + 1 by { ReaderIsBehind(s); }
    assert WellFormed(t1.core) by { WriterIsWellFormed(t1); }
    var rest := ReaderCatchesUp(t1, i);
    BroughtThere(t1, rest, t1.core.next);
    RunJoins(s, first, rest);
    actions := first + rest;
    EndToEndSafety(s, actions);
    var t := Run(s, actions);
    forall sn | Live(t.core.history, sn)
      ensures 1 <= sn <= |s.given| && WasDelivered(t, sn)
    {
      LiveWasGiven(t, sn);
      LiveMeansDelivered(t, [], sn);
    }
  }

  lemma ReaderIsBehind(s: System)
    requires ReaderSide(s)
    ensures 1 <= Expected(s) <= |s.given| + 1
  {
  }

  lemma WriterIsWellFormed(s: System)
    requires WriterSide(s)
    ensures WellFormed(s.core)
  {
  }

  lemma LiveWasGiven(s: System, sn: SN)
    requires WriterSide(s) && Live(s.core.history, sn)
    ensures 1 <= sn <= |s.given|
  {
  }

  // --- Without losses ---

  /** Which envelopes a step of progress puts on the network, and where. */
  lemma ProgressEnvelopes(s: System, tick: nat)
    requires Live(s.core.history, s.core.next)
    ensures var data := DataRound(s.proxies, s.enforceUnicast, s.writer.entityId,
                                  Lookup(s.core.history, s.core.next).value);
            var core := Progressed(s.core, tick);
            var t := Protocol.Step(s, Progress(tick));
            && OnNet(t.net, |s.net|, data)
            && OnNet(t.net, |s.net| + |data|, BeatRound(core, s.proxies, s.writer.entityId, s.hbCount))
            && t == s.(core := core, net := t.net, hbCount := t.hbCount)
  {
    hide DataRound, BeatRound, Progressed, Lookup, Live;
  }

  lemma NextIsGiven(s: System)
    requires WriterSide(s) && CursorSound(s.core) && s.core.next <= s.core.lastUsed
    ensures Live(s.core.history, s.core.next) && 1 <= s.core.next <= |s.given|
    ensures Lookup(s.core.history, s.core.next).value.sn == s.core.next
    ensures Lookup(s.core.history, s.core.next).value.data == Stored(s.given[s.core.next - 1])
  {
    assert Lookup(s.core.history, s.core.next).value in s.core.history;
  }

  /** A reader that is up to date, and is sent to, gets the next change from the first packet for it, and no
      AckNack is needed. */
  lemma FirstPacketDelivers(s: System, tick: nat, i: nat)
    requires WriterSide(s) && CursorSound(s.core) && s.core.next <= s.core.lastUsed
    requires i < |s.proxies| && IsSentTo(s.proxies[i], s.enforceUnicast)
    requires Listens(s.reader, s.writer) && Expected(s) == s.core.next
    ensures 1 <= s.core.next <= |s.given|
    ensures var k := |s.net| + SentTo(s.proxies[..i], s.enforceUnicast);
            var t := Protocol.Step(Protocol.Step(s, Progress(tick)), Deliver(k));
            && t.core.next == s.core.next + 1 && |t.reader.proxies| == 1 && Expected(t) == s.core.next + 1
            && t.reader.sent == s.reader.sent
            && t.reader.delivered
               == s.reader.delivered + [Delivery(s.writer, s.core.next, Stored(s.given[s.core.next - 1]))]
  {
    hide Protocol.Step, DataRound, BeatRound, Progressed, WriterSide;
    NextIsGiven(s);
    var c := Lookup(s.core.history, s.core.next).value;
    WriterIsWellFormed(s);
    ProgressKeepsCursor(s.core, tick);
    ProgressEnvelopes(s, tick);
    DataGoesOut(s.proxies, s.enforceUnicast, s.writer.entityId, c, i);
    var s1 := Protocol.Step(s, Progress(tick));
    DeliverIs(s1, |s.net| + SentTo(s.proxies[..i], s.enforceUnicast));
    assert ExpectingIndex(s.reader.proxies, s.writer, s.core.next) == 0;
  }

  /** If that packet is lost, a heartbeat that follows it announces the change. */
  lemma ProgressAnnounces(s: System, tick: nat, i: nat) returns (k: nat)
    requires WriterSide(s) && CursorSound(s.core) && s.core.next <= s.core.lastUsed
    requires i < |s.proxies| && !LeftAlone(s.core, s.proxies[i])
    ensures var t := Protocol.Step(s, Progress(tick));
            && |s.net| <= k < |t.net|
            && IsBeatSub(t.net[k].sub, s.proxies[i], s.writer.entityId, s.core.next, s.hbCount)
  {
    hide Protocol.Step, DataRound, BeatRound, Progressed, WriterSide;
    NextIsGiven(s);
    var c := Lookup(s.core.history, s.core.next).value;
    WriterIsWellFormed(s);
    ProgressWellFormed(s.core, tick);
    ProgressKeepsCursor(s.core, tick);
    ProgressEnvelopes(s, tick);
    var core := Progressed(s.core, tick);
    BeatsGoOut(core, s.proxies, s.writer.entityId, s.hbCount, i);
    k := |s.net| + |DataRound(s.proxies, s.enforceUnicast, s.writer.entityId, c)| + Told(core, s.proxies[..i]);
  }

  predicate IsBeatSub(sub: Submessage, p: ReaderProxy, writerId: EntityId, last: SN, count: int) {
    && sub.Heartbeat? && sub.readerId == p.remoteReaderGuid.entityId && sub.writerId == writerId
    && sub.lastSN == last && sub.count == count
  }
}
