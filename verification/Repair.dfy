/** One heartbeat, the request it provokes and the answers to that repair every loss. */
module Repair {
  import opened RtpsTypes
  import opened Endpoints
  import opened Messages
  import opened History
  import opened WriterSpec
  import opened NackService
  import opened ReaderSpec
  import opened StatefulWriter
  import opened Protocol

  /** The live changes numbered from from up to to, as the callbacks should see them. */
  function LiveBetween(writer: Guid, h: seq<CacheChange>, from: SN, to: SN): seq<Delivery>
    decreases to + 1 - from
  {
    if from > to then []
    else (if Live(h, from) then [Delivery(writer, from, Lookup(h, from).value.data)] else [])
         + LiveBetween(writer, h, from + 1, to)
  }

  lemma {:induction false} DeadBetween(writer: Guid, h: seq<CacheChange>, from: SN, n: SN, to: SN)
    requires from <= n && forall k :: from <= k < n ==> !Live(h, k)
    ensures LiveBetween(writer, h, from, to) == LiveBetween(writer, h, n, to)
    decreases n - from
  {
    if from < n {
      DeadBetween(writer, h, from + 1, n, to);
    }
  }

  /** A reader that listens to the writer. */
  ghost predicate Listens(r: ReaderState, writer: Guid) {
    r.initialized && r.callbackCount > 0 && |r.proxies| == 1 && r.proxies[0].remoteWriterGuid == writer
  }

  /** From r to r' the reader saw exactly the given changes, and now expects sn. */
  ghost predicate BroughtTo(r: ReaderState, r': ReaderState, writer: Guid, sn: SN, seen: seq<Delivery>) {
    Listens(r', writer) && r'.proxies[0].expectedSN == sn && r'.delivered == r.delivered + seen
  }

  lemma BroughtFurther(r: ReaderState, r1: ReaderState, r2: ReaderState, writer: Guid, sn1: SN, sn2: SN,
                       seen1: seq<Delivery>, seen2: seq<Delivery>)
    requires BroughtTo(r, r1, writer, sn1, seen1) && BroughtTo(r1, r2, writer, sn2, seen2)
    ensures BroughtTo(r, r2, writer, sn2, seen1 + seen2)
  {
  }

  /** The packets that follow one another from the writer to the reader. */
  function ArrivalsOf(writer: Guid, packets: seq<Packet>): seq<Arrival> {
    seq(|packets|, k requires 0 <= k < |packets| => Arrival(writer.prefix, packets[k].sub))
  }

  function Handled(r: ReaderState, writer: Guid, packets: seq<Packet>): ReaderState {
    ReceivedAll(r, ArrivalsOf(writer, packets))
  }

  lemma {:induction false} RepliesInTurn(p: ReaderProxy, writerId: EntityId, replies: seq<Reply>)
    ensures |RepliesTo(p, writerId, replies)| == |replies|
    ensures forall k :: 0 <= k < |replies| ==> RepliesTo(p, writerId, replies)[k] == ReplyTo(p, writerId, replies[k])
  {
    if replies != [] {
      RepliesInTurn(p, writerId, replies[..|replies| - 1]);
    }
  }

  /** Handling the replies is handling the first and then the rest. */
  lemma HandleFirst(r: ReaderState, writer: Guid, p: ReaderProxy, first: Reply, rest: seq<Reply>)
    ensures Handled(r, writer, RepliesTo(p, writer.entityId, [first] + rest))
            == Handled(Received(r, writer.prefix, ReplyTo(p, writer.entityId, first).sub), writer,
                       RepliesTo(p, writer.entityId, rest))
  {
    RepliesInTurn(p, writer.entityId, [first] + rest);
    RepliesInTurn(p, writer.entityId, rest);
    var all := ArrivalsOf(writer, RepliesTo(p, writer.entityId, [first] + rest));
    assert all[1..] == ArrivalsOf(writer, RepliesTo(p, writer.entityId, rest));
    assert all[0] == Arrival(writer.prefix, ReplyTo(p, writer.entityId, first).sub);
  }

  lemma ReplyMoves(r: ReaderState, writer: Guid, p: ReaderProxy, reply: Reply)
    requires Listens(r, writer) && First(reply) == r.proxies[0].expectedSN && First(reply) < End(reply)
    ensures BroughtTo(r, Received(r, writer.prefix, ReplyTo(p, writer.entityId, reply).sub), writer, End(reply),
                      if reply.SendData? then [Delivery(writer, reply.sn, reply.data)] else [])
  {
    assert ProxyIndex(r.proxies, writer) == 0;
    if reply.SendGap? {
      EmptyGapSkips(r.proxies[0].expectedSN, reply.firstMissing, reply.nextValid);
    }
  }

  /** A request whose first m bits are set is served from bit i on: a reader that expects that
      number is brought to n, at or beyond the last number asked for and not beyond the cursor. */
  lemma {:induction false} ServingRepairs(w: Core, set_: SequenceNumberSet, m: nat, i: nat,
                                          r: ReaderState, writer: Guid, p: ReaderProxy) returns (n: SN)
    requires CursorSound(w) && AsksFirst(set_, m) && set_.base + m <= w.next && set_.base + i <= w.next
    requires Listens(r, writer) && r.proxies[0].expectedSN == set_.base + i
    ensures set_.base + Max(m, i) <= n <= w.next
    ensures BroughtTo(r, Handled(r, writer, RepliesTo(p, writer.entityId, Serve(w.history, w.lastUsed, set_, i))),
                      writer, n, LiveBetween(writer, w.history, set_.base + i, n - 1))
    decreases w.next - (set_.base + i)
  {
    hide Received, Handled, RepliesTo, Serve, LiveBetween;
    if i >= m {
      NothingToHandle(r, writer, p);
      NothingServed(w.history, w.lastUsed, set_, m, i);
      n := set_.base + i;
      assert LiveBetween(writer, w.history, n, n - 1) == [] by { NothingAfter(writer, w.history, n, n - 1); }
    } else {
      var next := Resume(w.history, w.lastUsed, set_, i);
      var first := NackService.Step(w.history, w.lastUsed, set_, i)[0];
      var rest := Serve(w.history, w.lastUsed, set_, next - set_.base);
      ServeStep(w.history, w.lastUsed, set_, i);
      StopsAtCursor(w, set_, i);
      assert Serve(w.history, w.lastUsed, set_, i) == [first] + rest;
      HandleFirst(r, writer, p, first, rest);
      ReplyMoves(r, writer, p, first);
      var r1 := Received(r, writer.prefix, ReplyTo(p, writer.entityId, first).sub);
      n := ServingRepairs(w, set_, m, next - set_.base, r1, writer, p);
      LiveFrom(w, set_, i, n - 1, writer);
      BroughtFurther(r, r1, Handled(r1, writer, RepliesTo(p, writer.entityId, rest)), writer, next, n,
                     if first.SendData? then [Delivery(writer, first.sn, first.data)] else [],
                     LiveBetween(writer, w.history, next, n - 1));
    }
  }

  lemma NothingToHandle(r: ReaderState, writer: Guid, p: ReaderProxy)
    ensures Handled(r, writer, RepliesTo(p, writer.entityId, [])) == r
  {
    assert ArrivalsOf(writer, RepliesTo(p, writer.entityId, [])) == [];
  }

  lemma {:induction false} NothingServed(h: seq<CacheChange>, last: SN, set_: SequenceNumberSet, m: nat, i: nat)
    requires AsksFirst(set_, m) && m <= i
    ensures Serve(h, last, set_, i) == []
    decreases last + 1 - (set_.base + i)
  {
    if i < set_.numBits && set_.base + i <= last {
      NothingServed(h, last, set_, m, i + 1);
    }
  }

  /** What one reply contributes to the changes that should be seen. */
  lemma LiveFrom(w: Core, set_: SequenceNumberSet, i: nat, to: SN, writer: Guid)
    requires CursorSound(w) && set_.base + i <= to && set_.base + i < w.next && set_.IsSet(i)
    ensures set_.base + i <= w.lastUsed
    ensures var n, first := Resume(w.history, w.lastUsed, set_, i), NackService.Step(w.history, w.lastUsed, set_, i)[0];
            LiveBetween(writer, w.history, set_.base + i, to)
            == (if first.SendData? then [Delivery(writer, first.sn, first.data)] else [])
               + LiveBetween(writer, w.history, n, to)
  {
    StopsAtCursor(w, set_, i);
    var n := Resume(w.history, w.lastUsed, set_, i);
    DeadBetween(writer, w.history, set_.base + i + 1, n, to);
  }

  /** No Gap for a number below the cursor reaches beyond it. */
  lemma StopsAtCursor(w: Core, set_: SequenceNumberSet, i: nat)
    requires CursorSound(w) && set_.base + i < w.next
    ensures Resume(w.history, w.lastUsed, set_, i) <= w.next
    ensures forall k :: set_.base + i < k < Resume(w.history, w.lastUsed, set_, i) ==> !Live(w.history, k)
  {
    if w.next <= w.lastUsed { assert Live(w.history, w.next); }
  }

  /** The set that the reader asked for last. */
  function LastRequest(r: ReaderState): SequenceNumberSet {
    if r.sent != [] && r.sent[|r.sent| - 1].sub.AckNack? then r.sent[|r.sent| - 1].sub.readerSNState
    else SequenceNumberSet(0, 0, EMPTY_BITMAP)
  }

  /** The heartbeat moves the reader to the first number announced, and makes it ask for all
      from there to the last. */
  lemma HeartbeatProvokes(r: ReaderState, writer: Guid, beat: Submessage)
    requires Listens(r, writer) && beat.Heartbeat? && beat.writerId == writer.entityId
    ensures var r', e := Received(r, writer.prefix, beat), Max(r.proxies[0].expectedSN, beat.firstSN);
            && Listens(r', writer) && r'.proxies[0].expectedSN == e && r'.delivered == r.delivered
            && |r'.sent| == |r.sent| + 1 && LastRequest(r') == Missing(e, beat.lastSN)
  {
    assert ProxyIndex(r.proxies, writer) == 0;
  }

  /** A heartbeat that announces nothing new changes neither what is expected nor what was seen. */
  lemma {:induction false} IdleBeats(r: ReaderState, writer: Guid, packets: seq<Packet>)
    requires Listens(r, writer)
    requires forall k :: 0 <= k < |packets| ==>
               packets[k].sub.Heartbeat? && packets[k].sub.writerId == writer.entityId
               && packets[k].sub.firstSN <= r.proxies[0].expectedSN
    ensures var r' := Handled(r, writer, packets);
            Listens(r', writer) && r'.proxies[0].expectedSN == r.proxies[0].expectedSN && r'.delivered == r.delivered
    decreases |packets|
  {
    if packets != [] {
      assert ProxyIndex(r.proxies, writer) == 0;
      assert ArrivalsOf(writer, packets)[1..] == ArrivalsOf(writer, packets[1..]);
      IdleBeats(Received(r, writer.prefix, packets[0].sub), writer, packets[1..]);
    }
  }

  lemma {:induction false} BeatsAnnounce(w: Core, proxies: seq<ReaderProxy>, writerId: EntityId, count: int)
    ensures forall k :: 0 <= k < |BeatRound(w, proxies, writerId, count)| ==>
              var sub := BeatRound(w, proxies, writerId, count)[k].sub;
              && sub.Heartbeat? && sub.writerId == writerId
              && sub.firstSN == Announced(w).firstSN && sub.lastSN == Announced(w).lastSN
  {
    if proxies != [] {
      BeatsAnnounce(w, proxies[..|proxies| - 1], writerId, count);
    }
  }

  /** A heartbeat round with a given count to the given readers, of which the k-th packet reaches ours;
      and, when the writer answers, what it knows of ours and of all of them, and the count then. */
  datatype Turn = Turn(count: int, proxies: seq<ReaderProxy>, k: nat,
                       ours: ReaderProxy, known: seq<ReaderProxy>, nextCount: int)

  predicate Sends(w: Core, writer: Guid, t: Turn) {
    t.k < |BeatRound(w, t.proxies, writer.entityId, t.count)|
  }

  /** The reader handles a heartbeat that the writer sends, the writer answers the AckNack that the reader
      sends in return, on an unchanged history, and the reader handles the answers in order. */
  function Round(w: Core, r: ReaderState, writer: Guid, t: Turn): ReaderState
    requires Sends(w, writer, t)
  {
    var beat := BeatRound(w, t.proxies, writer.entityId, t.count)[t.k];
    var r1 := Received(r, writer.prefix, beat.sub);
    Handled(r1, writer, Answers(w, t.ours, LastRequest(r1), t.known, writer.entityId, t.nextCount))
  }

  /** What a round achieves: the reader gets to the number after the last announced one, or at
      least 32 numbers further, and its callbacks see exactly the live changes that it passes, in
      ascending order. */
  ghost predicate Repaired(w: Core, r: ReaderState, r': ReaderState, writer: Guid)
    requires |r.proxies| == 1 && |r'.proxies| == 1
  {
    var e, n, lastSN := r.proxies[0].expectedSN, r'.proxies[0].expectedSN, Announced(w).lastSN;
    && BroughtTo(r, r', writer, n, LiveBetween(writer, w.history, e, n - 1))
    && Min(lastSN + 1, Max(e, Announced(w).firstSN) + 32) <= n && e <= n <= Max(e, lastSN + 1)
  }

  lemma RoundRepairs(w: Core, r: ReaderState, writer: Guid, t: Turn)
    requires WellFormed(w) && CursorSound(w) && Sends(w, writer, t)
    requires Listens(r, writer) && 1 <= r.proxies[0].expectedSN
    ensures |Round(w, r, writer, t).proxies| == 1 && Repaired(w, r, Round(w, r, writer, t), writer)
  {
    hide Received, Handled, Answers, Missing, Increasing, AtMost, LiveBetween, Live, LastRequest, BeatRound;
    var range, e := Announced(w), r.proxies[0].expectedSN;
    var e1 := Max(e, range.firstSN);
    BeatsAnnounce(w, t.proxies, writer.entityId, t.count);
    var beat := BeatRound(w, t.proxies, writer.entityId, t.count)[t.k];
    var r1 := Received(r, writer.prefix, beat.sub);
    HeartbeatProvokes(r, writer, beat.sub);
    HeartbeatTellsTheTruth(w);
    NoneBelowFirst(w);
    var n := AnswersRepair(w, r1, writer, t.ours, t.known, t.nextCount, LastRequest(r1));
    DeadBetween(writer, w.history, e, e1, n - 1);
  }

  lemma AnswersRepair(w: Core, r: ReaderState, writer: Guid, p: ReaderProxy, proxies: seq<ReaderProxy>,
                      count: int, set_: SequenceNumberSet) returns (n: SN)
    requires WellFormed(w) && CursorSound(w) && Listens(r, writer) && r.proxies[0].expectedSN >= Announced(w).firstSN
    requires set_ == Missing(r.proxies[0].expectedSN, Announced(w).lastSN)
    ensures var e, lastSN := r.proxies[0].expectedSN, Announced(w).lastSN;
            var r' := Handled(r, writer, Answers(w, p, set_, proxies, writer.entityId, count));
            && BroughtTo(r, r', writer, n, LiveBetween(writer, w.history, e, n - 1))
            && Min(lastSN + 1, e + 32) <= n && e <= n <= Max(e, lastSN + 1)
  {
    hide Received, Handled, Serve, RepliesTo, BeatRound, Increasing, AtMost, BroughtTo, LiveBetween, Missing, AsksFirst;
    HeartbeatTellsTheTruth(w);
    NoneBelowFirst(w);
    AsksForMissing(r.proxies[0].expectedSN, Announced(w).lastSN);
    if Responded(w, set_).Beat? {
      n := BeatsRepair(w, r, writer, proxies, count);
    } else if w.history == [] {
      EmptiedRepairs(w, r, writer, p, set_);
      n := Max(r.proxies[0].expectedSN, w.lastUsed + 1);
    } else {
      n := r.proxies[0].expectedSN;
      if n <= w.next {
        n := ServeMissing(w, set_, Min(set_.numBits, 32), r, writer, p);
      } else {
        NothingMissing(w, r, writer, p, set_);
      }
    }
  }

  /** A writer that never had a change answers with heartbeats. */
  lemma BeatsRepair(w: Core, r: ReaderState, writer: Guid, proxies: seq<ReaderProxy>, count: int) returns (n: SN)
    requires Listens(r, writer) && r.proxies[0].expectedSN >= Announced(w).firstSN
    ensures n == r.proxies[0].expectedSN
    ensures BroughtTo(r, Handled(r, writer, BeatRound(w, proxies, writer.entityId, count)), writer, n,
                      LiveBetween(writer, w.history, n, n - 1))
  {
    hide Handled, BeatRound;
    n := r.proxies[0].expectedSN;
    BeatsAnnounce(w, proxies, writer.entityId, count);
    IdleBeats(r, writer, BeatRound(w, proxies, writer.entityId, count));
    NothingAfter(writer, w.history, n, n - 1);
  }

  lemma StaysBehind(w: Core, r: ReaderState, writer: Guid, n: SN)
    requires Listens(r, writer) && n == r.proxies[0].expectedSN
    ensures BroughtTo(r, r, writer, n, LiveBetween(writer, w.history, n, n - 1))
  {
    NothingAfter(writer, w.history, n, n - 1);
  }

  /** A reader that is ahead of the cursor asks for nothing and gets nothing. */
  lemma NothingMissing(w: Core, r: ReaderState, writer: Guid, p: ReaderProxy, set_: SequenceNumberSet)
    requires Listens(r, writer) && w.next < r.proxies[0].expectedSN
    requires set_ == Missing(r.proxies[0].expectedSN, w.next - 1)
    ensures var n := r.proxies[0].expectedSN;
            BroughtTo(r, Handled(r, writer, RepliesTo(p, writer.entityId, Serve(w.history, w.lastUsed, set_, 0))),
                      writer, n, LiveBetween(writer, w.history, n, n - 1))
  {
    hide Handled, RepliesTo, Serve, BroughtTo, LiveBetween;
    NothingServed(w.history, w.lastUsed, set_, 0, 0);
    NothingToHandle(r, writer, p);
    StaysBehind(w, r, writer, r.proxies[0].expectedSN);
  }

  lemma ServeMissing(w: Core, set_: SequenceNumberSet, m: nat, r: ReaderState, writer: Guid, p: ReaderProxy)
    returns (n: SN)
    requires CursorSound(w) && AsksFirst(set_, m) && set_.base + m <= w.next
    requires Listens(r, writer) && r.proxies[0].expectedSN == set_.base
    ensures set_.base + m <= n <= w.next
    ensures BroughtTo(r, Handled(r, writer, RepliesTo(p, writer.entityId, Serve(w.history, w.lastUsed, set_, 0))),
                      writer, n, LiveBetween(writer, w.history, set_.base, n - 1))
  {
    n := ServingRepairs(w, set_, m, 0, r, writer, p);
  }

  /** A writer whose history has been emptied answers with one Gap. */
  lemma EmptiedRepairs(w: Core, r: ReaderState, writer: Guid, p: ReaderProxy, set_: SequenceNumberSet)
    requires w.history == [] && Listens(r, writer) && set_.base == r.proxies[0].expectedSN
    ensures var e, n := r.proxies[0].expectedSN, Max(r.proxies[0].expectedSN, w.lastUsed + 1);
            var r' := Handled(r, writer, RepliesTo(p, writer.entityId, [SendGap(set_.base, w.lastUsed + 1)]));
            BroughtTo(r, r', writer, n, LiveBetween(writer, w.history, e, n - 1))
  {
    var e, gap := r.proxies[0].expectedSN, SendGap(set_.base, w.lastUsed + 1);
    assert [gap] + [] == [gap];
    HandleFirst(r, writer, p, gap, []);
    NothingToHandle(Received(r, writer.prefix, ReplyTo(p, writer.entityId, gap).sub), writer, p);
    assert ProxyIndex(r.proxies, writer) == 0;
    EmptyGapSkips(e, e, w.lastUsed + 1);
    DeadBetween(writer, w.history, e, Max(e, w.lastUsed + 1), Max(e, w.lastUsed + 1) - 1);
  }

  /** If no more than 32 numbers are missing, one round brings the reader up to date. */
  lemma OneRoundRepairs(w: Core, r: ReaderState, writer: Guid, t: Turn)
    requires WellFormed(w) && CursorSound(w) && Sends(w, writer, t)
    requires Listens(r, writer) && 1 <= r.proxies[0].expectedSN
    requires w.next - r.proxies[0].expectedSN <= 32
    ensures var e := r.proxies[0].expectedSN;
            BroughtTo(r, Round(w, r, writer, t), writer, Max(e, w.next), LiveBetween(writer, w.history, e, w.next - 1))
  {
    hide Round;
    RoundRepairs(w, r, writer, t);
    HeartbeatTellsTheTruth(w);
  }

  // --- Any number of missing changes ---

  /** One round after another. */
  function Rounds(w: Core, r: ReaderState, writer: Guid, turns: seq<Turn>): ReaderState
    requires forall k :: 0 <= k < |turns| ==> Sends(w, writer, turns[k])
    decreases |turns|
  {
    if turns == [] then r else Rounds(w, Round(w, r, writer, turns[0]), writer, turns[1..])
  }

  lemma {:induction false} LiveJoins(writer: Guid, h: seq<CacheChange>, a: SN, b: SN, c: SN)
    requires a <= b <= c + 1
    ensures LiveBetween(writer, h, a, b - 1) + LiveBetween(writer, h, b, c) == LiveBetween(writer, h, a, c)
    decreases b - a
  {
    if a < b {
      LiveJoins(writer, h, a + 1, b, c);
    }
  }

  /** However much is missing: as many rounds as it takes at 32 numbers each bring the reader up to
      date, and its callbacks see exactly the live changes, in ascending order. */
  lemma {:induction false} RoundsRepair(w: Core, r: ReaderState, writer: Guid, turns: seq<Turn>)
    requires WellFormed(w) && CursorSound(w) && Listens(r, writer) && 1 <= r.proxies[0].expectedSN
    requires forall k :: 0 <= k < |turns| ==> Sends(w, writer, turns[k])
    requires w.next - r.proxies[0].expectedSN <= 32 * |turns|
    ensures var e := r.proxies[0].expectedSN;
            BroughtTo(r, Rounds(w, r, writer, turns), writer, Max(e, w.next),
                      LiveBetween(writer, w.history, e, w.next - 1))
    decreases |turns|
  {
    hide Round, LiveBetween;
    var e, lastSN := r.proxies[0].expectedSN, w.next - 1;
    HeartbeatTellsTheTruth(w);
    if turns == [] {
      assert LiveBetween(writer, w.history, e, lastSN) == [] by { NothingAfter(writer, w.history, e, lastSN); }
    } else {
      var r1 := Round(w, r, writer, turns[0]);
      RoundRepairs(w, r, writer, turns[0]);
      RoundsRepair(w, r1, writer, turns[1..]);
      var n := r1.proxies[0].expectedSN;
      if e <= lastSN + 1 {
        LiveJoins(writer, w.history, e, n, lastSN);
      } else {
        NothingAfter(writer, w.history, e, lastSN);
        NothingAfter(writer, w.history, e, n - 1);
      }
      BroughtFurther(r, r1, Rounds(w, r1, writer, turns[1..]), writer, n, Max(n, lastSN + 1),
                     LiveBetween(writer, w.history, e, n - 1), LiveBetween(writer, w.history, n, lastSN));
    }
  }

  lemma NothingAfter(writer: Guid, h: seq<CacheChange>, from: SN, to: SN)
    requires from > to
    ensures LiveBetween(writer, h, from, to) == []
  {
  }

  // --- A request from below the history ---

  /** A reader that asks for numbers below everything that the writer still has is brought, whatever it
      asks for beyond them, exactly to the least live number, and sees nothing. */
  lemma RequestBelowHistory(w: Core, r: ReaderState, writer: Guid, p: ReaderProxy, set_: SequenceNumberSet,
                            proxies: seq<ReaderProxy>, count: int, n: SN)
    requires WellFormed(w) && Listens(r, writer) && 1 <= set_.base == r.proxies[0].expectedSN < n
    requires Live(w.history, n) && forall sn :: sn < n ==> !Live(w.history, sn)
    ensures BroughtTo(r, Handled(r, writer, Answers(w, p, set_, proxies, writer.entityId, count)), writer, n, [])
  {
    NoneBelowFirst(w);
    SomethingWritten(w, n);
    var gap := SendGap(set_.base, n);
    assert Answers(w, p, set_, proxies, writer.entityId, count) == RepliesTo(p, writer.entityId, [gap]);
    assert [gap] + [] == [gap];
    HandleFirst(r, writer, p, gap, []);
    NothingToHandle(Received(r, writer.prefix, ReplyTo(p, writer.entityId, gap).sub), writer, p);
    ReplyMoves(r, writer, p, gap);
  }

  lemma SomethingWritten(w: Core, n: SN)
    requires WellFormed(w) && Live(w.history, n)
    ensures w.history != [] && n <= w.lastUsed
  {
  }
}
