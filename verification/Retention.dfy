/** How long a change stays in the history, and what takes it away. */
module Retention {
  import opened RtpsTypes
  import opened History
  import opened WriterSpec
  import opened Stalling

  /** Progress stamps a change that is to be disposed of with its own tick and queues it; if the queue is
      full, it drops the change; and it leaves any other change as it is. */
  lemma ProgressSchedules(w: Core, tick: nat)
    requires WellFormed(w) && Live(w.history, w.next)
    ensures var w', c, room := Progressed(w, tick), Lookup(w.history, w.next).value, |w.delay| < w.delayCapacity;
            && Lookup(w'.history, w.next) == (if !c.disposeAfterWrite then Some(c)
                                              else if room then Some(c.(sentTickCount := tick))
                                              else None)
            && w'.delay == if c.disposeAfterWrite && room then w.delay + [w.next] else w.delay
  {
    StampedLookup(w.history, w.next, tick, w.next);
    WithoutRemovesOne(Stamped(w.history, w.next, tick), w.next, w.next);
  }

  /** The changes that an operation takes out of the history, other than by a sweep. */
  predicate Takes(w: Core, op: Operation, sn: SN) {
    match op
    case Write(_, _, _) => |w.history| == w.capacity && sn == MinSN(w)
    case Work(_) =>
      && sn == w.next && Live(w.history, sn) && Lookup(w.history, sn).value.disposeAfterWrite
      && |w.delay| >= w.delayCapacity
    case Sweep(_, _) => false
    case Remove(x) => sn == x
  }

  /** What becomes of a live change in one operation that is no sweep: it goes exactly if the operation
      takes it, and otherwise is the same but for the stamp of its own progress call. */
  lemma StaysUnlessTaken(w: Core, op: Operation, sn: SN)
    requires WellFormed(w) && Live(w.history, sn) && sn <= w.lastUsed && !op.Sweep?
    ensures Live(Performed(w, op).history, sn) <==> !Takes(w, op, sn)
    ensures Takes(w, op, sn) ||
            Lookup(Performed(w, op).history, sn) == Lookup(w.history, sn) ||
            (op.Work? && sn == w.next && Lookup(w.history, sn).value.disposeAfterWrite
             && Lookup(Performed(w, op).history, sn) == Some(Lookup(w.history, sn).value.(sentTickCount := op.tick)))
  {
    match op
    case Write(data, inLineQoS, disposeAfterWrite) => NewChangeLookup(w, data, inLineQoS, disposeAfterWrite, sn);
    case Work(tick) =>
      if sn == w.next { ProgressSchedules(w, tick); } else { ProgressLookup(w, tick, sn); }
    case Remove(x) => WithoutRemovesOne(w.history, x, sn);
  }

  /** A sweep leaves alone every change that is not marked, not queued, or not older than the retention
      time. */
  lemma SweepSpares(w: Core, now: nat, retention: nat, c: CacheChange)
    requires WellFormed(w) && Lookup(w.history, c.sn) == Some(c)
    requires !c.disposeAfterWrite || c.sn !in w.delay || Age(now, c.sentTickCount) <= retention
    ensures Lookup(Swept(w, now, retention).history, c.sn) == Some(c)
  {
    var w' := Swept(w, now, retention);
    if c !in w'.history {
      SweepDropsOnlyExpired(w, now, retention, c);
    } else {
      SweepLater(w, now, retention);
      LookupIs(w'.history, c.sn, c);
    }
  }

  /** No early disposal: a change that is sent at some tick survives every sweep up to the retention time
      after that, also if the tick counter turns over in between. */
  lemma KeptAtFirst(w: Core, tick: nat, elapsed: nat, retention: nat)
    requires WellFormed(w) && Live(w.history, w.next) && elapsed <= retention < 0x1_0000_0000
    requires Lookup(w.history, w.next).value.disposeAfterWrite ==> |w.delay| < w.delayCapacity
    ensures var turn := 0x1_0000_0000;
            Live(Swept(Progressed(w, tick % turn), (tick + elapsed) % turn, retention).history, w.next)
  {
    var turn := 0x1_0000_0000;
    var w' := Progressed(w, tick % turn);
    ProgressSchedules(w, tick % turn);
    ProgressWellFormed(w, tick % turn);
    AgeIsElapsed(tick, elapsed);
    SweepSpares(w', (tick + elapsed) % turn, retention, Lookup(w'.history, w.next).value);
  }

  /** Nothing in the run takes the change, and every sweep comes within the retention time after the
      tick with which it was stamped. */
  ghost predicate Spared(w: Core, sn: SN, tick: nat, ops: seq<Operation>) {
    ops == [] ||
    (&& Spared(w, sn, tick, ops[..|ops| - 1])
     && var before, op := PerformedAll(w, ops[..|ops| - 1]), ops[|ops| - 1];
        !Takes(before, op, sn) && (op.Sweep? ==> Age(op.now, tick) <= op.retention))
  }

  /** Once sent, a change stays in the history, with its payload and stamp, through any operations, until
      it is evicted or removed, or a sweep comes later than the retention time after its progress call. */
  lemma {:induction false} StaysWhileYoung(w: Core, tick: nat, ops: seq<Operation>)
    requires Sound(w) && Live(w.history, w.next)
    requires Lookup(w.history, w.next).value.disposeAfterWrite ==> |w.delay| < w.delayCapacity
    requires Spared(Progressed(w, tick), w.next, tick, ops)
    ensures var t, c := PerformedAll(Progressed(w, tick), ops), Lookup(w.history, w.next).value;
            && WellFormed(t) && w.next < t.next
            && Lookup(t.history, w.next) == Some(if c.disposeAfterWrite then c.(sentTickCount := tick) else c)
  {
    var w' := Progressed(w, tick);
    if ops == [] {
      ProgressSchedules(w, tick);
      ProgressWellFormed(w, tick);
      ProgressKeepsCursor(w, tick);
    } else {
      var before, op := PerformedAll(w', ops[..|ops| - 1]), ops[|ops| - 1];
      StaysWhileYoung(w, tick, ops[..|ops| - 1]);
      ThisOneStays(before, op, Lookup(before.history, w.next).value, tick);
    }
  }

  lemma ThisOneStays(w: Core, op: Operation, c: CacheChange, tick: nat)
    requires WellFormed(w) && Lookup(w.history, c.sn) == Some(c) && c.sn < w.next
    requires !Takes(w, op, c.sn) && (c.disposeAfterWrite ==> c.sentTickCount == tick)
    requires op.Sweep? ==> Age(op.now, tick) <= op.retention
    ensures WellFormed(Performed(w, op)) && c.sn < Performed(w, op).next
    ensures Lookup(Performed(w, op).history, c.sn) == Some(c)
  {
    StuckKeepsLast(w, op);
    if op.Sweep? {
      SweepSpares(w, op.now, op.retention, c);
    } else {
      assert c in w.history;
      StaysUnlessTaken(w, op, c.sn);
    }
  }

  /** The k-th waiting number has a change to dispose of. */
  predicate Waits(w: Core, k: nat)
    requires k < |w.delay|
  {
    var found := Lookup(w.history, w.delay[k]);
    found.Some? && found.value.disposeAfterWrite
  }

  predicate IsDue(w: Core, k: nat, now: nat, retention: nat)
    requires k < |w.delay|
  {
    Waits(w, k) && Age(now, Lookup(w.history, w.delay[k]).value.sentTickCount) > retention
  }

  /** Exactly what a sweep does: it takes the first n numbers off the queue and their changes out of the
      history. All of them are due, except that the last may have no change to dispose of; and it stops
      only after such a one, at one that is not due yet, or at the end of the queue. */
  ghost predicate SweepsFirst(w: Core, w': Core, n: nat, now: nat, retention: nat) {
    && n <= |w.delay| && w'.delay == w.delay[n..]
    && StopsAt(w, n, now, retention)
    && (forall sn :: Lookup(w'.history, sn) == if DropsFirst(w, n, sn) then None else Lookup(w.history, sn))
  }

  ghost predicate StopsAt(w: Core, n: nat, now: nat, retention: nat)
    requires n <= |w.delay|
  {
    && (forall k :: 0 <= k < n - 1 ==> IsDue(w, k, now, retention))
    && (n > 0 && Waits(w, n - 1) ==> IsDue(w, n - 1, now, retention))
    && (n < |w.delay| && (n == 0 || Waits(w, n - 1)) ==> Waits(w, n) && !IsDue(w, n, now, retention))
  }

  /** Of the first n waiting numbers, sn is one with a change to dispose of. */
  ghost predicate DropsFirst(w: Core, n: nat, sn: SN)
    requires n <= |w.delay|
  {
    exists k :: 0 <= k < n && w.delay[k] == sn && Waits(w, k)
  }

  lemma {:induction false} SweepIsExact(w: Core, now: nat, retention: nat) returns (n: nat)
    requires WellFormed(w) && forall i, j :: 0 <= i < j < |w.delay| ==> w.delay[i] < w.delay[j]
    ensures SweepsFirst(w, Swept(w, now, retention), n, now, retention)
    decreases |w.delay|
  {
    if w.delay == [] {
      n := 0;
    } else if Stale(w) {
      n := 1;
    } else if !Expired(w, now, retention) {
      n := 0;
    } else {
      var v := Dequeued(Removed(w, w.delay[0]));
      RemovalWellFormed(w, w.delay[0]);
      DisposalGone(w);
      n := SweepIsExact(v, now, retention);
      SweptOneMore(w, v, Swept(v, now, retention), n, now, retention);
      n := n + 1;
    }
  }

  /** v is w after the disposal of the front of the queue. */
  ghost predicate FrontGone(w: Core, v: Core) {
    && w.delay != [] && v.delay == w.delay[1..] && Waits(w, 0)
    && forall sn :: Lookup(v.history, sn) == if sn == w.delay[0] then None else Lookup(w.history, sn)
  }

  lemma DisposalGone(w: Core)
    requires Increasing(w.history) && w.delay != [] && Waits(w, 0)
    ensures FrontGone(w, Dequeued(Removed(w, w.delay[0])))
  {
    forall sn
      ensures Lookup(Without(w.history, w.delay[0]), sn) == if sn == w.delay[0] then None else Lookup(w.history, sn)
    {
      WithoutRemovesOne(w.history, w.delay[0], sn);
    }
  }

  lemma OthersWait(w: Core, v: Core, k: nat, now: nat, retention: nat)
    requires FrontGone(w, v) && k < |v.delay| && w.delay[0] < v.delay[k]
    ensures Waits(v, k) == Waits(w, k + 1) && IsDue(v, k, now, retention) == IsDue(w, k + 1, now, retention)
  {
  }

  lemma StopsOneLater(w: Core, v: Core, n: nat, now: nat, retention: nat)
    requires w.delay != [] && |v.delay| == |w.delay| - 1 && n <= |v.delay|
    requires IsDue(w, 0, now, retention) && StopsAt(v, n, now, retention)
    requires forall k :: 0 <= k < |v.delay| ==>
               Waits(v, k) == Waits(w, k + 1) && IsDue(v, k, now, retention) == IsDue(w, k + 1, now, retention)
    ensures StopsAt(w, n + 1, now, retention)
  {
    assert Waits(w, 0);
    hide Waits, IsDue;
    forall k | 0 <= k < n
      ensures IsDue(w, k, now, retention)
    {
      if k > 0 { assert IsDue(v, k - 1, now, retention); }
    }
  }

  lemma SweptOneMore(w: Core, v: Core, w': Core, n: nat, now: nat, retention: nat)
    requires FrontGone(w, v) && forall i, j :: 0 <= i < j < |w.delay| ==> w.delay[i] < w.delay[j]
    requires IsDue(w, 0, now, retention) && SweepsFirst(v, w', n, now, retention)
    ensures SweepsFirst(w, w', n + 1, now, retention)
  {
    hide Waits, IsDue, StopsAt, DropsFirst;
    forall k | 0 <= k < |v.delay|
      ensures Waits(v, k) == Waits(w, k + 1) && IsDue(v, k, now, retention) == IsDue(w, k + 1, now, retention)
    {
      OthersWait(w, v, k, now, retention);
    }
    StopsOneLater(w, v, n, now, retention);
    forall sn
      ensures Lookup(w'.history, sn) == if DropsFirst(w, n + 1, sn) then None else Lookup(w.history, sn)
    {
      DropsOneMore(w, v, n, sn);
    }
  }

  lemma DropsOneMore(w: Core, v: Core, n: nat, sn: SN)
    requires w.delay != [] && v.delay == w.delay[1..] && n <= |v.delay| && Waits(w, 0)
    requires forall k :: 0 <= k < |v.delay| ==> Waits(v, k) == Waits(w, k + 1)
    ensures DropsFirst(w, n + 1, sn) <==> sn == w.delay[0] || DropsFirst(v, n, sn)
  {
    hide Waits;
    if k :| 0 <= k < n && v.delay[k] == sn && Waits(v, k) {
      assert w.delay[k + 1] == sn && Waits(w, k + 1);
    }
    if k :| 0 <= k < n + 1 && w.delay[k] == sn && Waits(w, k) {
      assert k > 0 ==> v.delay[k - 1] == sn && Waits(v, k - 1);
    }
  }
}
