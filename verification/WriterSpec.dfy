/** What a reliable writer does to its history, its send cursor and its queue of delayed
    disposals, and what holds of them in every state it can reach. */
module WriterSpec {
  import opened RtpsTypes
  import opened History
  import opened Messages

  datatype Core = Core(
    capacity: nat,
    history: seq<CacheChange>,
    lastUsed: SN,
    next: SN,            // m_nextSequenceNumberToSend
    delayCapacity: nat,
    delay: seq<SN>)      // m_disposeWithDelay

  function Fresh(capacity: nat, delayCapacity: nat): Core {
    Core(capacity, [], 0, 1, delayCapacity, [])
  }

  function MinSN(w: Core): SN {
    if w.history == [] then SEQUENCENUMBER_UNKNOWN else w.history[0].sn
  }

  // --- The operations ---

  function NewChanged(w: Core, data: Payload, inLineQoS: bool, disposeAfterWrite: bool): Core {
    var change := CacheChange(ALIVE, inLineQoS, disposeAfterWrite, 0, w.lastUsed + 1, Stored(data));
    w.(history := Newest(w.history + [change], w.capacity),
       lastUsed := w.lastUsed + 1,
       next := if |w.history| == w.capacity then Max(w.next, MinSN(w) + 1) else w.next)
  }

  /** The step that follows the sending of the change at the cursor. */
  function Progressed(w: Core, tick: nat): Core {
    var found := Lookup(w.history, w.next);
    if found == None then w
    else if !found.value.disposeAfterWrite then w.(next := w.next + 1)
    else
      var stamped := Stamped(w.history, w.next, tick);
      if |w.delay| < w.delayCapacity then w.(history := stamped, delay := w.delay + [w.next], next := w.next + 1)
      else w.(history := Without(stamped, w.next), next := w.next + 1)
  }

  function Removed(w: Core, sn: SN): Core {
    w.(history := Without(w.history, sn))
  }

  function Dequeued(w: Core): Core
    requires w.delay != []
  {
    w.(delay := w.delay[1..])
  }

  /** The oldest number in the delay queue has no change to dispose of any more. */
  predicate Stale(w: Core)
    requires w.delay != []
  {
    var found := Lookup(w.history, w.delay[0]);
    found == None || !found.value.disposeAfterWrite
  }

  /** The age of a stamp: the difference of two 32-bit tick counts. */
  function Age(now: nat, stamp: nat): nat {
    (now - stamp) % 0x1_0000_0000
  }

  predicate Expired(w: Core, now: nat, retention: nat)
    requires w.delay != []
  {
    !Stale(w) && Age(now, Lookup(w.history, w.delay[0]).value.sentTickCount) > retention
  }

  function Swept(w: Core, now: nat, retention: nat): Core
    decreases |w.delay|
  {
    if w.delay == [] then w
    else if Stale(w) then Dequeued(w)
    else if Expired(w, now, retention) then Swept(Dequeued(Removed(w, w.delay[0])), now, retention)
    else w
  }

  datatype Range = Range(firstSN: SN, lastSN: SN)

  /** The range a heartbeat announces. */
  function Announced(w: Core): Range {
    if w.history != [] then
      Range(w.history[0].sn, if w.lastUsed >= w.next then w.next - 1 else w.lastUsed)
    else if w.lastUsed == 0 then Range(1, 0)
    else Range(1, w.lastUsed)
  }

  // --- What holds in every reachable state ---

  ghost predicate WellFormed(w: Core) {
    && 1 <= w.capacity && |w.history| <= w.capacity && 0 <= w.lastUsed && 1 <= w.next
    && Increasing(w.history) && AtMost(w.history, w.lastUsed)
    && forall i :: 0 <= i < |w.history| ==> 1 <= w.history[i].sn
  }

  /** Nothing from the cursor on is missing. */
  ghost predicate CursorSound(w: Core) {
    && w.next <= w.lastUsed + 1
    && forall sn :: w.next <= sn <= w.lastUsed ==> Live(w.history, sn)
  }

  /** The delay queue is in order, only holds what was sent, and holds everything that was sent,
      is still live and is to be disposed of. */
  ghost predicate DisposalSound(w: Core) {
    && |w.delay| <= w.delayCapacity
    && (forall i, j :: 0 <= i < j < |w.delay| ==> w.delay[i] < w.delay[j])
    && (forall i :: 0 <= i < |w.delay| ==> w.delay[i] < w.next)
    && (forall c :: c in w.history && c.disposeAfterWrite && c.sn < w.next ==> c.sn in w.delay)
  }

  ghost predicate Sound(w: Core) {
    WellFormed(w) && CursorSound(w) && DisposalSound(w)
  }

  /** A later state of the same writer: a number that was dead or a payload never changes. */
  ghost predicate Later(w: Core, w': Core) {
    && w.lastUsed <= w'.lastUsed && w.next <= w'.next
    && forall sn :: sn <= w.lastUsed && Live(w'.history, sn) ==>
         Live(w.history, sn) && Lookup(w.history, sn).value.data == Lookup(w'.history, sn).value.data
  }

  lemma LaterTransitive(a: Core, b: Core, c: Core)
    requires Later(a, b) && Later(b, c)
    ensures Later(a, c)
  {
  }

  // newChange

  lemma NewChangeLookup(w: Core, data: Payload, inLineQoS: bool, disposeAfterWrite: bool, x: SN)
    requires WellFormed(w)
    ensures var w' := NewChanged(w, data, inLineQoS, disposeAfterWrite);
            Lookup(w'.history, x) ==
            if x == w.lastUsed + 1 then Some(CacheChange(ALIVE, inLineQoS, disposeAfterWrite, 0, x, Stored(data)))
            else if |w.history| == w.capacity && x == MinSN(w) then None
            else Lookup(w.history, x)
  {
    var change := CacheChange(ALIVE, inLineQoS, disposeAfterWrite, 0, w.lastUsed + 1, Stored(data));
    AppendEvictsOldest(w.history, change, w.capacity, x);
  }

  lemma NewChangeWellFormed(w: Core, data: Payload, inLineQoS: bool, disposeAfterWrite: bool)
    requires WellFormed(w)
    ensures WellFormed(NewChanged(w, data, inLineQoS, disposeAfterWrite))
  {
    var change := CacheChange(ALIVE, inLineQoS, disposeAfterWrite, 0, w.lastUsed + 1, Stored(data));
    NewestKeepsOrder(w.history, change, w.capacity);
    var w' := NewChanged(w, data, inLineQoS, disposeAfterWrite);
    forall i | 0 <= i < |w'.history|
      ensures 1 <= w'.history[i].sn
    {
      assert w'.history[i] in w'.history;
    }
  }

  lemma NewChangeLater(w: Core, data: Payload, inLineQoS: bool, disposeAfterWrite: bool)
    requires WellFormed(w)
    ensures Later(w, NewChanged(w, data, inLineQoS, disposeAfterWrite))
  {
    var w' := NewChanged(w, data, inLineQoS, disposeAfterWrite);
    forall sn | sn <= w.lastUsed && Live(w'.history, sn)
      ensures Live(w.history, sn) && Lookup(w.history, sn).value.data == Lookup(w'.history, sn).value.data
    {
      NewChangeLookup(w, data, inLineQoS, disposeAfterWrite, sn);
    }
  }

  lemma NewChangeKeepsCursor(w: Core, data: Payload, inLineQoS: bool, disposeAfterWrite: bool)
    requires WellFormed(w) && CursorSound(w)
    ensures CursorSound(NewChanged(w, data, inLineQoS, disposeAfterWrite))
  {
    var w' := NewChanged(w, data, inLineQoS, disposeAfterWrite);
    forall sn | w'.next <= sn <= w'.lastUsed
      ensures Live(w'.history, sn)
    {
      NewChangeLookup(w, data, inLineQoS, disposeAfterWrite, sn);
    }
  }

  lemma NewChangeKeepsDisposal(w: Core, data: Payload, inLineQoS: bool, disposeAfterWrite: bool)
    requires Sound(w)
    ensures DisposalSound(NewChanged(w, data, inLineQoS, disposeAfterWrite))
  {
    var w' := NewChanged(w, data, inLineQoS, disposeAfterWrite);
    var change := CacheChange(ALIVE, inLineQoS, disposeAfterWrite, 0, w.lastUsed + 1, Stored(data));
    NewestKeepsOrder(w.history, change, w.capacity);
    SkipsOnlyTheEvicted(w, data, inLineQoS, disposeAfterWrite);
  }

  /** The cursor moves over at most one number, and only over the one that is being evicted. */
  lemma SkipsOnlyTheEvicted(w: Core, data: Payload, inLineQoS: bool, disposeAfterWrite: bool)
    requires WellFormed(w) && CursorSound(w)
    ensures var w' := NewChanged(w, data, inLineQoS, disposeAfterWrite);
            w'.next == w.next ||
            (w'.next == w.next + 1 && w.next == MinSN(w) && |w.history| == w.capacity && !Live(w'.history, w.next))
  {
    var w' := NewChanged(w, data, inLineQoS, disposeAfterWrite);
    if w'.next != w.next {
      var k := IndexOf(w.history, w.next);
      assert Live(w.history, w.next);
      assert k == 0;
      NewChangeLookup(w, data, inLineQoS, disposeAfterWrite, w.next);
    }
  }

  lemma NewChangeSound(w: Core, data: Payload, inLineQoS: bool, disposeAfterWrite: bool)
    requires Sound(w)
    ensures Sound(NewChanged(w, data, inLineQoS, disposeAfterWrite))
  {
    NewChangeWellFormed(w, data, inLineQoS, disposeAfterWrite);
    NewChangeKeepsCursor(w, data, inLineQoS, disposeAfterWrite);
    NewChangeKeepsDisposal(w, data, inLineQoS, disposeAfterWrite);
  }

  // progress

  lemma ProgressLookup(w: Core, tick: nat, x: SN)
    requires WellFormed(w)
    ensures var w' := Progressed(w, tick);
            && Increasing(w'.history)
            && (Live(w'.history, x) ==>
                  Live(w.history, x) && Lookup(w'.history, x).value.data == Lookup(w.history, x).value.data)
            && (Live(w.history, x) && x != w.next ==> Lookup(w'.history, x) == Lookup(w.history, x))
  {
    hide Stamped, Without, Lookup, Live, IndexOf;
    var found := Lookup(w.history, w.next);
    if found.Some? && found.value.disposeAfterWrite {
      StampedLookup(w.history, w.next, tick, x);
      if |w.delay| >= w.delayCapacity {
        WithoutRemovesOne(Stamped(w.history, w.next, tick), w.next, x);
        WithoutKeepsOrder(Stamped(w.history, w.next, tick), w.next);
      }
    }
  }

  lemma ProgressWellFormed(w: Core, tick: nat)
    requires WellFormed(w)
    ensures WellFormed(Progressed(w, tick))
  {
    var w' := Progressed(w, tick);
    forall i | 0 <= i < |w'.history|
      ensures 1 <= w'.history[i].sn <= w.lastUsed
    {
      ProgressLookup(w, tick, w'.history[i].sn);
      LookupAt(w'.history, i);
      var k := IndexOf(w.history, w'.history[i].sn);
      assert w.history[k].sn == w'.history[i].sn;
    }
    ProgressLookup(w, tick, w.next);
  }

  lemma ProgressLater(w: Core, tick: nat)
    requires WellFormed(w)
    ensures Later(w, Progressed(w, tick))
  {
    forall sn | Live(Progressed(w, tick).history, sn)
      ensures Live(w.history, sn)
              && Lookup(w.history, sn).value.data == Lookup(Progressed(w, tick).history, sn).value.data
    {
      ProgressLookup(w, tick, sn);
    }
  }

  lemma ProgressKeepsCursor(w: Core, tick: nat)
    requires WellFormed(w) && CursorSound(w)
    ensures CursorSound(Progressed(w, tick))
    ensures Progressed(w, tick).next == if w.next <= w.lastUsed then w.next + 1 else w.next
    ensures Lookup(w.history, w.next).Some? <==> w.next <= w.lastUsed
  {
    if Live(w.history, w.next) {
      var k := IndexOf(w.history, w.next);
      assert w.history[k].sn <= w.lastUsed;
    }
    var w' := Progressed(w, tick);
    forall sn | w'.next <= sn <= w'.lastUsed
      ensures Live(w'.history, sn)
    {
      assert Live(w.history, sn);
      ProgressLookup(w, tick, sn);
    }
  }

  lemma ProgressKeepsDisposal(w: Core, tick: nat)
    requires Sound(w)
    ensures DisposalSound(Progressed(w, tick))
  {
    var w' := Progressed(w, tick);
    if w' != w {
      forall c | c in w'.history && c.disposeAfterWrite && c.sn < w'.next
        ensures c.sn in w'.delay
      {
        ProgressLookup(w, tick, c.sn);
        LookupIs(w'.history, c.sn, c);
        if c.sn == w.next {
          CursorIsQueued(w, tick);
        } else {
          assert c == Lookup(w.history, c.sn).value;
          assert c.sn in w.delay;
        }
      }
    }
  }

  /** What progress sends and keeps although it is to be disposed of goes to the end of the queue. */
  lemma CursorIsQueued(w: Core, tick: nat)
    requires WellFormed(w) && Live(w.history, w.next) && Live(Progressed(w, tick).history, w.next)
    ensures Lookup(Progressed(w, tick).history, w.next).value.disposeAfterWrite
            ==> Progressed(w, tick).delay == w.delay + [w.next]
  {
    var found := Lookup(w.history, w.next);
    if found.value.disposeAfterWrite {
      StampedLookup(w.history, w.next, tick, w.next);
      WithoutRemovesOne(Stamped(w.history, w.next, tick), w.next, w.next);
    }
  }

  lemma ProgressSound(w: Core, tick: nat)
    requires Sound(w)
    ensures Sound(Progressed(w, tick))
  {
    ProgressWellFormed(w, tick);
    ProgressKeepsCursor(w, tick);
    ProgressKeepsDisposal(w, tick);
  }

  // removeFromHistory

  lemma RemovalWellFormed(w: Core, sn: SN)
    requires WellFormed(w)
    ensures WellFormed(Removed(w, sn)) && Later(w, Removed(w, sn))
  {
    WithoutKeepsOrder(w.history, sn);
    var h := Without(w.history, sn);
    forall i | 0 <= i < |h|
      ensures 1 <= h[i].sn <= w.lastUsed
    {
      assert h[i] in w.history;
    }
    forall x | Live(h, x)
      ensures Lookup(h, x) == Lookup(w.history, x)
    {
      WithoutRemovesOne(w.history, sn, x);
    }
  }

  /** Removal leaves the cursor sound exactly when it does not take away what is still to be sent. */
  lemma RemovalKeepsCursorIff(w: Core, sn: SN)
    requires WellFormed(w) && CursorSound(w)
    ensures CursorSound(Removed(w, sn)) <==> !(w.next <= sn <= w.lastUsed)
  {
    forall x
      ensures Live(Removed(w, sn).history, x) <==> x != sn && Live(w.history, x)
    {
      WithoutRemovesOne(w.history, sn, x);
    }
    assert !Live(Removed(w, sn).history, sn);
    if !(w.next <= sn <= w.lastUsed) {
      assert forall x :: w.next <= x <= w.lastUsed ==> Live(Removed(w, sn).history, x);
    }
  }

  lemma RemovalSound(w: Core, sn: SN)
    requires Sound(w) && !(w.next <= sn <= w.lastUsed)
    ensures Sound(Removed(w, sn))
  {
    RemovalWellFormed(w, sn);
    RemovalKeepsCursorIff(w, sn);
    WithoutKeepsOrder(w.history, sn);
  }

  // dropDisposeAfterWriteChanges

  lemma WithoutDrops(h: seq<CacheChange>, sn: SN)
    ensures forall c :: c in Without(h, sn) ==> c in h
  {
  }

  lemma DequeuedWellFormed(w: Core)
    requires WellFormed(w) && w.delay != []
    ensures WellFormed(Dequeued(w))
  {
  }

  lemma SuffixOfRest(s: seq<SN>, n: nat)
    requires n < |s|
    ensures s[1..][|s| - 1 - n..] == s[|s| - n..]
  {
  }

  /** Computed from two wrapping counts, the age is the time that has passed, up to whole turns of
      the counter: never more than that time, and exactly that within one turn. */
  lemma AgeIsElapsed(stamp: nat, elapsed: nat)
    ensures var turn := 0x1_0000_0000;
            Age((stamp + elapsed) % turn, stamp % turn) == elapsed % turn <= elapsed
  {
    var turn := 0x1_0000_0000;
    var d := (stamp + elapsed) / turn - stamp / turn;
    assert (stamp + elapsed) % turn - stamp % turn == elapsed - turn * d;
  }

  /** The sweep takes changes out of the history and numbers off the front of the queue, and
      touches nothing else. */
  lemma {:induction false} SweepOnlyDrops(w: Core, now: nat, retention: nat)
    requires WellFormed(w)
    ensures var w' := Swept(w, now, retention);
            && w' == w.(history := w'.history, delay := w'.delay)
            && (forall c :: c in w'.history ==> c in w.history)
            && |w'.delay| <= |w.delay| && w'.delay == w.delay[|w.delay| - |w'.delay|..]
    decreases |w.delay|
  {
    hide Stale, Expired, WellFormed;
    if w.delay != [] && !Stale(w) && Expired(w, now, retention) {
      var v := Dequeued(Removed(w, w.delay[0]));
      RemovalWellFormed(w, w.delay[0]);
      WithoutDrops(w.history, w.delay[0]);
      hide Without;
      assert WellFormed(v) by { DequeuedWellFormed(Removed(w, w.delay[0])); }
      SweepOnlyDrops(v, now, retention);
      SuffixOfRest(w.delay, |Swept(v, now, retention).delay|);
    }
  }

  /** It only drops changes marked for disposal that are older than the retention time. */
  lemma {:induction false} SweepDropsOnlyExpired(w: Core, now: nat, retention: nat, c: CacheChange)
    requires WellFormed(w) && c in w.history && c !in Swept(w, now, retention).history
    ensures c.sn in w.delay && c.disposeAfterWrite && Age(now, c.sentTickCount) > retention
    decreases |w.delay|
  {
    if w.delay != [] && Expired(w, now, retention) {
      LookupIs(w.history, c.sn, c);
      if c.sn != w.delay[0] {
        hide Expired, Stale, Lookup, Without;
        RemovalWellFormed(w, w.delay[0]);
        WithoutKeepsOrder(w.history, w.delay[0]);
        SweepDropsOnlyExpired(Dequeued(Removed(w, w.delay[0])), now, retention, c);
      }
    }
  }

  lemma {:induction false} SweepLater(w: Core, now: nat, retention: nat)
    requires WellFormed(w)
    ensures WellFormed(Swept(w, now, retention)) && Later(w, Swept(w, now, retention))
    ensures Swept(w, now, retention).lastUsed == w.lastUsed
    decreases |w.delay|
  {
    if w.delay != [] && Expired(w, now, retention) {
      RemovalWellFormed(w, w.delay[0]);
      var v := Dequeued(Removed(w, w.delay[0]));
      SweepLater(v, now, retention);
      LaterTransitive(w, v, Swept(v, now, retention));
    }
  }

  lemma {:induction false} SweepSound(w: Core, now: nat, retention: nat)
    requires Sound(w)
    ensures Sound(Swept(w, now, retention))
    decreases |w.delay|
  {
    if w.delay != [] {
      if Stale(w) {
        forall c | c in w.history && c.sn == w.delay[0]
          ensures !c.disposeAfterWrite
        {
          LookupIs(w.history, c.sn, c);
        }
        DequeueSound(w);
      } else if Expired(w, now, retention) {
        RemovalSound(w, w.delay[0]);
        RemovalWellFormed(w, w.delay[0]);
        WithoutKeepsOrder(w.history, w.delay[0]);
        DequeueSound(Removed(w, w.delay[0]));
        var v := Dequeued(Removed(w, w.delay[0]));
        SweepSound(v, now, retention);
      }
    }
  }

  // Eventual disposal

  /** Every change that waits for its disposal is older than the retention time. */
  ghost predicate AllOld(w: Core, now: nat, retention: nat) {
    forall c :: c in w.history && c.sn in w.delay && c.disposeAfterWrite ==> Age(now, c.sentTickCount) > retention
  }

  /** One sweep after another, each at its own tick. */
  function SweptOften(w: Core, ticks: seq<nat>, retention: nat): Core
    decreases |ticks|
  {
    if ticks == [] then w else SweptOften(Swept(w, ticks[0], retention), ticks[1..], retention)
  }

  /** A sweep that finds everything old gets on by at least one number. */
  lemma {:induction false} SweepGetsOn(w: Core, now: nat, retention: nat)
    requires WellFormed(w) && AllOld(w, now, retention) && w.delay != []
    ensures |Swept(w, now, retention).delay| < |w.delay|
  {
    if !Stale(w) {
      var v := Dequeued(Removed(w, w.delay[0]));
      assert Expired(w, now, retention);
      RemovalWellFormed(w, w.delay[0]);
      SweepOnlyDrops(v, now, retention);
    }
  }

  lemma SweepKeepsOld(w: Core, now: nat, later: nat, retention: nat)
    requires WellFormed(w) && AllOld(w, later, retention)
    ensures AllOld(Swept(w, now, retention), later, retention)
  {
    SweepOnlyDrops(w, now, retention);
  }

  /** As many sweeps as numbers wait, at ticks at which all of them are old, leave no change that was
      sent and is to be disposed of. */
  lemma {:induction false} SweepsDisposeOfAll(w: Core, ticks: seq<nat>, retention: nat)
    requires Sound(w) && |w.delay| <= |ticks|
    requires forall k :: 0 <= k < |ticks| ==> AllOld(w, ticks[k], retention)
    ensures var t := SweptOften(w, ticks, retention);
            t.delay == [] && forall c :: c in t.history && c.disposeAfterWrite ==> c.sn >= t.next
    decreases |ticks|
  {
    if ticks != [] {
      var v := Swept(w, ticks[0], retention);
      SweepSound(w, ticks[0], retention);
      SweepOnlyDrops(w, ticks[0], retention);
      if w.delay != [] { SweepGetsOn(w, ticks[0], retention); }
      forall k | 0 <= k < |ticks[1..]|
        ensures AllOld(v, ticks[1..][k], retention)
      {
        SweepKeepsOld(w, ticks[0], ticks[k + 1], retention);
      }
      SweepsDisposeOfAll(v, ticks[1..], retention);
    }
  }

  /** The front of the queue can go once no live change that is to be disposed of has its number. */
  lemma DequeueSound(w: Core)
    requires Sound(w) && w.delay != []
    requires forall c :: c in w.history && c.disposeAfterWrite ==> c.sn != w.delay[0] || c.sn in w.delay[1..]
    ensures Sound(Dequeued(w))
  {
    assert forall sn :: sn in w.delay ==> sn == w.delay[0] || sn in w.delay[1..];
  }

  // sendHeartBeat

  /** Every announced range ends just before the cursor; it includes all that was sent and is
      still live, and what lies before it is dead. */
  lemma HeartbeatTellsTheTruth(w: Core)
    requires WellFormed(w) && CursorSound(w)
    ensures var r := Announced(w);
            && r.lastSN == w.next - 1 && 1 <= r.firstSN <= r.lastSN + 1
            && (forall sn :: Live(w.history, sn) && sn < w.next ==> r.firstSN <= sn <= r.lastSN)
            && (forall sn :: sn < r.firstSN ==> !Live(w.history, sn))
  {
    NoneBelowFirst(w);
    if w.next <= w.lastUsed {
      assert Live(w.history, w.next);
    }
  }

  /** An emptied writer announces everything from the first number on. */
  lemma EmptiedAnnouncesFromOne(w: Core)
    ensures w.history == [] ==> Announced(w).firstSN == 1
  {
  }

  /** Even if the cursor is not sound, nothing below the announced first number is live. */
  lemma NoneBelowFirst(w: Core)
    requires WellFormed(w)
    ensures 1 <= Announced(w).firstSN <= w.lastUsed + 1
    ensures forall sn :: sn < Announced(w).firstSN ==> !Live(w.history, sn)
    ensures w.history != [] ==> Live(w.history, w.history[0].sn) && MinSN(w) == Announced(w).firstSN
  {
    if w.history != [] {
      LookupAt(w.history, 0);
    }
    forall sn | sn < Announced(w).firstSN
      ensures !Live(w.history, sn)
    {
      LookupNone(w.history, sn);
    }
  }
}
