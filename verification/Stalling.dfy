/** What becomes of a writer from whose history a change is removed that was not sent yet. */
module Stalling {
  import opened RtpsTypes
  import opened History
  import opened WriterSpec

  datatype Operation =
    | Write(data: Payload, inLineQoS: bool, disposeAfterWrite: bool)
    | Work(tick: nat)
    | Sweep(now: nat, retention: nat)
    | Remove(sn: SN)

  function Performed(w: Core, op: Operation): Core {
    match op
    case Write(data, inLineQoS, disposeAfterWrite) => NewChanged(w, data, inLineQoS, disposeAfterWrite)
    case Work(tick) => Progressed(w, tick)
    case Sweep(now, retention) => Swept(w, now, retention)
    case Remove(sn) => Removed(w, sn)
  }

  function PerformedAll(w: Core, ops: seq<Operation>): Core {
    if ops == [] then w else Performed(PerformedAll(w, ops[..|ops| - 1]), ops[|ops| - 1])
  }

  /** There is a hole at sn, and the cursor has not passed it. */
  ghost predicate StuckAt(w: Core, sn: SN) {
    WellFormed(w) && w.next <= sn <= w.lastUsed && !Live(w.history, sn)
  }

  /** Overwriting a full history whose changes are all newer than sn moves the cursor past sn. */
  predicate Overwrites(w: Core, sn: SN, op: Operation) {
    op.Write? && |w.history| == w.capacity && sn < MinSN(w)
  }

  /** As long as it is stuck, the writer sends nothing from sn on. */
  lemma StuckSendsOnlyBefore(w: Core, sn: SN)
    requires StuckAt(w, sn) && Live(w.history, w.next)
    ensures w.next < sn
  {
  }

  lemma StuckKeepsLast(w: Core, op: Operation)
    requires WellFormed(w)
    ensures WellFormed(Performed(w, op)) && Later(w, Performed(w, op))
  {
    match op
    case Write(data, inLineQoS, disposeAfterWrite) =>
      NewChangeWellFormed(w, data, inLineQoS, disposeAfterWrite);
      NewChangeLater(w, data, inLineQoS, disposeAfterWrite);
    case Work(tick) => ProgressWellFormed(w, tick); ProgressLater(w, tick);
    case Sweep(now, retention) => SweepLater(w, now, retention);
    case Remove(sn) => RemovalWellFormed(w, sn);
  }

  /** The writer stays stuck through any operation but one. */
  lemma StuckUntil(w: Core, sn: SN, op: Operation)
    requires StuckAt(w, sn)
    ensures StuckAt(Performed(w, op), sn) <==> !Overwrites(w, sn, op)
  {
    StuckKeepsLast(w, op);
    match op
    case Write(_, _, _) => MinIsLive(w);
    case Work(_) =>
    case Sweep(now, retention) => SweepOnlyDrops(w, now, retention);
    case Remove(_) =>
  }

  lemma MinIsLive(w: Core)
    requires WellFormed(w)
    ensures w.history != [] ==> Live(w.history, MinSN(w))
  {
    if w.history != [] { LookupAt(w.history, 0); }
  }

  /** None of the operations overwrites a history that is newer than sn. */
  predicate NeverOverwrites(w: Core, sn: SN, ops: seq<Operation>) {
    ops == [] ||
    (NeverOverwrites(w, sn, ops[..|ops| - 1]) && !Overwrites(PerformedAll(w, ops[..|ops| - 1]), sn, ops[|ops| - 1]))
  }

  /** After the removal of any change that was not sent, nothing from that number on is sent, until
      a full history has come to hold only newer changes and is overwritten. */
  lemma {:induction false} RemovalOfUnsentStalls(w: Core, sn: SN, ops: seq<Operation>)
    requires WellFormed(w) && w.next <= sn <= w.lastUsed && NeverOverwrites(Removed(w, sn), sn, ops)
    ensures var t := PerformedAll(Removed(w, sn), ops);
            StuckAt(t, sn) && (Live(t.history, t.next) ==> t.next < sn)
  {
    var r := Removed(w, sn);
    if ops == [] {
      RemovalWellFormed(w, sn);
      WithoutRemovesOne(w.history, sn, sn);
    } else {
      RemovalOfUnsentStalls(w, sn, ops[..|ops| - 1]);
      StuckUntil(PerformedAll(r, ops[..|ops| - 1]), sn, ops[|ops| - 1]);
    }
  }
}
