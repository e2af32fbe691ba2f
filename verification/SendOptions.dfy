/** How a writer decides, per matched reader, between unicast and a shared multicast address. */
module SendOptions {
  import opened RtpsTypes
  import opened Endpoints
  import opened Sequences

  type Proxies = seq<ReaderProxy>

  predicate SameGroup(a: ReaderProxy, b: ReaderProxy) {
    a.remoteMulticastLocator.address == b.remoteMulticastLocator.address
  }

  predicate Multicasts(p: ReaderProxy) {
    p.remoteMulticastLocator.kind == UDPv4
  }

  /** The condition under which av and p can share one multicast packet. */
  predicate Rivals(av: ReaderProxy, p: ReaderProxy) {
    Multicasts(av) && SameGroup(av, p) && av.remoteLocator.address != p.remoteLocator.address
  }

  predicate HasRival(ps: Proxies, i: nat)
    requires i < |ps|
  {
    exists j :: 0 <= j < |ps| && Rivals(ps[j], ps[i])
  }

  function Unicast(p: ReaderProxy): ReaderProxy {
    p.(useMulticast := false, suppressUnicast := false)
  }

  /** Proxy i takes over for proxy j, if that is still sent unicast. */
  function Meet(ps: Proxies, i: nat, j: nat): (r: Proxies)
    requires i < |ps| && j < |ps|
    ensures |r| == |ps|
  {
    if Rivals(ps[j], ps[i]) && !ps[j].suppressUnicast then
      ps[j := ps[j].(useMulticast := false, suppressUnicast := true)]
        [i := ps[i].(useMulticast := true, suppressUnicast := true,
                     unknownEid := ps[i].unknownEid
                                   || ps[j].remoteReaderGuid.entityId != ps[i].remoteReaderGuid.entityId)]
    else ps
  }

  function Scan(ps: Proxies, i: nat, j: nat): (r: Proxies)
    requires i < |ps| && j <= |ps|
    ensures |r| == |ps|
    decreases |ps| - j
  {
    if j == |ps| then ps else Scan(Meet(ps, i, j), i, j + 1)
  }

  function ManageOne(ps: Proxies, i: nat): (r: Proxies)
    requires i < |ps|
    ensures |r| == |ps|
  {
    if ps[i].remoteMulticastLocator.kind == INVALID_LOCATOR then ps[i := Unicast(ps[i])]
    else
      var scanned := Scan(ps, i, 0);
      if HasRival(ps, i) then scanned else scanned[i := Unicast(scanned[i])]
  }

  function ManageFrom(ps: Proxies, i: nat): (r: Proxies)
    requires i <= |ps|
    ensures |r| == |ps|
    decreases |ps| - i
  {
    if i == |ps| then ps else ManageFrom(ManageOne(ps, i), i + 1)
  }

  function Reset(ps: Proxies): (r: Proxies)
    ensures |r| == |ps|
  {
    seq(|ps|, i requires 0 <= i < |ps| => Unicast(ps[i]).(unknownEid := false))
  }

  /** Two lists of proxies that differ in nothing but the send options. */
  ghost predicate SameReaders(ps: Proxies, qs: Proxies) {
    |ps| == |qs| && forall i :: 0 <= i < |ps| ==> SameReader(ps[i], qs[i])
  }

  predicate SameReader(p: ReaderProxy, q: ReaderProxy) {
    q == p.(useMulticast := q.useMulticast, suppressUnicast := q.suppressUnicast, unknownEid := q.unknownEid)
  }

  // --- What holds in every reachable state ---

  ghost predicate SendsFor(ps: Proxies, k: int, i: int)
    requires 0 <= i < |ps|
  {
    0 <= k < |ps| && ps[k].useMulticast && SameGroup(ps[k], ps[i])
  }

  /** A packet of proxy k is for reader i too: it names no reader, or one of the same entity id. */
  ghost predicate Suits(ps: Proxies, k: int, i: int)
    requires 0 <= i < |ps|
  {
    SendsFor(ps, k, i) && (ps[k].unknownEid || !OtherId(ps[k], ps[i]))
  }

  predicate OtherId(a: ReaderProxy, b: ReaderProxy) {
    a.remoteReaderGuid.entityId != b.remoteReaderGuid.entityId
  }

  ghost predicate HasSender(ps: Proxies, i: nat)
    requires i < |ps|
  {
    exists k :: Suits(ps, k, i)
  }

  ghost predicate HasOther(ps: Proxies, i: nat)
    requires i < |ps|
  {
    exists j :: 0 <= j < |ps| && OtherInGroup(ps[j], ps[i])
  }

  predicate OtherInGroup(a: ReaderProxy, b: ReaderProxy) {
    SameGroup(a, b) && OtherId(a, b)
  }

  /** A proxy that sends multicast has someone to share the packet with; a reader whose unicast
      is suppressed has a proxy that sends to its multicast address, itself or one it meets, in a way that
      does not exclude its entity id. Ids are only given up in groups that have more than one. */
  ghost predicate ConsistentAt(ps: Proxies, i: nat)
    requires i < |ps|
  {
    && (ps[i].useMulticast ==>
          ps[i].suppressUnicast && ps[i].remoteMulticastLocator.kind != INVALID_LOCATOR && HasRival(ps, i))
    && (ps[i].suppressUnicast ==> HasSender(ps, i))
    && (ps[i].suppressUnicast && !ps[i].useMulticast ==> Multicasts(ps[i]))
    && (ps[i].unknownEid ==> HasOther(ps, i))
  }

  ghost predicate Consistent(ps: Proxies) {
    forall i: nat :: i < |ps| ==> ConsistentAt(ps, i)
  }

  lemma SameRivals(ps: Proxies, qs: Proxies, i: nat)
    requires SameReaders(ps, qs) && i < |ps|
    ensures HasRival(ps, i) <==> HasRival(qs, i)
  {
    if j :| 0 <= j < |ps| && Rivals(ps[j], ps[i]) {
      assert Rivals(qs[j], qs[i]);
    }
    if j :| 0 <= j < |qs| && Rivals(qs[j], qs[i]) {
      assert Rivals(ps[j], ps[i]);
    }
  }

  /** No change of options takes the sender away from a reader, if senders go on sending. */
  lemma SameSenders(ps: Proxies, qs: Proxies, i: nat)
    requires SameReaders(ps, qs) && i < |ps|
    requires forall k :: 0 <= k < |ps| && ps[k].useMulticast ==>
               qs[k].useMulticast && (ps[k].unknownEid ==> qs[k].unknownEid)
    ensures HasSender(ps, i) ==> HasSender(qs, i)
    ensures HasOther(ps, i) ==> HasOther(qs, i)
  {
    if k :| Suits(ps, k, i) {
      assert Suits(qs, k, i);
    }
    if j :| 0 <= j < |ps| && OtherInGroup(ps[j], ps[i]) {
      assert OtherInGroup(qs[j], qs[i]);
    }
  }

  lemma MeetKeepsAt(ps: Proxies, i: nat, j: nat, x: nat)
    requires i < |ps| && j < |ps| && x < |ps|
    requires ConsistentAt(ps, i) && ConsistentAt(ps, j) && ConsistentAt(ps, x)
    requires ps[i].remoteMulticastLocator.kind != INVALID_LOCATOR
    ensures SameReaders(ps, Meet(ps, i, j)) && ConsistentAt(Meet(ps, i, j), x)
  {
    var qs := Meet(ps, i, j);
    SameRivals(ps, qs, x);
    SameSenders(ps, qs, x);
    if qs != ps && (x == i || x == j) {
      assert Rivals(ps[j], ps[i]);
      assert Suits(qs, i, x);
      assert OtherId(ps[j], ps[i]) ==> OtherInGroup(qs[j], qs[i]);
    }
  }

  lemma MeetKeeps(ps: Proxies, i: nat, j: nat)
    requires i < |ps| && j < |ps|
    requires Consistent(ps) && ps[i].remoteMulticastLocator.kind != INVALID_LOCATOR
    ensures SameReaders(ps, Meet(ps, i, j)) && Consistent(Meet(ps, i, j))
  {
    forall x: nat | x < |ps|
      ensures SameReaders(ps, Meet(ps, i, j)) && ConsistentAt(Meet(ps, i, j), x)
    {
      MeetKeepsAt(ps, i, j, x);
    }
  }

  lemma {:induction false} ScanKeeps(ps: Proxies, i: nat, j: nat)
    requires i < |ps| && j <= |ps|
    requires Consistent(ps) && ps[i].remoteMulticastLocator.kind != INVALID_LOCATOR
    ensures SameReaders(ps, Scan(ps, i, j)) && Consistent(Scan(ps, i, j))
    decreases |ps| - j
  {
    if j < |ps| {
      MeetKeeps(ps, i, j);
      ScanKeeps(Meet(ps, i, j), i, j + 1);
    }
  }

  /** A proxy that does not send multicast can go back to unicast. */
  lemma UnicastKeeps(ps: Proxies, i: nat)
    requires i < |ps| && Consistent(ps) && !ps[i].useMulticast
    ensures SameReaders(ps, ps[i := Unicast(ps[i])]) && Consistent(ps[i := Unicast(ps[i])])
  {
    var qs := ps[i := Unicast(ps[i])];
    forall x: nat | x < |ps|
      ensures ConsistentAt(qs, x)
    {
      assert ConsistentAt(ps, x);
      SameRivals(ps, qs, x);
      SameSenders(ps, qs, x);
    }
  }

  lemma ManageOneKeeps(ps: Proxies, i: nat)
    requires i < |ps| && Consistent(ps)
    ensures SameReaders(ps, ManageOne(ps, i)) && Consistent(ManageOne(ps, i))
  {
    assert ConsistentAt(ps, i);
    if ps[i].remoteMulticastLocator.kind == INVALID_LOCATOR {
      UnicastKeeps(ps, i);
    } else {
      ScanKeeps(ps, i, 0);
      var scanned := Scan(ps, i, 0);
      if !HasRival(ps, i) {
        SameRivals(ps, scanned, i);
        assert ConsistentAt(scanned, i);
        UnicastKeeps(scanned, i);
      }
    }
  }

  lemma {:induction false} ManageKeeps(ps: Proxies, i: nat)
    requires i <= |ps| && Consistent(ps)
    ensures SameReaders(ps, ManageFrom(ps, i)) && Consistent(ManageFrom(ps, i))
    decreases |ps| - i
  {
    if i < |ps| {
      ManageOneKeeps(ps, i);
      ManageKeeps(ManageOne(ps, i), i + 1);
    }
  }

  /** A newly matched reader starts out with unicast; the pool decides where in the order it comes. */
  function Inserted(ps: Proxies, at: nat, p: ReaderProxy): Proxies
    requires at <= |ps|
  {
    ps[..at] + [p] + ps[at..]
  }

  lemma InsertKeepsAt(ps: Proxies, at: nat, p: ReaderProxy, x: nat)
    requires at <= |ps| && x < |ps| && ConsistentAt(ps, x)
    ensures ConsistentAt(Inserted(ps, at, p), if x < at then x else x + 1)
  {
    var qs, y := Inserted(ps, at, p), if x < at then x else x + 1;
    if j :| 0 <= j < |ps| && Rivals(ps[j], ps[x]) {
      assert Rivals(qs[if j < at then j else j + 1], qs[y]);
    }
    if k :| Suits(ps, k, x) {
      assert Suits(qs, if k < at then k else k + 1, y);
    }
    if j :| 0 <= j < |ps| && OtherInGroup(ps[j], ps[x]) {
      assert OtherInGroup(qs[if j < at then j else j + 1], qs[y]);
    }
  }

  lemma InsertKeeps(ps: Proxies, at: nat, p: ReaderProxy)
    requires at <= |ps| && Consistent(ps) && !p.useMulticast && !p.suppressUnicast && !p.unknownEid
    ensures Consistent(Inserted(ps, at, p))
  {
    forall y: nat | y <= |ps|
      ensures ConsistentAt(Inserted(ps, at, p), y)
    {
      if y != at {
        InsertKeepsAt(ps, at, p, if y < at then y else y - 1);
      }
    }
  }

  /** The changes a writer's list of proxies goes through. */
  datatype Change =
    | Match(reader: Guid, locator: Locator, multicastLocator: Locator, at: nat)
    | Unmatch(guid: Guid)
    | UnmatchParticipant(prefix: GuidPrefix)

  function NewProxy(reader: Guid, locator: Locator, multicastLocator: Locator): ReaderProxy {
    ReaderProxy(reader, locator, multicastLocator, false, false, false, 0, false, 1)
  }

  function Applied(ps: Proxies, change: Change, capacity: nat, enforceUnicast: bool): Proxies {
    match change
    case Match(reader, locator, multicastLocator, at) =>
      var p := NewProxy(reader, locator, multicastLocator);
      var grown := if |ps| < capacity && at <= |ps| then Inserted(ps, at, p) else ps;
      if enforceUnicast then grown else ManageFrom(grown, 0)
    case Unmatch(guid) =>
      ManageFrom(Reset(Filter(ps, (p: ReaderProxy) => p.remoteReaderGuid != guid)), 0)
    case UnmatchParticipant(prefix) =>
      ManageFrom(Reset(Filter(ps, (p: ReaderProxy) => p.remoteReaderGuid.prefix != prefix)), 0)
  }

  function Run(changes: seq<Change>, capacity: nat, enforceUnicast: bool): Proxies {
    if changes == [] then []
    else
      var before := Run(changes[..|changes| - 1], capacity, enforceUnicast);
      Applied(before, changes[|changes| - 1], capacity, enforceUnicast)
  }

  lemma ChangeKeeps(ps: Proxies, change: Change, capacity: nat, enforceUnicast: bool)
    requires Consistent(ps)
    ensures Consistent(Applied(ps, change, capacity, enforceUnicast))
  {
    match change
    case Match(reader, locator, multicastLocator, at) =>
      var p := NewProxy(reader, locator, multicastLocator);
      if |ps| < capacity && at <= |ps| {
        InsertKeeps(ps, at, p);
        ManageKeeps(Inserted(ps, at, p), 0);
      } else {
        ManageKeeps(ps, 0);
      }
    case Unmatch(guid) =>
      ManageKeeps(Reset(Filter(ps, (p: ReaderProxy) => p.remoteReaderGuid != guid)), 0);
    case UnmatchParticipant(prefix) =>
      ManageKeeps(Reset(Filter(ps, (p: ReaderProxy) => p.remoteReaderGuid.prefix != prefix)), 0);
  }

  ghost predicate Has(ps: Proxies, p: ReaderProxy) {
    exists i :: 0 <= i < |ps| && SameReader(ps[i], p)
  }

  lemma SameReadersHave(ps: Proxies, qs: Proxies, p: ReaderProxy)
    requires SameReaders(ps, qs)
    ensures Has(ps, p) <==> Has(qs, p)
  {
    if i :| 0 <= i < |ps| && SameReader(ps[i], p) {
      assert SameReader(qs[i], p);
    }
    if i :| 0 <= i < |qs| && SameReader(qs[i], p) {
      assert SameReader(ps[i], p);
    }
  }

  lemma FilterHas(ps: Proxies, keep: ReaderProxy -> bool, p: ReaderProxy)
    requires forall q :: SameReader(q, p) ==> keep(q) == keep(p)
    ensures Has(Filter(ps, keep), p) <==> Has(ps, p) && keep(p)
  {
    var kept := Filter(ps, keep);
    if i :| 0 <= i < |kept| && SameReader(kept[i], p) {
      assert kept[i] in ps;
    }
    if i :| 0 <= i < |ps| && SameReader(ps[i], p) && keep(p) {
      assert ps[i] in kept;
    }
  }

  /** Who is matched after a change: with all that is known of them, those that were before, but for the
      ones that leave; and the new one, if there was room. */
  lemma WhoIsMatched(ps: Proxies, change: Change, capacity: nat, enforceUnicast: bool, p: ReaderProxy)
    requires Consistent(ps)
    ensures Has(Applied(ps, change, capacity, enforceUnicast), p) <==>
            match change
            case Match(reader, locator, multicastLocator, at) =>
              || Has(ps, p)
              || (|ps| < capacity && at <= |ps| && SameReader(NewProxy(reader, locator, multicastLocator), p))
            case Unmatch(guid) => Has(ps, p) && p.remoteReaderGuid != guid
            case UnmatchParticipant(prefix) => Has(ps, p) && p.remoteReaderGuid.prefix != prefix
  {
    match change
    case Match(reader, locator, multicastLocator, at) =>
      var q := NewProxy(reader, locator, multicastLocator);
      if |ps| < capacity && at <= |ps| {
        InsertKeeps(ps, at, q);
        InsertHas(ps, at, q, p);
        ManageKeeps(Inserted(ps, at, q), 0);
        SameReadersHave(Inserted(ps, at, q), ManageFrom(Inserted(ps, at, q), 0), p);
      } else {
        ManageKeeps(ps, 0);
        SameReadersHave(ps, ManageFrom(ps, 0), p);
      }
    case Unmatch(guid) => LeavesOnly(ps, (q: ReaderProxy) => q.remoteReaderGuid != guid, p);
    case UnmatchParticipant(prefix) => LeavesOnly(ps, (q: ReaderProxy) => q.remoteReaderGuid.prefix != prefix, p);
  }

  lemma InsertHas(ps: Proxies, at: nat, q: ReaderProxy, p: ReaderProxy)
    requires at <= |ps|
    ensures Has(Inserted(ps, at, q), p) <==> Has(ps, p) || SameReader(q, p)
  {
    var qs := Inserted(ps, at, q);
    if i :| 0 <= i < |ps| && SameReader(ps[i], p) {
      assert SameReader(qs[if i < at then i else i + 1], p);
    }
    if SameReader(q, p) {
      assert SameReader(qs[at], p);
    }
  }

  lemma LeavesOnly(ps: Proxies, keep: ReaderProxy -> bool, p: ReaderProxy)
    requires forall q :: SameReader(q, p) ==> keep(q) == keep(p)
    ensures Has(ManageFrom(Reset(Filter(ps, keep)), 0), p) <==> Has(ps, p) && keep(p)
  {
    var kept := Filter(ps, keep);
    FilterHas(ps, keep, p);
    SameReadersHave(kept, Reset(kept), p);
    ManageKeeps(Reset(kept), 0);
    SameReadersHave(Reset(kept), ManageFrom(Reset(kept), 0), p);
  }

  /** A newly matched reader has confirmed nothing. */
  lemma NewReaderConfirmedNothing(reader: Guid, locator: Locator, multicastLocator: Locator)
    ensures var p := NewProxy(reader, locator, multicastLocator);
            && p.remoteReaderGuid == reader
            && p.remoteLocator == locator && p.remoteMulticastLocator == multicastLocator
            && p.ackNackCount == 0 && !p.finalFlag && p.lastAckNackSequenceNumber == 1
            && !p.useMulticast && !p.suppressUnicast && !p.unknownEid
  {
  }

  /** Where the packet for a proxy goes, if there is one. */
  datatype Destination = Destination(address: uint32, port: uint16)

  function DestinationOf(p: ReaderProxy): Option<Destination> {
    if p.useMulticast then Some(Destination(p.remoteMulticastLocator.address, p.remoteMulticastLocator.port))
    else if !p.suppressUnicast then Some(Destination(p.remoteLocator.address, p.remoteLocator.port))
    else None
  }

  /** Some packet of a round over all proxies goes to the reader's own unicast address or to its
      multicast address. */
  ghost predicate Covered(ps: Proxies, i: nat)
    requires i < |ps|
  {
    || DestinationOf(ps[i]) == Some(Destination(ps[i].remoteLocator.address, ps[i].remoteLocator.port))
    || exists k :: 0 <= k < |ps| && DestinationOf(ps[k]).Some? && Suits(ps, k, i)
                   && DestinationOf(ps[k]).value.address == ps[i].remoteMulticastLocator.address
  }

  /** Over any history of matching and removing readers, every reader is covered. */
  lemma {:induction false} EveryReaderIsCovered(changes: seq<Change>, capacity: nat, enforceUnicast: bool)
    ensures Consistent(Run(changes, capacity, enforceUnicast))
    ensures var ps := Run(changes, capacity, enforceUnicast);
            forall i :: 0 <= i < |ps| ==> Covered(ps, i)
  {
    if changes != [] {
      EveryReaderIsCovered(changes[..|changes| - 1], capacity, enforceUnicast);
      var before := Run(changes[..|changes| - 1], capacity, enforceUnicast);
      ChangeKeeps(before, changes[|changes| - 1], capacity, enforceUnicast);
    }
    var ps := Run(changes, capacity, enforceUnicast);
    forall i: nat | i < |ps|
      ensures Covered(ps, i)
    {
      assert ConsistentAt(ps, i);
      if ps[i].suppressUnicast {
        var k :| Suits(ps, k, i);
        assert DestinationOf(ps[k]).Some?;
      }
    }
  }

  /** A packet of a round arrives at the reader's unicast address, or at its multicast address and
      at its own port there. The planner compares addresses and not ports, so that a reader can be
      covered and not be reached. */
  ghost predicate Reached(ps: Proxies, i: nat)
    requires i < |ps|
  {
    var p := ps[i];
    exists k :: 0 <= k < |ps| && DestinationOf(ps[k]).Some?
                && (|| (k == i && !p.useMulticast)
                    || (ps[k].useMulticast && DestinationOf(ps[k]).value
                        == Destination(p.remoteMulticastLocator.address, p.remoteMulticastLocator.port)))
  }

  ghost predicate SendsToPortOf(ps: Proxies, k: int, i: int)
    requires 0 <= i < |ps|
  {
    SendsFor(ps, k, i) && ps[k].remoteMulticastLocator.port == ps[i].remoteMulticastLocator.port
  }

  /** In any state that matching and removing readers can lead to: a reader is reached exactly when
      it is sent unicast or a sender of its group uses its port. */
  lemma ReachedNowIff(ps: Proxies, i: nat)
    requires Consistent(ps) && i < |ps|
    ensures Reached(ps, i) <==> !ps[i].suppressUnicast || exists k :: SendsToPortOf(ps, k, i)
  {
    assert ConsistentAt(ps, i);
    if !ps[i].suppressUnicast {
      assert DestinationOf(ps[i]).Some?;
    } else if k :| SendsToPortOf(ps, k, i) {
      assert DestinationOf(ps[k]).Some?;
    } else if Reached(ps, i) {
      var k :| 0 <= k < |ps| && DestinationOf(ps[k]).Some? && ps[k].useMulticast
               && DestinationOf(ps[k]).value
                  == Destination(ps[i].remoteMulticastLocator.address, ps[i].remoteMulticastLocator.port);
      assert SendsToPortOf(ps, k, i);
    }
  }

  /** Two readers with one multicast address and different ports there: the second gets nothing. */
  lemma NotReachedOnAnotherPort(first: Guid, second: Guid)
    requires first != second
    ensures var a, b, m := Locator(UDPv4, 1, 7400), Locator(UDPv4, 2, 7400), Locator(UDPv4, 100, 7401);
            var ps := Run([Match(first, a, m, 0), Match(second, b, m.(port := 7402), 1)], 2, false);
            && |ps| == 2 && ps[1].remoteReaderGuid == second && Covered(ps, 1) && !Reached(ps, 1)
  {
    var a, b, m := Locator(UDPv4, 1, 7400), Locator(UDPv4, 2, 7400), Locator(UDPv4, 100, 7401);
    var one, two := Match(first, a, m, 0), Match(second, b, m.(port := 7402), 1);
    var p, q := NewProxy(first, a, m), NewProxy(second, b, m.(port := 7402));
    assert [one, two][..1] == [one] && [one][..0] == [];
    assert Run([one], 2, false) == [p] by {
      assert Inserted([], 0, p) == [p];
      assert !HasRival([p], 0);
      assert Scan([p], 0, 0) == Scan([p], 0, 1) == [p];
      assert ManageFrom([p], 0) == ManageFrom([p], 1);
    }
    assert Inserted([p], 1, q) == [p, q];
    var ps0 := [p, q];
    assert Rivals(ps0[1], ps0[0]) && Rivals(ps0[0], ps0[1]);
    var ps1 := Meet(Meet(ps0, 0, 0), 0, 1);
    assert Meet(ps0, 0, 0) == ps0;
    assert Scan(ps0, 0, 0) == Scan(ps0, 0, 1) == Scan(ps1, 0, 2) == ps1;
    assert Rivals(ps1[0], ps1[1]);
    assert Meet(ps1, 1, 0) == ps1 == Meet(ps1, 1, 1);
    assert Scan(ps1, 1, 0) == Scan(ps1, 1, 1) == Scan(ps1, 1, 2) == ps1;
    assert ManageFrom(ps0, 0) == ManageFrom(ps1, 1) == ManageFrom(ps1, 2) == ps1;
    assert Suits(ps1, 0, 1);
  }

  // --- After a reset: one sender for each group ---

  ghost predicate PlainKinds(ps: Proxies) {
    forall i :: 0 <= i < |ps| ==> ps[i].remoteMulticastLocator.kind == INVALID_LOCATOR || Multicasts(ps[i])
  }

  ghost predicate DistinctUnicast(ps: Proxies) {
    forall i, j :: 0 <= i < j < |ps| ==> ps[i].remoteLocator.address != ps[j].remoteLocator.address
  }

  /** Whether one of the first n proxies is in the group of proxy i. */
  ghost predicate GroupBegunBy(ps: Proxies, n: nat, i: nat)
    requires n <= |ps| && i < |ps|
  {
    exists l :: 0 <= l < n && Multicasts(ps[l]) && SameGroup(ps[l], ps[i])
  }

  /** The options once the first n proxies have been handled: the first of each group sends. */
  ghost predicate PlannedUpTo(ps: Proxies, n: nat)
    requires n <= |ps|
  {
    forall i: nat :: i < |ps| ==> PlannedAt(ps, n, i)
  }

  ghost predicate PlannedAt(ps: Proxies, n: nat, i: nat)
    requires n <= |ps| && i < |ps|
  {
    && (ps[i].useMulticast <==> i < n && Multicasts(ps[i]) && HasRival(ps, i) && !GroupBegunBy(ps, i, i))
    && (ps[i].suppressUnicast <==> Multicasts(ps[i]) && HasRival(ps, i) && GroupBegunBy(ps, n, i))
  }

  /** While proxy i, the first of its group, is being compared with proxy j and later ones. */
  ghost predicate PlannedWithin(ps: Proxies, qs: Proxies, i: nat, j: nat)
    requires i < |ps| == |qs| && j <= |ps|
  {
    && SameReaders(ps, qs)
    && (forall x :: 0 <= x < |ps| && x != i ==>
          && qs[x].useMulticast == ps[x].useMulticast
          && qs[x].suppressUnicast == (ps[x].suppressUnicast || (x < j && Rivals(ps[x], ps[i]))))
    && qs[i].useMulticast == qs[i].suppressUnicast == (exists x :: 0 <= x < j && Rivals(ps[x], ps[i]))
  }

  lemma {:induction false} ScanPlans(ps: Proxies, qs: Proxies, i: nat, j: nat)
    requires i < |ps| == |qs| && j <= |ps|
    requires forall x :: 0 <= x < |ps| && Rivals(ps[x], ps[i]) ==> !ps[x].suppressUnicast && !ps[x].useMulticast
    requires PlannedWithin(ps, qs, i, j)
    ensures PlannedWithin(ps, Scan(qs, i, j), i, |ps|)
    decreases |ps| - j
  {
    hide PlannedWithin, Meet, Rivals;
    if j < |ps| {
      MeetPlans(ps, qs, i, j);
      ScanPlans(ps, Meet(qs, i, j), i, j + 1);
    }
  }

  lemma MeetPlans(ps: Proxies, qs: Proxies, i: nat, j: nat)
    requires i < |ps| == |qs| && j < |ps|
    requires forall x :: 0 <= x < |ps| && Rivals(ps[x], ps[i]) ==> !ps[x].suppressUnicast && !ps[x].useMulticast
    requires PlannedWithin(ps, qs, i, j)
    ensures PlannedWithin(ps, Meet(qs, i, j), i, j + 1)
  {
  }

  lemma {:induction false} ScanIdle(ps: Proxies, i: nat, j: nat)
    requires i < |ps| && j <= |ps|
    requires forall x :: 0 <= x < |ps| && Rivals(ps[x], ps[i]) ==> ps[x].suppressUnicast
    ensures Scan(ps, i, j) == ps
    decreases |ps| - j
  {
    if j < |ps| { ScanIdle(ps, i, j + 1); }
  }

  /** In a group with distinct unicast addresses being a rival is being another member. */
  lemma RivalsAreOthers(ps: Proxies, i: nat, x: nat)
    requires DistinctUnicast(ps) && i < |ps| && x < |ps|
    ensures Rivals(ps[x], ps[i]) <==> x != i && Multicasts(ps[x]) && SameGroup(ps[x], ps[i])
  {
  }

  lemma PlanOne(ps: Proxies, n: nat)
    requires n < |ps| && PlainKinds(ps) && DistinctUnicast(ps) && PlannedUpTo(ps, n)
    ensures SameReaders(ps, ManageOne(ps, n)) && PlannedUpTo(ManageOne(ps, n), n + 1)
  {
    var qs := ManageOne(ps, n);
    forall x: nat | x < |ps|
      ensures Rivals(ps[x], ps[n]) <==> x != n && Multicasts(ps[x]) && SameGroup(ps[x], ps[n])
    {
      RivalsAreOthers(ps, n, x);
    }
    assert PlannedAt(ps, n, n);
    if !Multicasts(ps[n]) {
      assert ps[n] == Unicast(ps[n]);
      PlanNext(ps, qs, n);
    } else if GroupBegunBy(ps, n, n) {
      PlanLater(ps, n);
      PlanNext(ps, qs, n);
    } else {
      PlanFirst(ps, n);
    }
  }

  /** Handling a proxy that has no group, or is not the first of it, changes nothing. */
  lemma PlanNext(ps: Proxies, qs: Proxies, n: nat)
    requires n < |ps| && PlannedUpTo(ps, n) && qs == ps
    requires !Multicasts(ps[n]) || GroupBegunBy(ps, n, n)
    ensures SameReaders(ps, qs) && PlannedUpTo(qs, n + 1)
  {
    forall i: nat {:trigger PlannedAt(qs, n + 1, i)} | i < |ps|
      ensures PlannedAt(qs, n + 1, i)
    {
      assert PlannedAt(ps, n, i) && PlannedAt(ps, n, n);
      SameGroupsBegun(ps, ps, n + 1, i);
      if Multicasts(ps[n]) {
        var l :| 0 <= l < n && Multicasts(ps[l]) && SameGroup(ps[l], ps[n]);
        assert SameGroup(ps[n], ps[i]) ==> SameGroup(ps[l], ps[i]);
      }
    }
  }

  lemma PlanLater(ps: Proxies, n: nat)
    requires n < |ps| && DistinctUnicast(ps) && PlannedUpTo(ps, n)
    requires Multicasts(ps[n]) && GroupBegunBy(ps, n, n)
    ensures ManageOne(ps, n) == ps
  {
    var l :| 0 <= l < n && Multicasts(ps[l]) && SameGroup(ps[l], ps[n]);
    RivalsAreOthers(ps, n, l);
    forall x | 0 <= x < |ps| && Rivals(ps[x], ps[n])
      ensures ps[x].suppressUnicast
    {
      assert SameGroup(ps[l], ps[x]) && PlannedAt(ps, n, x);
      RivalsAreOthers(ps, x, n);
    }
    ScanIdle(ps, n, 0);
  }

  /** No member of a group is suppressed before its first one is handled. */
  lemma NotYetSuppressed(ps: Proxies, n: nat, x: nat)
    requires n < |ps| && x < |ps| && PlannedUpTo(ps, n)
    requires Multicasts(ps[n]) && !GroupBegunBy(ps, n, n) && Rivals(ps[x], ps[n])
    ensures !GroupBegunBy(ps, n, x) && x > n && !ps[x].suppressUnicast && !ps[x].useMulticast
  {
    assert PlannedAt(ps, n, x);
    assert forall l :: 0 <= l < n && Multicasts(ps[l]) ==> !SameGroup(ps[l], ps[n]);
  }

  lemma PlanFirst(ps: Proxies, n: nat)
    requires n < |ps| && DistinctUnicast(ps) && PlannedUpTo(ps, n)
    requires Multicasts(ps[n]) && !GroupBegunBy(ps, n, n)
    ensures SameReaders(ps, ManageOne(ps, n)) && PlannedUpTo(ManageOne(ps, n), n + 1)
  {
    forall x: nat | x < |ps| && Rivals(ps[x], ps[n])
      ensures !ps[x].suppressUnicast && !ps[x].useMulticast
    {
      NotYetSuppressed(ps, n, x);
    }
    assert PlannedAt(ps, n, n);
    ScanPlans(ps, ps, n, 0);
    forall i: nat {:trigger PlannedAt(ManageOne(ps, n), n + 1, i)} | i < |ps|
      ensures PlannedAt(ManageOne(ps, n), n + 1, i)
    {
      assert PlannedAt(ps, n, i) && PlannedAt(ps, n, n);
      PlanFirstAt(ps, n, i);
    }
  }

  lemma PlanFirstAt(ps: Proxies, n: nat, i: nat)
    requires n < |ps| && i < |ps| && DistinctUnicast(ps)
    requires PlannedAt(ps, n, i) && PlannedAt(ps, n, n)
    requires Multicasts(ps[n]) && !GroupBegunBy(ps, n, n)
    requires PlannedWithin(ps, Scan(ps, n, 0), n, |ps|)
    ensures PlannedAt(ManageOne(ps, n), n + 1, i)
  {
    var qs := ManageOne(ps, n);
    assert SameReaders(ps, qs);
    SameRivals(ps, qs, i);
    SameGroupsBegun(ps, qs, i, i);
    SameGroupsBegun(ps, qs, n + 1, i);
    RivalsAreOthers(ps, n, i);
    RivalsAreOthers(ps, i, n);
  }

  lemma SameGroupsBegun(ps: Proxies, qs: Proxies, n: nat, i: nat)
    requires SameReaders(ps, qs) && n <= |ps| && i < |ps|
    ensures GroupBegunBy(qs, n, i) <==> GroupBegunBy(ps, n, i)
    ensures n > 0 ==> (GroupBegunBy(ps, n, i)
                       <==> GroupBegunBy(ps, n - 1, i) || (Multicasts(ps[n - 1]) && SameGroup(ps[n - 1], ps[i])))
  {
    if l :| 0 <= l < n && Multicasts(ps[l]) && SameGroup(ps[l], ps[i]) {
      assert Multicasts(qs[l]) && SameGroup(qs[l], qs[i]);
    }
    if l :| 0 <= l < n && Multicasts(qs[l]) && SameGroup(qs[l], qs[i]) {
      assert Multicasts(ps[l]) && SameGroup(ps[l], ps[i]);
    }
  }

  lemma {:induction false} PlanRest(ps: Proxies, n: nat)
    requires n <= |ps| && PlainKinds(ps) && DistinctUnicast(ps) && PlannedUpTo(ps, n)
    ensures SameReaders(ps, ManageFrom(ps, n)) && PlannedUpTo(ManageFrom(ps, n), |ps|)
    decreases |ps| - n
  {
    if n < |ps| {
      PlanOne(ps, n);
      PlanRest(ManageOne(ps, n), n + 1);
    }
  }

  /** After resetSendOptions, with multicast locators invalid or UDPv4 and distinct unicast
      addresses: a reader with a multicast address that another one shares is suppressed, and
      the first of each such group, and no other, sends multicast for all of it. */
  lemma OneSenderForEachGroup(ps: Proxies)
    requires PlainKinds(ps) && DistinctUnicast(ps)
    ensures var qs := ManageFrom(Reset(ps), 0);
            && SameReaders(ps, qs)
            && forall i: nat :: i < |ps| ==> OptionsAreFinal(ps, qs, i)
  {
    var rs := Reset(ps);
    forall i: nat | i < |rs|
      ensures PlannedAt(rs, 0, i)
    {
    }
    PlanRest(rs, 0);
    var qs := ManageFrom(rs, 0);
    forall i: nat | i < |ps|
      ensures OptionsAreFinal(ps, qs, i)
    {
      assert PlannedAt(qs, |qs|, i);
      SameRivals(ps, qs, i);
      SameGroupsBegun(ps, qs, i, i);
      assert SameGroup(qs[i], qs[i]);
    }
  }

  ghost predicate OptionsAreFinal(ps: Proxies, qs: Proxies, i: nat)
    requires i < |ps| == |qs|
  {
    && (qs[i].suppressUnicast <==> Multicasts(ps[i]) && HasRival(ps, i))
    && (qs[i].useMulticast <==> Multicasts(ps[i]) && HasRival(ps, i) && !GroupBegunBy(ps, i, i))
  }

  /** Proxy k, and no other, sends multicast to the group of proxy i. */
  ghost predicate OnlySender(ps: Proxies, qs: Proxies, i: nat, k: nat)
    requires i < |ps| == |qs| && k < |ps|
  {
    && qs[k].useMulticast && SameGroup(ps[k], ps[i])
    && forall m :: 0 <= m < |ps| && Multicasts(ps[m]) && SameGroup(ps[m], ps[i]) ==>
         qs[m].suppressUnicast && (qs[m].useMulticast <==> m == k)
  }

  lemma ExactlyOneSender(ps: Proxies, i: nat)
    requires PlainKinds(ps) && DistinctUnicast(ps) && i < |ps| && Multicasts(ps[i]) && HasRival(ps, i)
    ensures OnlySender(ps, ManageFrom(Reset(ps), 0), i, FirstOfGroup(ps, i))
  {
    OneSenderForEachGroup(ps);
    var qs := ManageFrom(Reset(ps), 0);
    var k := FirstOfGroup(ps, i);
    forall m | 0 <= m < |ps| && Multicasts(ps[m]) && SameGroup(ps[m], ps[i])
      ensures qs[m].suppressUnicast && (qs[m].useMulticast <==> m == k)
    {
      assert OptionsAreFinal(ps, qs, m);
      MembersHaveRivals(ps, i, m);
      assert GroupBegunBy(ps, m, m) <==> m != k;
    }
  }

  /** The first proxy with the multicast address of proxy i. */
  function FirstOfGroup(ps: Proxies, i: nat): (k: nat)
    requires i < |ps| && Multicasts(ps[i])
    ensures k <= i && Multicasts(ps[k]) && SameGroup(ps[k], ps[i])
    ensures forall l :: 0 <= l < k && Multicasts(ps[l]) ==> !SameGroup(ps[l], ps[i])
  {
    FirstFrom(ps, i, 0)
  }

  function FirstFrom(ps: Proxies, i: nat, n: nat): (k: nat)
    requires n <= i < |ps| && Multicasts(ps[i])
    requires forall l :: 0 <= l < n && Multicasts(ps[l]) ==> !SameGroup(ps[l], ps[i])
    ensures k <= i && Multicasts(ps[k]) && SameGroup(ps[k], ps[i])
    ensures forall l :: 0 <= l < k && Multicasts(ps[l]) ==> !SameGroup(ps[l], ps[i])
    decreases i - n
  {
    if Multicasts(ps[n]) && SameGroup(ps[n], ps[i]) then n else FirstFrom(ps, i, n + 1)
  }

  lemma MembersHaveRivals(ps: Proxies, i: nat, m: nat)
    requires DistinctUnicast(ps) && i < |ps| && m < |ps| && Multicasts(ps[i]) && HasRival(ps, i)
    requires Multicasts(ps[m]) && SameGroup(ps[m], ps[i])
    ensures HasRival(ps, m)
  {
    if m != i {
      RivalsAreOthers(ps, m, i);
    }
  }

  /** A reader that shares its multicast address. */
  predicate Shares(ps: Proxies, i: nat)
    requires i < |ps|
  {
    Multicasts(ps[i]) && HasRival(ps, i)
  }

  /** After a reset, a reader is reached exactly when it shares its multicast address with none, or
      listens on the same port as the first reader that has this address. */
  lemma ReachedIff(ps: Proxies, i: nat)
    requires PlainKinds(ps) && DistinctUnicast(ps) && i < |ps|
    ensures Reached(ManageFrom(Reset(ps), 0), i) <==>
            (Shares(ps, i) ==>
               ps[FirstOfGroup(ps, i)].remoteMulticastLocator.port == ps[i].remoteMulticastLocator.port)
  {
    var qs := ManageFrom(Reset(ps), 0);
    OneSenderForEachGroup(ps);
    ManageKeeps(Reset(ps), 0);
    assert OptionsAreFinal(ps, qs, i);
    ReachedNowIff(qs, i);
    if Shares(ps, i) {
      ExactlyOneSender(ps, i);
      var k := FirstOfGroup(ps, i);
      assert SendsFor(qs, k, i);
      forall m | SendsFor(qs, m, i)
        ensures m == k
      {
        assert OptionsAreFinal(ps, qs, m);
      }
    }
  }

  /** Those that share a multicast address agree on its port. */
  ghost predicate PortsAgree(ps: Proxies) {
    forall i, j :: 0 <= i < |ps| && 0 <= j < |ps| && Multicasts(ps[i]) && Rivals(ps[j], ps[i]) ==>
      ps[i].remoteMulticastLocator.port == ps[j].remoteMulticastLocator.port
  }

  /** After a reset, all readers are reached exactly when those that share a multicast address agree
      on its port. */
  lemma AllReachedIff(ps: Proxies)
    requires PlainKinds(ps) && DistinctUnicast(ps)
    ensures (forall i: nat :: i < |ps| ==> Reached(ManageFrom(Reset(ps), 0), i)) <==> PortsAgree(ps)
  {
    hide Reached, ManageFrom, PlainKinds, DistinctUnicast, PortsAgree, Rivals;
    if PortsAgree(ps) {
      forall i: nat | i < |ps|
        ensures Reached(ManageFrom(Reset(ps), 0), i)
      {
        ReachedIff(ps, i);
        AgreesWithFirst(ps, i);
      }
    } else {
      var i, j := DisagreeingPair(ps);
      OneFirst(ps, i, j);
      ReachedIff(ps, i);
      ReachedIff(ps, j);
    }
  }

  lemma AgreesWithFirst(ps: Proxies, i: nat)
    requires PortsAgree(ps) && DistinctUnicast(ps) && i < |ps|
    ensures Shares(ps, i) ==>
              ps[FirstOfGroup(ps, i)].remoteMulticastLocator.port == ps[i].remoteMulticastLocator.port
  {
    if Shares(ps, i) {
      var k := FirstOfGroup(ps, i);
      RivalsAreOthers(ps, k, i);
      if k != i { assert Rivals(ps[i], ps[k]); }
    }
  }

  lemma DisagreeingPair(ps: Proxies) returns (i: nat, j: nat)
    requires !PortsAgree(ps)
    ensures i < |ps| && j < |ps| && Multicasts(ps[i]) && Rivals(ps[j], ps[i])
    ensures ps[i].remoteMulticastLocator.port != ps[j].remoteMulticastLocator.port
  {
    i, j :| 0 <= i < |ps| && 0 <= j < |ps| && Multicasts(ps[i]) && Rivals(ps[j], ps[i])
            && ps[i].remoteMulticastLocator.port != ps[j].remoteMulticastLocator.port;
  }

  lemma OneFirst(ps: Proxies, i: nat, j: nat)
    requires i < |ps| && j < |ps| && Rivals(ps[j], ps[i]) && Multicasts(ps[i])
    ensures FirstOfGroup(ps, i) == FirstOfGroup(ps, j) && Shares(ps, i) && Shares(ps, j)
  {
    assert Rivals(ps[i], ps[j]);
  }

  class Writer {
    var proxies: Proxies
    const capacity: nat
    const enforceUnicast: bool

    constructor (capacity: nat, enforceUnicast: bool)
      ensures proxies == [] && this.capacity == capacity && this.enforceUnicast == enforceUnicast
    {
      proxies := [];
      this.capacity := capacity;
      this.enforceUnicast := enforceUnicast;
    }

    /** Both loops run over the stored proxies and write to them. */
    method ManageSendOptions()
      modifies this
      ensures proxies == ManageFrom(old(proxies), 0)
    {
      var i := 0;
      while i < |proxies|
        invariant i <= |proxies| && ManageFrom(proxies, i) == ManageFrom(old(proxies), 0)
        decreases |proxies| - i
      {
        ghost var before := proxies;
        if proxies[i].remoteMulticastLocator.kind == INVALID_LOCATOR {
          proxies := proxies[i := proxies[i].(suppressUnicast := false, useMulticast := false)];
        } else {
          var found := ShareWithOthers(i);
          if !found {
            proxies := proxies[i := proxies[i].(useMulticast := false, suppressUnicast := false)];
          }
        }
        assert proxies == ManageOne(before, i);
        i := i + 1;
      }
    }

    /** The inner loop for proxy i. */
    method ShareWithOthers(i: nat) returns (found: bool)
      requires i < |proxies|
      modifies this
      ensures proxies == Scan(old(proxies), i, 0)
      ensures found <==> HasRival(old(proxies), i)
    {
      found := false;
      var j := 0;
      while j < |proxies|
        invariant j <= |proxies| == |old(proxies)| && SameReaders(old(proxies), proxies)
        invariant Scan(proxies, i, j) == Scan(old(proxies), i, 0)
        invariant found <==> exists x :: 0 <= x < j && Rivals(old(proxies)[x], old(proxies)[i])
        decreases |proxies| - j
      {
        var shared := ShareWith(i, j);
        found := found || shared;
        j := j + 1;
      }
    }

    /** The body of the inner loop. */
    method ShareWith(i: nat, j: nat) returns (shared: bool)
      requires i < |proxies| && j < |proxies|
      modifies this
      ensures proxies == Meet(old(proxies), i, j) && SameReaders(old(proxies), proxies)
      ensures shared <==> Rivals(old(proxies)[j], old(proxies)[i])
    {
      shared := Rivals(proxies[j], proxies[i]);
      if shared && !proxies[j].suppressUnicast {
        proxies := proxies[j := proxies[j].(useMulticast := false, suppressUnicast := true)];
        proxies := proxies[i := proxies[i].(useMulticast := true, suppressUnicast := true)];
        if proxies[j].remoteReaderGuid.entityId != proxies[i].remoteReaderGuid.entityId {
          proxies := proxies[i := proxies[i].(unknownEid := true)];
        }
      }
    }

    method ResetSendOptions()
      modifies this
      ensures proxies == ManageFrom(Reset(old(proxies)), 0)
    {
      ghost var was := proxies;
      for i := 0 to |proxies|
        invariant |proxies| == |was|
        invariant forall x :: 0 <= x < |was| ==> proxies[x] == if x < i then Reset(was)[x] else was[x]
      {
        proxies := proxies[i := proxies[i].(suppressUnicast := false, useMulticast := false, unknownEid := false)];
      }
      assert proxies == Reset(was);
      ManageSendOptions();
    }

    /** The position of the new proxy is the one the memory pool gives it. */
    method AddNewMatchedReader(reader: Guid, locator: Locator, multicastLocator: Locator, at: nat)
      returns (success: bool)
      requires at <= |proxies|
      modifies this
      ensures success <==> |old(proxies)| < capacity
      ensures proxies == Applied(old(proxies), Match(reader, locator, multicastLocator, at), capacity, enforceUnicast)
    {
      success := |proxies| < capacity;
      if success {
        proxies := proxies[..at] + [NewProxy(reader, locator, multicastLocator)] + proxies[at..];
      }
      if !enforceUnicast {
        ManageSendOptions();
      }
    }

    method RemoveProxy(guid: Guid) returns (ret: bool)
      modifies this
      ensures ret <==> exists p :: p in old(proxies) && p.remoteReaderGuid == guid
      ensures proxies == Applied(old(proxies), Unmatch(guid), capacity, enforceUnicast)
    {
      ret := exists p | p in proxies :: p.remoteReaderGuid == guid;
      proxies := Filter(proxies, (p: ReaderProxy) => p.remoteReaderGuid != guid);
      ResetSendOptions();
    }

    method RemoveAllProxiesOfParticipant(prefix: GuidPrefix)
      modifies this
      ensures proxies == Applied(old(proxies), UnmatchParticipant(prefix), capacity, enforceUnicast)
    {
      proxies := Filter(proxies, (p: ReaderProxy) => p.remoteReaderGuid.prefix != prefix);
      ResetSendOptions();
    }
  }
}
