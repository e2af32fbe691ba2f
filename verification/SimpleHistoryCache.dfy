/** The history of a stateless writer: consecutive sequence numbers and a lookup by position. */
module SimpleHistoryCache {
  import opened RtpsTypes
  import opened SequenceNumbers
  import opened History
  import opened Rings

  /** The numbers run without a hole up to last. */
  ghost predicate ConsecutiveTo(h: seq<CacheChange>, last: SN) {
    forall i :: 0 <= i < |h| ==> h[i].sn == last - |h| + 1 + i
  }

  lemma NewestIsConsecutive(h: seq<CacheChange>, c: CacheChange, capacity: nat)
    requires ConsecutiveTo(h, c.sn - 1) && |h| <= capacity
    ensures ConsecutiveTo(Newest(h + [c], capacity), c.sn)
    ensures |Newest(h + [c], capacity)| == Min(|h| + 1, capacity)
  {
  }

  /** The changes numbered above sn. */
  function Above(h: seq<CacheChange>, sn: SN): seq<CacheChange> {
    if h == [] then []
    else if h[0].sn <= sn then Above(h[1..], sn)
    else [h[0]] + Above(h[1..], sn)
  }

  lemma {:induction false} AboveAll(h: seq<CacheChange>, sn: SN)
    requires forall i :: 0 <= i < |h| ==> h[i].sn > sn
    ensures Above(h, sn) == h
  {
    if h != [] { AboveAll(h[1..], sn); }
  }

  lemma {:induction false} AboveNone(h: seq<CacheChange>, sn: SN)
    requires forall i :: 0 <= i < |h| ==> h[i].sn <= sn
    ensures Above(h, sn) == []
  {
    if h != [] { AboveNone(h[1..], sn); }
  }

  /** In a ring whose numbers ascend, what lies above sn is the end of it. */
  lemma {:induction false} AboveIsEnd(h: seq<CacheChange>, sn: SN) returns (k: nat)
    requires Increasing(h)
    ensures k <= |h| && Above(h, sn) == h[k..]
    ensures forall i :: 0 <= i < |h| ==> (h[i].sn > sn <==> k <= i)
    ensures forall c :: c in Above(h, sn) <==> c in h && c.sn > sn
  {
    if h == [] {
      k := 0;
    } else if h[0].sn <= sn {
      k := AboveIsEnd(h[1..], sn);
      k := k + 1;
      assert forall i :: 0 < i < |h| ==> h[i] == h[1..][i - 1];
    } else {
      AboveAll(h, sn);
      k := 0;
    }
  }

  /** The index that getChangeBySN computes, all of it on 16-bit words except the low words of
      the sequence numbers. */
  function Position(tail: nat, sn: SN, minSN: SN, slots: nat): int {
    var diff := ((Low(sn) - Low(minSN)) % WORD) % 0x1_0000;
    var pos := (tail + diff) % 0x1_0000;
    if pos >= slots then pos - slots else pos
  }

  /** Whether the 16-bit sum does not overflow, or overflows at the size of the ring. */
  predicate Addressable(tail: nat, k: int, slots: nat) {
    tail + k < 0x1_0000 || slots == 0x1_0000
  }

  /** The entry that the index for the k-th one leads to. */
  function EntryFound(tail: nat, k: int, slots: nat): int {
    if Addressable(tail, k, slots) then k else k - (0x1_0000 - slots)
  }

  lemma FoundIff(tail: nat, k: int, slots: nat)
    requires slots <= 0x1_0000
    ensures EntryFound(tail, k, slots) == k <==> Addressable(tail, k, slots)
  {
  }

  /** The computed index is the slot of the change, even where the low word or the ring wraps,
      exactly if that is addressable; otherwise it is the slot of an older one. */
  lemma PositionIsSlot(tail: nat, sn: SN, minSN: SN, slots: nat)
    requires tail < slots <= 0x1_0000 && minSN <= sn < minSN + slots
    ensures 0 <= EntryFound(tail, sn - minSN, slots) <= sn - minSN
    ensures Position(tail, sn, minSN, slots) == Slot(tail, EntryFound(tail, sn - minSN, slots), slots)
    ensures Position(tail, sn, minSN, slots) == Slot(tail, sn - minSN, slots) <==> Addressable(tail, sn - minSN, slots)
  {
    var k := sn - minSN;
    LowDifference(sn, minSN);
    assert tail + k < 0x2_0000;
    if tail + k >= 0x1_0000 {
      assert (tail + k) % 0x1_0000 == tail + k - 0x1_0000;
    }
  }

  /** Unsigned subtraction of the low words gives the distance, as long as that fits a word. */
  lemma LowDifference(a: SN, b: SN)
    requires 0 <= a - b < 0x1_0000
    ensures ((Low(a) - Low(b)) % WORD) % 0x1_0000 == a - b
  {
    assert a == WORD * (a / WORD) + Low(a);
    assert b == WORD * (b / WORD) + Low(b);
    var d := a / WORD - b / WORD;
    assert Low(a) - Low(b) == (a - b) - WORD * d;
  }

  class Cache {
    const size: nat
    const buffer: array<CacheChange>
    var head: nat
    var tail: nat
    var lastUsed: SN

    ghost predicate InBounds()
      reads this
    {
      1 <= buffer.Length == size + 1 <= 0x1_0000 && head < buffer.Length && tail < buffer.Length
    }

    ghost function Contents(): (s: seq<CacheChange>)
      requires InBounds()
      reads this, buffer
    {
      Ring(buffer[..], tail, head)
    }

    ghost predicate Valid()
      reads this, buffer
    {
      InBounds() && ConsecutiveTo(Contents(), lastUsed)
    }

    constructor (size: nat, lastUsed: SN)
      requires size < 0x1_0000
      ensures Valid() && fresh(buffer) && this.size == size
      ensures Contents() == [] && this.lastUsed == lastUsed && head == tail == 0
    {
      this.size := size;
      buffer := new CacheChange[size + 1](_ => EMPTY_CHANGE);
      head, tail, this.lastUsed := 0, 0, lastUsed;
    }

    function Incremented(it: nat): (next: nat)
      ensures it <= size < 0x1_0000 ==> next == After(it, size + 1)
    {
      var n := (it + 1) % 0x1_0000;
      if n >= size + 1 then 0 else n
    }

    method SeqNumMin() returns (sn: SN)
      requires Valid()
      ensures sn == if Contents() == [] then SEQUENCENUMBER_UNKNOWN else lastUsed - |Contents()| + 1
    {
      if head == tail {
        return SEQUENCENUMBER_UNKNOWN;
      }
      RingAt(buffer[..], tail, head, 0);
      return buffer[tail].sn;
    }

    method SeqNumMax() returns (sn: SN)
      requires Valid()
      ensures sn == if Contents() == [] then SEQUENCENUMBER_UNKNOWN else lastUsed
    {
      sn := if head == tail then SEQUENCENUMBER_UNKNOWN else lastUsed;
    }

    method AddChange(data: Payload, inLineQoS: bool, disposeAfterWrite: bool) returns (change: CacheChange)
      requires Valid()
      modifies this`head, this`tail, this`lastUsed, buffer
      ensures Valid()
      ensures lastUsed == old(lastUsed) + 1
      ensures change == CacheChange(ALIVE, inLineQoS, disposeAfterWrite, 0, lastUsed, data)
      ensures Contents() == Newest(old(Contents()) + [change], size)
      ensures |Contents()| == Min(|old(Contents())| + 1, size)
      ensures head == Incremented(old(head))
      ensures tail == if head == old(tail) then Incremented(old(tail)) else old(tail)
    {
      lastUsed := lastUsed + 1;
      change := CacheChange(ALIVE, inLineQoS, disposeAfterWrite, 0, lastUsed, data);
      NewestIsConsecutive(Contents(), change, size);
      hide Newest, ConsecutiveTo, Ring, Incremented;
      StoreAtHead(change);
    }

    method IncrementHead()
      requires InBounds()
      modifies this`head, this`tail
      ensures InBounds() && head == Incremented(old(head))
      ensures tail == if head == old(tail) then Incremented(old(tail)) else old(tail)
    {
      head := Incremented(head);
      if head == tail {
        tail := Incremented(tail);
      }
    }

    method StoreAtHead(change: CacheChange)
      requires InBounds()
      modifies this`head, this`tail, buffer
      ensures InBounds() && Contents() == Newest(old(Contents()) + [change], size)
      ensures head == Incremented(old(head))
      ensures tail == if head == old(tail) then Incremented(old(tail)) else old(tail)
    {
      StoreInRing(buffer[..], tail, head, change);
      hide Ring, Newest;
      ghost var slots := buffer[..];
      var place := head;
      IncrementHead();
      buffer[place] := change;
      assert buffer[..] == slots[place := change];
    }

    /** The number of the oldest change, if there is one. */
    ghost function MinNumber(): SN
      requires InBounds()
      reads this, buffer
    {
      lastUsed - |Contents()| + 1
    }

    /** The positional lookup returns what a scan would if and only if the 16-bit index does not
        overflow. If it does, an older live change is returned. An empty ring answers
        SEQUENCENUMBER_UNKNOWN with a stale slot. */
    method GetChangeBySN(sn: SN) returns (change: Option<CacheChange>)
      requires Valid()
      ensures Contents() == [] ==> change == if sn == SEQUENCENUMBER_UNKNOWN then Some(buffer[tail]) else None
      ensures Contents() != [] && !Live(Contents(), sn) ==> change == None
      ensures Contents() != [] && Live(Contents(), sn) ==>
                change == Lookup(Contents(), MinNumber() + EntryFound(tail, sn - MinNumber(), buffer.Length))
      ensures Contents() != [] && Live(Contents(), sn) ==>
                (change == Lookup(Contents(), sn) <==> Addressable(tail, sn - MinNumber(), buffer.Length))
    {
      EmptyIff();
      var minSN := SeqNumMin();
      var maxSN := SeqNumMax();
      if sn < minSN || maxSN < sn {
        OutOfRange(sn);
        return None;
      }
      hide Ring, ConsecutiveTo, EntryFound, Addressable, Position;
      var pos := Position(tail, sn, minSN, buffer.Length);
      if head == tail {
        PositionOfEmpty(sn, minSN);
      } else {
        PositionFinds(sn, minSN);
      }
      return Some(buffer[pos]);
    }

    lemma EmptyIff()
      requires Valid()
      ensures Contents() == [] <==> head == tail
    {
    }

    lemma OutOfRange(sn: SN)
      requires Valid() && (Contents() != [] ==> sn < MinNumber() || lastUsed < sn)
      ensures !Live(Contents(), sn)
    {
      LookupNone(Contents(), sn);
    }

    lemma PositionOfEmpty(sn: SN, minSN: SN)
      requires InBounds() && sn == minSN
      ensures Position(tail, sn, minSN, buffer.Length) == tail
    {
      LowDifference(sn, minSN);
    }

    lemma PositionFinds(sn: SN, minSN: SN)
      requires Valid() && Contents() != [] && minSN == MinNumber() <= sn <= lastUsed
      ensures Live(Contents(), sn)
      ensures var pos, found := Position(tail, sn, minSN, buffer.Length), EntryFound(tail, sn - minSN, buffer.Length);
              && 0 <= pos < buffer.Length && 0 <= found <= sn - minSN
              && Lookup(Contents(), minSN + found) == Some(buffer[pos])
              && (Lookup(Contents(), minSN + found) == Lookup(Contents(), sn)
                  <==> Addressable(tail, sn - minSN, buffer.Length))
    {
      FoundIff(tail, sn - minSN, buffer.Length);
      hide EntryFound, Position, Addressable;
      var found := EntryFound(tail, sn - minSN, buffer.Length);
      PositionIsSlot(tail, sn, minSN, buffer.Length);
      RingAt(buffer[..], tail, head, found);
      hide Ring, ConsecutiveTo;
      EntryIsLookedUp(found);
      EntryIsLookedUp(sn - minSN);
    }

    lemma EntryIsLookedUp(k: nat)
      requires Valid() && k < |Contents()|
      ensures Lookup(Contents(), MinNumber() + k) == Some(Contents()[k])
      ensures Contents()[k].sn == MinNumber() + k && Live(Contents(), MinNumber() + k)
    {
      LookupAt(Contents(), k);
    }

    /** Drops everything up to sn and nothing above it. */
    method RemoveUntilIncl(sn: SN)
      requires Valid()
      modifies this`head, this`tail
      ensures Valid() && Contents() == Above(old(Contents()), sn)
    {
      ghost var was := Contents();
      if head == tail {
        return;
      }
      var maxSN := SeqNumMax();
      if maxSN <= sn {
        AboveNone(was, sn);
        head := tail;
        return;
      }
      while buffer[tail].sn <= sn && head != tail
        invariant Valid() && Contents() != [] && Above(Contents(), sn) == Above(was, sn)
        invariant sn < lastUsed
        decreases |Contents()|
      {
        IncrementTail();
      }
      RingAt(buffer[..], tail, head, 0);
      AboveAll(Contents(), sn);
    }

    method IncrementTail()
      requires Valid() && head != tail
      modifies this`tail
      ensures Valid() && old(Contents()) == [old(buffer[tail])] + Contents()
    {
      RingAt(buffer[..], tail, head, 0);
      RingPop(buffer[..], tail, head);
      tail := Incremented(tail);
    }
  }

  /** Adds n changes to a ring with room for them, or to a full one. */
  method AddMany(cache: Cache, n: nat)
    requires cache.Valid() && cache.head + n <= cache.size
    requires || (cache.tail == 0 && |cache.Contents()| == cache.head)
             || (cache.tail == cache.head + 1 && |cache.Contents()| == cache.size && cache.head + n < cache.size)
    modifies cache`head, cache`tail, cache`lastUsed, cache.buffer
    ensures cache.Valid() && cache.head == old(cache.head) + n && cache.lastUsed == old(cache.lastUsed) + n
    ensures old(cache.tail) == 0 ==> cache.tail == 0 && |cache.Contents()| == cache.head
    ensures old(cache.tail) != 0 ==> cache.tail == cache.head + 1 && |cache.Contents()| == cache.size
  {
    hide Ring, Newest, ConsecutiveTo;
    for i := 0 to n
      invariant cache.Valid() && cache.head == old(cache.head) + i && cache.lastUsed == old(cache.lastUsed) + i
      invariant old(cache.tail) == 0 ==> cache.tail == 0 && |cache.Contents()| == cache.head
      invariant old(cache.tail) != 0 ==> cache.tail == cache.head + 1 && |cache.Contents()| == cache.size
    {
      var _ := cache.AddChange([], false, false);
    }
  }

  /** After 65538 changes a ring of 32769 answers the newest number with another change. */
  method MisleadingRing() returns (cache: Cache, sn: SN, change: Option<CacheChange>)
    ensures fresh(cache) && cache.Valid() && cache.size == 32769
    ensures Live(cache.Contents(), sn) && change != Lookup(cache.Contents(), sn)
  {
    hide Ring, Newest, ConsecutiveTo, Lookup, Live;
    cache := new Cache(32769, 0);
    AddMany(cache, 32769);
    var _ := cache.AddChange([], false, false);
    AddMany(cache, 32768);
    sn := cache.lastUsed;
    cache.EntryIsLookedUp(32768);
    change := cache.GetChangeBySN(sn);
  }
}
