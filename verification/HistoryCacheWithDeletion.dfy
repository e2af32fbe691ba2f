/** The ring buffer behind a stateful writer: bounded, and with deletion from the middle. */
module HistoryCacheWithDeletion {
  import opened RtpsTypes
  import opened History
  import opened Rings

  /** The entries from p + 1 to k are those from p to k - 1 as they were; the others below p and above
      k are unchanged. */
  ghost predicate Shifted(was: seq<CacheChange>, s: seq<CacheChange>, p: nat, k: nat)
    requires p <= k < |was| == |s|
  {
    && (forall q :: p < q <= k ==> s[q] == was[q - 1])
    && (forall q :: (0 <= q < p || k < q < |was|) ==> s[q] == was[q])
  }

  lemma ShiftOn(was: seq<CacheChange>, before: seq<CacheChange>, after: seq<CacheChange>, p: nat, k: nat)
    requires 0 < p <= k < |was| == |before| == |after| && Shifted(was, before, p, k)
    requires after[p] == before[p - 1]
    requires forall x :: 0 <= x < |after| && x != p && x != p - 1 ==> after[x] == before[x]
    requires before[p - 1] == was[p - 1]
    ensures Shifted(was, after, p - 1, k)
  {
  }

  lemma ShiftedAll(was: seq<CacheChange>, s: seq<CacheChange>, k: nat)
    requires k < |was| == |s| && Shifted(was, s, 0, k)
    ensures s[1..] == was[..k] + was[k + 1..]
  {
  }

  class Cache {
    const size: nat
    const buffer: array<CacheChange>
    var head: nat
    var tail: nat
    var lastUsed: SN
    ghost var contents: seq<CacheChange>  // the live changes, oldest first

    ghost predicate InBounds()
      reads this
    {
      1 <= buffer.Length == size + 1 <= 0x1_0000 && head < buffer.Length && tail < buffer.Length
    }

    /** The changes in the slots from tail up to head. */
    ghost function Entries(): (s: seq<CacheChange>)
      requires InBounds()
      reads this, buffer
    {
      Ring(buffer[..], tail, head)
    }

    ghost predicate Valid()
      reads this, buffer
    {
      InBounds() && contents == Entries() && Increasing(contents) && AtMost(contents, lastUsed)
    }

    constructor (size: nat)
      requires size < 0x1_0000
      ensures Valid() && fresh(buffer) && this.size == size
      ensures contents == [] && lastUsed == 0
    {
      this.size := size;
      buffer := new CacheChange[size + 1](_ => EMPTY_CHANGE);
      head, tail, lastUsed, contents := 0, 0, 0, [];
    }

    /** incrementIterator, on a uint16_t. */
    function Incremented(it: nat): (next: nat)
      ensures it <= size < 0x1_0000 ==> next == After(it, size + 1)
    {
      var n := (it + 1) % 0x1_0000;
      if n >= size + 1 then 0 else n
    }

    method IsFull() returns (full: bool)
      requires Valid()
      ensures full <==> |contents| == size
    {
      full := Incremented(head) == tail;
    }

    method IsEmpty() returns (empty: bool)
      requires Valid()
      ensures empty <==> contents == []
    {
      empty := head == tail;
    }

    method CurrentSeqNumMin() returns (sn: SN)
      requires Valid()
      ensures sn == if contents == [] then SEQUENCENUMBER_UNKNOWN else contents[0].sn
    {
      if head == tail {
        sn := SEQUENCENUMBER_UNKNOWN;
      } else {
        sn := buffer[tail].sn;
      }
    }

    method CurrentSeqNumMax() returns (sn: SN)
      requires Valid()
      ensures sn == if contents == [] then SEQUENCENUMBER_UNKNOWN else lastUsed
    {
      sn := if head == tail then SEQUENCENUMBER_UNKNOWN else lastUsed;
    }

    method IsSNInRange(sn: SN) returns (inRange: bool)
      requires Valid()
      ensures inRange <==> contents != [] && contents[0].sn <= sn <= lastUsed
    {
      var empty := IsEmpty();
      if empty {
        return false;
      }
      var minSN := CurrentSeqNumMin();
      var maxSN := CurrentSeqNumMax();
      if sn < minSN || maxSN < sn {
        return false;
      }
      return true;
    }

    /** The scan with its range test and early exit finds exactly the live numbers. */
    method GetChangeBySN(sn: SN) returns (position: Option<nat>)
      requires Valid()
      ensures position.Some? <==> Live(contents, sn)
      ensures position.Some? ==>
                position.value == Slot(tail, IndexOf(contents, sn), buffer.Length) < buffer.Length
                && buffer[position.value] == contents[IndexOf(contents, sn)]
    {
      var inRange := IsSNInRange(sn);
      if !inRange {
        return None;
      }
      var current := tail;
      ghost var q := 0;
      while current != head
        invariant 0 <= q <= |contents| && (q < |contents| <==> current != head)
        invariant current < buffer.Length && current == Slot(tail, q, buffer.Length)
        invariant forall i :: 0 <= i < q ==> contents[i].sn < sn
        decreases |contents| - q
      {
        RingAt(buffer[..], tail, head, q);
        if buffer[current].sn == sn {
          LookupAt(contents, q);
          return Some(current);
        }
        if buffer[current].sn > sn {
          return None;
        }
        current := current + 1;
        if current >= buffer.Length {
          current := current - buffer.Length;
        }
        q := q + 1;
      }
      return None;
    }

    /** A copy of the change that getChangeBySN points at. */
    method Find(sn: SN) returns (change: Option<CacheChange>)
      requires Valid()
      ensures change == Lookup(contents, sn)
    {
      var position := GetChangeBySN(sn);
      if position == None {
        return None;
      }
      return Some(buffer[position.value]);
    }

    /** The write `change->sentTickCount = tick` through the pointer that getChangeBySN returned. */
    method Stamp(sn: SN, tick: nat)
      requires Valid() && Live(contents, sn)
      modifies buffer, this`contents
      ensures Valid()
      ensures contents == Stamped(old(contents), sn, tick)
    {
      var position := GetChangeBySN(sn);
      ghost var slots, k := buffer[..], IndexOf(contents, sn);
      RingUpdate(slots, tail, head, k, buffer[position.value].(sentTickCount := tick));
      buffer[position.value] := buffer[position.value].(sentTickCount := tick);
      assert buffer[..] == slots[position.value := buffer[position.value]];
      contents := Entries();
    }

    /** Appends the next number; a full ring loses its oldest change. */
    method AddChange(data: Payload, inLineQoS: bool, disposeAfterWrite: bool) returns (change: CacheChange)
      requires Valid()
      modifies this`head, this`tail, this`lastUsed, this`contents, buffer
      ensures Valid()
      ensures lastUsed == old(lastUsed) + 1
      ensures change == CacheChange(ALIVE, inLineQoS, disposeAfterWrite, 0, lastUsed, data)
      ensures contents == Newest(old(contents) + [change], size)
    {
      lastUsed := lastUsed + 1;
      change := CacheChange(ALIVE, inLineQoS, disposeAfterWrite, 0, lastUsed, data);
      NewestIsValid(contents, change, size);
      hide Ring, Newest, Increasing, AtMost;
      assert Entries() == contents;
      StoreAtHead(change);
      contents := Entries();
    }

    /** The place is taken before the head moves, and filled after. */
    method StoreAtHead(change: CacheChange)
      requires InBounds()
      modifies this`head, this`tail, buffer
      ensures InBounds() && Entries() == Newest(old(Entries()) + [change], size)
    {
      StoreInRing(buffer[..], tail, head, change);
      hide Ring, Newest;
      ghost var slots := buffer[..];
      var place := head;
      IncrementHead();
      buffer[place] := change;
      assert buffer[..] == slots[place := change];
    }

    method IncrementHead()
      requires InBounds()
      modifies this`head, this`tail
      ensures InBounds() && head == Incremented(old(head))
      ensures tail == if head == old(tail) then Incremented(old(tail)) else old(tail)
    {
      head := Incremented(head);
      if head == tail {
        tail := Incremented(tail);
      }
    }

    /** CacheChange::reset on the oldest entry; its data stays. */
    method ResetTail()
      requires InBounds() && head != tail
      modifies buffer
      ensures |Entries()| == |old(Entries())| && Entries()[1..] == old(Entries())[1..]
    {
      ghost var slots := buffer[..];
      var reset := EMPTY_CHANGE.(data := buffer[tail].data);
      RingUpdate(slots, tail, head, 0, reset);
      buffer[tail] := reset;
      assert buffer[..] == slots[tail := reset];
    }

    method IncrementTail()
      requires InBounds()
      modifies this`tail, buffer
      ensures InBounds() && Entries() == if old(Entries()) == [] then [] else old(Entries())[1..]
    {
      if head == tail {
        return;
      }
      ResetTail();
      RingPop(buffer[..], tail, head);
      tail := Incremented(tail);
    }

    /** One move assignment: the slot that is moved from keeps its fields but not its data. */
    method MoveUp(index: nat, prev: nat, ghost q: nat)
      requires InBounds() && 0 < q < |Entries()|
      requires index == Slot(tail, q, buffer.Length) < buffer.Length
      requires prev == Slot(tail, q - 1, buffer.Length) < buffer.Length
      modifies buffer
      ensures |Entries()| == |old(Entries())| && Entries()[q] == old(Entries())[q - 1]
      ensures forall x :: 0 <= x < |Entries()| && x != q && x != q - 1 ==> Entries()[x] == old(Entries())[x]
    {
      ghost var slots := buffer[..];
      RingAt(slots, tail, head, q - 1);
      RingUpdate(slots, tail, head, q, slots[prev]);
      RingUpdate(slots[index := slots[prev]], tail, head, q - 1, slots[prev].(data := []));
      buffer[index], buffer[prev] := buffer[prev], buffer[prev].(data := []);
      assert buffer[..] == slots[index := slots[prev]][prev := slots[prev].(data := [])];
    }

    /** Shifts every entry older than the k-th a slot up, across the end of the array where the
        ring wraps, and so overwrites the k-th. */
    method ShiftUp(position: nat, ghost k: nat)
      requires InBounds() && 0 < k < |Entries()|
      requires position == Slot(tail, k, buffer.Length) < buffer.Length
      modifies buffer
      ensures |Entries()| == |old(Entries())|
      ensures Entries()[1..] == old(Entries())[..k] + old(Entries())[k + 1..]
    {
      hide Ring;
      ghost var was, p := Entries(), k;
      var index := position;
      while index != tail
        invariant 0 <= p <= k < |was| == |Entries()|
        invariant index == Slot(tail, p, buffer.Length) < buffer.Length
        invariant Shifted(was, Entries(), p, k)
        decreases p
      {
        var prev := if index == 0 then 0xFFFF else index - 1;
        if prev >= buffer.Length {
          prev := buffer.Length - 1;
        }
        ghost var before := Entries();
        MoveUp(index, prev, p);
        ShiftOn(was, before, Entries(), p, k);
        index := prev;
        p := p - 1;
      }
      assert p == 0;
      ShiftedAll(was, Entries(), k);
    }

    /** Takes the k-th entry out of the ring. */
    method DropAt(position: nat, ghost k: nat)
      requires InBounds() && k < |Entries()| && position == Slot(tail, k, buffer.Length) < buffer.Length
      modifies this`tail, buffer
      ensures InBounds() && Entries() == old(Entries())[..k] + old(Entries())[k + 1..]
    {
      if position == tail {
        ResetTail();
      } else {
        ShiftUp(position, k);
      }
      IncrementTail();
    }

    method DropChange(sn: SN) returns (dropped: bool)
      requires Valid()
      modifies this`tail, this`contents, buffer
      ensures Valid()
      ensures dropped <==> Live(old(contents), sn)
      ensures contents == Without(old(contents), sn)
    {
      var position := GetChangeBySN(sn);
      if position == None {
        return false;
      }
      WithoutKeepsOrder(contents, sn);
      DropAt(position.value, IndexOf(contents, sn));
      contents := Entries();
      return true;
    }
  }
}
