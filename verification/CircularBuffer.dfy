/** ThreadSafeCircularBuffer: a bounded first-in first-out queue that refuses when it is full.
    Each method runs under the buffer's lock, so it is one step here. */
module CircularBuffer {
  import opened RtpsTypes
  import opened Rings

  class Fifo<T(0)> {
    const size: nat
    const buffer: array<T>
    var head: nat
    var tail: nat
    var numElements: nat
    var insertionFailures: nat
    ghost var contents: seq<T>  // the queued elements, oldest first

    ghost predicate InBounds()
      reads this
    {
      buffer.Length == size + 1 < 0xFFFF && head < buffer.Length && tail < buffer.Length
    }

    ghost predicate Valid()
      reads this, buffer
    {
      InBounds() && contents == Ring(buffer[..], tail, head) && numElements == |contents|
    }

    constructor (size: nat)
      requires size + 1 < 0xFFFF
      ensures Valid() && fresh(buffer) && this.size == size
      ensures contents == [] && insertionFailures == 0
    {
      this.size := size;
      buffer := new T[size + 1];
      head, tail, numElements, insertionFailures, contents := 0, 0, 0, 0, [];
    }

    function Incremented(it: nat): nat {
      var n := (it + 1) % 0x1_0000;
      if n >= size + 1 then 0 else n
    }

    method IsFull() returns (full: bool)
      requires Valid()
      ensures full <==> |contents| == size
    {
      full := Incremented(head) == tail;
    }

    /** moveElementIntoBuffer and copyElementIntoBuffer: they differ only in what becomes of
        the caller's element. */
    method Insert(elem: T) returns (inserted: bool)
      requires Valid()
      modifies this, buffer
      ensures Valid()
      ensures inserted <==> |old(contents)| < size
      ensures contents == if inserted then old(contents) + [elem] else old(contents)
      ensures insertionFailures == old(insertionFailures) + if inserted then 0 else 1
    {
      var full := IsFull();
      if full {
        insertionFailures := insertionFailures + 1;
        return false;
      }
      ghost var slots := buffer[..];
      RingPush(slots, tail, head, elem);
      buffer[head] := elem;
      assert buffer[..] == slots[head := elem];
      head := Incremented(head);
      numElements := numElements + 1;
      contents := contents + [elem];
      if head == tail {
        assert false;
      }
      return true;
    }

    /** The oldest element leaves; the caller's variable is untouched when there is none. */
    method MoveFirstInto(hull: T) returns (moved: bool, first: T)
      requires Valid()
      modifies this`tail, this`numElements, this`contents
      ensures Valid()
      ensures moved <==> old(contents) != []
      ensures contents == if moved then old(contents)[1..] else []
      ensures first == if moved then old(contents)[0] else hull
    {
      if head == tail {
        return false, hull;
      }
      RingAt(buffer[..], tail, head, 0);
      RingPop(buffer[..], tail, head);
      first := buffer[tail];
      tail := Incremented(tail);
      numElements := numElements - 1;
      contents := contents[1..];
      return true, first;
    }

    method PeakFirst(hull: T) returns (present: bool, first: T)
      requires Valid()
      ensures present <==> contents != []
      ensures first == if present then contents[0] else hull
    {
      if head == tail {
        return false, hull;
      }
      RingAt(buffer[..], tail, head, 0);
      return true, buffer[tail];
    }

    method NumElements() returns (n: nat)
      requires Valid()
      ensures n == |contents|
    {
      n := numElements;
    }

    method Clear()
      requires Valid()
      modifies this`head, this`numElements, this`contents
      ensures Valid() && contents == []
    {
      head := tail;
      numElements := 0;
      contents := [];
    }
  }
}
