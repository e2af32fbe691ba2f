/** Ring buffers as sequences: an array of slots, of which those from tail up to head are in use.
    One slot always stays free, so that head == tail means empty. */
module Rings {

  /** The slot after it. */
  function After(it: nat, len: nat): nat {
    if it + 1 >= len then 0 else it + 1
  }

  /** The slot of the q-th entry. */
  function Slot(tail: nat, q: nat, len: nat): nat {
    if tail + q < len then tail + q else tail + q - len
  }

  /** The entries in use, oldest first. */
  function Ring<T>(slots: seq<T>, tail: nat, head: nat): (r: seq<T>)
    requires tail < |slots| && head < |slots|
    ensures |r| == if tail <= head then head - tail else head + |slots| - tail
  {
    if tail <= head then slots[tail..head] else slots[tail..] + slots[..head]
  }

  lemma RingAt<T>(slots: seq<T>, tail: nat, head: nat, q: nat)
    requires tail < |slots| && head < |slots| && q < |Ring(slots, tail, head)|
    ensures Slot(tail, q, |slots|) < |slots|
    ensures Ring(slots, tail, head)[q] == slots[Slot(tail, q, |slots|)]
  {
  }

  /** Filling the slot at head and moving head appends, unless the ring was full. */
  lemma RingPush<T>(slots: seq<T>, tail: nat, head: nat, x: T)
    requires tail < |slots| && head < |slots| && After(head, |slots|) != tail
    ensures Ring(slots[head := x], tail, After(head, |slots|)) == Ring(slots, tail, head) + [x]
  {
  }

  /** Moving tail takes the oldest entry away. */
  lemma RingPop<T>(slots: seq<T>, tail: nat, head: nat)
    requires tail < |slots| && head < |slots| && head != tail
    ensures Ring(slots, After(tail, |slots|), head) == Ring(slots, tail, head)[1..]
  {
  }

  lemma RingUpdate<T>(slots: seq<T>, tail: nat, head: nat, q: nat, x: T)
    requires tail < |slots| && head < |slots| && q < |Ring(slots, tail, head)|
    ensures Slot(tail, q, |slots|) < |slots|
    ensures Ring(slots[Slot(tail, q, |slots|) := x], tail, head) == Ring(slots, tail, head)[q := x]
  {
  }

  /** Appending to a full ring after its tail has given way. */
  lemma RingOverwrite<T>(slots: seq<T>, tail: nat, head: nat, x: T)
    requires 2 <= |slots| && tail < |slots| && head < |slots| && After(head, |slots|) == tail
    ensures Ring(slots[head := x], After(tail, |slots|), tail) == Ring(slots, tail, head)[1..] + [x]
  {
    RingPop(slots, tail, head);
    RingPush(slots, After(tail, |slots|), head, x);
  }
}
