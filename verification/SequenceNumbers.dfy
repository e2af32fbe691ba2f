/** SequenceNumber_t: a signed high word and an unsigned low word. The rest of the model
    uses the 64-bit value of the pair; the lemmas here justify that. */
module SequenceNumbers {
  import opened RtpsTypes

  const WORD := 0x1_0000_0000
  const MIN_VALUE := -0x8000_0000 * WORD
  const MAX_VALUE := 0x8000_0000 * WORD - 1

  datatype SequenceNumber = SequenceNumber(high: int32, low: uint32) {

    function Value(): SN {
      high * WORD + low
    }

    predicate Lt(other: SequenceNumber) {
      high < other.high || (high == other.high && low < other.low)
    }

    predicate Gt(other: SequenceNumber) {
      high > other.high || (high == other.high && low > other.low)
    }

    predicate Le(other: SequenceNumber) {
      this == other || Lt(other)
    }
  }

  /** The low word of a value, as SimpleHistoryCache reads it. */
  function Low(v: SN): uint32 {
    v % WORD
  }

  /** The pair with a given value. */
  function FromValue(v: SN): (s: SequenceNumber)
    requires MIN_VALUE <= v <= MAX_VALUE
    ensures s.Value() == v
  {
    SequenceNumber(v / WORD, v % WORD)
  }

  /** The operators order pairs exactly as their values, and the value identifies the pair. */
  lemma OrderAgrees(a: SequenceNumber, b: SequenceNumber)
    ensures a.Lt(b) <==> a.Value() < b.Value()
    ensures a.Gt(b) <==> a.Value() > b.Value()
    ensures a.Le(b) <==> a.Value() <= b.Value()
    ensures a == b <==> a.Value() == b.Value()
    ensures MIN_VALUE <= a.Value() <= MAX_VALUE && Low(a.Value()) == a.low
  {
    if a.high < b.high {
      assert (a.high + 1) * WORD <= b.high * WORD;
    } else if b.high < a.high {
      assert (b.high + 1) * WORD <= a.high * WORD;
    }
  }

  /** A sequence number that is counted up and down in place. */
  class Counter {
    var high: int32
    var low: uint32

    constructor (s: SequenceNumber)
      ensures Number() == s
    {
      high, low := s.high, s.low;
    }

    function Number(): SequenceNumber
      reads this
    {
      SequenceNumber(high, low)
    }

    /** The prefix operator ++. Overflow of the signed high word is undefined in C++. */
    method Increment()
      requires Number().Value() < MAX_VALUE
      modifies this
      ensures Number().Value() == old(Number().Value()) + 1
    {
      low := (low + 1) % WORD;
      if low == 0 {
        high := high + 1;
      }
    }

    /** The prefix operator --. */
    method Decrement()
      requires Number().Value() > MIN_VALUE
      modifies this
      ensures Number().Value() == old(Number().Value()) - 1
    {
      if low == 0 {
        high := high - 1;
        low := WORD - 1;
      } else {
        low := low - 1;
      }
    }
  }
}
