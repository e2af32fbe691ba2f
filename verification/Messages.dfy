/** The submessages of the reliable protocol and the set of sequence numbers they carry. */
module Messages {
  import opened RtpsTypes
  import opened Endpoints
  import opened Bits

  const SNS_MAX_NUM_BITS := 256

  type Bitmap = w: seq<uint32> | |w| == 8 witness [0, 0, 0, 0, 0, 0, 0, 0]

  const EMPTY_BITMAP: Bitmap := [0, 0, 0, 0, 0, 0, 0, 0]

  datatype SequenceNumberSet = SequenceNumberSet(base: SN, numBits: uint32, bitMap: Bitmap) {

    /** Bit 0 is the most significant one of word 0; numBits is not consulted. */
    predicate IsSet(bit: nat) {
      bit >= SNS_MAX_NUM_BITS || Bit(bitMap[bit / 32], 31 - bit % 32)
    }
  }

  datatype Submessage =
    | Data(readerId: EntityId, writerId: EntityId, writerSN: SN, payload: Payload)
    | Gap(readerId: EntityId, writerId: EntityId, gapStart: SN, gapList: SequenceNumberSet)
    | Heartbeat(readerId: EntityId, writerId: EntityId, firstSN: SN, lastSN: SN, count: int)
    | AckNack(readerId: EntityId, writerId: EntityId, readerSNState: SequenceNumberSet, count: int, finalFlag: bool)

  datatype Packet = Packet(address: uint32, port: uint16, sub: Submessage)

  /** The first bit of a word is its most significant one. */
  lemma IsSetMeans(set_: SequenceNumberSet, bit: nat)
    requires bit < SNS_MAX_NUM_BITS
    ensures set_.IsSet(bit) <==> set_.bitMap[bit / 32] / Pow2(31 - bit % 32) % 2 == 1
  {
    BitIs(set_.bitMap[bit / 32], 31 - bit % 32);
  }

  /** The word whose n most significant bits are set. */
  function FirstOnes(n: nat): (w: uint32)
    requires n <= 32
  {
    if n == 0 then 0 else OrBit(FirstOnes(n - 1), 32 - n)
  }

  /** word | (uint32_t{1} << k) */
  function OrBit(w: uint32, k: nat): uint32
    requires k < 32
  {
    PowersOfTwo();
    StaysInWord(w, k, 32);
    SetBit(w, k)
  }

  lemma {:induction false} FirstOnesBits(n: nat, k: nat)
    requires n <= 32 && k < 32
    ensures Bit(FirstOnes(n), k) <==> 32 - n <= k
  {
    if n == 0 {
      ZeroHasNoBits(k);
    } else {
      FirstOnesBits(n - 1, k);
      SetBitSets(FirstOnes(n - 1), 32 - n, k);
    }
  }

  lemma PowersOfTwo()
    ensures Pow2(8) == 0x100 && Pow2(16) == 0x1_0000 && Pow2(32) == 0x1_0000_0000
  {
    assert Pow2(8) == 0x100;
    assert Pow2(16) == 0x100 * Pow2(8);
    assert Pow2(24) == 0x100 * Pow2(16);
    assert Pow2(32) == 0x100 * Pow2(24);
  }

  /** Once all 32 bits are set, or-ing another one into the word changes nothing. */
  lemma WordOfOnes(k: nat)
    requires k < 32
    ensures FirstOnes(32) == 0xFFFF_FFFF && OrBit(FirstOnes(32), k) == FirstOnes(32)
  {
    PowersOfTwo();
    if FirstOnes(32) < 0xFFFF_FFFF {
      var j := NotAllOnes(FirstOnes(32), 32);
      FirstOnesBits(32, j);
    }
    FirstOnesBits(32, k);
    SetBitAgain(FirstOnes(32), k);
  }

  /** A bitmap of the first n positions; only word 0 is ever filled. */
  function FirstBits(n: nat): Bitmap {
    EMPTY_BITMAP[0 := FirstOnes(Min(n, 32))]
  }

  lemma FirstBitsSet(base: SN, numBits: uint32, n: nat, bit: nat)
    ensures SequenceNumberSet(base, numBits, FirstBits(n)).IsSet(bit)
            <==> bit >= SNS_MAX_NUM_BITS || bit < Min(n, 32)
  {
    if bit < 32 {
      FirstOnesBits(Min(n, 32), 31 - bit);
    } else {
      ZeroHasNoBits(31 - bit % 32);
    }
  }

  /** The set asks for its first m numbers. */
  ghost predicate AsksFirst(set_: SequenceNumberSet, m: nat) {
    m <= set_.numBits && forall bit: nat :: bit < set_.numBits ==> (set_.IsSet(bit) <==> bit < m)
  }

  lemma EmptySet(base: SN, bit: nat)
    ensures SequenceNumberSet(base, 0, EMPTY_BITMAP).IsSet(bit) <==> bit >= SNS_MAX_NUM_BITS
  {
    ZeroHasNoBits(31 - bit % 32);
  }
}
