/** Numbers, identities and sequence numbers as bytes, on a little-endian machine. */
module Wire {
  import opened RtpsTypes
  import opened Endpoints
  import opened Messages
  import opened SequenceNumbers

  // --- Writing ---

  function Bytes16(v: uint16): (b: seq<byte>)
    ensures |b| == 2
  {
    [v % 0x100, v / 0x100]
  }

  function Bytes32(v: uint32): (b: seq<byte>)
    ensures |b| == 4
  {
    Bytes16(v % 0x1_0000) + Bytes16(v / 0x1_0000)
  }

  /** Two's complement. */
  function Signed(v: int32): (b: seq<byte>)
    ensures |b| == 4
  {
    Bytes32(v % WORD)
  }

  /** The high word comes first. */
  function SnBytes(sn: SN): (b: seq<byte>)
    requires MIN_VALUE <= sn <= MAX_VALUE
    ensures |b| == 8
  {
    Signed(FromValue(sn).high) + Bytes32(FromValue(sn).low)
  }

  function IdBytes(id: EntityId): (b: seq<byte>)
    ensures |b| == 4
  {
    id.entityKey + [id.entityKind]
  }

  /** The first n words of a bitmap. */
  function WordBytes(bitMap: Bitmap, n: nat): (b: seq<byte>)
    requires n <= 8
    ensures |b| == 4 * n
  {
    if n == 0 then [] else WordBytes(bitMap, n - 1) + Bytes32(bitMap[n - 1])
  }

  // --- Reading ---

  /** What lies behind the end of a buffer is not known; here it is zero. */
  function At(d: seq<byte>, pos: nat): byte {
    if pos < |d| then d[pos] else 0
  }

  function Read16(d: seq<byte>, pos: nat): uint16 {
    At(d, pos) + 0x100 * At(d, pos + 1)
  }

  function Read32(d: seq<byte>, pos: nat): uint32 {
    Read16(d, pos) + 0x1_0000 * Read16(d, pos + 2)
  }

  function ReadSigned(d: seq<byte>, pos: nat): int32 {
    var v := Read32(d, pos);
    if v < 0x8000_0000 then v else v - WORD
  }

  function ReadSn(d: seq<byte>, pos: nat): SN {
    SequenceNumber(ReadSigned(d, pos), Read32(d, pos + 4)).Value()
  }

  function ReadId(d: seq<byte>, pos: nat): EntityId {
    EntityId([At(d, pos), At(d, pos + 1), At(d, pos + 2)], At(d, pos + 3))
  }

  function ReadBytes(d: seq<byte>, pos: nat, n: nat): (b: seq<byte>)
    ensures |b| == n
    ensures pos + n <= |d| ==> b == d[pos..pos + n]
  {
    if n == 0 then [] else ReadBytes(d, pos, n - 1) + [At(d, pos + n - 1)]
  }

  // --- Reading what was written ---

  /** The bytes b stand at position pos of d. */
  ghost predicate Holds(d: seq<byte>, pos: nat, b: seq<byte>) {
    pos + |b| <= |d| && d[pos..pos + |b|] == b
  }

  lemma HoldsParts(d: seq<byte>, pos: nat, a: seq<byte>, b: seq<byte>)
    requires Holds(d, pos, a + b)
    ensures Holds(d, pos, a) && Holds(d, pos + |a|, b)
  {
    var ab := d[pos..pos + |a| + |b|];
    assert ab[..|a|] == d[pos..pos + |a|];
    assert ab[|a|..] == d[pos + |a|..pos + |a| + |b|];
  }

  lemma HoldsAt(d: seq<byte>, pos: nat, b: seq<byte>, k: nat)
    requires Holds(d, pos, b) && k < |b|
    ensures At(d, pos + k) == b[k]
  {
    assert d[pos..pos + |b|][k] == d[pos + k];
  }

  lemma Reads16(d: seq<byte>, pos: nat, v: uint16)
    requires Holds(d, pos, Bytes16(v))
    ensures Read16(d, pos) == v
  {
    HoldsAt(d, pos, Bytes16(v), 0);
    HoldsAt(d, pos, Bytes16(v), 1);
  }

  lemma Reads32(d: seq<byte>, pos: nat, v: uint32)
    requires Holds(d, pos, Bytes32(v))
    ensures Read32(d, pos) == v
  {
    HoldsParts(d, pos, Bytes16(v % 0x1_0000), Bytes16(v / 0x1_0000));
    Reads16(d, pos, v % 0x1_0000);
    Reads16(d, pos + 2, v / 0x1_0000);
  }

  lemma ReadsSigned(d: seq<byte>, pos: nat, v: int32)
    requires Holds(d, pos, Signed(v))
    ensures ReadSigned(d, pos) == v
  {
    Reads32(d, pos, v % WORD);
  }

  lemma ReadsSn(d: seq<byte>, pos: nat, sn: SN)
    requires MIN_VALUE <= sn <= MAX_VALUE && Holds(d, pos, SnBytes(sn))
    ensures ReadSn(d, pos) == sn
  {
    HoldsParts(d, pos, Signed(FromValue(sn).high), Bytes32(FromValue(sn).low));
    ReadsSigned(d, pos, FromValue(sn).high);
    Reads32(d, pos + 4, FromValue(sn).low);
  }

  lemma ReadsId(d: seq<byte>, pos: nat, id: EntityId)
    requires Holds(d, pos, IdBytes(id))
    ensures ReadId(d, pos) == id
  {
    HoldsAt(d, pos, IdBytes(id), 0);
    HoldsAt(d, pos, IdBytes(id), 1);
    HoldsAt(d, pos, IdBytes(id), 2);
    HoldsAt(d, pos, IdBytes(id), 3);
    assert ReadId(d, pos).entityKey == id.entityKey;
  }

  lemma {:induction false} ReadsWord(d: seq<byte>, pos: nat, bitMap: Bitmap, n: nat, k: nat)
    requires k < n <= 8 && Holds(d, pos, WordBytes(bitMap, n))
    ensures Read32(d, pos + 4 * k) == bitMap[k]
  {
    HoldsParts(d, pos, WordBytes(bitMap, n - 1), Bytes32(bitMap[n - 1]));
    if k == n - 1 {
      Reads32(d, pos + 4 * k, bitMap[k]);
    } else {
      ReadsWord(d, pos, bitMap, n - 1, k);
    }
  }
}
