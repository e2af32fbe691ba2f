/** PBufWrapper: a chain of packet buffers seen as one byte sequence, of which the last bytes are
    reserved and not yet written. */
module PBufWrapper {
  import opened RtpsTypes

  /** The conversion to int16_t. */
  function Narrow(x: int): int {
    var w := x % 0x1_0000;
    if w < 0x8000 then w else w - 0x1_0000
  }

  /** How many bytes reserve allocates. */
  function Additional(length: nat, free: nat): nat {
    Max(Narrow(length - free), 0)
  }

  /** For small differences nothing is lost in the conversion. */
  lemma AdditionalSmall(length: nat, free: nat)
    requires -0x8000 <= length - free < 0x8000
    ensures Additional(length, free) == Max(length - free, 0)
  {
  }

  class Buffer {
    var isValid: bool       // firstElement != nullptr
    var bytes: seq<byte>
    var freeSpace: nat

    ghost predicate Valid()
      reads this
    {
      freeSpace <= |bytes| < 0x1_0000 && (!isValid ==> bytes == [])
    }

    /** The bytes that have been written. */
    ghost function Used(): seq<byte>
      requires Valid()
      reads this
    {
      bytes[..|bytes| - freeSpace]
    }

    constructor ()
      ensures Valid() && !isValid && Used() == [] && freeSpace == 0
    {
      isValid, bytes, freeSpace := false, [], 0;
    }

    method SpaceUsed() returns (n: nat)
      requires Valid()
      ensures n == |Used()|
    {
      n := |bytes| - freeSpace;
    }

    /** pbuf_alloc: nothing is known about the contents of fresh memory. */
    method IncreaseSizeBy(length: nat)
      requires Valid() && |bytes| + length < 0x1_0000
      modifies this
      ensures Valid() && isValid
      ensures Used() == old(Used()) && freeSpace == old(freeSpace) + length && |bytes| == |old(bytes)| + length
    {
      var fresh_ := new byte[length];
      isValid, bytes, freeSpace := true, bytes + fresh_[..], freeSpace + length;
      assert bytes[..|bytes| - freeSpace] == old(bytes)[..|old(bytes)| - old(freeSpace)];
    }

    /** Whether pbuf_alloc is granted memory is up to lwIP. */
    method Reserve(length: uint16, granted: bool) returns (ok: bool)
      requires Valid() && |bytes| + Additional(length, freeSpace) < 0x1_0000
      modifies this
      ensures Valid() && Used() == old(Used()) && (ok <==> granted || Additional(length, old(freeSpace)) == 0)
      ensures !ok ==> isValid == old(isValid) && bytes == old(bytes) && freeSpace == old(freeSpace)
      ensures ok ==> freeSpace == old(freeSpace) + Additional(length, old(freeSpace))
                     && |bytes| == |old(bytes)| + Additional(length, old(freeSpace))
                     && (isValid <==> old(isValid) || Additional(length, old(freeSpace)) > 0)
    {
      hide Narrow;
      var additionalAllocation := Narrow(length - freeSpace);
      if additionalAllocation <= 0 {
        return true;
      }
      if !granted {
        return false;
      }
      IncreaseSizeBy(additionalAllocation);
      return true;
    }

    /** pbuf_take_at copies when there is a buffer and the data fit into it. */
    method Append(data: seq<byte>) returns (ok: bool)
      requires Valid()
      modifies this`bytes, this`freeSpace
      ensures Valid() && (ok <==> isValid && |data| <= old(freeSpace))
      ensures ok ==> Used() == old(Used()) + data && freeSpace == old(freeSpace) - |data|
      ensures |bytes| == |old(bytes)| && isValid == old(isValid)
      ensures !ok ==> bytes == old(bytes) && freeSpace == old(freeSpace)
    {
      var used := SpaceUsed();
      if !isValid || used + |data| > |bytes| {
        return false;
      }
      bytes := bytes[..used] + data + bytes[used + |data|..];
      freeSpace := freeSpace - |data|;
      assert bytes[..used + |data|] == old(bytes)[..used] + data;
      return true;
    }

    /** The other chain follows the whole of this one. Only if nothing was left unwritten here
        does its content follow what has been written. */
    method AppendChain(other: Buffer)
      requires Valid() && other.Valid() && other.isValid && other != this && |bytes| + |other.bytes| < 0x1_0000
      modifies this
      ensures Valid() && isValid
      ensures bytes == old(bytes) + other.bytes && freeSpace == old(freeSpace) + other.freeSpace
      ensures old(freeSpace) == 0 ==> Used() == old(Used()) + other.Used()
    {
      if !isValid {
        isValid, bytes, freeSpace := true, other.bytes, other.freeSpace;
        return;
      }
      freeSpace := freeSpace + other.freeSpace;
      bytes := bytes + other.bytes;
    }
  }

  /** What the histories' addChange does with the caller's data: the whole of it is kept if and only
      if it is not longer than 32767 bytes; above that nothing is allocated and nothing kept. */
  method StorePayload(data: seq<byte>) returns (b: Buffer)
    requires |data| < 0x1_0000
    ensures fresh(b) && b.Valid() && b.Used() == b.bytes == Stored(data) && (b.isValid <==> Stored(data) != [])
  {
    b := new Buffer();
    var reserved := b.Reserve(|data|, true);
    var appended := b.Append(data);
  }

  /** The smallest payload that is lost has 32768 bytes: reserve claims success without allocating,
      and append then has nowhere to write. */
  method LongPayloadIsLost() returns (data: seq<byte>, reserved: bool, appended: bool, kept: seq<byte>)
    ensures |data| == 0x8000 && reserved && !appended && kept == []
  {
    var zeros := new byte[0x8000];
    data := zeros[..];
    var b := new Buffer();
    reserved := b.Reserve(|data|, false);
    appended := b.Append(data);
    kept := b.bytes;
  }
}
