/** MemoryPool: a fixed array of slots and a bitmap of those in use. */
module MemoryPool {
  import opened RtpsTypes
  import opened Bits
  import opened Counting
  import opened Sequences

  /** Whether the bitmap marks a slot. */
  predicate Marked(bitMap: seq<byte>, slot: nat)
    requires slot < 8 * |bitMap|
  {
    Bit(bitMap[slot / 8], slot % 8)
  }

  ghost function Used(bitMap: seq<byte>): set<nat> {
    set s: nat | s < 8 * |bitMap| && Marked(bitMap, s)
  }

  /** The elements of the slots below n that are in use, in slot order. */
  ghost function Elements<T>(used: set<nat>, data: seq<T>, n: nat): seq<T>
    requires n <= |data|
  {
    if n == 0 then []
    else Elements(used, data, n - 1) + (if n - 1 in used then [data[n - 1]] else [])
  }

  lemma MarkSlot(bitMap: seq<byte>, slot: nat)
    requires slot < 8 * |bitMap|
    ensures SetBit(bitMap[slot / 8], slot % 8) < 0x100
    ensures Used(bitMap[slot / 8 := SetBit(bitMap[slot / 8], slot % 8)]) == Used(bitMap) + {slot}
  {
    var b, k := bitMap[slot / 8], slot % 8;
    assert Pow2(8) == 0x100;
    StaysInWord(b, k, 8);
    var after := bitMap[slot / 8 := SetBit(b, k)];
    forall s: nat | s < 8 * |bitMap|
      ensures Marked(after, s) <==> s == slot || Marked(bitMap, s)
    {
      SetBitSets(b, k, s % 8);
    }
  }

  lemma MarkBit(bitMap: seq<byte>, bucket: nat, bit: nat)
    requires bucket < |bitMap| && bit < 8
    ensures SetBit(bitMap[bucket], bit) < 0x100
    ensures Used(bitMap[bucket := SetBit(bitMap[bucket], bit)]) == Used(bitMap) + {8 * bucket + bit}
  {
    assert (8 * bucket + bit) / 8 == bucket && (8 * bucket + bit) % 8 == bit;
    MarkSlot(bitMap, 8 * bucket + bit);
  }

  lemma UnmarkSlot(bitMap: seq<byte>, slot: nat)
    requires slot < 8 * |bitMap|
    ensures ClearBit(bitMap[slot / 8], slot % 8) < 0x100
    ensures Used(bitMap[slot / 8 := ClearBit(bitMap[slot / 8], slot % 8)]) == Used(bitMap) - {slot}
  {
    var b, k := bitMap[slot / 8], slot % 8;
    assert Pow2(8) == 0x100;
    StaysInWord(b, k, 8);
    var after := bitMap[slot / 8 := ClearBit(b, k)];
    forall s: nat | s < 8 * |bitMap|
      ensures Marked(after, s) <==> s != slot && Marked(bitMap, s)
    {
      ClearBitClears(b, k, s % 8);
    }
  }

  /** Fewer than n slots in use leave one of the first n free. */
  lemma Pigeonhole(used: set<nat>, n: nat) returns (free: nat)
    requires |used| < n
    ensures free < n && free !in used
  {
    if Below(n) <= used {
      SubsetSize(Below(n), used);
    }
    free :| free in Below(n) && free !in used;
  }

  /** The new element comes before those in higher slots. */
  lemma {:induction false} ElementsInsert<T(!new)>(used: set<nat>, data: seq<T>, slot: nat, x: T, n: nat)
    requires slot < n <= |data| && slot !in used && forall s: nat :: s < slot ==> s in used
    ensures slot <= |Elements(used, data, n)|
    ensures var e := Elements(used, data, n);
            Elements(used + {slot}, data[slot := x], n) == e[..slot] + [x] + e[slot..]
    decreases n
  {
    if slot < n - 1 {
      ElementsInsert(used, data, slot, x, n - 1);
    } else {
      ElementsBelow(used, data, slot);
      ElementsBelow(used + {slot}, data[slot := x], slot);
      assert data[slot := x][..slot] == data[..slot];
    }
  }

  lemma {:induction false} ElementsBelow<T(!new)>(used: set<nat>, data: seq<T>, n: nat)
    requires n <= |data| && forall s: nat :: s < n ==> s in used
    ensures Elements(used, data, n) == data[..n]
  {
    if n > 0 { ElementsBelow(used, data, n - 1); }
  }

  lemma ElementsNext<T(!new)>(used: set<nat>, data: seq<T>, n: nat)
    requires 0 < n <= |data|
    ensures Elements(used, data, n)
            == if n - 1 in used then Elements(used, data, n - 1) + [data[n - 1]] else Elements(used, data, n - 1)
  {
  }

  lemma {:induction false} ElementsFilter<T(!new)>(used: set<nat>, rest: set<nat>, data: seq<T>,
                                                   keep: T -> bool, n: nat)
    requires n <= |data|
    requires forall s: nat :: s < n ==> (s in rest <==> s in used && keep(data[s]))
    ensures Elements(rest, data, n) == Filter(Elements(used, data, n), keep)
  {
    if n == 0 {
      assert Elements(used, data, 0) == Elements(rest, data, 0) == [];
    } else {
      hide Filter, Elements;
      ElementsFilter(used, rest, data, keep, n - 1);
      ElementsNext(used, data, n);
      ElementsNext(rest, data, n);
      FilterMaybe(Elements(used, data, n - 1), data[n - 1], keep, n - 1 in used);
    }
  }

  lemma {:induction false} ElementsFrom<T(!new)>(used: set<nat>, data: seq<T>, n: nat, x: T)
    requires n <= |data|
    ensures x in Elements(used, data, n) <==> exists s: nat :: s < n && s in used && data[s] == x
  {
    if n > 0 { ElementsFrom(used, data, n - 1, x); }
  }

  /** Of the slots that were in use, the matching ones below bit are gone. */
  ghost predicate Swept<T>(was: set<nat>, used: set<nat>, elems: seq<T>, bit: nat, matches: T -> bool, removed: bool)
    requires forall s :: s in was ==> s < |elems|
  {
    && (forall s :: s in used <==> s in was && (s < bit ==> !matches(elems[s])))
    && (removed <==> exists s :: s in was && s < bit && matches(elems[s]))
  }

  lemma SweptOn<T>(was: set<nat>, before: set<nat>, elems: seq<T>, at: nat, matches: T -> bool, removed: bool,
                   after: set<nat>, bit: nat)
    requires forall s :: s in was ==> s < |elems|
    requires Swept(was, before, elems, at, matches, removed) && at in was
    requires after == if matches(elems[at]) then before - {at} else before
    requires at < bit && forall s :: s in was && at < s < bit ==> s !in after
    ensures Swept(was, after, elems, bit, matches, removed || matches(elems[at]))
  {
    assert forall s :: s in was && at < s ==> s in before && s in after;
  }

  lemma SweptAll<T(!new)>(was: set<nat>, used: set<nat>, elems: seq<T>, matches: T -> bool, removed: bool)
    requires forall s :: s in was ==> s < |elems|
    requires Swept(was, used, elems, |elems|, matches, removed)
    ensures Elements(used, elems, |elems|) == Filter(Elements(was, elems, |elems|), x => !matches(x))
    ensures removed <==> exists x :: x in Elements(was, elems, |elems|) && matches(x)
  {
    ElementsFilter(was, used, elems, x => !matches(x), |elems|);
    forall x
      ensures x in Elements(was, elems, |elems|) <==> exists s: nat :: s < |elems| && s in was && elems[s] == x
    {
      ElementsFrom(was, elems, |elems|, x);
    }
    if removed {
      var s :| s in was && matches(elems[s]);
      assert elems[s] in Elements(was, elems, |elems|);
    }
  }

  /** The inner loop of add: tests the byte's lowest bit and shifts it right. */
  method LowestClearBit(b: byte) returns (bit: nat)
    requires b != 0xFF
    ensures bit < 8 && !Bit(b, bit) && forall k: nat :: k < bit ==> Bit(b, k)
  {
    assert Pow2(8) == 0x100;
    ghost var clear := NotAllOnes(b, 8);
    bit := 0;
    var shifted: nat := b;
    while bit < 8
      invariant bit <= clear < 8 && !Bit(b, clear)
      invariant forall k: nat :: k < bit ==> Bit(b, k)
      invariant forall k: nat :: Bit(shifted, k) <==> Bit(b, k + bit)
    {
      assert Bit(shifted, 0) <==> Bit(b, bit);
      if shifted % 2 == 0 {
        return;
      }
      ghost var was := shifted;
      shifted := shifted / 2;
      assert forall k: nat :: Bit(shifted, k) <==> Bit(was, k + 1);
      bit := bit + 1;
    }
  }

  class Pool<T(0, !new)> {
    const size: nat
    const bitMap: array<byte>
    const data: array<T>
    var numElements: nat

    ghost function Slots(): set<nat>
      reads bitMap
    {
      Used(bitMap[..])
    }

    /** The pool's elements in the order in which it is iterated. */
    ghost function Contents(): seq<T>
      requires data.Length == size
      reads bitMap, data
    {
      Elements(Slots(), data[..], size)
    }

    ghost predicate Valid()
      reads this, bitMap
    {
      && bitMap.Length == size / 8 + 1 && data.Length == size && bitMap as object != data
      && (forall s :: s in Slots() ==> s < size)
      && numElements == |Slots()|
    }

    constructor (size: nat)
      ensures Valid() && fresh(bitMap) && fresh(data) && this.size == size
      ensures Slots() == {}
    {
      this.size := size;
      bitMap := new byte[size / 8 + 1](_ => 0);
      data := new T[size];
      numElements := 0;
      new;
      forall s: nat | s < 8 * bitMap.Length
        ensures !Marked(bitMap[..], s)
      {
        ZeroHasNoBits(s % 8);
      }
      assert Slots() == {};
    }

    /** Takes the lowest free slot, which is below the size as long as the pool is not full. */
    method Add(x: T) returns (added: bool, ghost slot: nat)
      requires Valid()
      modifies this`numElements, bitMap, data
      ensures Valid()
      ensures added <==> |old(Slots())| < size
      ensures !added ==> Slots() == old(Slots()) && data[..] == old(data[..])
      ensures added ==>
                && slot < size && slot !in old(Slots()) && (forall s: nat :: s < slot ==> s in old(Slots()))
                && Slots() == old(Slots()) + {slot} && data[..] == old(data[..])[slot := x]
                && slot <= |old(Contents())|
                && Contents() == old(Contents())[..slot] + [x] + old(Contents())[slot..]
    {
      hide Used, Elements;
      slot := 0;
      SubsetOfRange();
      if numElements == size {
        return false, 0;
      }
      ghost var free := Pigeonhole(Slots(), size);
      for bucket := 0 to bitMap.Length
        invariant forall s: nat :: s < 8 * bucket ==> s in Slots()
        invariant Valid() && Slots() == old(Slots()) && data[..] == old(data[..])
      {
        if bitMap[bucket] != 0xFF {
          slot := AddInBucket(bucket, x, free);
          return true, slot;
        }
        FullBucketMarks(bucket);
      }
      assert false;
    }

    /** The body of the loop for the first bucket that is not full. */
    method AddInBucket(bucket: nat, x: T, ghost free: nat) returns (ghost slot: nat)
      requires Valid() && bucket < bitMap.Length && bitMap[bucket] != 0xFF && free < size && free !in Slots()
      requires forall s: nat :: s < 8 * bucket ==> s in Slots()
      modifies this`numElements, bitMap, data
      ensures Valid()
      ensures slot < size && slot !in old(Slots()) && (forall s: nat :: s < slot ==> s in old(Slots()))
      ensures Slots() == old(Slots()) + {slot} && data[..] == old(data[..])[slot := x]
      ensures slot <= |old(Contents())| && Contents() == old(Contents())[..slot] + [x] + old(Contents())[slot..]
    {
      hide Used, Elements;
      var bit := LowestClearBit(bitMap[bucket]);
      slot := bucket * 8 + bit;
      BucketMarks(bucket, bit);
      assert slot <= free;
      Occupy(bucket, bit, x);
    }

    /** Bits below the lowest clear one mark their slots as in use. */
    lemma BucketMarks(bucket: nat, bit: nat)
      requires bucket < bitMap.Length && bit < 8
      requires !Bit(bitMap[bucket], bit) && forall k: nat :: k < bit ==> Bit(bitMap[bucket], k)
      requires forall s: nat :: s < 8 * bucket ==> s in Slots()
      ensures 8 * bucket + bit !in Slots()
      ensures forall s: nat :: s < 8 * bucket + bit ==> s in Slots()
    {
      forall k: nat | k < 8
        ensures Marked(bitMap[..], 8 * bucket + k) <==> Bit(bitMap[bucket], k)
      {
        assert (8 * bucket + k) / 8 == bucket && (8 * bucket + k) % 8 == k;
      }
      forall s: nat | s < 8 * bucket + bit
        ensures s in Slots()
      {
        if s >= 8 * bucket {
          assert Marked(bitMap[..], 8 * bucket + (s - 8 * bucket));
        }
      }
    }

    lemma FullBucketMarks(bucket: nat)
      requires bucket < bitMap.Length && bitMap[bucket] == 0xFF
      requires forall s: nat :: s < 8 * bucket ==> s in Slots()
      ensures forall s: nat :: s < 8 * (bucket + 1) ==> s in Slots()
    {
      forall s: nat | 8 * bucket <= s < 8 * (bucket + 1)
        ensures s in Slots()
      {
        assert Pow2(8) == 0x100;
        AllOnes(bitMap[bucket], 8, s % 8);
        assert Marked(bitMap[..], s);
      }
    }

    lemma SubsetOfRange()
      requires Valid()
      ensures numElements <= size
    {
      SubsetSize(Slots(), Below(size));
    }

    method Occupy(bucket: nat, bit: nat, x: T)
      requires Valid() && bit < 8 && 8 * bucket + bit < size
      requires 8 * bucket + bit !in Slots() && forall s: nat :: s < 8 * bucket + bit ==> s in Slots()
      modifies this`numElements, bitMap, data
      ensures Valid()
      ensures var slot, was := 8 * bucket + bit, old(Contents());
              && Slots() == old(Slots()) + {slot} && data[..] == old(data[..])[slot := x]
              && slot <= |was| && Contents() == was[..slot] + [x] + was[slot..]
    {
      hide Used, Elements;
      ElementsInsert(Slots(), data[..], 8 * bucket + bit, x, size);
      SetMark(bucket, bit);
      data[bucket * 8 + bit] := x;
    }

    method SetMark(bucket: nat, bit: nat)
      requires Valid() && bit < 8 && 8 * bucket + bit < size && 8 * bucket + bit !in Slots()
      modifies this`numElements, bitMap
      ensures Valid() && Slots() == old(Slots()) + {8 * bucket + bit} && numElements == old(numElements) + 1
    {
      hide Used, SetBit;
      ghost var before := bitMap[..];
      MarkBit(before, bucket, bit);
      bitMap[bucket] := SetBit(bitMap[bucket], bit);
      assert bitMap[..] == before[bucket := bitMap[bucket]];
      numElements := numElements + 1;
    }

    method Release(slot: nat)
      requires Valid() && slot in Slots()
      modifies this`numElements, bitMap
      ensures Valid() && Slots() == old(Slots()) - {slot} && numElements == old(numElements) - 1
    {
      ghost var before := bitMap[..];
      UnmarkSlot(before, slot);
      bitMap[slot / 8] := ClearBit(bitMap[slot / 8], slot % 8);
      assert bitMap[..] == before[slot / 8 := bitMap[slot / 8]];
      numElements := numElements - 1;
    }

    method Begin() returns (it: Iterator<T>)
      requires Valid()
      ensures fresh(it) && it.pool == this && it.snapshot == bitMap[..]
      ensures it.AtNextUsed(0) || (Slots() == {} && it.bit == size)
    {
      it := new Iterator(this);
      if bitMap[0] % 2 == 0 {
        assert !Marked(bitMap[..], 0);
        it.Advance();
      } else {
        assert Marked(bitMap[..], 0);
      }
    }

    /** Deletes exactly the matching elements, while iterating over a snapshot of the bitmap. */
    method Remove(matches: T -> bool) returns (removed: bool)
      requires Valid()
      modifies this`numElements, bitMap
      ensures Valid()
      ensures removed <==> exists x :: x in old(Contents()) && matches(x)
      ensures Contents() == Filter(old(Contents()), x => !matches(x))
    {
      removed := false;
      ghost var was, elems := Slots(), data[..];
      var it := Begin();
      while it.bit != size
        invariant Valid() && it.pool == this && Used(it.snapshot) == was && |it.snapshot| == bitMap.Length
        invariant it.bit <= size && (it.bit < size ==> it.bit in was)
        invariant data[..] == elems && Swept(was, Slots(), elems, it.bit, matches, removed)
        decreases size - it.bit
      {
        ghost var at, before := it.bit, Slots();
        var hit := ReleaseIf(it.bit, matches);
        it.Advance();
        SweptOn(was, before, elems, at, matches, removed, Slots(), it.bit);
        removed := removed || hit;
      }
      SweptAll(was, Slots(), elems, matches, removed);
    }

    method ReleaseIf(slot: nat, matches: T -> bool) returns (hit: bool)
      requires Valid() && slot in Slots()
      modifies this`numElements, bitMap
      ensures Valid()
      ensures hit == matches(data[slot])
      ensures Slots() == if hit then old(Slots()) - {slot} else old(Slots())
    {
      hit := matches(data[slot]);
      if hit {
        Release(slot);
      }
    }

    /** The first match in iteration order. */
    method Find(matches: T -> bool) returns (slot: Option<nat>)
      requires Valid()
      ensures slot.Some? ==> slot.value in Slots() && matches(data[slot.value])
                             && forall s :: s in Slots() && s < slot.value ==> !matches(data[s])
      ensures slot == None ==> forall s :: s in Slots() ==> !matches(data[s])
    {
      var it := Begin();
      while it.bit != size
        invariant it.pool == this && it.snapshot == bitMap[..]
        invariant it.bit <= size && (it.bit < size ==> it.bit in Slots())
        invariant forall s :: s in Slots() && s < it.bit ==> !matches(data[s])
        decreases size - it.bit
      {
        if matches(data[it.bit]) {
          return Some(it.bit);
        }
        it.Advance();
      }
      return None;
    }

    method Clear()
      requires Valid()
      modifies this`numElements, bitMap
      ensures Valid() && Slots() == {}
    {
      for i := 0 to size / 8 + 1
        invariant forall j :: 0 <= j < i ==> bitMap[j] == 0
      {
        bitMap[i] := 0;
      }
      numElements := 0;
      forall s: nat | s < 8 * bitMap.Length
        ensures !Marked(bitMap[..], s)
      {
        ZeroHasNoBits(s % 8);
      }
      assert Slots() == {};
    }
  }

  /** Walks the slots that were in use when the iterator was made. */
  class Iterator<T(0, !new)> {
    const pool: Pool<T>
    const snapshot: seq<byte>
    var bit: nat

    constructor (pool: Pool<T>)
      ensures this.pool == pool && snapshot == pool.bitMap[..] && bit == 0
    {
      this.pool := pool;
      snapshot := pool.bitMap[..];
      bit := 0;
    }

    /** bit is the first slot of the snapshot that is in use at or after start, or the size. */
    ghost predicate AtNextUsed(start: nat)
      reads this
    {
      && start <= bit <= pool.size
      && (forall s :: start <= s < bit ==> s !in Used(snapshot))
      && (bit < pool.size ==> bit in Used(snapshot))
    }

    /** operator++ */
    method Advance()
      requires bit < pool.size || pool.numElements == 0
      requires |snapshot| == pool.size / 8 + 1
      requires forall s :: s in Used(snapshot) ==> s < pool.size
      modifies this`bit
      ensures if pool.numElements == 0 then bit == pool.size else AtNextUsed(old(bit) + 1)
    {
      if pool.numElements == 0 {
        bit := pool.size;
        return;
      }
      bit := bit + 1;
      while !Bit(snapshot[bit / 8], bit % 8) && bit < pool.size
        invariant old(bit) < bit <= pool.size
        invariant forall s :: old(bit) < s < bit ==> s !in Used(snapshot)
        decreases pool.size - bit
      {
        bit := bit + 1;
      }
      assert bit in Used(snapshot) <==> Marked(snapshot, bit);
    }
  }
}
