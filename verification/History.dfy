/** A writer's history seen as what it holds: changes in ascending order of sequence number. */
module History {
  import opened RtpsTypes
  import opened Rings

  ghost predicate Increasing(h: seq<CacheChange>) {
    forall i, j :: 0 <= i < j < |h| ==> h[i].sn < h[j].sn
  }

  ghost predicate AtMost(h: seq<CacheChange>, sn: SN) {
    forall i :: 0 <= i < |h| ==> h[i].sn <= sn
  }

  /** The position of the first change numbered sn; the length of h when there is none. */
  function IndexOf(h: seq<CacheChange>, sn: SN): (k: nat)
    ensures k <= |h|
    ensures k < |h| ==> h[k].sn == sn
    ensures forall j :: 0 <= j < k ==> h[j].sn != sn
  {
    if h == [] then 0
    else if h[0].sn == sn then 0
    else 1 + IndexOf(h[1..], sn)
  }

  predicate Live(h: seq<CacheChange>, sn: SN) {
    IndexOf(h, sn) < |h|
  }

  function Lookup(h: seq<CacheChange>, sn: SN): (r: Option<CacheChange>)
    ensures r.Some? <==> Live(h, sn)
    ensures r.Some? ==> r.value in h && r.value.sn == sn
  {
    var k := IndexOf(h, sn);
    if k < |h| then Some(h[k]) else None
  }

  /** What is left once the change numbered sn is gone. */
  function Without(h: seq<CacheChange>, sn: SN): seq<CacheChange> {
    var k := IndexOf(h, sn);
    if k < |h| then h[..k] + h[k + 1..] else h
  }

  /** The newest changes that fit. */
  function Newest(h: seq<CacheChange>, capacity: nat): seq<CacheChange> {
    if |h| <= capacity then h else h[|h| - capacity..]
  }

  /** h with the change numbered sn stamped with a tick. */
  function Stamped(h: seq<CacheChange>, sn: SN, tick: nat): (s: seq<CacheChange>)
    ensures |s| == |h| && forall i :: 0 <= i < |h| ==> s[i].sn == h[i].sn
  {
    var k := IndexOf(h, sn);
    if k < |h| then h[k := h[k].(sentTickCount := tick)] else h
  }

  /** Filling the slot at head and moving head, and tail as well if they meet, keeps the newest. */
  lemma StoreInRing(slots: seq<CacheChange>, tail: nat, head: nat, c: CacheChange)
    requires tail < |slots| && head < |slots|
    ensures var next := After(head, |slots|);
            Ring(slots[head := c], if next == tail then After(tail, |slots|) else tail, next)
            == Newest(Ring(slots, tail, head) + [c], |slots| - 1)
  {
    if After(head, |slots|) != tail {
      RingPush(slots, tail, head, c);
    } else if |slots| > 1 {
      RingOverwrite(slots, tail, head, c);
    }
  }

  lemma LookupAt(h: seq<CacheChange>, i: nat)
    requires Increasing(h) && i < |h|
    ensures IndexOf(h, h[i].sn) == i && Lookup(h, h[i].sn) == Some(h[i])
  {
  }

  lemma LookupNone(h: seq<CacheChange>, sn: SN)
    requires forall i :: 0 <= i < |h| ==> h[i].sn != sn
    ensures Lookup(h, sn) == None
  {
  }

  lemma LookupIs(h: seq<CacheChange>, sn: SN, c: CacheChange)
    requires Increasing(h) && c in h && c.sn == sn
    ensures Lookup(h, sn) == Some(c)
  {
    var i :| 0 <= i < |h| && h[i] == c;
    LookupAt(h, i);
  }

  lemma CutOutAscends(h: seq<CacheChange>, k: nat)
    requires Increasing(h) && k < |h|
    ensures Increasing(h[..k] + h[k + 1..])
  {
  }

  lemma CutOutKeeps(h: seq<CacheChange>, k: nat, c: CacheChange)
    requires Increasing(h) && k < |h|
    ensures c in h[..k] + h[k + 1..] <==> c in h && c.sn != h[k].sn
  {
    var w := h[..k] + h[k + 1..];
    assert h == h[..k] + [h[k]] + h[k + 1..];
    if c in w {
      var i :| 0 <= i < |w| && w[i] == c;
      assert c == if i < k then h[i] else h[i + 1];
    }
  }

  /** Removal takes away the one change, if it was there, and keeps the others in order. */
  lemma WithoutKeepsOrder(h: seq<CacheChange>, sn: SN)
    requires Increasing(h)
    ensures Increasing(Without(h, sn))
    ensures forall c :: c in Without(h, sn) <==> c in h && c.sn != sn
  {
    var k := IndexOf(h, sn);
    if k < |h| {
      hide Increasing;
      CutOutAscends(h, k);
      forall c
        ensures c in h[..k] + h[k + 1..] <==> c in h && c.sn != h[k].sn
      {
        CutOutKeeps(h, k, c);
      }
    } else {
      assert forall c :: c in h ==> c.sn != sn;
    }
  }

  lemma WithoutRemovesOne(h: seq<CacheChange>, sn: SN, x: SN)
    requires Increasing(h)
    ensures Lookup(Without(h, sn), x) == if x == sn then None else Lookup(h, x)
  {
    WithoutKeepsOrder(h, sn);
    if x != sn && Live(h, x) {
      LookupIs(Without(h, sn), x, Lookup(h, x).value);
    } else {
      LookupNone(Without(h, sn), x);
    }
  }

  /** A history that got a fresh newest change loses at most its oldest one. */
  lemma NewestKeepsOrder(h: seq<CacheChange>, c: CacheChange, capacity: nat)
    requires Increasing(h) && AtMost(h, c.sn - 1) && 1 <= capacity && |h| <= capacity
    ensures var w := Newest(h + [c], capacity);
            && |w| <= capacity && Increasing(w) && AtMost(w, c.sn)
            && forall x :: x in w <==> x == c || (x in h && (|h| == capacity ==> x.sn != h[0].sn))
  {
    var w := Newest(h + [c], capacity);
    var d := |h| + 1 - |w|;
    assert w[|w| - 1] == c;
    assert forall j :: 0 <= j < |w| - 1 ==> w[j] == h[j + d];
    assert forall j :: d <= j < |h| ==> h[j] == w[j - d];
  }

  lemma NewestIsValid(h: seq<CacheChange>, c: CacheChange, capacity: nat)
    requires Increasing(h) && AtMost(h, c.sn - 1) && |h| <= capacity
    ensures Increasing(Newest(h + [c], capacity)) && AtMost(Newest(h + [c], capacity), c.sn)
  {
    if capacity > 0 {
      NewestKeepsOrder(h, c, capacity);
    }
  }

  lemma AppendEvictsOldest(h: seq<CacheChange>, c: CacheChange, capacity: nat, x: SN)
    requires Increasing(h) && AtMost(h, c.sn - 1) && 1 <= capacity && |h| <= capacity
    ensures Lookup(Newest(h + [c], capacity), x) ==
            if x == c.sn then Some(c)
            else if |h| == capacity && x == h[0].sn then None
            else Lookup(h, x)
  {
    NewestKeepsOrder(h, c, capacity);
    var w := Newest(h + [c], capacity);
    if x == c.sn {
      LookupIs(w, x, c);
    } else if Live(h, x) && !(|h| == capacity && x == h[0].sn) {
      LookupIs(w, x, Lookup(h, x).value);
    } else {
      LookupNone(w, x);
    }
  }

  /** A tick stamp changes nothing but the tick. */
  lemma StampedLookup(h: seq<CacheChange>, sn: SN, tick: nat, x: SN)
    requires Increasing(h)
    ensures Increasing(Stamped(h, sn, tick))
    ensures Lookup(Stamped(h, sn, tick), x) ==
            if x == sn && Live(h, x) then Some(Lookup(h, x).value.(sentTickCount := tick)) else Lookup(h, x)
  {
    var s := Stamped(h, sn, tick);
    if Live(h, x) {
      LookupAt(s, IndexOf(h, x));
    } else {
      LookupNone(s, x);
    }
  }
}
