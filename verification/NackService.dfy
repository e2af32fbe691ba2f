/** How a writer answers a request for missing changes: live ones with Data, dead ones with Gaps. */
module NackService {
  import opened RtpsTypes
  import opened History
  import opened Messages
  import opened WriterSpec

  datatype Reply = SendData(sn: SN, data: Payload) | SendGap(firstMissing: SN, nextValid: SN)

  function First(r: Reply): SN {
    if r.SendData? then r.sn else r.firstMissing
  }

  function End(r: Reply): SN {
    if r.SendData? then r.sn + 1 else r.nextValid
  }

  predicate Covers(r: Reply, sn: SN) {
    First(r) <= sn < End(r)
  }

  /** The first live number at or above sn, or the number after the last. */
  function NextLive(h: seq<CacheChange>, sn: SN, last: SN): (n: SN)
    requires sn <= last + 1
    ensures sn <= n <= last + 1 && (n <= last ==> Live(h, n))
    ensures forall k :: sn <= k < n ==> !Live(h, k)
    decreases last + 1 - sn
  {
    if sn > last || Live(h, sn) then sn else NextLive(h, sn + 1, last)
  }

  /** The replies for the requested bits from bit i on. */
  function Serve(h: seq<CacheChange>, last: SN, set_: SequenceNumberSet, i: nat): seq<Reply>
    decreases last + 1 - (set_.base + i)
  {
    var sn := set_.base + i;
    if i >= set_.numBits || sn > last then []
    else if !set_.IsSet(i) then Serve(h, last, set_, i + 1)
    else if Live(h, sn) then [SendData(sn, Lookup(h, sn).value.data)] + Serve(h, last, set_, i + 1)
    else
      var n := NextLive(h, sn + 1, last);
      if n > last then [SendGap(sn, n)]
      else [SendGap(sn, n)] + Serve(h, last, set_, n - set_.base)
  }

  datatype Response = Beat | Replies(replies: seq<Reply>)

  function Responded(w: Core, set_: SequenceNumberSet): Response {
    if set_.base == 0 then Beat
    else if w.history == [] then
      if w.lastUsed == 0 then Beat else Replies([SendGap(set_.base, w.lastUsed + 1)])
    else if set_.base < MinSN(w) then Replies([SendGap(set_.base, MinSN(w))])
    else Replies(Serve(w.history, w.lastUsed, set_, 0))
  }

  predicate Requested(set_: SequenceNumberSet, sn: SN, from: nat) {
    set_.base + from <= sn < set_.base + set_.numBits && set_.IsSet(sn - set_.base)
  }

  /** What a reply may say: Data repeats a live change, a Gap covers nothing that is live. */
  ghost predicate Truthful(h: seq<CacheChange>, last: SN, r: Reply) {
    match r
    case SendData(sn, data) => Live(h, sn) && data == Lookup(h, sn).value.data
    case SendGap(firstMissing, nextValid) =>
      nextValid <= last + 1 && forall n :: firstMissing <= n < nextValid ==> !Live(h, n)
  }

  /** The replies are disjoint and go upwards. */
  ghost predicate InOrderFrom(replies: seq<Reply>, from: SN) {
    && (forall k :: 0 <= k < |replies| ==> from <= First(replies[k]) < End(replies[k]))
    && (forall k, m :: 0 <= k < m < |replies| ==> End(replies[k]) <= First(replies[m]))
  }

  ghost predicate Answered(replies: seq<Reply>, sn: SN) {
    exists k :: 0 <= k < |replies| && Covers(replies[k], sn)
  }

  lemma AnsweredByRest(r: Reply, rest: seq<Reply>, sn: SN)
    requires Answered(rest, sn)
    ensures Answered([r] + rest, sn)
  {
    var k :| 0 <= k < |rest| && Covers(rest[k], sn);
    assert ([r] + rest)[k + 1] == rest[k];
  }

  lemma AnsweredByFirst(r: Reply, rest: seq<Reply>, sn: SN)
    requires Covers(r, sn)
    ensures Answered([r] + rest, sn)
  {
    assert ([r] + rest)[0] == r;
  }

  /** The number at which serving goes on after the one at bit i has been handled. */
  function Resume(h: seq<CacheChange>, last: SN, set_: SequenceNumberSet, i: nat): (n: SN)
    requires set_.base + i <= last
    ensures set_.base + i < n <= last + 1
  {
    var sn := set_.base + i;
    if set_.IsSet(i) && !Live(h, sn) then NextLive(h, sn + 1, last) else sn + 1
  }

  /** The reply to the number at bit i, if it is requested. */
  function Step(h: seq<CacheChange>, last: SN, set_: SequenceNumberSet, i: nat): (step: seq<Reply>)
    requires set_.base + i <= last
    ensures |step| == if set_.IsSet(i) then 1 else 0
  {
    var sn := set_.base + i;
    if !set_.IsSet(i) then []
    else if Live(h, sn) then [SendData(sn, Lookup(h, sn).value.data)]
    else [SendGap(sn, Resume(h, last, set_, i))]
  }

  lemma ServeUnfolds(h: seq<CacheChange>, last: SN, set_: SequenceNumberSet, i: nat)
    requires i < set_.numBits && set_.base + i <= last
    ensures Serve(h, last, set_, i)
            == Step(h, last, set_, i) + Serve(h, last, set_, Resume(h, last, set_, i) - set_.base)
  {
    var n := Resume(h, last, set_, i);
    if n > last {
      assert Serve(h, last, set_, n - set_.base) == [];
    }
  }

  lemma StepCovers(h: seq<CacheChange>, last: SN, set_: SequenceNumberSet, i: nat, r: Reply)
    requires i < set_.numBits && set_.base + i <= last && r in Step(h, last, set_, i)
    ensures First(r) == set_.base + i && End(r) == Resume(h, last, set_, i) && Truthful(h, last, r)
  {
  }

  /** A reply covers exactly the numbers that serving passes over. */
  lemma ServeStep(h: seq<CacheChange>, last: SN, set_: SequenceNumberSet, i: nat)
    requires i < set_.numBits && set_.base + i <= last
    ensures var n := Resume(h, last, set_, i);
            && Serve(h, last, set_, i) == Step(h, last, set_, i) + Serve(h, last, set_, n - set_.base)
            && forall r :: r in Step(h, last, set_, i) ==>
                 First(r) == set_.base + i && End(r) == n && Truthful(h, last, r)
  {
    hide Serve, Step, Resume, First, End, Truthful;
    ServeUnfolds(h, last, set_, i);
    forall r | r in Step(h, last, set_, i)
      ensures First(r) == set_.base + i && End(r) == Resume(h, last, set_, i) && Truthful(h, last, r)
    {
      StepCovers(h, last, set_, i, r);
    }
  }

  lemma {:induction false} ServeTruthful(h: seq<CacheChange>, last: SN, set_: SequenceNumberSet, i: nat)
    ensures forall k :: 0 <= k < |Serve(h, last, set_, i)| ==> Truthful(h, last, Serve(h, last, set_, i)[k])
    decreases last + 1 - (set_.base + i)
  {
    if i < set_.numBits && set_.base + i <= last {
      hide Serve, Step, Resume, First, End, Truthful;
      ServeStep(h, last, set_, i);
      ServeTruthful(h, last, set_, Resume(h, last, set_, i) - set_.base);
    }
  }

  lemma JoinInOrder(step: seq<Reply>, rest: seq<Reply>, from: SN, n: SN)
    requires InOrderFrom(rest, n) && from < n && |step| <= 1
    requires forall r :: r in step ==> First(r) == from && End(r) == n
    ensures InOrderFrom(step + rest, from)
  {
  }

  lemma {:induction false} ServeInOrder(h: seq<CacheChange>, last: SN, set_: SequenceNumberSet, i: nat, from: SN)
    requires from == set_.base + i
    ensures InOrderFrom(Serve(h, last, set_, i), from)
    decreases last + 1 - from
  {
    if i < set_.numBits && from <= last {
      var n, step := Resume(h, last, set_, i), Step(h, last, set_, i);
      hide Serve, Step, Resume, InOrderFrom, First, End, Truthful;
      ServeStep(h, last, set_, i);
      ServeInOrder(h, last, set_, n - set_.base, n);
      JoinInOrder(step, Serve(h, last, set_, n - set_.base), from, n);
    } else {
      assert Serve(h, last, set_, i) == [];
    }
  }

  /** Each reply starts at a requested number. */
  lemma {:induction false} ServeAsked(h: seq<CacheChange>, last: SN, set_: SequenceNumberSet, i: nat)
    ensures forall k :: 0 <= k < |Serve(h, last, set_, i)| ==> Requested(set_, First(Serve(h, last, set_, i)[k]), i)
    decreases last + 1 - (set_.base + i)
  {
    if i < set_.numBits && set_.base + i <= last {
      hide Serve, Resume, Truthful;
      ServeStep(h, last, set_, i);
      ServeAsked(h, last, set_, Resume(h, last, set_, i) - set_.base);
    }
  }

  lemma {:induction false} ServeComplete(h: seq<CacheChange>, last: SN, set_: SequenceNumberSet, i: nat, sn: SN)
    requires sn <= last && Requested(set_, sn, i)
    ensures Answered(Serve(h, last, set_, i), sn)
    decreases last + 1 - (set_.base + i)
  {
    hide Serve, NextLive, Truthful;
    ServeStep(h, last, set_, i);
    var n := Resume(h, last, set_, i);
    var rest := Serve(h, last, set_, n - set_.base);
    if sn >= n {
      ServeComplete(h, last, set_, n - set_.base, sn);
      if set_.IsSet(i) {
        AnsweredByRest(Serve(h, last, set_, i)[0], rest, sn);
      } else {
        assert Step(h, last, set_, i) + rest == rest;
      }
    } else {
      AnsweredByFirst(Serve(h, last, set_, i)[0], rest, sn);
    }
  }

  /** Reply k and no other answers for sn: with the change if that is live, else with a Gap. */
  ghost predicate OnlyAnswer(h: seq<CacheChange>, replies: seq<Reply>, sn: SN, k: nat)
    requires k < |replies|
  {
    && Covers(replies[k], sn)
    && (forall m :: 0 <= m < |replies| && Covers(replies[m], sn) ==> m == k)
    && (if Live(h, sn) then replies[k] == SendData(sn, Lookup(h, sn).value.data) else replies[k].SendGap?)
  }

  /** Every requested live change is sent exactly once; every requested dead number up to the
      last one in use lies in exactly one Gap; no Gap contains a live number. */
  lemma NackServedOnce(h: seq<CacheChange>, last: SN, set_: SequenceNumberSet, sn: SN) returns (k: nat)
    requires sn <= last && Requested(set_, sn, 0)
    ensures k < |Serve(h, last, set_, 0)| && OnlyAnswer(h, Serve(h, last, set_, 0), sn, k)
  {
    ServeComplete(h, last, set_, 0, sn);
    ServeTruthful(h, last, set_, 0);
    ServeInOrder(h, last, set_, 0, set_.base);
    var replies := Serve(h, last, set_, 0);
    k :| 0 <= k < |replies| && Covers(replies[k], sn);
    assert Truthful(h, last, replies[k]);
  }

  /** Whatever an AckNack asks for, the answers are true. */
  lemma ResponsesAreTruthful(w: Core, set_: SequenceNumberSet, k: nat)
    requires WellFormed(w) && Responded(w, set_).Replies? && k < |Responded(w, set_).replies|
    ensures Truthful(w.history, w.lastUsed, Responded(w, set_).replies[k])
  {
    NoneBelowFirst(w);
    ServeTruthful(w.history, w.lastUsed, set_, 0);
  }
}
