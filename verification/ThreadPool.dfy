/** The queues of outgoing work that the writers share with the pool's threads. A writer is
    known here by a number. */
module ThreadPool {
  import opened RtpsTypes
  import CircularBuffer

  datatype Queues = Queues(userSize: nat, metaSize: nat, user: seq<nat>, meta: seq<nat>) {

    function Of(builtin: bool): seq<nat> {
      if builtin then meta else user
    }

    predicate Accepts(builtin: bool) {
      |Of(builtin)| < if builtin then metaSize else userSize
    }

    function Added(writer: nat, builtin: bool): Queues {
      if !Accepts(builtin) then this
      else if builtin then this.(meta := meta + [writer])
      else this.(user := user + [writer])
    }

    function Popped(builtin: bool): Queues {
      if Of(builtin) == [] then this
      else if builtin then this.(meta := meta[1..])
      else this.(user := user[1..])
    }
  }

  function FirstOf(s: seq<nat>): seq<nat> {
    if s == [] then [] else [s[0]]
  }

  function RestOf(s: seq<nat>): seq<nat> {
    if s == [] then [] else s[1..]
  }

  /** The order of progress calls of one thread that nobody disturbs. */
  function Alternating(user: seq<nat>, meta: seq<nat>): seq<nat>
    decreases |user| + |meta|
  {
    if user == [] && meta == [] then []
    else FirstOf(user) + FirstOf(meta) + Alternating(RestOf(user), RestOf(meta))
  }

  lemma Split(s: seq<nat>)
    ensures multiset(s) == multiset(FirstOf(s)) + multiset(RestOf(s))
  {
    assert s == FirstOf(s) + RestOf(s);
  }

  lemma JoinSplits(user: seq<nat>, meta: seq<nat>, rest: seq<nat>)
    requires multiset(rest) == multiset(RestOf(user)) + multiset(RestOf(meta))
    ensures multiset(FirstOf(user) + FirstOf(meta) + rest) == multiset(user) + multiset(meta)
  {
    hide FirstOf, RestOf;
    Split(user);
    Split(meta);
  }

  /** Every request is served, each as often as it was made. */
  lemma {:induction false} AlternatingServesAll(user: seq<nat>, meta: seq<nat>)
    ensures multiset(Alternating(user, meta)) == multiset(user) + multiset(meta)
    decreases |user| + |meta|
  {
    if user != [] || meta != [] {
      AlternatingServesAll(RestOf(user), RestOf(meta));
      JoinSplits(user, meta, Alternating(RestOf(user), RestOf(meta)));
    }
  }

  /** As long as both queues have requests, they take turns, a user request first; each queue is served
      from its front. */
  lemma {:induction false} AlternatingTakesTurns(user: seq<nat>, meta: seq<nat>, k: nat)
    requires k < |user| && k < |meta|
    ensures 2 * k + 1 < |Alternating(user, meta)|
    ensures Alternating(user, meta)[2 * k] == user[k] && Alternating(user, meta)[2 * k + 1] == meta[k]
    decreases k
  {
    TakesOneOfEach(user, meta);
    if k > 0 {
      AlternatingTakesTurns(user[1..], meta[1..], k - 1);
      hide Alternating;
    }
  }

  lemma TakesOneOfEach(user: seq<nat>, meta: seq<nat>)
    requires user != [] && meta != []
    ensures Alternating(user, meta) == [user[0], meta[0]] + Alternating(user[1..], meta[1..])
  {
  }

  lemma {:induction false} AlternatingLength(user: seq<nat>, meta: seq<nat>)
    ensures |Alternating(user, meta)| == |user| + |meta|
    decreases |user| + |meta|
  {
    if user != [] || meta != [] {
      AlternatingLength(RestOf(user), RestOf(meta));
    }
  }

  /** What one queue has more than the other follows in its order. */
  lemma {:induction false} AlternatingRestOfMeta(user: seq<nat>, meta: seq<nat>, k: nat)
    requires |user| <= k < |meta|
    ensures |user| + k < |Alternating(user, meta)| && Alternating(user, meta)[|user| + k] == meta[k]
    decreases k
  {
    AlternatingLength(user, meta);
    if k > 0 {
      AlternatingRestOfMeta(RestOf(user), meta[1..], k - 1);
    }
  }

  lemma {:induction false} AlternatingRestOfUser(user: seq<nat>, meta: seq<nat>, k: nat)
    requires |meta| <= k < |user|
    ensures |meta| + k < |Alternating(user, meta)| && Alternating(user, meta)[|meta| + k] == user[k]
    decreases k
  {
    AlternatingLength(user, meta);
    if k > 0 {
      AlternatingRestOfUser(user[1..], RestOf(meta), k - 1);
    }
  }

  class ThreadPool {
    const outgoingUserTraffic: CircularBuffer.Fifo<nat>
    const outgoingMetaTraffic: CircularBuffer.Fifo<nat>
    var droppedUserTraffic: nat
    var droppedMetaTraffic: nat

    ghost predicate Valid()
      reads this, outgoingUserTraffic, outgoingUserTraffic.buffer, outgoingMetaTraffic, outgoingMetaTraffic.buffer
    {
      && outgoingUserTraffic.Valid() && outgoingMetaTraffic.Valid()
      && outgoingUserTraffic != outgoingMetaTraffic && outgoingUserTraffic.buffer != outgoingMetaTraffic.buffer
    }

    ghost function State(): Queues
      reads outgoingUserTraffic, outgoingMetaTraffic
    {
      Queues(outgoingUserTraffic.size, outgoingMetaTraffic.size,
             outgoingUserTraffic.contents, outgoingMetaTraffic.contents)
    }

    constructor (userSize: nat, metaSize: nat)
      requires userSize + 1 < 0xFFFF && metaSize + 1 < 0xFFFF
      ensures Valid() && State() == Queues(userSize, metaSize, [], [])
    {
      outgoingUserTraffic := new CircularBuffer.Fifo<nat>(userSize);
      outgoingMetaTraffic := new CircularBuffer.Fifo<nat>(metaSize);
      droppedUserTraffic, droppedMetaTraffic := 0, 0;
    }

    method AddWorkload(writer: nat, builtin: bool) returns (res: bool)
      requires Valid()
      modifies this, outgoingUserTraffic, outgoingUserTraffic.buffer, outgoingMetaTraffic, outgoingMetaTraffic.buffer
      ensures Valid() && State() == old(State()).Added(writer, builtin)
      ensures res <==> |old(State()).Of(builtin)| < if builtin then State().metaSize else State().userSize
      ensures State().Of(builtin) == old(State()).Of(builtin) + if res then [writer] else []
      ensures State().Of(!builtin) == old(State()).Of(!builtin)
      ensures droppedMetaTraffic == old(droppedMetaTraffic) + if !res && builtin then 1 else 0
      ensures droppedUserTraffic == old(droppedUserTraffic) + if !res && !builtin then 1 else 0
    {
      if builtin {
        res := outgoingMetaTraffic.Insert(writer);
      } else {
        res := outgoingUserTraffic.Insert(writer);
      }
      if !res {
        if builtin {
          droppedMetaTraffic := droppedMetaTraffic + 1;
        } else {
          droppedUserTraffic := droppedUserTraffic + 1;
        }
      }
    }

    /** One round of a writer thread: the writers whose progress is called, in order. */
    method WorkRound() returns (calls: seq<nat>)
      requires Valid()
      modifies outgoingUserTraffic`tail, outgoingUserTraffic`numElements, outgoingUserTraffic`contents
      modifies outgoingMetaTraffic`tail, outgoingMetaTraffic`numElements, outgoingMetaTraffic`contents
      ensures Valid() && State() == old(State()).(user := RestOf(old(State()).user), meta := RestOf(old(State()).meta))
      ensures calls == FirstOf(old(State()).user) + FirstOf(old(State()).meta)
    {
      calls := [];
      var userAvailable, user := outgoingUserTraffic.MoveFirstInto(0);
      if userAvailable {
        calls := calls + [user];
      }
      var metaAvailable, meta := outgoingMetaTraffic.MoveFirstInto(0);
      if metaAvailable {
        calls := calls + [meta];
      }
    }

    /** The loop of a writer thread, up to where it waits for more work. */
    method DoWriterWork() returns (calls: seq<nat>)
      requires Valid()
      modifies outgoingUserTraffic`tail, outgoingUserTraffic`numElements, outgoingUserTraffic`contents
      modifies outgoingMetaTraffic`tail, outgoingMetaTraffic`numElements, outgoingMetaTraffic`contents
      ensures Valid() && State() == old(State()).(user := [], meta := [])
      ensures calls == Alternating(old(State()).user, old(State()).meta)
    {
      ghost var user, meta := State().user, State().meta;
      calls := [];
      var more := true;
      while more
        invariant Valid() && State() == old(State()).(user := user, meta := meta)
        invariant calls + Alternating(user, meta) == Alternating(old(State()).user, old(State()).meta)
        invariant !more ==> user == [] && meta == []
        decreases more, |user| + |meta|
      {
        var round := WorkRound();
        JoinCalls(calls, user, meta);
        calls := calls + round;
        more := round != [];
        user, meta := RestOf(user), RestOf(meta);
        hide FirstOf, RestOf;
      }
    }
  }

  lemma JoinCalls(calls: seq<nat>, user: seq<nat>, meta: seq<nat>)
    ensures calls + Alternating(user, meta)
            == (calls + (FirstOf(user) + FirstOf(meta))) + Alternating(RestOf(user), RestOf(meta))
  {
    assert user == meta == [] ==> Alternating(RestOf(user), RestOf(meta)) == [];
  }
}
