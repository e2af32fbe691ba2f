/** Writers, the pool's queues and its threads running side by side: what holds of every writer in
    every run, and why nothing that was written is forgotten. */
module WorkConservation {
  import opened RtpsTypes
  import opened History
  import opened WriterSpec
  import opened ThreadPool

  /** A writer with its past: what it sent, what it passed over, how often the pool refused it, and
      how often progress was called and found nothing to send. */
  datatype Endpoint = Endpoint(core: Core, builtin: bool, sent: seq<SN>, passedOver: seq<SN>, refused: nat, idle: nat)

  /** The work that threads have taken from a queue and not finished yet is in taken. */
  datatype Plant = Plant(queues: Queues, taken: multiset<nat>, writers: seq<Endpoint>)

  datatype Event =
    | Write(writer: nat, data: Payload, inLineQoS: bool, disposeAfterWrite: bool)
    | Take(builtin: bool)
    | Finish(writer: nat, tick: nat)
    | Sweep(writer: nat, now: nat, retention: nat)
    | Remove(writer: nat, sn: SN)

  // --- One step ---

  function Written(e: Endpoint, accepted: bool, data: Payload, inLineQoS: bool, disposeAfterWrite: bool): Endpoint {
    var core := NewChanged(e.core, data, inLineQoS, disposeAfterWrite);
    e.(core := core,
       passedOver := e.passedOver + (if core.next != e.core.next then [e.core.next] else []),
       refused := e.refused + if accepted then 0 else 1)
  }

  function Worked(e: Endpoint, tick: nat): Endpoint {
    if Lookup(e.core.history, e.core.next) == None then e.(idle := e.idle + 1)
    else e.(core := Progressed(e.core, tick), sent := e.sent + [e.core.next])
  }

  function Step(p: Plant, event: Event): Plant {
    match event
    case Take(builtin) =>
      if p.queues.Of(builtin) == [] then p
      else p.(queues := p.queues.Popped(builtin), taken := p.taken + multiset{p.queues.Of(builtin)[0]})
    case Finish(w, tick) =>
      if w !in p.taken || w >= |p.writers| then p
      else
        p.(taken := p.taken - multiset{w}, writers := p.writers[w := Worked(p.writers[w], tick)])
    case Write(w, data, inLineQoS, disposeAfterWrite) =>
      if w >= |p.writers| then p
      else
        var e := p.writers[w];
        p.(queues := p.queues.Added(w, e.builtin),
           writers := p.writers[w := Written(e, p.queues.Accepts(e.builtin), data, inLineQoS, disposeAfterWrite)])
    case Sweep(w, now, retention) =>
      if w >= |p.writers| then p
      else p.(writers := p.writers[w := p.writers[w].(core := Swept(p.writers[w].core, now, retention))])
    case Remove(w, sn) =>
      if w >= |p.writers| then p
      else p.(writers := p.writers[w := p.writers[w].(core := Removed(p.writers[w].core, sn))])
  }

  /** Only changes that were sent are removed. */
  predicate Allowed(p: Plant, event: Event) {
    event.Remove? && event.writer < |p.writers| ==>
      !(p.writers[event.writer].core.next <= event.sn <= p.writers[event.writer].core.lastUsed)
  }

  function Run(p: Plant, events: seq<Event>): Plant {
    if events == [] then p else Step(Run(p, events[..|events| - 1]), events[|events| - 1])
  }

  predicate AllAllowed(p: Plant, events: seq<Event>) {
    events == [] ||
    (AllAllowed(p, events[..|events| - 1]) && Allowed(Run(p, events[..|events| - 1]), events[|events| - 1]))
  }

  /** Nothing has happened yet. */
  ghost predicate Starts(p: Plant) {
    && p.queues.user == [] && p.queues.meta == [] && p.taken == multiset{}
    && forall w :: 0 <= w < |p.writers| ==>
         var e := p.writers[w];
         && 1 <= e.core.capacity && e == Endpoint(Fresh(e.core.capacity, e.core.delayCapacity), e.builtin, [], [], 0, 0)
  }

  // --- What holds of each writer ---

  /** How many changes are still to be sent. */
  function Pending(e: Endpoint): int {
    e.core.lastUsed + 1 - e.core.next
  }

  /** What was sent, in order, and what was passed over make up all numbers below the cursor; what
      was passed over is no longer in the history. */
  ghost predicate Accounted(e: Endpoint) {
    && (forall i, j :: 0 <= i < j < |e.sent| ==> e.sent[i] < e.sent[j])
    && (forall sn :: 1 <= sn < e.core.next <==> sn in e.sent || sn in e.passedOver)
    && (forall sn :: sn in e.passedOver ==> sn !in e.sent && !Live(e.core.history, sn))
  }

  function Requests(p: Plant, w: nat): nat {
    multiset(p.queues.user)[w] + multiset(p.queues.meta)[w] + p.taken[w]
  }

  /** Each write asks for work once, and each call of progress uses up a request. */
  ghost predicate Balanced(e: Endpoint, requests: int) {
    && Pending(e) + |e.passedOver| == requests + e.refused + e.idle
    && (e.passedOver == [] ==> e.idle == 0)
  }

  ghost predicate GoodWriter(p: Plant, w: nat)
    requires w < |p.writers|
  {
    var e := p.writers[w];
    Sound(e.core) && Accounted(e) && Balanced(e, Requests(p, w))
  }

  ghost predicate Good(p: Plant) {
    forall w :: 0 <= w < |p.writers| ==> GoodWriter(p, w)
  }

  lemma WrittenStaysGood(e: Endpoint, accepted: bool, data: Payload, inLineQoS: bool, disposeAfterWrite: bool)
    requires Sound(e.core) && Accounted(e)
    ensures var e' := Written(e, accepted, data, inLineQoS, disposeAfterWrite);
            && Sound(e'.core) && Accounted(e')
            && Pending(e') + |e'.passedOver| == Pending(e) + |e.passedOver| + 1
            && (e'.passedOver == [] ==> e.passedOver == [])
  {
    var e' := Written(e, accepted, data, inLineQoS, disposeAfterWrite);
    NewChangeSound(e.core, data, inLineQoS, disposeAfterWrite);
    NewChangeLater(e.core, data, inLineQoS, disposeAfterWrite);
    SkipsOnlyTheEvicted(e.core, data, inLineQoS, disposeAfterWrite);
    PassOver(e, e');
  }

  /** The cursor may pass over a number that is not sent, if that has left the history. */
  lemma PassOver(e: Endpoint, e': Endpoint)
    requires Accounted(e) && Later(e.core, e'.core) && e'.sent == e.sent && 1 <= e.core.next <= e.core.lastUsed + 1
    requires || (e'.core.next == e.core.next && e'.passedOver == e.passedOver)
             || (e'.core.next == e.core.next + 1 && e'.passedOver == e.passedOver + [e.core.next]
                 && !Live(e'.core.history, e.core.next))
    ensures Accounted(e')
  {
    forall sn | sn in e'.passedOver
      ensures sn !in e'.sent && !Live(e'.core.history, sn)
    {
      if sn in e.passedOver {
        assert !Live(e.core.history, sn);
        assert sn < e.core.next;
      } else {
        assert sn == e.core.next;
      }
    }
  }

  lemma WorkedStaysGood(e: Endpoint, tick: nat)
    requires Sound(e.core) && Accounted(e)
    ensures var e' := Worked(e, tick);
            && Sound(e'.core) && Accounted(e')
            && Pending(e') == (if Pending(e) > 0 then Pending(e) - 1 else Pending(e))
            && e' == if Pending(e) > 0 then e.(core := e'.core, sent := e.sent + [e.core.next])
                     else e.(idle := e.idle + 1)
  {
    var e' := Worked(e, tick);
    ProgressSound(e.core, tick);
    ProgressKeepsCursor(e.core, tick);
    ProgressLater(e.core, tick);
    if Pending(e) > 0 { Send(e, e'); } else { PassOver(e, e'); }
  }

  /** The number at the cursor is sent. */
  lemma Send(e: Endpoint, e': Endpoint)
    requires Accounted(e) && Later(e.core, e'.core) && e'.passedOver == e.passedOver
    requires 1 <= e.core.next <= e.core.lastUsed
    requires e'.core.next == e.core.next + 1 && e'.sent == e.sent + [e.core.next]
    ensures Accounted(e')
  {
    forall i | 0 <= i < |e.sent|
      ensures e'.sent[i] < e.core.next
    {
      assert e.sent[i] in e.sent;
    }
    forall sn | sn in e'.passedOver
      ensures sn !in e'.sent && !Live(e'.core.history, sn)
    {
      assert sn in e.passedOver && sn < e.core.next;
    }
  }

  lemma DroppedStaysGood(e: Endpoint, core: Core)
    requires Accounted(e) && Later(e.core, core) && core.next == e.core.next && 1 <= core.next <= e.core.lastUsed + 1
    ensures Accounted(e.(core := core))
  {
    PassOver(e, e.(core := core));
  }

  // --- The steps ---

  /** A step that changes one writer and leaves the requests of all others alone. */
  lemma OneWriterMoves(p: Plant, p': Plant, w: nat)
    requires Good(p) && w < |p.writers| == |p'.writers| && p'.writers == p.writers[w := p'.writers[w]]
    requires GoodWriter(p', w)
    requires forall v: nat :: v < |p.writers| && v != w ==> Requests(p', v) == Requests(p, v)
    ensures forall v :: 0 <= v < |p'.writers| ==> GoodWriter(p', v)
  {
    forall v | 0 <= v < |p'.writers|
      ensures GoodWriter(p', v)
    {
      if v != w { assert GoodWriter(p, v); }
    }
  }

  lemma OneMore(s: seq<nat>, x: nat, v: nat)
    ensures multiset(s + [x])[v] == multiset(s)[v] + if v == x then 1 else 0
  {
  }

  lemma OneLess(s: seq<nat>, v: nat)
    requires s != []
    ensures multiset(s)[v] == multiset(s[1..])[v] + if v == s[0] then 1 else 0
  {
    assert s == [s[0]] + s[1..];
  }

  lemma WriteKeeps(p: Plant, event: Event)
    requires Good(p) && event.Write? && event.writer < |p.writers|
    ensures Good(Step(p, event))
  {
    var w, p' := event.writer, Step(p, event);
    var e := p.writers[w];
    assert GoodWriter(p, w);
    WrittenStaysGood(e, p.queues.Accepts(e.builtin), event.data, event.inLineQoS, event.disposeAfterWrite);
    forall v: nat
      ensures Requests(p', v) == Requests(p, v) + if v == w && p.queues.Accepts(e.builtin) then 1 else 0
    {
      OneMore(p.queues.user, w, v);
      OneMore(p.queues.meta, w, v);
    }
    OneWriterMoves(p, p', w);
  }

  lemma TakeKeeps(p: Plant, event: Event)
    requires Good(p) && event.Take?
    ensures Good(Step(p, event))
  {
    var q, p' := p.queues.Of(event.builtin), Step(p, event);
    if q != [] {
      forall v | 0 <= v < |p'.writers|
        ensures GoodWriter(p', v)
      {
        OneLess(q, v);
        assert GoodWriter(p, v);
      }
    }
  }

  lemma FinishKeeps(p: Plant, event: Event)
    requires Good(p) && event.Finish?
    ensures Good(Step(p, event))
  {
    var w, p' := event.writer, Step(p, event);
    if w in p.taken && w < |p.writers| {
      assert GoodWriter(p, w);
      WorkedStaysGood(p.writers[w], event.tick);
      forall v: nat
        ensures Requests(p', v) == Requests(p, v) - if v == w then 1 else 0
      {
      }
      OneWriterMoves(p, p', w);
    }
  }

  lemma DropKeeps(p: Plant, event: Event)
    requires Good(p) && Allowed(p, event) && (event.Sweep? || event.Remove?) && event.writer < |p.writers|
    ensures Good(Step(p, event))
  {
    var w, p' := event.writer, Step(p, event);
    var core := p.writers[w].core;
    assert GoodWriter(p, w);
    if event.Sweep? {
      SweepSound(core, event.now, event.retention);
      SweepLater(core, event.now, event.retention);
      SweepOnlyDrops(core, event.now, event.retention);
    } else {
      RemovalSound(core, event.sn);
      RemovalWellFormed(core, event.sn);
    }
    DroppedStaysGood(p.writers[w], p'.writers[w].core);
    OneWriterMoves(p, p', w);
  }

  lemma StepKeeps(p: Plant, event: Event)
    requires Good(p) && Allowed(p, event)
    ensures Good(Step(p, event))
  {
    match event
    case Take(_) => TakeKeeps(p, event);
    case Finish(_, _) => FinishKeeps(p, event);
    case Write(w, _, _, _) => if w < |p.writers| { WriteKeeps(p, event); }
    case Sweep(w, _, _) => if w < |p.writers| { DropKeeps(p, event); }
    case Remove(w, _) => if w < |p.writers| { DropKeeps(p, event); }
  }

  lemma StartIsGood(p: Plant)
    requires Starts(p)
    ensures Good(p)
  {
    forall w | 0 <= w < |p.writers|
      ensures GoodWriter(p, w)
    {
    }
  }

  lemma StepKeepsWriters(p: Plant, event: Event)
    ensures |Step(p, event).writers| == |p.writers|
  {
  }

  /** In every reachable state, every writer's cursor and disposals are sound, it has sent its
      changes in ascending order and passed over none that is still there, and what is to be sent
      and what was passed over is exactly accounted for by the requests that are queued or in the
      hands of threads, that were refused, and that found nothing to send. */
  lemma {:induction false} EveryReachableStateIsGood(p: Plant, events: seq<Event>)
    requires Starts(p) && AllAllowed(p, events)
    ensures Good(Run(p, events)) && |Run(p, events).writers| == |p.writers|
  {
    if events == [] {
      StartIsGood(p);
    } else {
      hide Good, Starts, Step, Allowed;
      var t := Run(p, events[..|events| - 1]);
      EveryReachableStateIsGood(p, events[..|events| - 1]);
      StepKeeps(t, events[|events| - 1]);
      StepKeepsWriters(t, events[|events| - 1]);
    }
  }

  // --- When the work is done ---

  predicate Drained(p: Plant) {
    p.queues.user == [] && p.queues.meta == [] && p.taken == multiset{}
  }

  /** Once the queues are drained: what a writer has left to send, exactly. If it has nothing left,
      each of its changes was sent, or had been evicted before its turn. As long as nothing was
      evicted unsent, it has something left if and only if a request was refused. */
  lemma DrainedMeansDone(p: Plant, events: seq<Event>, w: nat)
    requires Starts(p) && AllAllowed(p, events) && w < |p.writers| && Drained(Run(p, events))
    ensures w < |Run(p, events).writers|
    ensures var e := Run(p, events).writers[w];
            && Pending(e) == e.refused + e.idle - |e.passedOver|
            && (e.passedOver == [] ==> (Pending(e) == 0 <==> e.refused == 0))
            && (Pending(e) == 0 ==>
                  && e.core.next == e.core.lastUsed + 1
                  && forall sn :: 1 <= sn <= e.core.lastUsed ==>
                       sn in e.sent || (sn in e.passedOver && !Live(e.core.history, sn)))
  {
    EveryReachableStateIsGood(p, events);
    assert GoodWriter(Run(p, events), w);
  }

  // --- Which writers can be left behind ---

  /** No other writer uses the same queue. */
  predicate Alone(p: Plant, w: nat)
    requires w < |p.writers|
  {
    forall v :: 0 <= v < |p.writers| && p.writers[v].builtin == p.writers[w].builtin ==> v == w
  }

  function SizeOf(p: Plant, builtin: bool): nat {
    if builtin then p.queues.metaSize else p.queues.userSize
  }

  predicate Safe(p: Plant, w: nat)
    requires w < |p.writers|
  {
    Alone(p, w) && p.writers[w].core.capacity <= SizeOf(p, p.writers[w].builtin)
  }

  /** All requests are of writers that use the queue. */
  ghost predicate Sorted(p: Plant) {
    && (forall v :: v in p.queues.user ==> v < |p.writers| && !p.writers[v].builtin)
    && (forall v :: v in p.queues.meta ==> v < |p.writers| && p.writers[v].builtin)
    && (forall v :: v in p.taken ==> v < |p.writers|)
  }

  /** What no event changes. */
  ghost predicate SamePlant(p: Plant, p': Plant) {
    && |p'.writers| == |p.writers|
    && p'.queues.userSize == p.queues.userSize && p'.queues.metaSize == p.queues.metaSize
    && forall v :: 0 <= v < |p.writers| ==>
         p'.writers[v].builtin == p.writers[v].builtin
         && p'.writers[v].core.capacity == p.writers[v].core.capacity
  }

  lemma SamePlantOn(p: Plant, t: Plant, t': Plant)
    requires SamePlant(p, t) && SamePlant(t, t')
    ensures SamePlant(p, t')
  {
  }

  lemma {:induction false} SweepKeepsCapacity(w: Core, now: nat, retention: nat)
    ensures Swept(w, now, retention).capacity == w.capacity
    decreases |w.delay|
  {
    if w.delay != [] && Expired(w, now, retention) {
      SweepKeepsCapacity(Dequeued(Removed(w, w.delay[0])), now, retention);
    }
  }

  lemma TakeKeepsSorted(p: Plant, builtin: bool)
    requires Sorted(p) && p.queues.Of(builtin) != []
    ensures Sorted(Step(p, Take(builtin)))
  {
    var q := p.queues.Of(builtin);
    assert q[0] in q && forall v :: v in q[1..] ==> v in q;
  }

  lemma WriteKeepsSorted(p: Plant, event: Event)
    requires Sorted(p) && event.Write? && event.writer < |p.writers|
    ensures Sorted(Step(p, event))
  {
    hide NewChanged;
    var w, e := event.writer, p.writers[event.writer];
    var q := p.queues.Of(e.builtin);
    assert forall v :: v in q + [w] ==> v in q || v == w;
  }

  lemma StepKeepsSorted(p: Plant, event: Event)
    requires Sorted(p)
    ensures Sorted(Step(p, event))
  {
    hide Progressed, Swept, Removed, NewChanged;
    if event.Take? {
      if p.queues.Of(event.builtin) != [] { TakeKeepsSorted(p, event.builtin); }
    } else if event.Write? {
      if event.writer < |p.writers| { WriteKeepsSorted(p, event); }
    }
  }

  lemma ProgressKeepsCapacity(w: Core, tick: nat)
    ensures Progressed(w, tick).capacity == w.capacity
  {
  }

  lemma StepKeepsWriter(p: Plant, event: Event, v: nat)
    requires v < |p.writers|
    ensures |Step(p, event).writers| == |p.writers|
    ensures Step(p, event).writers[v].builtin == p.writers[v].builtin
    ensures Step(p, event).writers[v].core.capacity == p.writers[v].core.capacity
  {
    hide Swept, Progressed;
    var core := p.writers[v].core;
    if event.Sweep? { SweepKeepsCapacity(core, event.now, event.retention); }
    if event.Finish? { ProgressKeepsCapacity(core, event.tick); }
  }

  lemma StepKeepsPlant(p: Plant, event: Event)
    ensures SamePlant(p, Step(p, event))
  {
    assert Step(p, event).queues.userSize == p.queues.userSize && Step(p, event).queues.metaSize == p.queues.metaSize;
    StepKeepsWriters(p, event);
    hide Step;
    forall v | 0 <= v < |p.writers|
      ensures Step(p, event).writers[v].builtin == p.writers[v].builtin
      ensures Step(p, event).writers[v].core.capacity == p.writers[v].core.capacity
    {
      StepKeepsWriter(p, event, v);
    }
  }

  /** A safe writer always has as many requests as it has changes to send. */
  ghost predicate Provided(p: Plant, w: nat)
    requires w < |p.writers|
  {
    Safe(p, w) ==> Pending(p.writers[w]) <= Requests(p, w)
  }

  /** Never more is to be sent than the history holds. */
  lemma PendingFits(w: Core)
    requires WellFormed(w) && CursorSound(w)
    ensures w.lastUsed + 1 - w.next <= |w.history| <= w.capacity
  {
    LiveRunFits(w.history, w.next, w.lastUsed);
  }

  lemma {:induction false} LiveRunFits(h: seq<CacheChange>, from: SN, last: SN)
    requires Increasing(h) && from <= last + 1 && forall sn :: from <= sn <= last ==> Live(h, sn)
    ensures last + 1 - from <= |h|
    decreases last + 1 - from
  {
    if from <= last {
      assert Live(h, last);
      var k := IndexOf(h, last);
      forall sn | from <= sn <= last - 1
        ensures Live(h[..k], sn)
      {
        assert Live(h, sn);
        LookupAt(h[..k], IndexOf(h, sn));
      }
      LiveRunFits(h[..k], from, last - 1);
    }
  }

  /** A queue that only one writer uses holds that many requests of it. */
  lemma {:induction false} AllOfOne(s: seq<nat>, w: nat)
    requires forall v :: v in s ==> v == w
    ensures multiset(s)[w] == |s|
  {
    if s != [] {
      assert forall v :: v in s[1..] ==> v in s;
      assert s[0] in s;
      AllOfOne(s[1..], w);
      OneLess(s, w);
    }
  }

  lemma WriteProvides(p: Plant, event: Event, w: nat)
    requires Good(p) && Sorted(p) && w < |p.writers| && Provided(p, w)
    requires event.Write? && event.writer < |p.writers|
    ensures Provided(Step(p, event), w)
  {
    var p', v := Step(p, event), event.writer;
    StepKeepsPlant(p, event);
    StepKeeps(p, event);
    assert GoodWriter(p, v) && GoodWriter(p', w);
    if Safe(p', w) {
      assert Safe(p, w);
      OneMore(p.queues.user, v, w);
      OneMore(p.queues.meta, v, w);
      if v == w && !p.queues.Accepts(p.writers[w].builtin) {
        AllOfOne(p.queues.Of(p.writers[w].builtin), w);
        PendingFits(p'.writers[w].core);
      } else if v == w {
        WrittenStaysGood(p.writers[w], true, event.data, event.inLineQoS, event.disposeAfterWrite);
        SkipsOnlyTheEvicted(p.writers[w].core, event.data, event.inLineQoS, event.disposeAfterWrite);
      }
    }
  }

  lemma TakeProvides(p: Plant, builtin: bool, w: nat)
    requires w < |p.writers| && Provided(p, w)
    ensures Provided(Step(p, Take(builtin)), w)
  {
    hide Pending;
    if p.queues.Of(builtin) != [] {
      OneLess(p.queues.Of(builtin), w);
    }
  }

  lemma FinishProvides(p: Plant, v: nat, tick: nat, w: nat)
    requires Good(p) && w < |p.writers| && Provided(p, w) && v in p.taken && v < |p.writers|
    ensures Provided(Step(p, Finish(v, tick)), w)
  {
    hide Progressed, Sound, Accounted, Balanced;
    assert GoodWriter(p, v);
    WorkedStaysGood(p.writers[v], tick);
    StepKeepsPlant(p, Finish(v, tick));
    assert Step(p, Finish(v, tick)).writers[v] == Worked(p.writers[v], tick);
  }

  lemma DropProvides(p: Plant, event: Event, w: nat)
    requires Good(p) && w < |p.writers| && Provided(p, w)
    requires (event.Sweep? || event.Remove?) && event.writer < |p.writers|
    ensures Provided(Step(p, event), w)
  {
    var v := event.writer;
    assert GoodWriter(p, v);
    StepKeepsPlant(p, event);
    if event.Sweep? {
      SweepOnlyDrops(p.writers[v].core, event.now, event.retention);
    }
  }

  lemma StepProvides(p: Plant, event: Event, w: nat)
    requires Good(p) && Sorted(p) && w < |p.writers| && Allowed(p, event) && Provided(p, w)
    ensures w < |Step(p, event).writers| && Provided(Step(p, event), w)
  {
    hide Provided, Good, Sorted, NewChanged, Progressed, Swept, Removed;
    match event
    case Write(v, _, _, _) => if v < |p.writers| { WriteProvides(p, event, w); }
    case Take(builtin) => TakeProvides(p, builtin, w);
    case Finish(v, tick) => if v in p.taken && v < |p.writers| { FinishProvides(p, v, tick, w); }
    case Sweep(v, _, _) => if v < |p.writers| { DropProvides(p, event, w); }
    case Remove(v, _) => if v < |p.writers| { DropProvides(p, event, w); }
  }

  lemma {:induction false} AlwaysProvided(p: Plant, events: seq<Event>, w: nat)
    requires Starts(p) && AllAllowed(p, events) && w < |p.writers|
    ensures var t := Run(p, events); Sorted(t) && SamePlant(p, t) && Provided(t, w)
  {
    if events != [] {
      var t, event := Run(p, events[..|events| - 1]), events[|events| - 1];
      AlwaysProvided(p, events[..|events| - 1], w);
      EveryReachableStateIsGood(p, events[..|events| - 1]);
      hide Step, Provided, Sorted, Good, Starts, SamePlant, Allowed;
      StepProvides(t, event, w);
      StepKeepsSorted(t, event);
      StepKeepsPlant(t, event);
      SamePlantOn(p, t, Step(t, event));
    }
  }

  /** A writer that uses its queue alone, and whose history is no longer than the queue, has nothing
      left to send whenever the queues are drained, also if requests were refused. */
  lemma SafeMeansDone(p: Plant, events: seq<Event>, w: nat)
    requires Starts(p) && AllAllowed(p, events) && w < |p.writers| && Safe(p, w) && Drained(Run(p, events))
    ensures w < |Run(p, events).writers| && Pending(Run(p, events).writers[w]) == 0
  {
    hide Run, AllAllowed, Sorted;
    AlwaysProvided(p, events, w);
    EveryReachableStateIsGood(p, events);
    NothingLeft(p, Run(p, events), w);
  }

  lemma NothingLeft(p: Plant, t: Plant, w: nat)
    requires SamePlant(p, t) && w < |p.writers| && Safe(p, w) && Good(t) && Provided(t, w) && Drained(t)
    ensures Pending(t.writers[w]) == 0
  {
    assert GoodWriter(t, w);
    assert Safe(t, w);
  }

  // Runs put together

  lemma {:induction false} RunOn(p: Plant, a: seq<Event>, b: seq<Event>)
    ensures Run(p, a + b) == Run(Run(p, a), b)
    ensures AllAllowed(p, a + b) <==> AllAllowed(p, a) && AllAllowed(Run(p, a), b)
    decreases |b|
  {
    if b == [] {
      assert a + b == a;
    } else {
      assert (a + b)[..|a + b| - 1] == a + b[..|b| - 1];
      RunOn(p, a, b[..|b| - 1]);
    }
  }

  lemma RunOne(p: Plant, event: Event)
    ensures Run(p, [event]) == Step(p, event) && (AllAllowed(p, [event]) <==> Allowed(p, event))
  {
    assert [event][..0] == [];
  }

  /** The pool has treated no writer differently from p to p'. */
  ghost predicate SameTreatment(p: Plant, p': Plant) {
    && |p'.writers| == |p.writers|
    && forall v :: 0 <= v < |p.writers| ==>
         p'.writers[v].refused == p.writers[v].refused && p'.writers[v].passedOver == p.writers[v].passedOver
  }

  /** Taking and finishing work leaves less of it. */
  lemma OneStepDrains(p: Plant, event: Event)
    requires Sorted(p)
    requires || (event.Take? && p.queues.Of(event.builtin) != [])
             || (event.Finish? && event.writer in p.taken && p.queues.user == [] && p.queues.meta == [])
    ensures var t := Step(p, event);
            && (|t.queues.user| + |t.queues.meta| < |p.queues.user| + |p.queues.meta|
                || (t.queues == p.queues && |t.taken| < |p.taken|))
            && SameTreatment(p, t) && Allowed(p, event)
  {
    hide Progressed;
  }

  /** From every state the queues can be drained by taking and finishing alone. */
  lemma {:induction false} Drain(p: Plant) returns (events: seq<Event>)
    requires Sorted(p)
    ensures AllAllowed(p, events) && Drained(Run(p, events)) && SameTreatment(p, Run(p, events))
    decreases |p.queues.user| + |p.queues.meta|, |p.taken|
  {
    if Drained(p) {
      return [];
    }
    var event: Event;
    if p.queues.user != [] {
      event := Take(false);
    } else if p.queues.meta != [] {
      event := Take(true);
    } else {
      var w :| w in p.taken;
      event := Finish(w, 0);
    }
    StepKeepsSorted(p, event);
    OneStepDrains(p, event);
    RunOne(p, event);
    hide Step, Sorted, Run, AllAllowed, Allowed, Drained;
    var rest := Drain(Step(p, event));
    RunOn(p, [event], rest);
    events := [event] + rest;
  }

  function Writes(w: nat, n: nat): (r: seq<Event>)
    ensures |r| == n
  {
    if n == 0 then [] else Writes(w, n - 1) + [Write(w, [], false, false)]
  }

  lemma OneMoreWrite(p: Plant, w: nat, n: nat)
    requires n > 0
    ensures Run(p, Writes(w, n)) == Step(Run(p, Writes(w, n - 1)), Write(w, [], false, false))
    ensures AllAllowed(p, Writes(w, n)) <==> AllAllowed(p, Writes(w, n - 1))
  {
    assert Writes(w, n)[..n - 1] == Writes(w, n - 1);
  }

  /** Of the writers, only v changes. */
  ghost predicate OnlyChanges(p: Plant, p': Plant, v: nat) {
    |p'.writers| == |p.writers| && forall w :: 0 <= w < |p.writers| && w != v ==> p'.writers[w] == p.writers[w]
  }

  /** Writing is always allowed. */
  lemma {:induction false} WritesKeepPlant(p: Plant, v: nat, n: nat)
    requires Sorted(p)
    ensures AllAllowed(p, Writes(v, n)) && SamePlant(p, Run(p, Writes(v, n))) && Sorted(Run(p, Writes(v, n)))
  {
    if n == 0 {
      assert SamePlant(p, p);
    } else {
      hide Sorted, Step;
      var t := Run(p, Writes(v, n - 1));
      WritesKeepPlant(p, v, n - 1);
      OneMoreWrite(p, v, n);
      hide Run, Writes, AllAllowed, SamePlant;
      StepKeepsSorted(t, Write(v, [], false, false));
      StepKeepsPlant(t, Write(v, [], false, false));
      SamePlantOn(p, t, Step(t, Write(v, [], false, false)));
    }
  }

  function Queued(p: Plant, builtin: bool): nat {
    |p.queues.Of(builtin)|
  }

  lemma WriteFills(p: Plant, v: nat)
    requires v < |p.writers|
    ensures var t, builtin := Step(p, Write(v, [], false, false)), p.writers[v].builtin;
            Queued(t, builtin) == if Queued(p, builtin) < SizeOf(p, builtin) then Queued(p, builtin) + 1
                                  else Queued(p, builtin)
  {
  }

  lemma SameQueue(p: Plant, p': Plant, v: nat)
    requires SamePlant(p, p') && v < |p.writers|
    ensures v < |p'.writers| && p'.writers[v].builtin == p.writers[v].builtin
    ensures SizeOf(p', p.writers[v].builtin) == SizeOf(p, p.writers[v].builtin)
  {
  }

  /** Many writes fill the queue. */
  lemma {:induction false} WritesFill(p: Plant, v: nat, n: nat, builtin: bool)
    requires Sorted(p) && v < |p.writers| && p.writers[v].builtin == builtin
    ensures Queued(Run(p, Writes(v, n)), builtin) >= Min(n, SizeOf(p, builtin))
  {
    if n > 0 {
      hide Step, Run, Writes, Sorted, Queued, SizeOf, SamePlant, AllAllowed;
      var t := Run(p, Writes(v, n - 1));
      WritesFill(p, v, n - 1, builtin);
      WritesKeepPlant(p, v, n - 1);
      OneMoreWrite(p, v, n);
      SameQueue(p, t, v);
      WriteFills(t, v);
    }
  }

  lemma {:induction false} WritesChangeOne(p: Plant, v: nat, n: nat)
    ensures OnlyChanges(p, Run(p, Writes(v, n)), v)
  {
    if n > 0 {
      var t := Run(p, Writes(v, n - 1));
      WritesChangeOne(p, v, n - 1);
      OneMoreWrite(p, v, n);
      hide Run, Writes, NewChanged, Written;
      var t' := Step(t, Write(v, [], false, false));
      forall w | 0 <= w < |p.writers| && w != v
        ensures t'.writers[w] == p.writers[w]
      {
        assert t'.writers[w] == t.writers[w];
      }
    }
  }

  /** A write to a full queue is refused; if the history is not full, nothing is passed over. */
  lemma WriteIsRefused(p: Plant, w: nat)
    requires w < |p.writers| && !p.queues.Accepts(p.writers[w].builtin)
    requires |p.writers[w].core.history| != p.writers[w].core.capacity
    ensures var t := Step(p, Write(w, [], false, false));
            && |t.writers| == |p.writers| && t.writers[w].refused == p.writers[w].refused + 1
            && t.writers[w].passedOver == p.writers[w].passedOver
  {
  }

  lemma RoomForOneMore(p: Plant, w: nat)
    requires w < |p.writers| && |p.writers[w].core.history| < p.writers[w].core.capacity
    ensures var t, e := Step(p, Write(w, [], false, false)), p.writers[w];
            && |t.writers| == |p.writers| && |t.writers[w].core.history| == |e.core.history| + 1
            && t.writers[w].core.capacity == e.core.capacity && t.writers[w].passedOver == e.passedOver
  {
  }

  /** As many writes as the history holds pass over nothing. */
  lemma {:induction false} FirstWrites(p: Plant, w: nat, n: nat)
    requires Starts(p) && w < |p.writers| && n <= p.writers[w].core.capacity
    ensures var t := Run(p, Writes(w, n));
            && |t.writers| == |p.writers| && |t.writers[w].core.history| == n
            && t.writers[w].core.capacity == p.writers[w].core.capacity && t.writers[w].passedOver == []
  {
    if n > 0 {
      FirstWrites(p, w, n - 1);
      OneMoreWrite(p, w, n);
      hide Step, Run, Writes, Starts;
      RoomForOneMore(Run(p, Writes(w, n - 1)), w);
    }
  }

  ghost predicate Strands(p: Plant, events: seq<Event>, w: nat) {
    && AllAllowed(p, events) && Drained(Run(p, events))
    && w < |Run(p, events).writers| && Pending(Run(p, events).writers[w]) > 0
  }

  /** A run that gets a request refused before anything is passed over can go on so that the writer
      is left behind. */
  lemma RefusalStrands(p: Plant, events: seq<Event>, w: nat) returns (all: seq<Event>)
    requires Starts(p) && w < |p.writers| && AllAllowed(p, events) && Sorted(Run(p, events))
    requires w < |Run(p, events).writers|
    requires Run(p, events).writers[w].refused > 0 && Run(p, events).writers[w].passedOver == []
    ensures Strands(p, all, w)
  {
    var rest := Drain(Run(p, events));
    all := events + rest;
    RunOn(p, events, rest);
    DrainedMeansDone(p, all, w);
    EveryReachableStateIsGood(p, all);
    assert GoodWriter(Run(p, all), w);
  }

  /** Another writer fills the queue; the first change of this one then finds no room. */
  lemma SharedQueueStrands(p: Plant, w: nat) returns (events: seq<Event>)
    requires Starts(p) && w < |p.writers| && !Alone(p, w)
    ensures Strands(p, events, w)
  {
    var v: nat :| v < |p.writers| && p.writers[v].builtin == p.writers[w].builtin && v != w;
    var size, last := SizeOf(p, p.writers[w].builtin), Write(w, [], false, false);
    WritesKeepPlant(p, v, size);
    WritesFill(p, v, size, p.writers[v].builtin);
    WritesChangeOne(p, v, size);
    var t := Run(p, Writes(v, size));
    WriteIsRefused(t, w);
    StepKeepsSorted(t, last);
    RunOne(t, last);
    RunOn(p, Writes(v, size), [last]);
    events := RefusalStrands(p, Writes(v, size) + [last], w);
  }

  /** The writer fills the queue itself; its next change finds no room, and still fits the history. */
  lemma ShortQueueStrands(p: Plant, w: nat) returns (events: seq<Event>)
    requires Starts(p) && w < |p.writers| && p.writers[w].core.capacity > SizeOf(p, p.writers[w].builtin)
    ensures Strands(p, events, w)
  {
    var size, last := SizeOf(p, p.writers[w].builtin), Write(w, [], false, false);
    WritesKeepPlant(p, w, size);
    WritesFill(p, w, size, p.writers[w].builtin);
    FirstWrites(p, w, size);
    var t := Run(p, Writes(w, size));
    WriteIsRefused(t, w);
    StepKeepsSorted(t, last);
    RunOne(t, last);
    RunOn(p, Writes(w, size), [last]);
    events := RefusalStrands(p, Writes(w, size) + [last], w);
  }

  /** Some run leaves a writer behind, with all queues drained and a change that was never sent, if
      and only if the writer shares its queue with another one, or its history is longer than the
      queue. */
  lemma CanStrandIff(p: Plant, w: nat)
    requires Starts(p) && w < |p.writers|
    ensures (exists events :: Strands(p, events, w)) <==> !Safe(p, w)
  {
    if Safe(p, w) {
      forall events | AllAllowed(p, events) && Drained(Run(p, events))
        ensures !Strands(p, events, w)
      {
        SafeMeansDone(p, events, w);
      }
    } else if Alone(p, w) {
      var events := ShortQueueStrands(p, w);
    } else {
      var events := SharedQueueStrands(p, w);
    }
  }
}
