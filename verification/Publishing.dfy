/** raftEventListener: listen, publish and cancel as interleaved steps. Publishers hold a read lock and may
    overlap; an event is known by its publisher and its number there. */
module Publishing {
  import opened Options
  import opened Locks

  // ---------------------------------------------------------------------------
  // The state
  // ---------------------------------------------------------------------------

  datatype Thread = Listener(w: nat) | Publisher(p: nat)

  /** Where a call of listen stands, its goroutine included. The increment of listenerID is not under the lock. */
  datatype PC =
    | Called
    | Incrementing(seen: nat)
    | Incremented
    | Identified(id: nat)
    | Locked(id: nat)
    | Registered(id: nat)
    | AwaitingDone(id: nat)
    | CancelLocked(id: nat)
    | Closed(id: nat)
    | Deleted(id: nat)
    | Finished(id: nat)

  datatype Event = Event(publisher: nat, number: nat)

  /** The channel of a listener: what it has carried, and how often it has been closed. */
  datatype Chan = Chan(history: seq<Event>, closes: nat)

  /** A publisher: the events it has begun to publish, and the listeners the last one has still to go to. */
  datatype Publish = Publish(begun: nat, phase: Phase)
  datatype Phase = Outside | Holding | Sending(remaining: set<nat>)

  datatype State = State(
    mu: Mutex<Thread>, listenerID: nat, listeners: map<nat, nat>,
    pcs: seq<PC>, chans: seq<Chan>, publishes: seq<Publish>, panicked: bool)

  function Init(listeners: nat, publishers: nat): State {
    State(Mutex(None, {}), 0, map[], seq(listeners, i => Called), seq(listeners, i => Chan([], 0)),
          seq(publishers, i => Publish(0, Outside)), false)
  }

  // ---------------------------------------------------------------------------
  // The steps
  // ---------------------------------------------------------------------------

  /** A step of a thread; a publisher that sends picks the listener. */
  datatype Action = ListenerStep(w: nat) | PublisherStep(p: nat, pick: nat)

  function ListenerOp(pc: PC): LockOp {
    match pc
    case Identified(_) => Lock
    case AwaitingDone(_) => Lock
    case Registered(_) => Unlock
    case Deleted(_) => Unlock
    case _ => Keep
  }

  function After(listenerID: nat, pc: PC): PC {
    match pc
    case Called => Incrementing(listenerID)
    case Incrementing(_) => Incremented
    case Incremented => Identified(listenerID)
    case Identified(id) => Locked(id)
    case Locked(id) => Registered(id)
    case Registered(id) => AwaitingDone(id)
    case AwaitingDone(id) => CancelLocked(id)
    case CancelLocked(id) => Closed(id)
    case Closed(id) => Deleted(id)
    case Deleted(id) => Finished(id)
    case Finished(id) => Finished(id)
  }

  /** What a listener does between its lock operations. */
  function ListenerWork(s: State, w: nat): State
    requires w < |s.pcs| == |s.chans|
  {
    var c := s.chans[w];
    match s.pcs[w]
    case Incrementing(seen) => s.(listenerID := seen + 1)
    case Locked(id) => s.(listeners := s.listeners[id := w])
    case CancelLocked(_) =>
      s.(chans := s.chans[w := c.(closes := c.closes + 1)], panicked := s.panicked || c.closes > 0)
    case Closed(id) => s.(listeners := s.listeners - {id})
    case _ => s
  }

  function PublisherOp(x: Phase): LockOp {
    match x
    case Outside => RLock
    case Holding => Keep
    case Sending(remaining) => if remaining == {} then RUnlock else Keep
  }

  /** listener <- event: a panic when the channel is closed. */
  function Send(s: State, w: nat, e: Event): State
    requires w < |s.chans|
  {
    if s.chans[w].closes > 0 then s.(panicked := true)
    else s.(chans := s.chans[w := s.chans[w].(history := s.chans[w].history + [e])])
  }

  /** What a publisher does; None when it cannot send to the listener picked. */
  function PublisherWork(s: State, p: nat, pick: nat): Option<State>
    requires p < |s.publishes| && |s.pcs| == |s.chans|
  {
    var x := s.publishes[p];
    match x.phase
    case Outside => Some(s.(publishes := s.publishes[p := x.(phase := Holding)]))
    case Holding => Some(s.(publishes := s.publishes[p := Publish(x.begun + 1, Sending(s.listeners.Keys))]))
    case Sending(remaining) =>
      if remaining == {} then Some(s.(publishes := s.publishes[p := x.(phase := Outside)]))
      else if pick in remaining && pick in s.listeners && s.listeners[pick] < |s.chans| then
        Some(Send(s, s.listeners[pick], Event(p, x.begun)).
             (publishes := s.publishes[p := x.(phase := Sending(remaining - {pick}))]))
      else None
  }

  /** The state behind an action; None when the thread has to wait or there is none. */
  function Next(s: State, a: Action): Option<State> {
    if |s.pcs| != |s.chans| then None else
    match a
    case ListenerStep(w) =>
      if w >= |s.pcs| then None else
      (match Through(s.mu, ListenerOp(s.pcs[w]), Listener(w))
       case None => None
       case Some(mu) => Some(ListenerWork(s, w).(mu := mu, pcs := s.pcs[w := After(s.listenerID, s.pcs[w])])))
    case PublisherStep(p, pick) =>
      if p >= |s.publishes| then None else
      (match Through(s.mu, PublisherOp(s.publishes[p].phase), Publisher(p))
       case None => None
       case Some(mu) => match PublisherWork(s, p, pick) case None => None case Some(s1) => Some(s1.(mu := mu)))
  }

  /** The state after a run of actions; an action that cannot be taken is passed over. */
  function Run(s: State, run: seq<Action>): State
    decreases |run|
  {
    if run == [] then s
    else
      var n := |run| - 1;
      var s1 := Run(s, run[..n]);
      match Next(s1, run[n]) case None => s1 case Some(s2) => s2
  }

  // ---------------------------------------------------------------------------
  // Mutual exclusion
  // ---------------------------------------------------------------------------

  function PCHold(pc: PC): Hold {
    if pc.Locked? || pc.Registered? || pc.CancelLocked? || pc.Closed? || pc.Deleted? then Write else Nothing
  }

  function Holds(s: State, t: Thread): Hold {
    match t
    case Listener(w) => if w < |s.pcs| then PCHold(s.pcs[w]) else Nothing
    case Publisher(p) => if p < |s.publishes| && !s.publishes[p].phase.Outside? then Read else Nothing
  }

  ghost predicate LockInv(s: State) {
    |s.pcs| == |s.chans| && Consistent(s.mu, (t: Thread) => Holds(s, t))
  }

  lemma StepKeepsLock(s: State, a: Action)
    requires LockInv(s) && Next(s, a).Some?
    ensures LockInv(Next(s, a).value)
  {
    var s' := Next(s, a).value;
    var (t, op) := match a
      case ListenerStep(w) => (Listener(w), ListenerOp(s.pcs[w]))
      case PublisherStep(p, _) => (Publisher(p), PublisherOp(s.publishes[p].phase));
    assert Fits(Holds(s, t), op, Holds(s', t)) && forall x :: x != t ==> Holds(s', x) == Holds(s, x);
    ThroughKeepsConsistent(s.mu, (x: Thread) => Holds(s, x), op, t, (x: Thread) => Holds(s', x));
  }

  lemma HoldsFacts(s: State)
    requires LockInv(s)
    ensures forall t :: Holds(s, t) == Write <==> s.mu.writer == Some(t)
    ensures forall t :: Holds(s, t) == Read <==> t in s.mu.readers
  {
    var holds := (t: Thread) => Holds(s, t);
    assert forall t :: holds(t) == Holds(s, t);
  }

  /** While a publisher has the read lock, no listener is in a locked section. */
  lemma PublisherExcludesListeners(s: State, p: nat, w: nat)
    requires LockInv(s) && p < |s.publishes| && !s.publishes[p].phase.Outside? && w < |s.pcs|
    ensures PCHold(s.pcs[w]) == Nothing
  {
    HoldsFacts(s);
    assert Holds(s, Publisher(p)) == Read && Publisher(p) in s.mu.readers;
    assert Holds(s, Listener(w)) == PCHold(s.pcs[w]);
  }

  // ---------------------------------------------------------------------------
  // Open channels
  // ---------------------------------------------------------------------------

  /** From its registration until its goroutine has deleted it. */
  predicate Listed(pc: PC) { pc.Registered? || pc.AwaitingDone? || pc.CancelLocked? || pc.Closed? }

  predicate IsClosed(pc: PC) { pc.Closed? || pc.Deleted? || pc.Finished? }

  /** A channel is closed by its own goroutine, once; what is listed is a listener that has that id. */
  ghost predicate ChannelInv(s: State) {
    && |s.pcs| == |s.chans|
    && !s.panicked
    && (forall w :: 0 <= w < |s.pcs| ==> s.chans[w].closes == if IsClosed(s.pcs[w]) then 1 else 0)
    && (forall id :: id in s.listeners ==>
          var w := s.listeners[id]; w < |s.pcs| && Listed(s.pcs[w]) && s.pcs[w].id == id)
  }

  lemma ListenerKeepsChannels(s: State, w: nat)
    requires LockInv(s) && ChannelInv(s) && Next(s, ListenerStep(w)).Some?
    ensures ChannelInv(Next(s, ListenerStep(w)).value)
  {
    hide LockInv, Through;
  }

  lemma PublisherKeepsChannels(s: State, p: nat, pick: nat)
    requires LockInv(s) && ChannelInv(s) && Next(s, PublisherStep(p, pick)).Some?
    ensures ChannelInv(Next(s, PublisherStep(p, pick)).value)
  {
    hide LockInv, Through;
    if !s.publishes[p].phase.Outside? && pick in s.listeners { PublisherExcludesListeners(s, p, s.listeners[pick]); }
  }

  lemma StepKeepsChannels(s: State, a: Action)
    requires LockInv(s) && ChannelInv(s) && Next(s, a).Some?
    ensures ChannelInv(Next(s, a).value)
  {
    hide LockInv, ChannelInv, Next;
    match a
    case ListenerStep(w) => ListenerKeepsChannels(s, w);
    case PublisherStep(p, pick) => PublisherKeepsChannels(s, p, pick);
  }

  lemma InitInv(listeners: nat, publishers: nat)
    ensures LockInv(Init(listeners, publishers)) && ChannelInv(Init(listeners, publishers))
    ensures DeliveryInv(Init(listeners, publishers))
  {}

  // ---------------------------------------------------------------------------
  // Every listener gets an event once
  // ---------------------------------------------------------------------------

  function Count(history: seq<Event>, e: Event): nat { multiset(history)[e] }

  /** An event not begun is nowhere; one being sent is with the listeners it has gone to, once. */
  ghost predicate DeliveryInv(s: State) {
    && |s.pcs| == |s.chans|
    && (forall w: nat, p: nat, n: nat :: w < |s.chans| && (p < |s.publishes| ==> n > s.publishes[p].begun) ==>
          Count(s.chans[w].history, Event(p, n)) == 0)
    && (forall p: nat, id :: p < |s.publishes| && s.publishes[p].phase.Sending? && id in s.listeners ==>
          var w := s.listeners[id];
          w < |s.chans| && Count(s.chans[w].history, Event(p, s.publishes[p].begun)) ==
            if id in s.publishes[p].phase.remaining then 0 else 1)
    && (forall p :: 0 <= p < |s.publishes| && s.publishes[p].phase.Sending? ==>
          s.publishes[p].phase.remaining <= s.listeners.Keys)
  }

  lemma CountSnoc(history: seq<Event>, e: Event, x: Event)
    ensures Count(history + [e], x) == Count(history, x) + if x == e then 1 else 0
  {
    assert multiset(history + [e]) == multiset(history) + multiset{e};
  }

  lemma ListenerKeepsDelivery(s: State, w: nat)
    requires LockInv(s) && ChannelInv(s) && DeliveryInv(s) && Next(s, ListenerStep(w)).Some?
    ensures DeliveryInv(Next(s, ListenerStep(w)).value)
  {
    hide LockInv, Through, Count;
    if PCHold(s.pcs[w]) == Write {
      forall p | 0 <= p < |s.publishes|
        ensures s.publishes[p].phase.Outside?
      {
        if !s.publishes[p].phase.Outside? { PublisherExcludesListeners(s, p, w); }
      }
    }
  }

  lemma PublisherKeepsDelivery(s: State, p: nat, pick: nat)
    requires LockInv(s) && ChannelInv(s) && DeliveryInv(s) && Next(s, PublisherStep(p, pick)).Some?
    ensures DeliveryInv(Next(s, PublisherStep(p, pick)).value)
  {
    hide LockInv, Through, Count;
    var x := s.publishes[p];
    if x.phase.Sending? && x.phase.remaining != {} {
      var w := s.listeners[pick];
      PublisherExcludesListeners(s, p, w);
      var e := Event(p, x.begun);
      forall y
        ensures Count(s.chans[w].history + [e], y) == Count(s.chans[w].history, y) + if y == e then 1 else 0
      {
        CountSnoc(s.chans[w].history, e, y);
      }
    }
  }

  lemma StepKeepsDelivery(s: State, a: Action)
    requires LockInv(s) && ChannelInv(s) && DeliveryInv(s) && Next(s, a).Some?
    ensures DeliveryInv(Next(s, a).value)
  {
    hide LockInv, ChannelInv, DeliveryInv, Next;
    match a
    case ListenerStep(w) => ListenerKeepsDelivery(s, w);
    case PublisherStep(p, pick) => PublisherKeepsDelivery(s, p, pick);
  }

  // ---------------------------------------------------------------------------
  // Runs
  // ---------------------------------------------------------------------------

  lemma {:induction false} RunKeepsAll(listeners: nat, publishers: nat, run: seq<Action>)
    ensures var s := Run(Init(listeners, publishers), run);
            LockInv(s) && ChannelInv(s) && DeliveryInv(s)
    decreases |run|
  {
    hide LockInv, ChannelInv, DeliveryInv, Next;
    if run == [] {
      InitInv(listeners, publishers);
    } else {
      var n := |run| - 1;
      RunKeepsAll(listeners, publishers, run[..n]);
      var s1 := Run(Init(listeners, publishers), run[..n]);
      if Next(s1, run[n]).Some? {
        StepKeepsLock(s1, run[n]);
        StepKeepsChannels(s1, run[n]);
        StepKeepsDelivery(s1, run[n]);
      }
    }
  }

  /** Over every interleaving, races for an id included: nothing is sent on a closed channel, no channel is closed
      twice, and every listed channel is open outside the locked section in which its own goroutine cancels it. */
  lemma NoSendOnClosed(listeners: nat, publishers: nat, run: seq<Action>)
    ensures var s := Run(Init(listeners, publishers), run);
            && |s.pcs| == |s.chans|
            && !s.panicked
            && (forall w :: 0 <= w < |s.chans| ==> s.chans[w].closes <= 1)
            && (forall id :: id in s.listeners ==>
                  s.listeners[id] < |s.chans|
                  && (s.chans[s.listeners[id]].closes == 0 || s.mu.writer == Some(Listener(s.listeners[id]))))
  {
    RunKeepsAll(listeners, publishers, run);
    var s := Run(Init(listeners, publishers), run);
    HoldsFacts(s);
    forall id | id in s.listeners && s.chans[s.listeners[id]].closes > 0
      ensures s.mu.writer == Some(Listener(s.listeners[id]))
    {
      assert Holds(s, Listener(s.listeners[id])) == Write;
    }
  }

  /** When a publisher has sent to all it had to, every listener listed then has the event exactly once. */
  lemma PublishedOnceToAll(listeners: nat, publishers: nat, run: seq<Action>, p: nat, id: nat)
    requires var s := Run(Init(listeners, publishers), run);
             p < |s.publishes| && s.publishes[p].phase == Sending({}) && id in s.listeners
    ensures var s := Run(Init(listeners, publishers), run);
            s.listeners[id] < |s.chans| && Count(s.chans[s.listeners[id]].history, Event(p, s.publishes[p].begun)) == 1
  {
    RunKeepsAll(listeners, publishers, run);
  }

  // ---------------------------------------------------------------------------
  // The order of deliveries
  // ---------------------------------------------------------------------------

  predicate IsPrefix(a: seq<Event>, b: seq<Event>) { |a| <= |b| && b[..|a|] == a }

  /** What a step does to a channel: nothing, or a publisher that sends has put its event at the end, to a listener
      that is listed and has not been closed. */
  ghost predicate Grows(s: State, a: Action, w: nat, s': State)
    requires w < |s.chans| && w < |s'.chans|
  {
    || s'.chans[w].history == s.chans[w].history
    || (&& a.PublisherStep? && a.p < |s.publishes| && a.pick in s.listeners && s.listeners[a.pick] == w
        && s.publishes[a.p].phase.Sending? && a.pick in s.publishes[a.p].phase.remaining
        && s.chans[w].closes == 0
        && s'.chans[w].history == s.chans[w].history + [Event(a.p, s.publishes[a.p].begun)])
  }

  lemma StepKeepsLengths(s: State, a: Action)
    requires Next(s, a).Some?
    ensures |s.pcs| == |s.chans| == |Next(s, a).value.pcs| == |Next(s, a).value.chans|
  {}

  lemma StepGrows(s: State, a: Action, w: nat)
    requires Next(s, a).Some? && w < |s.chans|
    ensures |Next(s, a).value.pcs| == |Next(s, a).value.chans| == |s.chans|
    ensures Grows(s, a, w, Next(s, a).value)
  {
    hide Through;
  }

  /** Over every run, from any state: what a channel has carried it has carried for good, and more comes behind it. */
  lemma {:induction false} HistoryGrows(s: State, run: seq<Action>, w: nat)
    requires w < |s.chans|
    ensures |Run(s, run).chans| == |s.chans| && IsPrefix(s.chans[w].history, Run(s, run).chans[w].history)
    decreases |run|
  {
    hide Next;
    if run != [] {
      var n := |run| - 1;
      HistoryGrows(s, run[..n], w);
      var s1 := Run(s, run[..n]);
      if Next(s1, run[n]).Some? { StepGrows(s1, run[n], w); }
    }
  }

  /** The events of one publisher stand in the order in which it has begun to publish them. */
  predicate InOrder(history: seq<Event>) {
    forall i, j :: 0 <= i < j < |history| && history[i].publisher == history[j].publisher ==>
      history[i].number < history[j].number
  }

  ghost predicate OrderInv(s: State) {
    forall w :: 0 <= w < |s.chans| ==> InOrder(s.chans[w].history)
  }

  /** Where an event is not yet, and none of its publisher is that comes behind it, it may be put at the end. */
  lemma PutLast(history: seq<Event>, e: Event)
    requires InOrder(history)
    requires forall n: nat :: n >= e.number ==> Count(history, Event(e.publisher, n)) == 0
    ensures InOrder(history + [e])
  {
    forall i | 0 <= i < |history| && history[i].publisher == e.publisher
      ensures history[i].number < e.number
    {
      assert history[i] in multiset(history);
    }
  }

  lemma StepKeepsOrder(s: State, a: Action, w: nat)
    requires LockInv(s) && ChannelInv(s) && DeliveryInv(s) && w < |s.chans| && InOrder(s.chans[w].history)
    requires Next(s, a).Some?
    ensures w < |Next(s, a).value.chans| && InOrder(Next(s, a).value.chans[w].history)
  {
    hide Next, LockInv, InOrder, Count;
    StepGrows(s, a, w);
    if Next(s, a).value.chans[w].history != s.chans[w].history {
      var e := Event(a.p, s.publishes[a.p].begun);
      assert Count(s.chans[w].history, e) == 0;
      PutLast(s.chans[w].history, e);
    }
  }

  /** Over every interleaving, in the history of every listener the events of one publisher stand in increasing order,
      and what stands there after a part of the run is what the history begins with after all of it. */
  lemma {:induction false} DeliveredInOrder(listeners: nat, publishers: nat, run: seq<Action>)
    ensures OrderInv(Run(Init(listeners, publishers), run))
    decreases |run|
  {
    hide InOrder, Next, LockInv, ChannelInv, DeliveryInv;
    var s0 := Init(listeners, publishers);
    if run == [] {
      EmptyInOrder();
    } else {
      var n := |run| - 1;
      DeliveredInOrder(listeners, publishers, run[..n]);
      RunKeepsAll(listeners, publishers, run[..n]);
      var s1 := Run(s0, run[..n]);
      if Next(s1, run[n]).Some? {
        forall w | 0 <= w < |Next(s1, run[n]).value.chans|
          ensures InOrder(Next(s1, run[n]).value.chans[w].history)
        {
          StepKeepsLengths(s1, run[n]);
          StepKeepsOrder(s1, run[n], w);
        }
      }
    }
  }

  lemma EmptyInOrder()
    ensures InOrder([])
  {}

  // ---------------------------------------------------------------------------
  // A publisher gets through
  // ---------------------------------------------------------------------------

  /** With the read lock, a send waits for nobody: the event goes to the listener picked. */
  lemma SendEnabled(s: State, p: nat, pick: nat)
    requires LockInv(s) && ChannelInv(s) && DeliveryInv(s) && p < |s.publishes|
    requires s.publishes[p].phase.Sending? && pick in s.publishes[p].phase.remaining
    ensures pick in s.listeners && s.listeners[pick] < |s.chans| && Next(s, PublisherStep(p, pick)).Some?
    ensures var (s', w) := (Next(s, PublisherStep(p, pick)).value, s.listeners[pick]);
            && s'.publishes == s.publishes[p := Publish(s.publishes[p].begun,
                                                        Sending(s.publishes[p].phase.remaining - {pick}))]
            && s'.listeners == s.listeners
            && |s'.chans| == |s.chans|
            && s'.chans[w].history == s.chans[w].history + [Event(p, s.publishes[p].begun)]
  {
    hide LockInv;
    var w := s.listeners[pick];
    PublisherExcludesListeners(s, p, w);
  }

  /** From every state a run comes to in which a publisher is sending, it can go on alone until it has sent to all. */
  lemma {:induction false} PublishGoesThrough(listeners: nat, publishers: nat, run: seq<Action>, p: nat)
    returns (more: seq<Action>)
    requires var s := Run(Init(listeners, publishers), run);
             p < |s.publishes| && s.publishes[p].phase.Sending?
    ensures var (s, s') := (Run(Init(listeners, publishers), run), Run(Init(listeners, publishers), run + more));
            && s'.listeners == s.listeners
            && s'.publishes == s.publishes[p := Publish(s.publishes[p].begun, Sending({}))]
    decreases Run(Init(listeners, publishers), run).publishes[p].phase.remaining
  {
    hide Next, LockInv, ChannelInv, DeliveryInv;
    var s0 := Init(listeners, publishers);
    var s := Run(s0, run);
    var remaining := s.publishes[p].phase.remaining;
    if remaining == {} {
      more := [];
      assert run + more == run;
    } else {
      var pick: nat :| pick in remaining;
      RunKeepsAll(listeners, publishers, run);
      SendEnabled(s, p, pick);
      var longer := run + [PublisherStep(p, pick)];
      assert longer[..|run|] == run;
      var rest := PublishGoesThrough(listeners, publishers, longer, p);
      more := [PublisherStep(p, pick)] + rest;
      assert run + more == longer + rest;
    }
  }

  // ---------------------------------------------------------------------------
  // A run
  // ---------------------------------------------------------------------------

  lemma Take(run: seq<Action>, s: State, a: Action) returns (longer: seq<Action>, s': State)
    requires s == Run(Init(1, 1), run) && Next(s, a).Some?
    ensures longer == run + [a] && s' == Next(s, a).value == Run(Init(1, 1), longer)
  {
    longer := run + [a];
    assert longer[..|run|] == run;
    s' := Next(s, a).value;
  }

  /** The listener and the publisher of a run without a lock held. */
  function Quiet(pc: PC, listeners: map<nat, nat>, history: seq<Event>, closes: nat, begun: nat): State {
    State(Mutex(None, {}), if pc == Called then 0 else 1, listeners, [pc], [Chan(history, closes)],
          [Publish(begun, Outside)], false)
  }

  lemma TakesID() returns (run: seq<Action>, s: State)
    ensures s == Run(Init(1, 1), run) == Quiet(Identified(1), map[], [], 0, 0)
  {
    run, s := [], Init(1, 1);
    assert s == Quiet(Called, map[], [], 0, 0);
    hide Run;
    run, s := Take(run, s, ListenerStep(0));
    run, s := Take(run, s, ListenerStep(0));
    run, s := Take(run, s, ListenerStep(0));
  }

  lemma Listens() returns (run: seq<Action>, s: State)
    ensures s == Run(Init(1, 1), run) == Quiet(AwaitingDone(1), map[1 := 0], [], 0, 0)
  {
    hide Run;
    run, s := TakesID();
    run, s := Take(run, s, ListenerStep(0));
    run, s := Take(run, s, ListenerStep(0));
    run, s := Take(run, s, ListenerStep(0));
  }

  lemma PublishesOne(run0: seq<Action>, s0: State, history: seq<Event>, begun: nat)
    returns (run: seq<Action>, s: State)
    requires s0 == Run(Init(1, 1), run0) == Quiet(AwaitingDone(1), map[1 := 0], history, 0, begun)
    ensures s == Run(Init(1, 1), run)
    ensures s == Quiet(AwaitingDone(1), map[1 := 0], history + [Event(0, begun + 1)], 0, begun + 1)
  {
    hide Run;
    run, s := Take(run0, s0, PublisherStep(0, 1));
    run, s := Take(run, s, PublisherStep(0, 1));
    assert s0.listeners.Keys == {1};
    assert s.publishes == [Publish(begun + 1, Sending({1}))];
    run, s := Take(run, s, PublisherStep(0, 1));
    assert {1} - {1} == {};
    assert s.publishes == [Publish(begun + 1, Sending({}))];
    assert s.chans == [Chan(history + [Event(0, begun + 1)], 0)];
    run, s := Take(run, s, PublisherStep(0, 1));
    assert s.mu.readers == {};
  }

  lemma Cancels(run0: seq<Action>, s0: State, history: seq<Event>, begun: nat) returns (run: seq<Action>)
    requires s0 == Run(Init(1, 1), run0) == Quiet(AwaitingDone(1), map[1 := 0], history, 0, begun)
    ensures Run(Init(1, 1), run) == Quiet(Finished(1), map[], history, 1, begun)
  {
    hide Run;
    var s;
    run, s := Take(run0, s0, ListenerStep(0));
    assert s.pcs == [CancelLocked(1)] && s.mu == Mutex(Some(Listener(0)), {});
    run, s := Take(run, s, ListenerStep(0));
    assert s.pcs == [Closed(1)] && s.chans == [Chan(history, 1)] && !s.panicked;
    run, s := Take(run, s, ListenerStep(0));
    assert s.pcs == [Deleted(1)] && s.listeners == map[];
    run, s := Take(run, s, ListenerStep(0));
    assert s.pcs == [Finished(1)];
  }

  /** A listener listens, gets two events in the order in which they are published, and is gone: closed and unlisted. */
  lemma TwoEvents() returns (run: seq<Action>)
    ensures Run(Init(1, 1), run) == Quiet(Finished(1), map[], [Event(0, 1), Event(0, 2)], 1, 2)
  {
    var s;
    run, s := Listens();
    run, s := PublishesOne(run, s, [], 0);
    hide Run, Quiet;
    assert [] + [Event(0, 1)] == [Event(0, 1)];
    run, s := PublishesOne(run, s, [Event(0, 1)], 1);
    assert [Event(0, 1)] + [Event(0, 2)] == [Event(0, 1), Event(0, 2)];
    run := Cancels(run, s, [Event(0, 1), Event(0, 2)], 2);
  }
}
