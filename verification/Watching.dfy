/** updateConfig and WatchConfig of a Partition as interleaved steps of updaters and watchers. A configuration
    is known by its version: the number of updates before it. */
module Watching {
  import opened Options
  import opened Locks

  // ---------------------------------------------------------------------------
  // The state
  // ---------------------------------------------------------------------------

  datatype Thread = Watcher(w: nat) | Updater(u: nat)

  /** Where a call of WatchConfig stands, its goroutine included. The increment of listenerID is not under
      the lock: its read, its write and the read behind it are three steps. */
  datatype PC =
    | Called
    | Incrementing(seen: nat)
    | Incremented
    | Identified(id: nat)
    | Locked(id: nat)
    | Registered(id: nat)
    | Unlocked(id: nat)
    | RLocked(id: nat)
    | SnapshotSent(id: nat)
    | AwaitingDone(id: nat)
    | CancelLocked(id: nat)
    | Closed(id: nat)
    | Deleted(id: nat)
    | Finished(id: nat)

  /** The channel of a watcher. The last three fields only record, for the proof, the version at registration,
      the version of the snapshot and the last version that an update has delivered. */
  datatype Chan = Chan(open: bool, history: seq<nat>, registeredAt: nat, snapshotAt: Option<nat>, upTo: nat)

  /** A call of updateConfig: outside the lock, holding it, or sending to the listeners that remain. */
  datatype Update = Outside | Holding | Sending(remaining: set<nat>)

  datatype State = State(
    mu: Mutex<Thread>, version: nat, listenerID: nat, listeners: map<nat, nat>,
    pcs: seq<PC>, chans: seq<Chan>, updates: seq<Update>, panicked: bool)

  function Init(watchers: nat, updaters: nat): State {
    State(Mutex(None, {}), 0, 0, map[],
          seq(watchers, i => Called), seq(watchers, i => Chan(true, [], 0, None, 0)),
          seq(updaters, i => Outside), false)
  }

  // ---------------------------------------------------------------------------
  // The steps
  // ---------------------------------------------------------------------------

  /** A step of a thread; an updater that sends picks the listener, for a map is ranged over in any order. */
  datatype Action = WatcherStep(w: nat) | UpdaterStep(u: nat, pick: nat)

  function WatcherOp(pc: PC): LockOp {
    match pc
    case Identified(_) => Lock
    case AwaitingDone(_) => Lock
    case Registered(_) => Unlock
    case Deleted(_) => Unlock
    case Unlocked(_) => RLock
    case SnapshotSent(_) => RUnlock
    case _ => Keep
  }

  function After(listenerID: nat, pc: PC): PC {
    match pc
    case Called => Incrementing(listenerID)
    case Incrementing(_) => Incremented
    case Incremented => Identified(listenerID)
    case Identified(id) => Locked(id)
    case Locked(id) => Registered(id)
    case Registered(id) => Unlocked(id)
    case Unlocked(id) => RLocked(id)
    case RLocked(id) => SnapshotSent(id)
    case SnapshotSent(id) => AwaitingDone(id)
    case AwaitingDone(id) => CancelLocked(id)
    case CancelLocked(id) => Closed(id)
    case Closed(id) => Deleted(id)
    case Deleted(id) => Finished(id)
    case Finished(id) => Finished(id)
  }

  /** ch <- version: a panic when the channel is closed. */
  function Send(s: State, w: nat, c: Chan): State
    requires w < |s.chans|
  {
    if s.chans[w].open then s.(chans := s.chans[w := c.(history := s.chans[w].history + [s.version])])
    else s.(panicked := true)
  }

  /** What a watcher does between its lock operations. */
  function WatcherWork(s: State, w: nat): State
    requires w < |s.pcs| == |s.chans|
  {
    var c := s.chans[w];
    match s.pcs[w]
    case Incrementing(seen) => s.(listenerID := seen + 1)
    case Locked(id) =>
      s.(listeners := s.listeners[id := w], chans := s.chans[w := c.(registeredAt := s.version, upTo := s.version)])
    case RLocked(_) => Send(s, w, c.(snapshotAt := Some(s.version)))
    case CancelLocked(_) => if c.open then s.(chans := s.chans[w := c.(open := false)]) else s.(panicked := true)
    case Closed(id) => s.(listeners := s.listeners - {id})
    case _ => s
  }

  function UpdaterOp(x: Update): LockOp {
    match x
    case Outside => Lock
    case Holding => Keep
    case Sending(remaining) => if remaining == {} then Unlock else Keep
  }

  /** What an updater does; None when it cannot send to the listener picked. */
  function UpdaterWork(s: State, u: nat, pick: nat): Option<State>
    requires u < |s.updates| && |s.pcs| == |s.chans|
  {
    match s.updates[u]
    case Outside => Some(s.(updates := s.updates[u := Holding]))
    case Holding => Some(s.(version := s.version + 1, updates := s.updates[u := Sending(s.listeners.Keys)]))
    case Sending(remaining) =>
      if remaining == {} then Some(s.(updates := s.updates[u := Outside]))
      else if pick in remaining && pick in s.listeners && s.listeners[pick] < |s.chans| then
        var w := s.listeners[pick];
        Some(Send(s, w, s.chans[w].(upTo := s.version)).(updates := s.updates[u := Sending(remaining - {pick})]))
      else None
  }

  /** The state behind an action; None when the thread has to wait or there is none. */
  function Next(s: State, a: Action): (r: Option<State>)
    ensures r.Some? ==> |s.pcs| == |s.chans| == |r.value.pcs| == |r.value.chans|
  {
    if |s.pcs| != |s.chans| then None else
    match a
    case WatcherStep(w) =>
      if w >= |s.pcs| then None else
      (match Through(s.mu, WatcherOp(s.pcs[w]), Watcher(w))
       case None => None
       case Some(mu) => Some(WatcherWork(s, w).(mu := mu, pcs := s.pcs[w := After(s.listenerID, s.pcs[w])])))
    case UpdaterStep(u, pick) =>
      if u >= |s.updates| then None else
      (match Through(s.mu, UpdaterOp(s.updates[u]), Updater(u))
       case None => None
       case Some(mu) => match UpdaterWork(s, u, pick) case None => None case Some(s1) => Some(s1.(mu := mu)))
  }

  /** The state after a run of actions; an action that cannot be taken is passed over. */
  function Run(s: State, run: seq<Action>): (r: State)
    ensures |r.pcs| == |s.pcs| && |r.chans| == |s.chans|
    decreases |run|
  {
    if run == [] then s
    else
      var n := |run| - 1;
      var s1 := Run(s, run[..n]);
      match Next(s1, run[n]) case None => s1 case Some(s2) => s2
  }

  // ---------------------------------------------------------------------------
  // Mutual exclusion
  // ---------------------------------------------------------------------------

  function PCHold(pc: PC): Hold {
    if pc.Locked? || pc.Registered? || pc.CancelLocked? || pc.Closed? || pc.Deleted? then Write
    else if pc.RLocked? || pc.SnapshotSent? then Read
    else Nothing
  }

  function Holds(s: State, t: Thread): Hold {
    match t
    case Watcher(w) => if w < |s.pcs| then PCHold(s.pcs[w]) else Nothing
    case Updater(u) => if u < |s.updates| && !s.updates[u].Outside? then Write else Nothing
  }

  ghost predicate LockInv(s: State) {
    |s.pcs| == |s.chans| && Consistent(s.mu, (t: Thread) => Holds(s, t))
  }

  lemma StepKeepsLock(s: State, a: Action)
    requires LockInv(s) && Next(s, a).Some?
    ensures LockInv(Next(s, a).value)
  {
    var s' := Next(s, a).value;
    var (t, op) := match a
      case WatcherStep(w) => (Watcher(w), WatcherOp(s.pcs[w]))
      case UpdaterStep(u, _) => (Updater(u), UpdaterOp(s.updates[u]));
    assert Fits(Holds(s, t), op, Holds(s', t)) && forall x :: x != t ==> Holds(s', x) == Holds(s, x);
    ThroughKeepsConsistent(s.mu, (x: Thread) => Holds(s, x), op, t, (x: Thread) => Holds(s', x));
  }

  // ---------------------------------------------------------------------------
  // Open channels
  // ---------------------------------------------------------------------------

  /** From its registration until its goroutine has deleted it. */
  predicate Listed(pc: PC) {
    || pc.Registered? || pc.Unlocked? || pc.RLocked? || pc.SnapshotSent?
    || pc.AwaitingDone? || pc.CancelLocked? || pc.Closed?
  }

  predicate HasID(pc: PC) { !pc.Called? && !pc.Incrementing? && !pc.Incremented? }

  predicate IsClosed(pc: PC) { pc.Closed? || pc.Deleted? || pc.Finished? }

  /** A channel is open until its own goroutine closes it; what is listed is a watcher that has that id. */
  ghost predicate ChannelInv(s: State) {
    && |s.pcs| == |s.chans|
    && !s.panicked
    && (forall w :: 0 <= w < |s.pcs| ==> (s.chans[w].open <==> !IsClosed(s.pcs[w])))
    && (forall id :: id in s.listeners ==>
          var w := s.listeners[id]; w < |s.pcs| && Listed(s.pcs[w]) && s.pcs[w].id == id)
    && (forall u :: 0 <= u < |s.updates| && s.updates[u].Sending? ==> s.updates[u].remaining <= s.listeners.Keys)
  }

  lemma HoldsFacts(s: State)
    requires LockInv(s)
    ensures forall t :: Holds(s, t) == Write <==> s.mu.writer == Some(t)
    ensures forall t :: Holds(s, t) == Read <==> t in s.mu.readers
  {
    var holds := (t: Thread) => Holds(s, t);
    assert forall t :: holds(t) == Holds(s, t);
  }

  /** An updater that sends keeps every watcher outside of the lock. */
  lemma SenderIsAlone(s: State, u: nat)
    requires LockInv(s) && u < |s.updates| && !s.updates[u].Outside?
    ensures forall w :: 0 <= w < |s.pcs| ==> PCHold(s.pcs[w]).Nothing?
    ensures forall v :: 0 <= v < |s.updates| && v != u ==> s.updates[v].Outside?
  {
    HoldsFacts(s);
    assert Holds(s, Updater(u)) == Write;
    forall w | 0 <= w < |s.pcs|
      ensures PCHold(s.pcs[w]).Nothing?
    {
      assert Holds(s, Watcher(w)) == PCHold(s.pcs[w]);
    }
    forall v | 0 <= v < |s.updates| && v != u
      ensures s.updates[v].Outside?
    {
      assert Holds(s, Updater(v)) != Write;
    }
  }

  /** A watcher that holds the lock keeps every updater outside. */
  lemma HolderIsAlone(s: State, w: nat)
    requires LockInv(s) && w < |s.pcs| && !PCHold(s.pcs[w]).Nothing?
    ensures forall u :: 0 <= u < |s.updates| ==> s.updates[u].Outside?
  {
    HoldsFacts(s);
    assert Holds(s, Watcher(w)) == PCHold(s.pcs[w]);
    forall u | 0 <= u < |s.updates|
      ensures s.updates[u].Outside?
    {
      assert Holds(s, Updater(u)) != Write;
    }
  }

  /** What a step of a watcher changes. */
  lemma WatcherChanges(s: State, w: nat)
    requires Next(s, WatcherStep(w)).Some?
    ensures w < |s.pcs|
    ensures var (s', pc) := (Next(s, WatcherStep(w)).value, s.pcs[w]);
            && s'.pcs == s.pcs[w := After(s.listenerID, pc)]
            && s'.updates == s.updates && s'.version == s.version
            && s'.listeners == (if pc.Locked? then s.listeners[pc.id := w]
                                else if pc.Closed? then s.listeners - {pc.id}
                                else s.listeners)
    ensures var (s', pc) := (Next(s, WatcherStep(w)).value, s.pcs[w]);
            && (forall v :: 0 <= v < |s.chans| && v != w ==> s'.chans[v] == s.chans[v])
            && (s'.chans[w].open <==> s.chans[w].open && !pc.CancelLocked?)
            && (s'.panicked <==> s.panicked || ((pc.RLocked? || pc.CancelLocked?) && !s.chans[w].open))
  {
    hide Through;
  }

  lemma WatcherKeepsChannels(s: State, w: nat)
    requires LockInv(s) && ChannelInv(s) && Next(s, WatcherStep(w)).Some?
    ensures ChannelInv(Next(s, WatcherStep(w)).value)
  {
    hide LockInv, Next;
    WatcherChanges(s, w);
    if !PCHold(s.pcs[w]).Nothing? { HolderIsAlone(s, w); }
  }

  lemma UpdaterKeepsChannels(s: State, u: nat, pick: nat)
    requires LockInv(s) && ChannelInv(s) && Next(s, UpdaterStep(u, pick)).Some?
    ensures ChannelInv(Next(s, UpdaterStep(u, pick)).value)
  {
    hide LockInv, Through;
    if !s.updates[u].Outside? { SenderIsAlone(s, u); }
  }

  lemma StepKeepsChannels(s: State, a: Action)
    requires LockInv(s) && ChannelInv(s) && Next(s, a).Some?
    ensures ChannelInv(Next(s, a).value)
  {
    hide LockInv, ChannelInv, Next;
    match a
    case WatcherStep(w) => WatcherKeepsChannels(s, w);
    case UpdaterStep(u, pick) => UpdaterKeepsChannels(s, u, pick);
  }

  /** Over every run: the lock is consistent, no channel is sent to or closed once closed, and whatever is
      listed is open unless its own goroutine is between closing and deleting it, under the write lock. */
  lemma {:induction false} ChannelsStayOpen(watchers: nat, updaters: nat, run: seq<Action>)
    ensures var s := Run(Init(watchers, updaters), run);
            && LockInv(s) && ChannelInv(s) && !s.panicked
            && forall id :: id in s.listeners ==>
                 s.chans[s.listeners[id]].open || s.mu.writer == Some(Watcher(s.listeners[id]))
    decreases |run|
  {
    if run == [] {
      InitInv(watchers, updaters);
    } else {
      var n := |run| - 1;
      ChannelsStayOpen(watchers, updaters, run[..n]);
      var s1 := Run(Init(watchers, updaters), run[..n]);
      if Next(s1, run[n]).Some? {
        StepKeepsLock(s1, run[n]);
        StepKeepsChannels(s1, run[n]);
      }
    }
    var s := Run(Init(watchers, updaters), run);
    HoldsFacts(s);
    forall id | id in s.listeners
      ensures s.chans[s.listeners[id]].open || s.mu.writer == Some(Watcher(s.listeners[id]))
    {
      var w := s.listeners[id];
      if !s.chans[w].open { assert Holds(s, Watcher(w)) == Write; }
    }
  }

  lemma InitInv(watchers: nat, updaters: nat)
    ensures LockInv(Init(watchers, updaters)) && ChannelInv(Init(watchers, updaters))
  {}

  // ---------------------------------------------------------------------------
  // Every version, in order
  // ---------------------------------------------------------------------------

  /** The versions behind a, up to b. */
  function Versions(a: nat, b: nat): (vs: seq<nat>)
    requires a <= b
    ensures |vs| == b - a
    ensures forall i :: 0 <= i < b - a ==> vs[i] == a + 1 + i
  {
    seq<nat>(b - a, (i: nat) => a + 1 + i)
  }

  /** What a channel should have carried: each version behind the one at registration, and at one place
      the snapshot, which is the version current at that place. */
  ghost predicate InSequence(c: Chan) {
    && c.registeredAt <= c.upTo
    && match c.snapshotAt
       case None => c.history == Versions(c.registeredAt, c.upTo)
       case Some(v) =>
         c.registeredAt <= v <= c.upTo && c.history == Versions(c.registeredAt, v) + [v] + Versions(v, c.upTo)
  }

  /** No other watcher has the id of w: the unlocked increments did not race. */
  ghost predicate OwnID(s: State, w: nat)
    requires w < |s.pcs|
  {
    HasID(s.pcs[w]) ==> forall v :: 0 <= v < |s.pcs| && v != w && HasID(s.pcs[v]) ==> s.pcs[v].id != s.pcs[w].id
  }

  /** An update has still to be sent to a listener. */
  predicate Pending(s: State, id: nat) {
    match s.mu.writer
    case Some(Updater(u)) => u < |s.updates| && s.updates[u].Sending? && id in s.updates[u].remaining
    case _ => false
  }

  predicate HasSnapshot(pc: PC) {
    pc.SnapshotSent? || pc.AwaitingDone? || pc.CancelLocked? || pc.Closed? || pc.Deleted? || pc.Finished?
  }

  ghost predicate WatchInv(s: State, w: nat)
    requires w < |s.pcs| == |s.chans|
  {
    var (pc, c) := (s.pcs[w], s.chans[w]);
    && (c.snapshotAt.Some? <==> HasSnapshot(pc))
    && (if Listed(pc) || pc.Deleted? || pc.Finished? then InSequence(c) else c.history == [])
    && (Listed(pc) ==>
          && pc.id in s.listeners && s.listeners[pc.id] == w
          && c.upTo == if Pending(s, pc.id) then s.version - 1 else s.version)
  }

  lemma WatcherKeepsOwn(s: State, w: nat)
    requires LockInv(s) && ChannelInv(s) && w < |s.pcs| && WatchInv(s, w) && Next(s, WatcherStep(w)).Some?
    ensures WatchInv(Next(s, WatcherStep(w)).value, w)
  {
    HoldsFacts(s);
    assert Holds(s, Watcher(w)) == PCHold(s.pcs[w]);
    if PCHold(s.pcs[w]).Read? { assert s.mu.readers != {}; }
  }

  lemma WatcherKeepsOther(s: State, v: nat, w: nat)
    requires LockInv(s) && ChannelInv(s) && v < |s.pcs| && w < |s.pcs| && v != w && WatchInv(s, w)
    requires Next(s, WatcherStep(v)).Some? && OwnID(s, w)
    ensures WatchInv(Next(s, WatcherStep(v)).value, w)
  {
    HoldsFacts(s);
    assert Holds(s, Watcher(v)) == PCHold(s.pcs[v]);
    WriterStays(s, v);
    WatcherChanges(s, v);
    hide LockInv, Next, InSequence, HasSnapshot;
  }

  /** A step of a watcher leaves an updater that has the lock where it is. */
  lemma WriterStays(s: State, v: nat)
    requires LockInv(s) && Next(s, WatcherStep(v)).Some?
    ensures forall u :: s.mu.writer == Some(Updater(u)) <==> Next(s, WatcherStep(v)).value.mu.writer == Some(Updater(u))
  {
    HoldsFacts(s);
    assert Holds(s, Watcher(v)) == PCHold(s.pcs[v]);
    hide WatcherWork;
  }

  /** One more version keeps the sequence. */
  lemma OneMore(c: Chan)
    requires InSequence(c)
    ensures InSequence(c.(upTo := c.upTo + 1, history := c.history + [c.upTo + 1]))
  {
    var v := c.upTo + 1;
    match c.snapshotAt
    case None => assert Versions(c.registeredAt, v) == Versions(c.registeredAt, c.upTo) + [v];
    case Some(at) => assert Versions(at, v) == Versions(at, c.upTo) + [v];
  }

  lemma UpdaterKeeps(s: State, u: nat, pick: nat, w: nat)
    requires LockInv(s) && ChannelInv(s) && w < |s.pcs| && WatchInv(s, w)
    requires u < |s.updates| && Next(s, UpdaterStep(u, pick)).Some?
    ensures WatchInv(Next(s, UpdaterStep(u, pick)).value, w)
  {
    HoldsFacts(s);
    assert Holds(s, Updater(u)) == if s.updates[u].Outside? then Nothing else Write;
    if !s.updates[u].Outside? { SenderIsAlone(s, u); }
    if Listed(s.pcs[w]) { OneMore(s.chans[w]); }
    hide LockInv, InSequence, HasSnapshot;
  }

  lemma StepKeepsIDs(s: State, a: Action, v: nat)
    requires Next(s, a).Some? && v < |s.pcs|
    ensures |Next(s, a).value.pcs| == |s.pcs|
    ensures HasID(s.pcs[v]) ==> var pc := Next(s, a).value.pcs[v]; HasID(pc) && pc.id == s.pcs[v].id
  {}

  lemma StepKeepsWatch(s: State, a: Action, w: nat)
    requires LockInv(s) && ChannelInv(s) && w < |s.pcs| && (OwnID(s, w) ==> WatchInv(s, w))
    requires Next(s, a).Some? && OwnID(Next(s, a).value, w)
    ensures WatchInv(Next(s, a).value, w)
  {
    var s' := Next(s, a).value;
    hide Next, LockInv, ChannelInv, WatchInv;
    forall v | 0 <= v < |s.pcs|
      ensures HasID(s.pcs[v]) ==> HasID(s'.pcs[v]) && s'.pcs[v].id == s.pcs[v].id
    {
      StepKeepsIDs(s, a, v);
    }
    StepKeepsIDs(s, a, w);
    assert OwnID(s, w);
    match a {
      case WatcherStep(v) =>
        StepHasThread(s, a);
        if v == w { WatcherKeepsOwn(s, w); } else { WatcherKeepsOther(s, v, w); }
      case UpdaterStep(u, pick) =>
        StepHasThread(s, a);
        UpdaterKeeps(s, u, pick, w);
    }
  }

  lemma StepHasThread(s: State, a: Action)
    requires Next(s, a).Some?
    ensures match a case WatcherStep(w) => w < |s.pcs| case UpdaterStep(u, _) => u < |s.updates|
  {}

  lemma {:induction false} RunKeepsWatch(watchers: nat, updaters: nat, run: seq<Action>, w: nat)
    requires w < watchers && OwnID(Run(Init(watchers, updaters), run), w)
    ensures var s := Run(Init(watchers, updaters), run);
            WatchInv(s, w)
    decreases |run|
  {
    hide WatchInv, LockInv, ChannelInv, Next;
    ChannelsStayOpen(watchers, updaters, run);
    if run == [] {
      InitWatch(watchers, updaters, w);
    } else {
      var n := |run| - 1;
      ChannelsStayOpen(watchers, updaters, run[..n]);
      var s1 := Run(Init(watchers, updaters), run[..n]);
      LockInvLengths(s1);
      if OwnID(s1, w) { RunKeepsWatch(watchers, updaters, run[..n], w); }
      if Next(s1, run[n]).Some? { StepKeepsWatch(s1, run[n], w); }
    }
    LockInvLengths(Run(Init(watchers, updaters), run));
  }

  lemma LockInvLengths(s: State)
    requires LockInv(s)
    ensures |s.pcs| == |s.chans|
  {}

  lemma InitWatch(watchers: nat, updaters: nat, w: nat)
    requires w < watchers
    ensures WatchInv(Init(watchers, updaters), w)
  {}

  /** Over every interleaving, a watcher with an id of its own has received every version behind the one at its
      registration, without a gap and in order, with its snapshot, never a stale one, at one place among them;
      and while it is registered and no update is being sent, what it received last is the current version. */
  lemma WatcherSeesAllInOrder(watchers: nat, updaters: nat, run: seq<Action>, w: nat)
    requires w < watchers && OwnID(Run(Init(watchers, updaters), run), w)
    ensures var s := Run(Init(watchers, updaters), run);
            && (s.chans[w].history == [] || InSequence(s.chans[w]))
            && (Listed(s.pcs[w]) && (forall u :: 0 <= u < |s.updates| ==> !s.updates[u].Sending?) ==>
                  && InSequence(s.chans[w]) && s.chans[w].upTo == s.version
                  && (s.chans[w].history != [] ==> s.chans[w].history[|s.chans[w].history| - 1] == s.version))
  {
    hide Run;
    RunKeepsWatch(watchers, updaters, run, w);
  }

  // ---------------------------------------------------------------------------
  // Whose id is its own
  // ---------------------------------------------------------------------------

  /** Between the read of listenerID and the read behind the increment. */
  predicate TakingID(pc: PC) { pc.Incrementing? || pc.Incremented? }

  predicate OneAtATime(s: State) {
    forall v, w :: 0 <= v < w < |s.pcs| ==> !(TakingID(s.pcs[v]) && TakingID(s.pcs[w]))
  }

  /** At no point of the run do two calls of WatchConfig take an id at once. */
  ghost predicate NoOverlap(s: State, run: seq<Action>) {
    forall n :: 0 <= n <= |run| ==> OneAtATime(Run(s, run[..n]))
  }

  /** The ids given are different, and the counter has not fallen behind them. */
  ghost predicate IDInv(s: State) {
    && (forall v, w :: 0 <= v < w < |s.pcs| && HasID(s.pcs[v]) && HasID(s.pcs[w]) ==> s.pcs[v].id != s.pcs[w].id)
    && (forall w :: 0 <= w < |s.pcs| && HasID(s.pcs[w]) ==> s.pcs[w].id <= s.listenerID)
    && (forall w :: 0 <= w < |s.pcs| && s.pcs[w].Incrementing? ==> s.pcs[w].seen == s.listenerID)
    && (forall v, w :: 0 <= v < |s.pcs| && 0 <= w < |s.pcs| && HasID(s.pcs[v]) && s.pcs[w].Incremented? ==>
          s.pcs[v].id < s.listenerID)
  }

  lemma StepKeepsIDInv(s: State, a: Action)
    requires IDInv(s) && OneAtATime(s) && Next(s, a).Some?
    requires OneAtATime(Next(s, a).value)
    ensures IDInv(Next(s, a).value)
  {
    hide Next;
    CounterAfter(s, a);
  }

  /** What a step does to the ids. */
  lemma CounterAfter(s: State, a: Action)
    requires Next(s, a).Some?
    ensures var s' := Next(s, a).value;
            match a
            case WatcherStep(w) =>
              && w < |s.pcs| && s'.pcs == s.pcs[w := After(s.listenerID, s.pcs[w])]
              && s'.listenerID == if s.pcs[w].Incrementing? then s.pcs[w].seen + 1 else s.listenerID
            case UpdaterStep(_, _) => s'.pcs == s.pcs && s'.listenerID == s.listenerID
  {
    hide Through;
  }

  lemma {:induction false} NoOverlapKeepsIDs(watchers: nat, updaters: nat, run: seq<Action>)
    requires NoOverlap(Init(watchers, updaters), run)
    ensures IDInv(Run(Init(watchers, updaters), run)) && OneAtATime(Run(Init(watchers, updaters), run))
    decreases |run|
  {
    var s0 := Init(watchers, updaters);
    if run != [] {
      hide IDInv, OneAtATime, Next;
      var n := |run| - 1;
      assert forall m :: 0 <= m <= n ==> run[..n][..m] == run[..m];
      NoOverlapKeepsIDs(watchers, updaters, run[..n]);
      assert run[..n + 1] == run;
      if Next(Run(s0, run[..n]), run[n]).Some? { StepKeepsIDInv(Run(s0, run[..n]), run[n]); }
    } else {
      assert run[..0] == run;
    }
  }

  /** Where no two calls take their ids at once, every watcher has had every version behind its registration in order,
      with one snapshot that is not stale, and ends with the current one while it is registered and nothing is sent. */
  lemma UnracedWatchersSeeAll(watchers: nat, updaters: nat, run: seq<Action>, w: nat)
    requires w < watchers && NoOverlap(Init(watchers, updaters), run)
    ensures var s := Run(Init(watchers, updaters), run);
            && OwnID(s, w)
            && (s.chans[w].history == [] || InSequence(s.chans[w]))
            && (Listed(s.pcs[w]) && (forall u :: 0 <= u < |s.updates| ==> !s.updates[u].Sending?) ==>
                  && InSequence(s.chans[w]) && s.chans[w].upTo == s.version
                  && (s.chans[w].history != [] ==> s.chans[w].history[|s.chans[w].history| - 1] == s.version))
  {
    hide Run, NoOverlap, InSequence;
    NoOverlapKeepsIDs(watchers, updaters, run);
    WatcherSeesAllInOrder(watchers, updaters, run, w);
  }

  /** And where two calls do, there is a way on in which they come to share an id. */
  lemma OverlapCanShare(s: State, v: nat, w: nat) returns (more: seq<Action>)
    requires v < |s.pcs| == |s.chans| && w < |s.pcs| && v != w && TakingID(s.pcs[v]) && TakingID(s.pcs[w])
    ensures var s' := Run(s, more);
            HasID(s'.pcs[v]) && HasID(s'.pcs[w]) && s'.pcs[v].id == s'.pcs[w].id
  {
    hide Run, Next;
    more := [];
    var s1 := s;
    EmptyRun(s);
    if s1.pcs[v].Incrementing? { more, s1 := Advance(s, more, s1, v); }
    if s1.pcs[w].Incrementing? { more, s1 := Advance(s, more, s1, w); }
    more, s1 := Advance(s, more, s1, v);
    more, s1 := Advance(s, more, s1, w);
  }

  lemma EmptyRun(s: State)
    ensures Run(s, []) == s
  {}

  /** A step that takes an id waits for nobody. */
  lemma Advance(s: State, run: seq<Action>, s1: State, w: nat) returns (longer: seq<Action>, s2: State)
    requires s1 == Run(s, run) && w < |s1.pcs| == |s1.chans| && TakingID(s1.pcs[w])
    ensures s2 == Run(s, longer) && |s2.pcs| == |s2.chans| == |s1.pcs|
    ensures s2.pcs == s1.pcs[w := After(s1.listenerID, s1.pcs[w])]
    ensures s1.pcs[w].Incremented? ==> s2.listenerID == s1.listenerID
  {
    longer := run + [WatcherStep(w)];
    assert longer[..|run|] == run;
    s2 := Next(s1, WatcherStep(w)).value;
  }

  // ---------------------------------------------------------------------------
  // A cancel gets through
  // ---------------------------------------------------------------------------

  lemma Follow(s: State, run: seq<Action>, s1: State, a: Action) returns (longer: seq<Action>, s2: State)
    requires s1 == Run(s, run) && Next(s1, a).Some?
    ensures longer == run + [a] && s2 == Next(s1, a).value == Run(s, longer)
  {
    longer := run + [a];
    assert longer[..|run|] == run;
    s2 := Next(s1, a).value;
  }

  /** From every state in which nobody holds the lock, a watcher that is done can go on alone until its channel is
      closed and it is no longer listed, with the lock free again and nothing else changed. */
  lemma CancelGoesThrough(s: State, w: nat) returns (more: seq<Action>)
    requires w < |s.pcs| == |s.chans| && s.pcs[w].AwaitingDone? && s.chans[w].open && s.mu == Mutex(None, {})
    ensures var id := s.pcs[w].id;
            Run(s, more) == s.(pcs := s.pcs[w := Finished(id)], chans := s.chans[w := s.chans[w].(open := false)],
                               listeners := s.listeners - {id})
  {
    hide Run;
    EmptyRun(s);
    var id, s1 := s.pcs[w].id, s;
    more, s1 := Follow(s, [], s1, WatcherStep(w));
    assert s1 == s.(pcs := s.pcs[w := CancelLocked(id)], mu := Mutex(Some(Watcher(w)), {}));
    more, s1 := Follow(s, more, s1, WatcherStep(w));
    var chans := s.chans[w := s.chans[w].(open := false)];
    assert s1 == s.(pcs := s.pcs[w := Closed(id)], mu := Mutex(Some(Watcher(w)), {}), chans := chans);
    more, s1 := Follow(s, more, s1, WatcherStep(w));
    assert s1 == s.(pcs := s.pcs[w := Deleted(id)], mu := Mutex(Some(Watcher(w)), {}), chans := chans,
                    listeners := s.listeners - {id});
    more, s1 := Follow(s, more, s1, WatcherStep(w));
    assert s1.pcs == s.pcs[w := Finished(id)];
  }

  // ---------------------------------------------------------------------------
  // A race for an id
  // ---------------------------------------------------------------------------

  /** A registered watcher that is listed under no id. */
  ghost predicate Lost(s: State, w: nat) {
    && w < |s.pcs| == |s.chans|
    && (Listed(s.pcs[w]) || s.pcs[w].Deleted? || s.pcs[w].Finished?)
    && forall id :: id in s.listeners ==> s.listeners[id] != w
  }

  lemma StepKeepsLost(s: State, a: Action, w: nat)
    requires Lost(s, w) && Next(s, a).Some?
    ensures Lost(Next(s, a).value, w) && Next(s, a).value.chans[w].upTo == s.chans[w].upTo
  {
    hide Through;
  }

  lemma {:induction false} LostForGood(s: State, run: seq<Action>, w: nat)
    requires Lost(s, w)
    ensures Lost(Run(s, run), w) && Run(s, run).chans[w].upTo == s.chans[w].upTo
    decreases |run|
  {
    hide Lost, Next;
    if run != [] {
      var n := |run| - 1;
      LostForGood(s, run[..n], w);
      if Next(Run(s, run[..n]), run[n]).Some? { StepKeepsLost(Run(s, run[..n]), run[n], w); }
    }
  }

  /** Of two registered watchers with one id, at least one is never sent an update again, whatever happens next. */
  lemma SharedIDLosesOne(watchers: nat, updaters: nat, run: seq<Action>, more: seq<Action>, v: nat, w: nat)
    requires v < w < watchers
    requires var s := Run(Init(watchers, updaters), run);
             Listed(s.pcs[v]) && Listed(s.pcs[w]) && s.pcs[v].id == s.pcs[w].id
    ensures var s := Run(Init(watchers, updaters), run);
            exists x :: x in {v, w} && Lost(s, x) && Run(s, more).chans[x].upTo == s.chans[x].upTo
  {
    hide Run;
    ChannelsStayOpen(watchers, updaters, run);
    var s := Run(Init(watchers, updaters), run);
    var id := s.pcs[v].id;
    var x := if id in s.listeners && s.listeners[id] == v then w else v;
    assert Lost(s, x);
    LostForGood(s, more, x);
  }

  /** A state of two watchers and an updater without a lock held. */
  function Quiet(version: nat, listenerID: nat, listeners: map<nat, nat>, a: PC, b: PC, x: Chan, y: Chan): State {
    State(Mutex(None, {}), version, listenerID, listeners, [a, b], [x, y], [Outside], false)
  }

  const NEW_CHAN := Chan(true, [], 0, None, 0)

  /** Both calls read listenerID before either writes it. */
  lemma RaceForID() returns (run: seq<Action>, s: State)
    ensures s == Run(Init(2, 1), run)
    ensures s == Quiet(0, 1, map[], Identified(1), Identified(1), NEW_CHAN, NEW_CHAN)
  {
    var (a, b) := (WatcherStep(0), WatcherStep(1));
    run, s := [], Init(2, 1);
    assert s == Quiet(0, 0, map[], Called, Called, NEW_CHAN, NEW_CHAN);
    hide Run;
    run, s := Take(run, s, a);
    run, s := Take(run, s, b);
    assert s == Quiet(0, 0, map[], Incrementing(0), Incrementing(0), NEW_CHAN, NEW_CHAN);
    run, s := Take(run, s, a);
    run, s := Take(run, s, b);
    assert s == Quiet(0, 1, map[], Incremented, Incremented, NEW_CHAN, NEW_CHAN);
    run, s := Take(run, s, a);
    run, s := Take(run, s, b);
  }

  /** Two calls of WatchConfig that race to the same id: the first stays subscribed, and an update passes it by. */
  lemma RaceLosesWatcher() returns (run: seq<Action>)
    ensures var s := Run(Init(2, 1), run);
            && |s.pcs| == |s.chans| == 2 && s.pcs == [AwaitingDone(1), Unlocked(1)]
            && s.version == 1 && s.updates == [Outside]
            && s.chans[0].open && s.chans[0].history == [0] && s.chans[1].history == [1]
  {
    var s;
    run, s := RaceForID();
    run, s := RaceToRegister(run, s);
    run, s := SnapshotFirst(run, s);
    run, s := UpdateOnce(run, s);
  }

  lemma RaceToRegister(run0: seq<Action>, s0: State) returns (run: seq<Action>, s: State)
    requires s0 == Run(Init(2, 1), run0)
    requires s0 == Quiet(0, 1, map[], Identified(1), Identified(1), NEW_CHAN, NEW_CHAN)
    ensures s == Run(Init(2, 1), run)
    ensures s == Quiet(0, 1, map[1 := 1], Unlocked(1), Unlocked(1), NEW_CHAN, NEW_CHAN)
  {
    hide Run;
    var (a, b) := (WatcherStep(0), WatcherStep(1));
    run, s := Take(run0, s0, a);
    run, s := Take(run, s, a);
    run, s := Take(run, s, a);
    assert s == Quiet(0, 1, map[1 := 0], Unlocked(1), Identified(1), NEW_CHAN, NEW_CHAN);
    run, s := Take(run, s, b);
    run, s := Take(run, s, b);
    run, s := Take(run, s, b);
  }

  lemma SnapshotFirst(run0: seq<Action>, s0: State) returns (run: seq<Action>, s: State)
    requires s0 == Run(Init(2, 1), run0)
    requires s0 == Quiet(0, 1, map[1 := 1], Unlocked(1), Unlocked(1), NEW_CHAN, NEW_CHAN)
    ensures s == Run(Init(2, 1), run)
    ensures s == Quiet(0, 1, map[1 := 1], AwaitingDone(1), Unlocked(1), Chan(true, [0], 0, Some(0), 0), NEW_CHAN)
  {
    hide Run;
    run, s := Take(run0, s0, WatcherStep(0));
    run, s := Take(run, s, WatcherStep(0));
    assert s.pcs == [SnapshotSent(1), Unlocked(1)] && s.version == 0;
    assert s.chans[0].history == [] + [0] == [0];
    assert s.chans == [Chan(true, [0], 0, Some(0), 0), NEW_CHAN];
    run, s := Take(run, s, WatcherStep(0));
    assert s.mu.readers == {} && s.pcs == [AwaitingDone(1), Unlocked(1)];
  }

  lemma UpdateOnce(run0: seq<Action>, s0: State) returns (run: seq<Action>, s: State)
    requires s0 == Run(Init(2, 1), run0)
    requires s0 == Quiet(0, 1, map[1 := 1], AwaitingDone(1), Unlocked(1), Chan(true, [0], 0, Some(0), 0), NEW_CHAN)
    ensures s == Run(Init(2, 1), run)
    ensures s == Quiet(1, 1, map[1 := 1], AwaitingDone(1), Unlocked(1),
                       Chan(true, [0], 0, Some(0), 0), Chan(true, [1], 0, None, 1))
  {
    hide Run;
    var u := UpdaterStep(0, 1);
    run, s := Take(run0, s0, u);
    run, s := Take(run, s, u);
    assert s0.listeners.Keys == {1};
    assert s.updates == [Sending({1})];
    run, s := Take(run, s, u);
    assert {1} - {1} == {};
    assert s.updates == [Sending({})] && s.chans[1] == Chan(true, [1], 0, None, 1);
    run, s := Take(run, s, u);
  }

  lemma Take(run: seq<Action>, s: State, a: Action) returns (longer: seq<Action>, s': State)
    requires s == Run(Init(2, 1), run) && Next(s, a).Some?
    ensures longer == run + [a] && s' == Next(s, a).value == Run(Init(2, 1), longer)
  {
    longer := run + [a];
    assert longer[..|run|] == run;
    s' := Next(s, a).value;
  }
}
