/** The stream table, the state machine that looks streams up, and the routing of entries over a run. */
module Streams {
  import opened Options
  import opened Varints
  import opened Messages
  import opened Codec

  // ---------------------------------------------------------------------------
  // The objects
  // ---------------------------------------------------------------------------

  /** streamManager. A stream is known by the call it belongs to; None is the nil stream. */
  class StreamManager {
    var streams: map<uint64, nat>
    var nextID: uint64

    constructor ()
      ensures streams == map[] && nextID == 0
    {
      streams, nextID := map[], 0;
    }

    method AddStream(stream: nat) returns (id: uint64)
      modifies this
      ensures id == nextID == NextID(old(nextID)) && streams == old(streams)[id := stream]
    {
      nextID := NextID(nextID);
      id := nextID;
      streams := streams[id := stream];
    }

    method RemoveStream(id: uint64)
      modifies this
      ensures streams == old(streams) - {id} && nextID == old(nextID)
    {
      streams := streams - {id};
    }

    method GetStream(id: uint64) returns (stream: Option<nat>)
      ensures stream == Lookup(streams, id)
    {
      if id in streams { return Some(streams[id]); }
      return None;
    }
  }

  function NextID(id: uint64): uint64 { (id + 1) % TWO_64 }

  function Lookup(streams: map<uint64, nat>, id: uint64): Option<nat> {
    if id in streams then Some(streams[id]) else None
  }

  /** What the replicated state is asked to do: a command and where its output goes. */
  datatype Command = Command(value: Slice, stream: Option<nat>)

  /** Unmarshal a log entry and look its stream up. */
  function CommandOf(bytes: Slice, streams: map<uint64, nat>): Result<Command> {
    var e :- DecodeEntry(NO_ENTRY, bytes);
    Ok(Command(e.value, Lookup(streams, e.streamID)))
  }

  /** StateMachine: the commands it has applied stand for its state. */
  class StateMachine {
    const streams: StreamManager
    var commands: seq<Command>

    constructor (streams: StreamManager)
      ensures this.streams == streams && commands == []
    {
      this.streams := streams;
      commands := [];
    }

    method Update(bytes: Slice) returns (err: Option<Error>)
      modifies this
      ensures match CommandOf(bytes, streams.streams)
              case Ok(c) => err == None && commands == old(commands) + [c]
              case Err(e) => err == Some(e) && commands == old(commands)
    {
      var entry := new EntryMessage();
      err := entry.Unmarshal(bytes);
      if err.Some? { return err; }
      var stream := streams.GetStream(entry.streamID);
      commands := commands + [Command(entry.value, stream)];
    }
  }

  // ---------------------------------------------------------------------------
  // Runs: calls of SyncCommand, the log, and this node's apply loop
  // ---------------------------------------------------------------------------

  /** Where a call of SyncCommand stands. */
  datatype Phase = Called | Added(id: uint64) | Proposed(id: uint64) | Removed(id: uint64)

  /** Bytes proposed: by a call of this node, or by another node. */
  datatype Proposal = Proposal(bytes: Slice, origin: Option<nat>)

  /** A call that has a stream in the table. */
  predicate Waiting(x: Phase) { x.Added? || x.Proposed? }

  /** A command applied at this node. The other fields only record the call that proposed it, the id in its entry and
      where the calls of this node stood. */
  datatype Delivery = Delivery(origin: Option<nat>, id: uint64, calls: seq<Phase>, command: Command)

  datatype State = State(
    nextID: uint64, streams: map<uint64, nat>, calls: seq<Phase>,
    proposals: seq<Proposal>, log: seq<Proposal>, applied: nat, deliveries: seq<Delivery>)

  /** Steps: addStream, the proposal and removeStream of a call, in that order or without the proposal; a proposal
      from elsewhere; the commit of a proposal, at any time after it and as often as the log likes; an apply. */
  datatype Action = Add(c: nat) | Propose(c: nat) | Remove(c: nat) | Foreign(bytes: Slice) | Commit(k: nat) | Apply

  function Init(calls: nat): State { State(0, map[], seq(calls, i => Called), [], [], 0, []) }

  function Next(s: State, inputs: seq<Slice>, a: Action): Option<State>
    requires |inputs| == |s.calls|
  {
    match a
    case Add(c) =>
      if c < |s.calls| && s.calls[c].Called? then
        var id := NextID(s.nextID);
        Some(s.(nextID := id, streams := s.streams[id := c], calls := s.calls[c := Added(id)]))
      else None
    case Propose(c) =>
      if c < |s.calls| && s.calls[c].Added? && |EncodeEntry(Entry(inputs[c], s.calls[c].id))| < TWO_63 then
        var bytes := EncodeEntry(Entry(inputs[c], s.calls[c].id));
        Some(s.(calls := s.calls[c := Proposed(s.calls[c].id)], proposals := s.proposals + [Proposal(bytes, Some(c))]))
      else None
    case Remove(c) =>
      if c < |s.calls| && Waiting(s.calls[c]) then
        var id := s.calls[c].id;
        Some(s.(streams := s.streams - {id}, calls := s.calls[c := Removed(id)]))
      else None
    case Foreign(bytes) => Some(s.(proposals := s.proposals + [Proposal(bytes, None)]))
    case Commit(k) => if k < |s.proposals| then Some(s.(log := s.log + [s.proposals[k]])) else None
    case Apply =>
      if s.applied >= |s.log| then None else
      var p := s.log[s.applied];
      (match CommandOf(p.bytes, s.streams)
       case Err(_) => Some(s.(applied := s.applied + 1))
       case Ok(c) =>
         var id := DecodeEntry(NO_ENTRY, p.bytes).value.streamID;
         Some(s.(applied := s.applied + 1, deliveries := s.deliveries + [Delivery(p.origin, id, s.calls, c)])))
  }

  /** The state after a run; an action that cannot be taken is passed over. */
  function Run(inputs: seq<Slice>, run: seq<Action>): (s: State)
    ensures |s.calls| == |inputs|
    decreases |run|
  {
    if run == [] then Init(|inputs|)
    else
      var n := |run| - 1;
      var s := Run(inputs, run[..n]);
      match Next(s, inputs, run[n]) case None => s case Some(s') => s'
  }

  // ---------------------------------------------------------------------------
  // Ids are not used twice
  // ---------------------------------------------------------------------------

  function Adds(calls: seq<Phase>): nat {
    if calls == [] then 0 else (if calls[0].Called? then 0 else 1) + Adds(calls[1..])
  }

  lemma {:induction false} AddsUpdate(calls: seq<Phase>, c: nat, x: Phase)
    requires c < |calls|
    ensures Adds(calls[c := x]) == Adds(calls) - (if calls[c].Called? then 0 else 1) + if x.Called? then 0 else 1
    ensures Adds(calls) <= |calls|
    ensures calls[c].Called? ==> Adds(calls) < |calls|
    decreases |calls|
  {
    AddsBound(calls);
    if c > 0 {
      assert calls[c := x][1..] == calls[1..][c - 1 := x];
      AddsUpdate(calls[1..], c - 1, x);
    } else {
      assert calls[c := x][1..] == calls[1..];
      AddsBound(calls[1..]);
    }
  }

  lemma {:induction false} AddsBound(calls: seq<Phase>)
    ensures Adds(calls) <= |calls|
    decreases |calls|
  {
    if calls != [] { AddsBound(calls[1..]); }
  }

  /** Ids count the calls that have one; each is one call's, and the calls that wait are those listed, each under
      its own id. */
  ghost predicate IDInv(s: State) {
    && s.nextID == Adds(s.calls)
    && (forall c :: 0 <= c < |s.calls| && !s.calls[c].Called? ==> 0 < s.calls[c].id <= s.nextID)
    && (forall c, d :: 0 <= c < d < |s.calls| && !s.calls[c].Called? && !s.calls[d].Called? ==>
          s.calls[c].id != s.calls[d].id)
    && (forall id :: id in s.streams ==>
          var c := s.streams[id]; c < |s.calls| && Waiting(s.calls[c]) && s.calls[c].id == id)
    && (forall c :: 0 <= c < |s.calls| && Waiting(s.calls[c]) ==>
          s.calls[c].id in s.streams && s.streams[s.calls[c].id] == c)
  }

  /** A local proposal carries its call's input under its call's id. */
  predicate Genuine(s: State, inputs: seq<Slice>, p: Proposal)
    requires |inputs| == |s.calls|
  {
    match p.origin
    case None => true
    case Some(c) => c < |s.calls| && !s.calls[c].Called? && p.bytes == EncodeEntry(Entry(inputs[c], s.calls[c].id))
  }

  /** Call c is the one that waits under an id. */
  predicate WaitsUnder(calls: seq<Phase>, c: nat, id: uint64) {
    c < |calls| && Waiting(calls[c]) && calls[c].id == id
  }

  /** An entry goes to the call that waits under its id, and to the nil stream when none does. A local one carries
      the input and the id of its call: it goes to this call while it waits, and to the nil stream afterwards. */
  ghost predicate WellRouted(inputs: seq<Slice>, d: Delivery) {
    && |d.calls| == |inputs|
    && (forall c: nat :: d.command.stream == Some(c) <==> WaitsUnder(d.calls, c, d.id))
    && match d.origin
       case None => true
       case Some(c) =>
         && c < |inputs| && !d.calls[c].Called? && d.id == d.calls[c].id
         && d.command == Command(inputs[c], if Waiting(d.calls[c]) then Some(c) else None)
  }

  /** The entries of a log that are there to be applied: those that decode. */
  function Due(log: seq<Proposal>): (due: seq<Proposal>)
    ensures forall p :: p in due ==> DecodeEntry(NO_ENTRY, p.bytes).Ok?
    decreases |log|
  {
    if log == [] then []
    else
      var n := |log| - 1;
      Due(log[..n]) + if DecodeEntry(NO_ENTRY, log[n].bytes).Ok? then [log[n]] else []
  }

  /** What has been applied is what was due, each entry once and in the order of the log. */
  predicate InLogOrder(due: seq<Proposal>, deliveries: seq<Delivery>)
    requires forall p :: p in due ==> DecodeEntry(NO_ENTRY, p.bytes).Ok?
  {
    && |deliveries| == |due|
    && forall k :: 0 <= k < |due| ==>
         var e := DecodeEntry(NO_ENTRY, due[k].bytes).value;
         && deliveries[k].origin == due[k].origin
         && deliveries[k].id == e.streamID && deliveries[k].command.value == e.value
  }

  ghost predicate OrderInv(s: State) { s.applied <= |s.log| && InLogOrder(Due(s.log[..s.applied]), s.deliveries) }

  lemma StepKeepsOrder(s: State, inputs: seq<Slice>, a: Action)
    requires |inputs| == |s.calls| && OrderInv(s) && Next(s, inputs, a).Some?
    ensures OrderInv(Next(s, inputs, a).value)
  {
    hide EncodeEntry, DecodeEntry;
    var s' := Next(s, inputs, a).value;
    if a.Apply? {
      var p := s.log[s.applied];
      assert s.log[..s.applied + 1][..s.applied] == s.log[..s.applied];
    } else {
      assert s'.log[..s.applied] == s.log[..s.applied];
    }
  }

  ghost predicate RouteInv(s: State, inputs: seq<Slice>)
    requires |inputs| == |s.calls|
  {
    && (forall p :: p in s.proposals ==> Genuine(s, inputs, p))
    && (forall p :: p in s.log ==> Genuine(s, inputs, p))
    && (forall d :: d in s.deliveries ==> WellRouted(inputs, d))
  }

  lemma AddKeepsIDs(s: State, inputs: seq<Slice>, c: nat)
    requires |inputs| == |s.calls| < TWO_64 && IDInv(s) && Next(s, inputs, Add(c)).Some?
    ensures IDInv(Next(s, inputs, Add(c)).value)
  {
    hide EncodeEntry, CommandOf, Adds;
    AddsUpdate(s.calls, c, Added(NextID(s.nextID)));
    assert NextID(s.nextID) == s.nextID + 1;
  }

  lemma ProposeKeepsIDs(s: State, inputs: seq<Slice>, c: nat)
    requires |inputs| == |s.calls| && IDInv(s) && Next(s, inputs, Propose(c)).Some?
    ensures IDInv(Next(s, inputs, Propose(c)).value)
  {
    hide EncodeEntry, CommandOf, Adds;
    AddsUpdate(s.calls, c, Proposed(s.calls[c].id));
  }

  lemma RemoveKeepsIDs(s: State, inputs: seq<Slice>, c: nat)
    requires |inputs| == |s.calls| && IDInv(s) && Next(s, inputs, Remove(c)).Some?
    ensures IDInv(Next(s, inputs, Remove(c)).value)
  {
    hide EncodeEntry, CommandOf, Adds;
    AddsUpdate(s.calls, c, Removed(s.calls[c].id));
  }

  lemma StepKeepsIDs(s: State, inputs: seq<Slice>, a: Action)
    requires |inputs| == |s.calls| < TWO_64 && IDInv(s) && Next(s, inputs, a).Some?
    ensures IDInv(Next(s, inputs, a).value)
  {
    hide EncodeEntry, CommandOf, Adds;
    match a
    case Add(c) => AddKeepsIDs(s, inputs, c);
    case Propose(c) => ProposeKeepsIDs(s, inputs, c);
    case Remove(c) => RemoveKeepsIDs(s, inputs, c);
    case _ =>
  }

  /** A call keeps its id. */
  lemma StepKeepsGenuine(s: State, inputs: seq<Slice>, a: Action, p: Proposal)
    requires |inputs| == |s.calls| && Next(s, inputs, a).Some? && Genuine(s, inputs, p)
    ensures Genuine(Next(s, inputs, a).value, inputs, p)
  {
    hide EncodeEntry, CommandOf;
  }

  /** The table lists just the calls that wait. */
  lemma LookupFinds(s: State, id: uint64, c: nat)
    requires IDInv(s)
    ensures Lookup(s.streams, id) == Some(c) <==> WaitsUnder(s.calls, c, id)
  {}

  /** Any entry, one of another node included, reaches the stream of a call exactly when the call waits and has the
      id in the entry. */
  lemma ApplyRoutes(s: State, bytes: Slice, e: Entry, c: nat)
    requires IDInv(s) && DecodeEntry(NO_ENTRY, bytes) == Ok(e)
    ensures CommandOf(bytes, s.streams).Ok? && CommandOf(bytes, s.streams).value.value == e.value
    ensures CommandOf(bytes, s.streams).value.stream == Some(c) <==> WaitsUnder(s.calls, c, e.streamID)
  {
    hide IDInv;
    LookupFinds(s, e.streamID, c);
  }

  /** An entry of this node decodes, and is handed to its own call exactly while this waits, otherwise to nobody. */
  lemma LocalEntryRouted(s: State, inputs: seq<Slice>, p: Proposal, c: nat)
    requires |inputs| == |s.calls| && IDInv(s) && Genuine(s, inputs, p) && p.origin == Some(c)
    ensures DecodeEntry(NO_ENTRY, p.bytes) == Ok(Entry(inputs[c], s.calls[c].id))
    ensures CommandOf(p.bytes, s.streams) == Ok(Command(inputs[c], if Waiting(s.calls[c]) then Some(c) else None))
  {
    hide EncodeEntry;
    EntryRoundTrip(Entry(inputs[c], s.calls[c].id));
    var d := Lookup(s.streams, s.calls[c].id);
    if d.Some? { assert s.calls[d.value].id == s.calls[c].id; }
  }

  lemma DeliveryRouted(s: State, inputs: seq<Slice>, p: Proposal)
    requires |inputs| == |s.calls| && IDInv(s) && Genuine(s, inputs, p) && CommandOf(p.bytes, s.streams).Ok?
    ensures var id := DecodeEntry(NO_ENTRY, p.bytes).value.streamID;
            WellRouted(inputs, Delivery(p.origin, id, s.calls, CommandOf(p.bytes, s.streams).value))
  {
    hide EncodeEntry, IDInv;
    var e := DecodeEntry(NO_ENTRY, p.bytes).value;
    forall c: nat
      ensures CommandOf(p.bytes, s.streams).value.stream == Some(c) <==> WaitsUnder(s.calls, c, e.streamID)
    {
      ApplyRoutes(s, p.bytes, e, c);
    }
    if p.origin.Some? { LocalEntryRouted(s, inputs, p, p.origin.value); }
  }

  lemma StepKeepsRoutes(s: State, inputs: seq<Slice>, a: Action)
    requires |inputs| == |s.calls| && IDInv(s) && RouteInv(s, inputs) && Next(s, inputs, a).Some?
    ensures RouteInv(Next(s, inputs, a).value, inputs)
  {
    var s' := Next(s, inputs, a).value;
    forall p | p in s.proposals || p in s.log
      ensures Genuine(s', inputs, p)
    {
      StepKeepsGenuine(s, inputs, a, p);
    }
    hide EncodeEntry, CommandOf, WellRouted;
    if a.Apply? {
      var p := s.log[s.applied];
      if CommandOf(p.bytes, s.streams).Ok? { DeliveryRouted(s, inputs, p); }
    }
  }

  /** In one process lifetime of fewer than 2^64 adds, over every interleaving: no id is given to two calls, an entry
      of a call of this node is applied to the stream of this call while it waits and to the nil stream afterwards,
      and any entry is applied to the stream of the call that waits under its id, if there is one. */
  lemma {:induction false} EntriesReachTheirOwn(inputs: seq<Slice>, run: seq<Action>)
    requires |inputs| < TWO_64
    ensures var s := Run(inputs, run);
            && IDInv(s) && RouteInv(s, inputs) && OrderInv(s)
            && (forall d :: d in s.deliveries ==> WellRouted(inputs, d))
            && (forall c, d :: 0 <= c < d < |s.calls| && !s.calls[c].Called? && !s.calls[d].Called? ==>
                  s.calls[c].id != s.calls[d].id)
    decreases |run|
  {
    if run == [] {
      InitInv(|inputs|);
    } else {
      hide IDInv, RouteInv, OrderInv, Next;
      var n := |run| - 1;
      EntriesReachTheirOwn(inputs, run[..n]);
      var s := Run(inputs, run[..n]);
      if Next(s, inputs, run[n]).Some? {
        StepKeepsIDs(s, inputs, run[n]);
        StepKeepsRoutes(s, inputs, run[n]);
        StepKeepsOrder(s, inputs, run[n]);
      }
    }
    InvFacts(Run(inputs, run), inputs);
  }

  lemma InvFacts(s: State, inputs: seq<Slice>)
    requires |inputs| == |s.calls| && IDInv(s) && RouteInv(s, inputs)
    ensures forall d :: d in s.deliveries ==> WellRouted(inputs, d)
    ensures forall c, d :: 0 <= c < d < |s.calls| && !s.calls[c].Called? && !s.calls[d].Called? ==>
              s.calls[c].id != s.calls[d].id
  {}

  lemma {:induction false} InitInv(calls: nat)
    ensures IDInv(Init(calls))
  {
    NoAdds(Init(calls).calls);
  }

  lemma {:induction false} NoAdds(calls: seq<Phase>)
    requires forall c :: 0 <= c < |calls| ==> calls[c].Called?
    ensures Adds(calls) == 0
    decreases |calls|
  {
    if calls != [] { NoAdds(calls[1..]); }
  }

  /** Over every run, the streams of this node get nothing but entries of this node exactly when no entry of another
      was applied while a call here waited under its id. */
  lemma RoutingKept(inputs: seq<Slice>, run: seq<Action>)
    requires |inputs| < TWO_64
    ensures var s := Run(inputs, run);
            (forall d :: d in s.deliveries && d.command.stream.Some? ==> d.origin.Some?) <==>
            forall d, c: nat :: d in s.deliveries && d.origin.None? ==> !WaitsUnder(d.calls, c, d.id)
  {
    hide Run, WaitsUnder;
    EntriesReachTheirOwn(inputs, run);
    var s := Run(inputs, run);
    forall d, c: nat | d in s.deliveries && d.origin.None? && WaitsUnder(d.calls, c, d.id)
      ensures d.command.stream.Some?
    {
      assert WellRouted(inputs, d);
    }
    forall d | d in s.deliveries && d.origin.None? && d.command.stream.Some?
      ensures exists c: nat :: WaitsUnder(d.calls, c, d.id)
    {
      assert WellRouted(inputs, d) && WaitsUnder(d.calls, d.command.stream.value, d.id);
    }
  }

  /** Ids say nothing of the node: another node's entry can reach the stream of a call here. */
  lemma ForeignEntryReachesStream() returns (run: seq<Action>)
    ensures Run([[]], run).deliveries == [Delivery(None, 1, [Added(1)], Command([], Some(0)))]
  {
    var entry := Entry([], 1);
    var bytes := OneByteID(entry);
    var s;
    run, s := [], Init(1);
    hide EncodeEntry, CommandOf, Run;
    run, s := Take(run, s, Add(0));
    run, s := Take(run, s, Foreign(bytes));
    run, s := Take(run, s, Commit(0));
    assert s == State(1, map[1 := 0], [Added(1)], [Proposal(bytes, None)], [Proposal(bytes, None)], 0, []);
    CommandIs(bytes, s.streams, entry);
    run, s := Take(run, s, Apply);
  }

  /** A call's entry that is applied twice, while it waits and afterwards: its own stream, then nobody's. */
  lemma LocalEntryTwice() returns (run: seq<Action>)
    ensures Run([[]], run).deliveries ==
              [Delivery(Some(0), 1, [Proposed(1)], Command([], Some(0))),
               Delivery(Some(0), 1, [Removed(1)], Command([], None))]
    ensures Run([[]], run).streams == map[]
  {
    var entry := Entry([], 1);
    var bytes := OneByteID(entry);
    var p := Proposal(bytes, Some(0));
    var s;
    run, s := [], Init(1);
    hide DecodeEntry, EncodeEntry, CommandOf, Run;
    run, s := Take(run, s, Add(0));
    assert s == State(1, map[1 := 0], [Added(1)], [], [], 0, []);
    run, s := Take(run, s, Propose(0));
    run, s := Take(run, s, Commit(0));
    run, s := Take(run, s, Commit(0));
    assert s == State(1, map[1 := 0], [Proposed(1)], [p], [p, p], 0, []);
    CommandIs(bytes, s.streams, entry);
    run, s := Take(run, s, Apply);
    var first := Delivery(Some(0), 1, [Proposed(1)], Command([], Some(0)));
    assert s == State(1, map[1 := 0], [Proposed(1)], [p], [p, p], 1, [first]);
    run, s := Take(run, s, Remove(0));
    assert s == State(1, map[], [Removed(1)], [p], [p, p], 1, [first]);
    CommandIs(bytes, s.streams, entry);
    run, s := Take(run, s, Apply);
  }

  lemma OneByteID(entry: Entry) returns (bytes: Slice)
    requires entry == Entry([], 1)
    ensures DecodeEntry(NO_ENTRY, bytes) == Ok(entry) && bytes == EncodeEntry(entry)
  {
    EntrySizeExact(entry);
    assert |EncodeEntry(entry)| == 2 by { SovOne(); }
    bytes := EncodeEntry(entry);
    EntryRoundTrip(entry);
  }

  lemma Take(run: seq<Action>, s: State, a: Action) returns (longer: seq<Action>, s': State)
    requires s == Run([[]], run) && Next(s, [[]], a).Some?
    ensures longer == run + [a] && s' == Next(s, [[]], a).value == Run([[]], longer)
  {
    longer := run + [a];
    assert longer[..|run|] == run;
    s' := Next(s, [[]], a).value;
  }

  lemma CommandIs(bytes: Slice, streams: map<uint64, nat>, e: Entry)
    requires DecodeEntry(NO_ENTRY, bytes) == Ok(e)
    ensures CommandOf(bytes, streams) == Ok(Command(e.value, Lookup(streams, e.streamID)))
  {}
}
