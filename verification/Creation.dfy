/** The creation of a cluster, its groups and their members by reconcilers that look up and create in separate steps. */
module Creation {
  import opened Options
  import opened Placement

  // ---------------------------------------------------------------------------
  // What there is to create
  // ---------------------------------------------------------------------------

  /** The object of a kind by its name: a group's name ends in its id, a member's in its group's and its own. */
  datatype Key = ClusterKey | GroupKey(g: nat) | MemberKey(g: nat, id: nat)

  datatype Object = Cluster | Group(groupID: nat) | Member(pod: nat, readOnly: bool)

  /** A pass of one of the three reconcilers. */
  datatype Job = ProtocolJob | ClusterJob | GroupJob(g: nat)

  function GroupKeys(count: nat): (keys: seq<Key>)
    ensures |keys| == count && forall i :: 0 <= i < count ==> keys[i] == GroupKey(i + 1)
  {
    seq<Key>(count, (i: nat) => GroupKey(i + 1))
  }

  function MemberKeys(g: nat, count: nat): (keys: seq<Key>)
    ensures |keys| == count && forall i :: 0 <= i < count ==> keys[i] == MemberKey(g, i)
  {
    seq<Key>(count, (i: nat) => MemberKey(g, i))
  }

  /** The objects a reconciler looks for, in order: the voting members first, then the read-only ones. */
  function Children(spec: Spec, job: Job): (keys: seq<Key>)
    requires NonNegative(spec)
  {
    match job
    case ProtocolJob => [ClusterKey]
    case ClusterJob => GroupKeys(NumPartitions(spec))
    case GroupJob(g) => MemberKeys(g, NumSlots(spec))
  }

  /** What a reconciler creates under a name. */
  function Content(spec: Spec, key: Key): Object
    requires NonNegative(spec)
  {
    match key
    case ClusterKey => Cluster
    case GroupKey(g) => Group(g)
    case MemberKey(g, id) => Member(MemberPod(spec, g, id), id >= NumMembers(spec))
  }

  predicate Desired(spec: Spec, key: Key)
    requires NonNegative(spec)
  {
    match key
    case ClusterKey => true
    case GroupKey(g) => 1 <= g <= NumPartitions(spec)
    case MemberKey(g, id) => 1 <= g <= NumPartitions(spec) && id < NumSlots(spec)
  }

  /** The owner a reconciler has read before it looks for the children. */
  predicate Startable(store: map<Key, Object>, job: Job) {
    match job
    case ProtocolJob => true
    case ClusterJob => ClusterKey in store
    case GroupJob(g) => GroupKey(g) in store
  }

  // ---------------------------------------------------------------------------
  // The loops, undisturbed
  // ---------------------------------------------------------------------------

  /** The first key that is missing. */
  function FirstMissing(store: map<Key, Object>, keys: seq<Key>): (i: nat)
    ensures i <= |keys| && (i < |keys| ==> keys[i] !in store)
    ensures forall k :: 0 <= k < i ==> keys[k] in store
    decreases |keys|
  {
    if keys == [] || keys[0] !in store then 0 else 1 + FirstMissing(store, keys[1..])
  }

  function CreateFirst(spec: Spec, store: map<Key, Object>, keys: seq<Key>): map<Key, Object>
    requires NonNegative(spec)
  {
    var i := FirstMissing(store, keys);
    if i < |keys| then store[keys[i] := Content(spec, keys[i])] else store
  }

  /** Member id is the first of its group that was missing, and has been created: on pod (M g + id) mod N, and
      read-only exactly when its id is M or more. */
  predicate IsNewMember(spec: Spec, before: map<Key, Object>, g: nat, id: nat, after: map<Key, Object>)
    requires NonNegative(spec)
  {
    && MemberKey(g, id) !in before
    && (forall k :: 0 <= k < id ==> MemberKey(g, k) in before)
    && after == before[MemberKey(g, id) :=
                 Member((NumMembers(spec) * g + id) % NumReplicas(spec), id >= NumMembers(spec))]
  }

  class Store {
    const spec: Spec
    var objects: map<Key, Object>

    constructor (spec: Spec)
      ensures this.spec == spec && objects == map[]
    {
      this.spec := spec;
      objects := map[];
    }

    /** reconcileCluster of the protocol. */
    method ReconcileCluster() returns (created: bool)
      requires NonNegative(spec)
      modifies this
      ensures objects == CreateFirst(spec, old(objects), Children(spec, ProtocolJob))
      ensures created <==> objects != old(objects)
      ensures created <==> ClusterKey !in old(objects)
      ensures created ==> objects == old(objects)[ClusterKey := Cluster]
    {
      if ClusterKey in objects { return false; }
      objects := objects[ClusterKey := Cluster];
      return true;
    }

    /** reconcileGroups of the cluster: one group at most is created in a pass. */
    method ReconcileGroups() returns (created: bool)
      requires NonNegative(spec)
      modifies this
      ensures objects == CreateFirst(spec, old(objects), Children(spec, ClusterJob))
      ensures created <==> objects != old(objects)
      ensures !created ==> forall k :: 1 <= k <= NumPartitions(spec) ==> GroupKey(k) in objects
      ensures created ==> exists g: nat ::
                && 1 <= g <= NumPartitions(spec) && GroupKey(g) !in old(objects)
                && (forall k :: 1 <= k < g ==> GroupKey(k) in old(objects))
                && objects == old(objects)[GroupKey(g) := Group(g)]
    {
      for i := 1 to NumPartitions(spec) + 1
        invariant objects == old(objects)
        invariant forall g :: 1 <= g < i ==> GroupKey(g) in objects
      {
        if GroupKey(i) !in objects {
          var f := FirstMissing(objects, Children(spec, ClusterJob));
          assert Children(spec, ClusterJob)[i - 1] == GroupKey(i);
          assert f == i - 1;
          objects := objects[GroupKey(i) := Group(i)];
          return true;
        }
      }
      return false;
    }

    /** reconcileMembers of a group: first the voting members, then the read-only ones, one a pass. */
    method ReconcileMembers(g: nat) returns (created: bool)
      requires NonNegative(spec)
      modifies this
      ensures objects == CreateFirst(spec, old(objects), Children(spec, GroupJob(g)))
      ensures created <==> objects != old(objects)
      ensures !created ==> forall k :: 0 <= k < NumMembers(spec) + NumROMembers(spec) ==> MemberKey(g, k) in objects
      ensures created ==> exists id: nat :: id < NumMembers(spec) + NumROMembers(spec)
                                            && IsNewMember(spec, old(objects), g, id, objects)
    {
      for i := 0 to NumMembers(spec)
        invariant objects == old(objects)
        invariant forall k :: 0 <= k < i ==> MemberKey(g, k) in objects
      {
        if MemberKey(g, i) !in objects {
          CreateMember(g, i, false);
          return true;
        }
      }
      for i := 0 to NumROMembers(spec)
        invariant objects == old(objects)
        invariant forall k :: 0 <= k < NumMembers(spec) + i ==> MemberKey(g, k) in objects
      {
        if MemberKey(g, NumMembers(spec) + i) !in objects {
          CreateMember(g, NumMembers(spec) + i, true);
          return true;
        }
      }
      return false;
    }

    method CreateMember(g: nat, memberID: nat, readOnly: bool)
      requires NonNegative(spec) && memberID < NumSlots(spec) && (readOnly <==> memberID >= NumMembers(spec))
      requires MemberKey(g, memberID) !in objects && forall k :: 0 <= k < memberID ==> MemberKey(g, k) in objects
      modifies this
      ensures objects == CreateFirst(spec, old(objects), Children(spec, GroupJob(g))) != old(objects)
      ensures IsNewMember(spec, old(objects), g, memberID, objects)
    {
      var f := FirstMissing(objects, Children(spec, GroupJob(g)));
      assert Children(spec, GroupJob(g))[memberID] == MemberKey(g, memberID);
      assert f == memberID;
      objects := objects[MemberKey(g, memberID) := Member(MemberPod(spec, g, memberID), readOnly)];
    }
  }

  // ---------------------------------------------------------------------------
  // The loops, interleaved
  // ---------------------------------------------------------------------------

  /** A worker: idle, at a child of its job, or about to create one. */
  datatype Worker = Idle | Looking(job: Job, at: nat) | Creating(key: Key)

  /** The API server's objects, the names created so far, and the workers. */
  datatype State = State(store: map<Key, Object>, created: seq<Key>, workers: seq<Worker>)

  /** Start a pass; look up the next child, which a cache that lags may not show yet; create, which fails when
      the name is taken; give up, for a lookup or a create may fail for any other reason. */
  datatype Action = Start(w: nat, job: Job) | Look(w: nat, shown: bool) | Create(w: nat) | GiveUp(w: nat)

  function Init(workers: nat): State { State(map[], [], seq(workers, i => Idle)) }

  function Next(spec: Spec, s: State, a: Action): Option<State>
    requires NonNegative(spec)
  {
    if a.w >= |s.workers| then None else
    match (a, s.workers[a.w])
    case (Start(w, job), Idle) =>
      if Startable(s.store, job) then Some(s.(workers := s.workers[w := Looking(job, 0)])) else None
    case (Look(w, shown), Looking(job, at)) =>
      var keys := Children(spec, job);
      if at >= |keys| then Some(s.(workers := s.workers[w := Idle]))
      else if !shown then Some(s.(workers := s.workers[w := Creating(keys[at])]))
      else if keys[at] in s.store then Some(s.(workers := s.workers[w := Looking(job, at + 1)]))
      else None
    case (Create(w), Creating(key)) =>
      var idle := s.(workers := s.workers[w := Idle]);
      if key in s.store then Some(idle)
      else Some(idle.(store := s.store[key := Content(spec, key)], created := s.created + [key]))
    case (GiveUp(w), Looking(_, _)) => Some(s.(workers := s.workers[w := Idle]))
    case (GiveUp(w), Creating(_)) => Some(s.(workers := s.workers[w := Idle]))
    case _ => None
  }

  function Run(spec: Spec, workers: nat, run: seq<Action>): State
    requires NonNegative(spec)
    decreases |run|
  {
    if run == [] then Init(workers)
    else
      var n := |run| - 1;
      var s := Run(spec, workers, run[..n]);
      match Next(spec, s, run[n]) case None => s case Some(s') => s'
  }

  /** Everything created is desired, as it should be, and was created once. */
  ghost predicate Inv(spec: Spec, s: State)
    requires NonNegative(spec)
  {
    && (forall key :: key in s.store ==> Desired(spec, key) && s.store[key] == Content(spec, key))
    && (forall key :: key in s.store <==> key in s.created)
    && (forall i, j :: 0 <= i < j < |s.created| ==> s.created[i] != s.created[j])
    && (forall w :: 0 <= w < |s.workers| ==>
          match s.workers[w]
          case Idle => true
          case Looking(job, _) => Startable(s.store, job)
          case Creating(key) => Desired(spec, key))
  }

  lemma ChildrenDesired(spec: Spec, store: map<Key, Object>, job: Job)
    requires NonNegative(spec) && Startable(store, job) && forall key :: key in store ==> Desired(spec, key)
    ensures forall key :: key in Children(spec, job) ==> Desired(spec, key)
  {}

  lemma StepKeepsInv(spec: Spec, s: State, a: Action)
    requires NonNegative(spec) && Inv(spec, s) && Next(spec, s, a).Some?
    ensures Inv(spec, Next(spec, s, a).value)
  {
    hide Children, Desired, Content;
    if a.Create? {
      CreateKeepsInv(spec, s, a.w);
    } else {
      var x := s.workers[a.w];
      if x.Looking? { ChildrenDesired(spec, s.store, x.job); }
    }
  }

  lemma CreateKeepsInv(spec: Spec, s: State, w: nat)
    requires NonNegative(spec) && Inv(spec, s) && Next(spec, s, Create(w)).Some?
    ensures Inv(spec, Next(spec, s, Create(w)).value)
  {
    hide Children, Desired, Content;
  }

  lemma {:induction false} RunKeepsInv(spec: Spec, workers: nat, run: seq<Action>)
    requires NonNegative(spec)
    ensures Inv(spec, Run(spec, workers, run))
    decreases |run|
  {
    hide Next;
    if run != [] {
      var n := |run| - 1;
      RunKeepsInv(spec, workers, run[..n]);
      var s := Run(spec, workers, run[..n]);
      if Next(spec, s, run[n]).Some? { StepKeepsInv(spec, s, run[n]); }
    }
  }

  // ---------------------------------------------------------------------------
  // Counting
  // ---------------------------------------------------------------------------

  function AllMembers(spec: Spec, groups: nat): (keys: seq<Key>)
    requires NonNegative(spec)
  {
    if groups == 0 then [] else AllMembers(spec, groups - 1) + MemberKeys(groups, NumSlots(spec))
  }

  function AllKeys(spec: Spec): seq<Key>
    requires NonNegative(spec)
  {
    [ClusterKey] + GroupKeys(NumPartitions(spec)) + AllMembers(spec, NumPartitions(spec))
  }

  lemma {:induction false} AllMembersAre(spec: Spec, groups: nat)
    requires NonNegative(spec)
    ensures groups * NumSlots(spec) >= 0 && |AllMembers(spec, groups)| == groups * NumSlots(spec)
    ensures forall g: nat, id: nat :: 1 <= g <= groups && id < NumSlots(spec) ==>
              MemberKey(g, id) in AllMembers(spec, groups)
  {
    if groups > 0 {
      AllMembersAre(spec, groups - 1);
      assert groups * NumSlots(spec) == (groups - 1) * NumSlots(spec) + NumSlots(spec);
      forall g: nat, id: nat | 1 <= g <= groups && id < NumSlots(spec)
        ensures MemberKey(g, id) in AllMembers(spec, groups)
      {
        if g == groups { assert MemberKeys(groups, NumSlots(spec))[id] == MemberKey(g, id); }
      }
    }
  }

  /** A list without repetition is no longer than a list that has all of its elements. */
  lemma {:induction false} NoLonger(a: seq<Key>, b: seq<Key>)
    requires forall i, j :: 0 <= i < j < |a| ==> a[i] != a[j]
    requires forall key :: key in a ==> key in b
    ensures |a| <= |b|
    decreases |a|
  {
    if a != [] {
      assert a[0] in a && a[0] in b;
      var k :| 0 <= k < |b| && b[k] == a[0];
      var (rest, without) := (a[1..], b[..k] + b[k + 1..]);
      forall key | key in rest
        ensures key in without
      {
        var i :| 0 <= i < |rest| && rest[i] == key;
        assert a[i + 1] == key && key in b;
        var m :| 0 <= m < |b| && b[m] == key;
        if m < k { assert without[m] == key; } else { assert without[m - 1] == key; }
      }
      NoLonger(rest, without);
    }
  }

  /** Nothing is left to do: every reconciler that can start finds all its children. */
  ghost predicate Quiescent(spec: Spec, store: map<Key, Object>)
    requires NonNegative(spec)
  {
    forall job, key :: Startable(store, job) && key in Children(spec, job) ==> key in store
  }

  /** Nothing is left to do exactly when everything desired is there. */
  lemma QuiescentIsComplete(spec: Spec, store: map<Key, Object>)
    requires NonNegative(spec) && forall key :: key in store ==> Desired(spec, key)
    ensures Quiescent(spec, store) <==> forall key :: Desired(spec, key) ==> key in store
  {
    if Quiescent(spec, store) {
      assert ClusterKey in Children(spec, ProtocolJob) && Startable(store, ProtocolJob);
      forall key | Desired(spec, key)
        ensures key in store
      {
        if !key.ClusterKey? {
          assert Children(spec, ClusterJob)[key.g - 1] == GroupKey(key.g);
          assert Startable(store, ClusterJob) && GroupKey(key.g) in Children(spec, ClusterJob);
        }
        if key.MemberKey? {
          assert Children(spec, GroupJob(key.g))[key.id] == key;
          assert Startable(store, GroupJob(key.g));
        }
      }
    }
    if forall key :: Desired(spec, key) ==> key in store {
      forall job, key | Startable(store, job) && key in Children(spec, job)
        ensures key in store
      {
        ChildrenDesired(spec, store, job);
      }
    }
  }

  /** Over every interleaving of any number of workers: at most 1 + P + P(M + R) creates succeed, no name is
      created twice, nothing but what is desired is created, and there is nothing left to do exactly when
      everything desired is there, as it should be. */
  lemma CreationConverges(spec: Spec, workers: nat, run: seq<Action>)
    requires NonNegative(spec)
    ensures var s := Run(spec, workers, run);
            && |s.created| <= 1 + NumPartitions(spec) + NumPartitions(spec) * NumSlots(spec)
            && (forall i, j :: 0 <= i < j < |s.created| ==> s.created[i] != s.created[j])
            && (forall key :: key in s.store ==> Desired(spec, key) && s.store[key] == Content(spec, key))
            && (Quiescent(spec, s.store) <==> forall key :: Desired(spec, key) ==> key in s.store)
  {
    hide Run, Next;
    RunKeepsInv(spec, workers, run);
    var s := Run(spec, workers, run);
    QuiescentIsComplete(spec, s.store);
    AllMembersAre(spec, NumPartitions(spec));
    forall key | key in s.created
      ensures key in AllKeys(spec)
    {
      assert Desired(spec, key);
      match key {
        case ClusterKey => assert AllKeys(spec)[0] == key;
        case GroupKey(g) => assert GroupKeys(NumPartitions(spec))[g - 1] == key;
        case MemberKey(g, id) => assert key in AllMembers(spec, NumPartitions(spec));
      }
    }
    NoLonger(s.created, AllKeys(spec));
  }

  // ---------------------------------------------------------------------------
  // What a store with nothing left to do means for the workers
  // ---------------------------------------------------------------------------

  /** Where nothing is left to do, no step of any worker changes the store. */
  lemma QuiescentStays(spec: Spec, s: State, a: Action)
    requires NonNegative(spec) && Inv(spec, s) && Quiescent(spec, s.store) && Next(spec, s, a).Some?
    ensures Next(spec, s, a).value.store == s.store
  {
    hide Children, Content, Desired, Quiescent;
    QuiescentIsComplete(spec, s.store);
  }

  /** The run from a state on; Run is this from the initial state. */
  function Continue(spec: Spec, s: State, more: seq<Action>): State
    requires NonNegative(spec)
    decreases |more|
  {
    if more == [] then s
    else
      var n := |more| - 1;
      var s1 := Continue(spec, s, more[..n]);
      match Next(spec, s1, more[n]) case None => s1 case Some(s2) => s2
  }

  lemma {:induction false} RunContinues(spec: Spec, workers: nat, run: seq<Action>, more: seq<Action>)
    requires NonNegative(spec)
    ensures Run(spec, workers, run + more) == Continue(spec, Run(spec, workers, run), more)
    decreases |more|
  {
    hide Next;
    if more == [] {
      assert run + more == run;
    } else {
      var n := |more| - 1;
      RunContinues(spec, workers, run, more[..n]);
      assert (run + more)[..|run| + n] == run + more[..n];
    }
  }

  lemma {:induction false} QuiescentForGood(spec: Spec, s: State, more: seq<Action>)
    requires NonNegative(spec) && Inv(spec, s) && Quiescent(spec, s.store)
    ensures Inv(spec, Continue(spec, s, more)) && Continue(spec, s, more).store == s.store
    decreases |more|
  {
    hide Next, Inv, Quiescent;
    if more != [] {
      var n := |more| - 1;
      QuiescentForGood(spec, s, more[..n]);
      var s1 := Continue(spec, s, more[..n]);
      if Next(spec, s1, more[n]).Some? {
        QuiescentStays(spec, s1, more[n]);
        StepKeepsInv(spec, s1, more[n]);
      }
    }
  }

  /** A worker that looks at its children one after the other comes to the first that is missing. */
  lemma {:induction false} Walk(spec: Spec, s: State, w: nat, job: Job, at: nat) returns (more: seq<Action>)
    requires NonNegative(spec) && w < |s.workers| && s.workers[w] == Looking(job, 0)
    requires at <= |Children(spec, job)| && forall k :: 0 <= k < at ==> Children(spec, job)[k] in s.store
    ensures Continue(spec, s, more) == s.(workers := s.workers[w := Looking(job, at)])
    decreases at
  {
    more := [];
    if at > 0 {
      more := Walk(spec, s, w, job, at - 1);
      Extend(spec, s, more, Look(w, true));
      more := more + [Look(w, true)];
    } else {
      assert s.workers[w := Looking(job, 0)] == s.workers;
    }
  }

  lemma Extend(spec: Spec, s: State, more: seq<Action>, a: Action)
    requires NonNegative(spec) && Next(spec, Continue(spec, s, more), a).Some?
    ensures Continue(spec, s, more + [a]) == Next(spec, Continue(spec, s, more), a).value
  {
    assert (more + [a])[..|more|] == more;
  }

  /** A pass of an idle worker, undisturbed and with lookups that are up to date, is the pass of the reconciler: the
      first missing child is created. */
  lemma PassCreates(spec: Spec, s: State, w: nat, job: Job) returns (more: seq<Action>)
    requires NonNegative(spec) && w < |s.workers| && s.workers[w].Idle? && Startable(s.store, job)
    ensures var s' := Continue(spec, s, more);
            && s'.store == CreateFirst(spec, s.store, Children(spec, job))
            && s'.workers == s.workers
            && |s'.created| == |s.created| + if s'.store == s.store then 0 else 1
  {
    hide Children, Content, Continue;
    var keys := Children(spec, job);
    var at := FirstMissing(s.store, keys);
    var s1 := Next(spec, s, Start(w, job)).value;
    var walk := Walk(spec, s1, w, job, at);
    var s2 := Continue(spec, s1, walk);
    var steps;
    if at == |keys| {
      Extend(spec, s1, walk, Look(w, true));
      steps := walk + [Look(w, true)];
    } else {
      Extend(spec, s1, walk, Look(w, false));
      Extend(spec, s1, walk + [Look(w, false)], Create(w));
      steps := walk + [Look(w, false)] + [Create(w)];
    }
    more := [Start(w, job)] + steps;
    Prepend(spec, s, Start(w, job), steps);
  }

  /** Where something is left to do, an idle worker can create it. */
  lemma IdleWorkerCreates(spec: Spec, s: State, w: nat) returns (more: seq<Action>)
    requires NonNegative(spec) && w < |s.workers| && s.workers[w].Idle? && !Quiescent(spec, s.store)
    ensures |Continue(spec, s, more).created| == |s.created| + 1
    ensures exists key :: key !in s.store && Continue(spec, s, more).store == s.store[key := Content(spec, key)]
  {
    hide Children, Content, Continue;
    var job, key :| Startable(s.store, job) && key in Children(spec, job) && key !in s.store;
    more := PassCreates(spec, s, w, job);
  }

  lemma {:induction false} Prepend(spec: Spec, s: State, a: Action, more: seq<Action>)
    requires NonNegative(spec) && Next(spec, s, a).Some?
    ensures Continue(spec, s, [a] + more) == Continue(spec, Next(spec, s, a).value, more)
    decreases |more|
  {
    hide Next;
    if more == [] {
      assert ([a] + more)[..0] == [];
    } else {
      var n := |more| - 1;
      Prepend(spec, s, a, more[..n]);
      assert ([a] + more)[..1 + n] == [a] + more[..n];
    }
  }

  /** A run has come to its end, with no more creates whatever the workers do, exactly when everything desired
      is there, provided that some worker is idle. */
  lemma EndIsComplete(spec: Spec, workers: nat, run: seq<Action>, w: nat)
    requires NonNegative(spec)
    requires w < |Run(spec, workers, run).workers| && Run(spec, workers, run).workers[w].Idle?
    ensures (forall more :: Run(spec, workers, run + more).store == Run(spec, workers, run).store) <==>
            forall key :: Desired(spec, key) ==> key in Run(spec, workers, run).store
  {
    hide Run, Continue, Next, Desired, Quiescent;
    var s := Run(spec, workers, run);
    RunKeepsInv(spec, workers, run);
    QuiescentIsComplete(spec, s.store);
    if Quiescent(spec, s.store) {
      forall more
        ensures Run(spec, workers, run + more).store == s.store
      {
        RunContinues(spec, workers, run, more);
        QuiescentForGood(spec, s, more);
      }
    } else {
      var more := IdleWorkerCreates(spec, s, w);
      RunContinues(spec, workers, run, more);
      RunKeepsInv(spec, workers, run + more);
      var s' := Run(spec, workers, run + more);
      if s'.store == s.store { SameStoreSameCount(spec, s, s'); }
    }
  }

  /** The store and the names created grow together. */
  lemma SameStoreSameCount(spec: Spec, s: State, s': State)
    requires NonNegative(spec) && Inv(spec, s) && Inv(spec, s') && s.store == s'.store
    ensures |s.created| == |s'.created|
  {
    NoLonger(s.created, s'.created);
    NoLonger(s'.created, s.created);
  }

  // ---------------------------------------------------------------------------
  // What the store holds
  // ---------------------------------------------------------------------------

  /** Over every run: a member stored is one of the M + R of a group of the P, on pod (M g + id) mod N, and read-only
      exactly when its id is M or more; a group stored is one of the P and has its id. */
  lemma StoreHolds(spec: Spec, workers: nat, run: seq<Action>, g: nat, id: nat)
    requires NonNegative(spec)
    ensures var (m, r, n) := (NumMembers(spec), NumROMembers(spec), NumReplicas(spec));
            var store := Run(spec, workers, run).store;
            && (MemberKey(g, id) in store ==>
                  1 <= g <= NumPartitions(spec) && id < m + r
                  && store[MemberKey(g, id)] == Member((m * g + id) % n, id >= m))
            && (GroupKey(g) in store ==> 1 <= g <= NumPartitions(spec) && store[GroupKey(g)] == Group(g))
            && (ClusterKey in store ==> store[ClusterKey] == Cluster)
  {
    hide Run, Next;
    RunKeepsInv(spec, workers, run);
  }

  /** The members of a group that are stored as voting, or as read-only, among those with ids below count. */
  function Stored(store: map<Key, Object>, g: nat, readOnly: bool, count: nat): set<nat> {
    set id: nat | id < count && MemberKey(g, id) in store
                  && store[MemberKey(g, id)].Member? && store[MemberKey(g, id)].readOnly == readOnly
  }

  function Range(a: nat, b: nat): (ids: set<nat>)
    requires a <= b
    ensures forall id: nat :: id in ids <==> a <= id < b
  {
    if a == b then {} else Range(a, b - 1) + {b - 1}
  }

  lemma {:induction false} RangeSize(a: nat, b: nat)
    requires a <= b
    ensures |Range(a, b)| == b - a
    decreases b
  {
    if a < b { RangeSize(a, b - 1); }
  }

  /** When a run has come to its end, there are the cluster, the groups 1 to P, and of each group exactly M voting and R
      read-only members. */
  lemma EndHolds(spec: Spec, workers: nat, run: seq<Action>, w: nat, g: nat)
    requires NonNegative(spec) && 1 <= g <= NumPartitions(spec)
    requires w < |Run(spec, workers, run).workers| && Run(spec, workers, run).workers[w].Idle?
    requires forall more :: Run(spec, workers, run + more).store == Run(spec, workers, run).store
    ensures var (store, m, r) := (Run(spec, workers, run).store, NumMembers(spec), NumROMembers(spec));
            && ClusterKey in store && GroupKey(g) in store
            && (forall id: nat :: id < m + r <==> MemberKey(g, id) in store)
            && |Stored(store, g, false, m + r)| == m && |Stored(store, g, true, m + r)| == r
  {
    hide Run, Next, NonNegative;
    EndIsComplete(spec, workers, run, w);
    var (store, m, r) := (Run(spec, workers, run).store, NumMembers(spec), NumROMembers(spec));
    AllDesired(spec, store, g);
    forall id: nat
      ensures MemberKey(g, id) in store ==>
                id < m + r && store[MemberKey(g, id)].Member? && store[MemberKey(g, id)].readOnly == (id >= m)
    {
      StoreHolds(spec, workers, run, g, id);
    }
    NotNegative(spec);
    hide Stored;
    StoredCounts(store, g, m, r);
  }

  lemma StoredCounts(store: map<Key, Object>, g: nat, m: nat, r: nat)
    requires forall id: nat :: id < m + r ==> MemberKey(g, id) in store
    requires forall id: nat :: MemberKey(g, id) in store ==>
               store[MemberKey(g, id)].Member? && store[MemberKey(g, id)].readOnly == (id >= m)
    ensures |Stored(store, g, false, m + r)| == m && |Stored(store, g, true, m + r)| == r
  {
    hide Range;
    assert Stored(store, g, false, m + r) == Range(0, m);
    assert Stored(store, g, true, m + r) == Range(m, m + r);
    RangeSize(0, m);
    RangeSize(m, m + r);
  }

  lemma NotNegative(spec: Spec)
    requires NonNegative(spec)
    ensures NumMembers(spec) >= 0 && NumROMembers(spec) >= 0
  {}

  lemma AllDesired(spec: Spec, store: map<Key, Object>, g: nat)
    requires NonNegative(spec) && 1 <= g <= NumPartitions(spec)
    requires forall key :: Desired(spec, key) ==> key in store
    ensures ClusterKey in store && GroupKey(g) in store
    ensures forall id: nat :: id < NumMembers(spec) + NumROMembers(spec) ==> MemberKey(g, id) in store
  {
    assert Desired(spec, ClusterKey) && Desired(spec, GroupKey(g));
    forall id: nat | id < NumMembers(spec) + NumROMembers(spec)
      ensures MemberKey(g, id) in store
    {
      assert Desired(spec, MemberKey(g, id));
    }
  }
}
