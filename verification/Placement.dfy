/** Where the slots of every partition land on the pods: cluster.go, protocol.go and group.go of the controller. */
module Placement {
  import opened Options

  type int32 = x: int | -0x8000_0000 <= x < 0x8000_0000

  /** The numbers of a MultiRaftClusterSpec. */
  datatype Spec = Spec(replicas: int32, groups: int32, quorumSize: Option<int32>, readReplicas: Option<int32>)

  /** No field is negative: a negative length is a panic in every loop below. */
  predicate NonNegative(spec: Spec) {
    && spec.replicas >= 0
    && spec.groups >= 0
    && (spec.quorumSize.Some? ==> spec.quorumSize.value >= 0)
    && (spec.readReplicas.Some? ==> spec.readReplicas.value >= 0)
  }

  function NumPartitions(spec: Spec): int { if spec.groups == 0 then 1 else spec.groups }
  function NumReplicas(spec: Spec): int { if spec.replicas == 0 then 1 else spec.replicas }
  function NumMembers(spec: Spec): int { if spec.quorumSize.None? then NumReplicas(spec) else spec.quorumSize.value }
  function NumROMembers(spec: Spec): int { if spec.readReplicas.None? then 0 else spec.readReplicas.value }
  function NumSlots(spec: Spec): int { NumMembers(spec) + NumROMembers(spec) }

  /** The numbers as they are when a specification leaves them out, and when it does not. */
  lemma Defaults(spec: Spec)
    ensures spec.groups == 0 ==> NumPartitions(spec) == 1
    ensures spec.groups != 0 ==> NumPartitions(spec) == spec.groups
    ensures spec.replicas == 0 ==> NumReplicas(spec) == 1
    ensures spec.replicas != 0 ==> NumReplicas(spec) == spec.replicas
    ensures spec.quorumSize == None ==> NumMembers(spec) == NumReplicas(spec)
    ensures spec.quorumSize != None ==> spec.quorumSize == Some(NumMembers(spec))
    ensures spec.readReplicas == None ==> NumROMembers(spec) == 0
    ensures spec.readReplicas != None ==> spec.readReplicas == Some(NumROMembers(spec))
  {}

  /** The pod of slot j of a partition; the read-only slots follow the voting ones. */
  function Slot(spec: Spec, partition: nat, j: nat): (pod: nat)
    requires NonNegative(spec)
    ensures pod < NumReplicas(spec)
  {
    (NumSlots(spec) * partition + j) % NumReplicas(spec)
  }

  /** The pods of `count` slots of a partition, from slot `first` on. */
  function Slots(spec: Spec, partition: nat, first: nat, count: nat): (pods: seq<nat>)
    requires NonNegative(spec)
    ensures |pods| == count
    ensures forall j :: 0 <= j < count ==> pods[j] == Slot(spec, partition, first + j)
  {
    seq<nat>(count, (j: nat) => Slot(spec, partition, first + j))
  }

  function Voting(spec: Spec, partition: nat): (pods: seq<nat>)
    requires NonNegative(spec)
  {
    Slots(spec, partition, 0, NumMembers(spec))
  }

  function ReadOnly(spec: Spec, partition: nat): (pods: seq<nat>)
    requires NonNegative(spec)
  {
    Slots(spec, partition, NumMembers(spec), NumROMembers(spec))
  }

  // ---------------------------------------------------------------------------
  // Remainders
  // ---------------------------------------------------------------------------

  lemma MulMonotone(x: int, y: int, n: nat)
    requires x <= y
    ensures x * n <= y * n
  {
    assert (y - x) * n >= 0;
  }

  lemma Quotient(a: nat, n: nat)
    requires n > 0
    ensures a == a / n * n + a % n
  {}

  /** A remainder is the one number in range that differs by a multiple. */
  lemma RemainderUnique(a: nat, q: nat, r: nat, n: nat)
    requires n > 0 && a == q * n + r && r < n
    ensures a % n == r && a / n == q
  {
    var (d, m) := (a / n, a % n);
    Quotient(a, n);
    assert (q + 1) * n == q * n + n && (d + 1) * n == d * n + n;
    if d > q {
      MulMonotone(q + 1, d, n);
    } else if d < q {
      MulMonotone(d + 1, q, n);
    }
  }

  lemma SumRemainder(qa: nat, ra: nat, qb: nat, rb: nat, n: nat)
    requires ra < n && rb < n
    ensures (qa * n + ra + (qb * n + rb)) % n == if ra + rb < n then ra + rb else ra + rb - n
  {
    var q := qa + qb;
    assert q * n == qa * n + qb * n && (q + 1) * n == q * n + n;
    if ra + rb < n {
      RemainderUnique(qa * n + ra + (qb * n + rb), q, ra + rb, n);
    } else {
      RemainderUnique(qa * n + ra + (qb * n + rb), q + 1, ra + rb - n, n);
    }
  }

  lemma RemainderOfSum(a: nat, b: nat, n: nat)
    requires n > 0
    ensures (a + b) % n == if a % n + b % n < n then a % n + b % n else a % n + b % n - n
  {
    Quotient(a, n);
    Quotient(b, n);
    SumRemainder(a / n, a % n, b / n, b % n, n);
  }

  /** Adding b keeps the remainder exactly when n divides b. */
  lemma ShiftKeepsRemainder(a: nat, b: nat, n: nat)
    requires n > 0
    ensures (a + b) % n == a % n <==> b % n == 0
  {
    RemainderOfSum(a, b, n);
  }

  /** Two numbers less than n apart have the same remainder only when they are the same. */
  lemma CloseRemaindersDiffer(a: nat, b: nat, n: nat)
    requires a < b < a + n
    ensures a % n != b % n
  {
    ShiftKeepsRemainder(a, b - a, n);
    RemainderUnique(b - a, 0, b - a, n);
  }

  // ---------------------------------------------------------------------------
  // Distinctness and coverage
  // ---------------------------------------------------------------------------

  predicate Distinct(pods: seq<nat>) {
    forall j, k :: 0 <= j < k < |pods| ==> pods[j] != pods[k]
  }

  /** All slots of a partition are on different pods exactly when there are enough pods. */
  lemma SlotsDistinct(spec: Spec, partition: nat)
    requires NonNegative(spec)
    ensures Distinct(Voting(spec, partition) + ReadOnly(spec, partition)) <==> NumSlots(spec) <= NumReplicas(spec)
  {
    var (n, s) := (NumReplicas(spec), NumSlots(spec));
    var base := s * partition;
    var pods := Voting(spec, partition) + ReadOnly(spec, partition);
    assert forall j :: 0 <= j < s ==> pods[j] == (base + j) % n;
    if s <= n {
      forall j, k | 0 <= j < k < s
        ensures pods[j] != pods[k]
      {
        CloseRemaindersDiffer(base + j, base + k, n);
      }
    } else {
      ShiftKeepsRemainder(base, n, n);
      RemainderUnique(n, 1, 0, n);
      assert pods[0] == pods[n];
    }
  }

  // ---------------------------------------------------------------------------
  // The statuses, computed in loops that read the pods
  // ---------------------------------------------------------------------------

  /** One condition of a pod: whether its type is PodReady, and whether its status is True. */
  datatype Condition = Condition(isPodReady: bool, isTrue: bool)

  /** What the API server answers for a pod. */
  datatype PodLookup = Found(conditions: seq<Condition>) | NotFound | Failed

  /** What the API server answers for each pod, at a time. */
  type Pods = nat -> PodLookup

  /** The pods as they are when slot j of a partition is looked up: every lookup has a time of its own. */
  type Lookups = (nat, nat) -> Pods

  /** The first PodReady condition decides. */
  predicate FirstReady(conditions: seq<Condition>) {
    conditions != [] && if conditions[0].isPodReady then conditions[0].isTrue else FirstReady(conditions[1..])
  }

  predicate IsReady(pod: PodLookup) { pod.Found? && FirstReady(pod.conditions) }

  /** Condition k is the first of type PodReady. */
  predicate IsFirstPodReady(conditions: seq<Condition>, k: nat) {
    k < |conditions| && conditions[k].isPodReady && forall i :: 0 <= i < k ==> !conditions[i].isPodReady
  }

  /** A condition of another type in front does not count. */
  lemma OtherInFront(conditions: seq<Condition>, k: nat)
    requires conditions != [] && !conditions[0].isPodReady
    ensures IsFirstPodReady(conditions[1..], k) <==> IsFirstPodReady(conditions, k + 1)
    ensures !IsFirstPodReady(conditions, 0)
  {
    assert forall i :: 0 <= i < |conditions| - 1 ==> conditions[1..][i] == conditions[i + 1];
    if IsFirstPodReady(conditions, k + 1) {
      forall i | 0 <= i < k
        ensures !conditions[1..][i].isPodReady
      {
        assert !conditions[i + 1].isPodReady;
      }
    }
  }

  lemma OnlyFirst(conditions: seq<Condition>, k: nat)
    requires conditions != [] && conditions[0].isPodReady
    ensures IsFirstPodReady(conditions, k) <==> k == 0
  {}

  /** Such conditions are ready exactly when the first one of type PodReady is there and is true. */
  lemma {:induction false} FirstReadyIs(conditions: seq<Condition>)
    ensures FirstReady(conditions) <==> exists k: nat :: IsFirstPodReady(conditions, k) && conditions[k].isTrue
    decreases |conditions|
  {
    if conditions == [] {
    } else if conditions[0].isPodReady {
      OnlyFirst(conditions, 0);
      if k: nat :| IsFirstPodReady(conditions, k) && conditions[k].isTrue { OnlyFirst(conditions, k); }
    } else {
      var rest := conditions[1..];
      FirstReadyIs(rest);
      OtherInFront(conditions, 0);
      if k: nat :| IsFirstPodReady(rest, k) && rest[k].isTrue { OtherInFront(conditions, k); }
      if k: nat :| IsFirstPodReady(conditions, k) && conditions[k].isTrue { OtherInFront(conditions, k - 1); }
    }
  }

  /** A pod is ready exactly when it exists and its first PodReady condition is there and is true. */
  lemma ReadyIs(pod: PodLookup)
    ensures IsReady(pod) <==>
              pod.Found? && exists k: nat :: IsFirstPodReady(pod.conditions, k) && pod.conditions[k].isTrue
  {
    if pod.Found? { FirstReadyIs(pod.conditions); }
  }

  /** A pod that is starting. */
  lemma StartingPod()
    ensures !IsReady(Found([Condition(true, false)])) && !IsReady(Found([])) && !IsReady(NotFound)
    ensures IsReady(Found([Condition(false, false), Condition(true, true), Condition(true, false)]))
  {
    var cs := [Condition(false, false), Condition(true, true), Condition(true, false)];
    assert cs[1..][0] == Condition(true, true);
  }

  /** isReplicaReady; None is the error of a failed lookup. */
  method IsReplicaReady(pods: Pods, replica: nat) returns (r: Option<bool>)
    ensures r == if pods(replica).Failed? then None else Some(IsReady(pods(replica)))
  {
    match pods(replica) {
      case Failed => return None;
      case NotFound => return Some(false);
      case Found(conditions) =>
        for i := 0 to |conditions|
          invariant FirstReady(conditions) == FirstReady(conditions[i..])
        {
          if conditions[i].isPodReady { return Some(conditions[i].isTrue); }
        }
        return Some(false);
    }
  }

  datatype PartitionStatus = PartitionStatus(id: nat, replicas: seq<nat>, readReplicas: seq<nat>, ready: bool)

  /** What the lookup of a slot finds. */
  function SlotLookup(spec: Spec, at: Lookups, partition: nat, j: nat): PodLookup
    requires NonNegative(spec)
  {
    at(partition, j)(Slot(spec, partition, j))
  }

  /** The lookups of `count` slots of a partition, from slot `first` on. */
  predicate Readable(spec: Spec, at: Lookups, partition: nat, first: nat, count: nat)
    requires NonNegative(spec)
  {
    forall j: nat :: first <= j < first + count ==> !SlotLookup(spec, at, partition, j).Failed?
  }

  predicate AllReady(spec: Spec, at: Lookups, partition: nat, first: nat, count: nat)
    requires NonNegative(spec)
  {
    forall j: nat :: first <= j < first + count ==> IsReady(SlotLookup(spec, at, partition, j))
  }

  function PartitionOf(spec: Spec, at: Lookups, partition: nat): PartitionStatus
    requires NonNegative(spec)
  {
    PartitionStatus(partition, Voting(spec, partition), ReadOnly(spec, partition),
                    AllReady(spec, at, partition, 0, NumSlots(spec)))
  }

  /** The inner loops: the names of `count` slots from slot `first` on, looking up the pod of each. */
  method ReadSlots(spec: Spec, at: Lookups, partition: nat, first: nat, count: nat)
    returns (replicas: seq<nat>, ready: bool, failed: bool)
    requires NonNegative(spec)
    ensures failed <==> !Readable(spec, at, partition, first, count)
    ensures !failed ==> replicas == Slots(spec, partition, first, count)
    ensures !failed ==> (ready <==> AllReady(spec, at, partition, first, count))
  {
    hide Slot, FirstReady;
    ghost var want := Slots(spec, partition, first, count);
    var names := new nat[count];
    replicas, ready, failed := [], true, false;
    for j := 0 to count
      invariant names[..j] == want[..j]
      invariant Readable(spec, at, partition, first, j)
      invariant ready <==> AllReady(spec, at, partition, first, j)
    {
      var replicaID := Slot(spec, partition, first + j);
      assert want[..j + 1] == want[..j] + [replicaID];
      var replicaReady := IsReplicaReady(at(partition, first + j), replicaID);
      if replicaReady.None? {
        assert SlotLookup(spec, at, partition, first + j).Failed?;
        return [], false, true;
      }
      if !replicaReady.value {
        ready := false;
        assert !IsReady(SlotLookup(spec, at, partition, first + j));
      }
      names[j] := replicaID;
    }
    assert want[..count] == want;
    replicas := names[..];
  }

  predicate PartitionReadable(spec: Spec, at: Lookups, partition: nat)
    requires NonNegative(spec)
  {
    Readable(spec, at, partition, 0, NumSlots(spec))
  }

  function Partitions(spec: Spec, at: Lookups, count: nat): seq<PartitionStatus>
    requires NonNegative(spec)
  {
    seq(count, (i: nat) => PartitionOf(spec, at, i + 1))
  }

  lemma SlotIs(spec: Spec, partition: nat, j: nat)
    requires NonNegative(spec)
    ensures Slot(spec, partition, j) == (NumSlots(spec) * partition + j) % NumReplicas(spec)
    ensures NumSlots(spec) == NumMembers(spec) + NumROMembers(spec)
  {}

  /** The partitions are numbered from 1 on, the pods of each are those of its slots, the read-only ones behind the
      voting ones, and a partition is ready exactly when all of its slots are. */
  lemma PartitionsAre(spec: Spec, at: Lookups, count: nat, id: nat)
    requires NonNegative(spec) && 1 <= id <= count
    ensures |Partitions(spec, at, count)| == count
    ensures var (m, r, p) := (NumMembers(spec), NumROMembers(spec), Partitions(spec, at, count)[id - 1]);
            && p.id == id && |p.replicas| == m && |p.readReplicas| == r
            && (forall j :: 0 <= j < m ==> p.replicas[j] == Slot(spec, id, j))
            && (forall j :: 0 <= j < r ==> p.readReplicas[j] == Slot(spec, id, m + j))
            && (p.ready <==> forall j: nat :: j < m + r ==> IsReady(at(id, j)(Slot(spec, id, j))))
  {
    hide Slot, FirstReady;
    assert Partitions(spec, at, count)[id - 1] == PartitionOf(spec, at, id);
    forall j: nat
      ensures SlotLookup(spec, at, id, j) == at(id, j)(Slot(spec, id, j))
    {}
  }

  /** The voting slots and the read-only ones behind them are all slots. */
  lemma TwoRanges(spec: Spec, at: Lookups, partition: nat)
    requires NonNegative(spec)
    ensures var (m, r) := (NumMembers(spec), NumROMembers(spec));
            && (PartitionReadable(spec, at, partition) <==>
                  Readable(spec, at, partition, 0, m) && Readable(spec, at, partition, m, r))
            && (PartitionOf(spec, at, partition).ready <==>
                  AllReady(spec, at, partition, 0, m) && AllReady(spec, at, partition, m, r))
  {
    hide SlotLookup, FirstReady;
  }

  /** getProtocolPartitions, of the cluster and of the protocol reconciler; None is a failed lookup. */
  method GetProtocolPartitions(spec: Spec, at: Lookups) returns (r: Option<seq<PartitionStatus>>)
    requires NonNegative(spec)
    ensures r.None? <==> exists p: nat :: 1 <= p <= NumPartitions(spec) && !PartitionReadable(spec, at, p)
    ensures r.Some? ==> r.value == Partitions(spec, at, NumPartitions(spec))
  {
    hide Slot, Slots, Readable, AllReady;
    var partitions: seq<PartitionStatus> := [];
    for i := 0 to NumPartitions(spec)
      invariant partitions == Partitions(spec, at, i)
      invariant forall p: nat :: 1 <= p <= i ==> PartitionReadable(spec, at, p)
    {
      TwoRanges(spec, at, i + 1);
      var replicas, ready, failed := ReadSlots(spec, at, i + 1, 0, NumMembers(spec));
      if failed {
        assert !PartitionReadable(spec, at, i + 1);
        return None;
      }
      var roReplicas, roReady, roFailed := ReadSlots(spec, at, i + 1, NumMembers(spec), NumROMembers(spec));
      if roFailed {
        assert !PartitionReadable(spec, at, i + 1);
        return None;
      }
      partitions := partitions + [PartitionStatus(i + 1, replicas, roReplicas, ready && roReady)];
    }
    return Some(partitions);
  }

  /** getProtocolReplicas: the readiness of every pod, in order. */
  method GetProtocolReplicas(spec: Spec, pods: Pods) returns (r: Option<seq<bool>>)
    requires NonNegative(spec)
    ensures r.None? <==> exists i :: 0 <= i < NumReplicas(spec) && pods(i).Failed?
    ensures r.Some? ==>
              |r.value| == NumReplicas(spec) && forall i :: 0 <= i < |r.value| ==> r.value[i] == IsReady(pods(i))
  {
    var replicas := new bool[NumReplicas(spec)];
    for i := 0 to NumReplicas(spec)
      invariant forall k :: 0 <= k < i ==> !pods(k).Failed? && replicas[k] == IsReady(pods(k))
    {
      var ready := IsReplicaReady(pods, i);
      if ready.None? { return None; }
      replicas[i] := ready.value;
    }
    return Some(replicas[..]);
  }

  /** getReplicas of a group: the pod and its readiness, slot by slot. */
  method GetReplicas(spec: Spec, at: Lookups, groupID: nat) returns (r: Option<seq<(nat, bool)>>)
    requires NonNegative(spec)
    ensures r.None? <==> !PartitionReadable(spec, at, groupID)
    ensures r.Some? ==> |r.value| == NumSlots(spec)
    ensures r.Some? ==> forall j :: 0 <= j < NumSlots(spec) ==>
              r.value[j] == (Slot(spec, groupID, j), IsReady(at(groupID, j)(Slot(spec, groupID, j))))
    ensures r.Some? ==> forall j :: 0 <= j < NumSlots(spec) ==>
              (r.value[j].0 == MemberPod(spec, groupID, j) <==>
                 0 <= NumROMembers(spec) * groupID && NumROMembers(spec) * groupID % NumReplicas(spec) == 0)
  {
    hide FirstReady, Slot;
    var replicas: seq<(nat, bool)> := [];
    for j := 0 to NumSlots(spec)
      invariant |replicas| == j
      invariant forall k :: 0 <= k < j ==>
                  replicas[k] == (Slot(spec, groupID, k), IsReady(at(groupID, k)(Slot(spec, groupID, k))))
      invariant Readable(spec, at, groupID, 0, j)
    {
      var replicaID := Slot(spec, groupID, j);
      var ready := IsReplicaReady(at(groupID, j), replicaID);
      if ready.None? {
        assert SlotLookup(spec, at, groupID, j).Failed?;
        return None;
      }
      replicas := replicas + [(replicaID, ready.value)];
    }
    forall j | 0 <= j < NumSlots(spec)
      ensures replicas[j].0 == MemberPod(spec, groupID, j) <==>
                0 <= NumROMembers(spec) * groupID && NumROMembers(spec) * groupID % NumReplicas(spec) == 0
    {
      MemberPodAgrees(spec, groupID, j);
    }
    return Some(replicas);
  }

  // ---------------------------------------------------------------------------
  // The cluster's state
  // ---------------------------------------------------------------------------

  datatype ClusterState = Unset | ClusterReady | ClusterNotReady

  /** What the two loops of reconcileStatus find: a failed lookup, and all ready. */
  ghost predicate PodsFail(spec: Spec, pods: Pods) { exists i :: 0 <= i < NumReplicas(spec) && pods(i).Failed? }

  predicate PodsReady(spec: Spec, pods: Pods) { forall i :: 0 <= i < NumReplicas(spec) ==> IsReady(pods(i)) }

  ghost predicate PartitionsFail(spec: Spec, at: Lookups)
    requires NonNegative(spec)
  {
    exists p: nat :: 1 <= p <= NumPartitions(spec) && !PartitionReadable(spec, at, p)
  }

  predicate PartitionsReady(spec: Spec, at: Lookups)
    requires NonNegative(spec)
  {
    forall p: nat :: 1 <= p <= NumPartitions(spec) ==> PartitionOf(spec, at, p).ready
  }

  /** What reconcileStatus wants the state to be. */
  function TargetState(spec: Spec, pods: Pods, at: Lookups): ClusterState
    requires NonNegative(spec)
  {
    if PodsReady(spec, pods) && PartitionsReady(spec, at) then ClusterReady else ClusterNotReady
  }

  /** In terms of the lookups: Ready exactly when each pod is, and each slot's pod when it is looked up. */
  lemma TargetIs(spec: Spec, pods: Pods, at: Lookups)
    requires NonNegative(spec)
    ensures TargetState(spec, pods, at) ==
              if (forall i: nat :: i < NumReplicas(spec) ==> IsReady(pods(i)))
                 && (forall p: nat, j: nat :: 1 <= p <= NumPartitions(spec) && j < NumSlots(spec) ==>
                       IsReady(at(p, j)(Slot(spec, p, j))))
              then ClusterReady else ClusterNotReady
    ensures PodsFail(spec, pods) <==> exists i: nat :: i < NumReplicas(spec) && pods(i).Failed?
    ensures PartitionsFail(spec, at) <==>
              exists p: nat, j: nat :: 1 <= p <= NumPartitions(spec) && j < NumSlots(spec)
                                       && at(p, j)(Slot(spec, p, j)).Failed?
  {
    hide Slot, FirstReady;
    if !PartitionsReady(spec, at) {
      var p: nat :| 1 <= p <= NumPartitions(spec) && !PartitionOf(spec, at, p).ready;
      var j: nat :| j < NumSlots(spec) && !IsReady(SlotLookup(spec, at, p, j));
    }
    if p: nat, j: nat :| 1 <= p <= NumPartitions(spec) && j < NumSlots(spec)
                         && !IsReady(at(p, j)(Slot(spec, p, j))) {
      assert !IsReady(SlotLookup(spec, at, p, j));
      assert !PartitionOf(spec, at, p).ready;
    }
    if p: nat :| 1 <= p <= NumPartitions(spec) && !PartitionReadable(spec, at, p) {
      var j: nat :| j < NumSlots(spec) && SlotLookup(spec, at, p, j).Failed?;
    }
    if p: nat, j: nat :| 1 <= p <= NumPartitions(spec) && j < NumSlots(spec)
                         && at(p, j)(Slot(spec, p, j)).Failed? {
      assert SlotLookup(spec, at, p, j).Failed?;
      assert !PartitionReadable(spec, at, p);
    }
  }

  /** Whatever state a pod is in when the loop over the pods comes to it, it is in when a slot is looked up. */
  ghost predicate Steady(spec: Spec, pods: Pods, at: Lookups)
    requires NonNegative(spec)
  {
    forall p: nat, j: nat :: 1 <= p <= NumPartitions(spec) && j < NumSlots(spec) ==>
      SlotLookup(spec, at, p, j) == pods(Slot(spec, p, j))
  }

  /** As long as the pods stay as they are, the loop over the partitions changes nothing: it fails only where the
      loop over the pods has, and the cluster is Ready exactly when all of its pods are. */
  lemma SteadyPodsDecide(spec: Spec, pods: Pods, at: Lookups)
    requires NonNegative(spec) && Steady(spec, pods, at)
    ensures PartitionsFail(spec, at) ==> PodsFail(spec, pods)
    ensures TargetState(spec, pods, at) == if PodsReady(spec, pods) then ClusterReady else ClusterNotReady
  {
    hide FirstReady;
    if p: nat :| 1 <= p <= NumPartitions(spec) && !PartitionReadable(spec, at, p) {
      var j: nat :| j < NumSlots(spec) && SlotLookup(spec, at, p, j).Failed?;
      assert pods(Slot(spec, p, j)).Failed?;
    }
    if PodsReady(spec, pods) {
      forall p: nat | 1 <= p <= NumPartitions(spec)
        ensures PartitionOf(spec, at, p).ready
      {}
    }
  }

  /** In general it changes the answer exactly when all pods were ready at first and a slot no longer is. */
  lemma PartitionsChangeAnswer(spec: Spec, pods: Pods, at: Lookups)
    requires NonNegative(spec)
    ensures TargetState(spec, pods, at) != (if PodsReady(spec, pods) then ClusterReady else ClusterNotReady) <==>
              PodsReady(spec, pods)
              && exists p: nat, j: nat :: 1 <= p <= NumPartitions(spec) && j < NumSlots(spec)
                                          && !IsReady(SlotLookup(spec, at, p, j))
  {
    hide SlotLookup, FirstReady;
    if !PartitionsReady(spec, at) {
      var p: nat :| 1 <= p <= NumPartitions(spec) && !PartitionOf(spec, at, p).ready;
    }
    if p: nat, j: nat :| 1 <= p <= NumPartitions(spec) && j < NumSlots(spec) && !IsReady(SlotLookup(spec, at, p, j)) {
      assert !PartitionOf(spec, at, p).ready;
    }
  }

  /** Pods that are all ready, and pods that are all gone. */
  function AllThere(pod: nat): PodLookup { Found([Condition(true, true)]) }
  function AllGone(partition: nat, j: nat): Pods { (pod: nat) => NotFound }

  lemma SlotGone(spec: Spec, partition: nat, j: nat)
    requires NonNegative(spec)
    ensures SlotLookup(spec, AllGone, partition, j) == NotFound
  {
    hide Slot;
  }

  /** A cluster whose pods go once the first loop has found them ready: the first answer was Ready. */
  lemma PodsLostBetween(spec: Spec)
    requires NonNegative(spec) && NumSlots(spec) > 0
    ensures PodsReady(spec, AllThere) && !PartitionsFail(spec, AllGone)
    ensures TargetState(spec, AllThere, AllGone) == ClusterNotReady
  {
    hide Slot, Slots, SlotLookup, PartitionsReady;
    SlotGone(spec, 1, 0);
    PartitionsChangeAnswer(spec, AllThere, AllGone);
    forall p: nat, j: nat
      ensures !SlotLookup(spec, AllGone, p, j).Failed?
    {
      SlotGone(spec, p, j);
    }
  }

  class MultiRaftCluster {
    const spec: Spec
    var state: ClusterState

    constructor (spec: Spec)
      ensures this.spec == spec && state == Unset
    {
      this.spec := spec;
      state := Unset;
    }

    /** reconcileStatus: `pods` are the pods as the first loop looks each up, and `accepted` says whether the API
        server takes the update; None is an error. */
    method ReconcileStatus(pods: Pods, at: Lookups, accepted: bool) returns (changed: Option<bool>)
      requires NonNegative(spec)
      modifies this
      ensures var target := TargetState(spec, pods, at);
              if PodsFail(spec, pods) || PartitionsFail(spec, at) then changed.None? && state == old(state)
              else if old(state) == target then changed == Some(false) && state == target
              else if accepted then changed == Some(true) && state == target
              else changed.None? && state == old(state)
    {
      hide Slots, Slot, FirstReady, Readable, AllReady;
      var replicas := GetProtocolReplicas(spec, pods);
      if replicas.None? { return None; }
      var partitions := GetProtocolPartitions(spec, at);
      if partitions.None? { return None; }
      var target := ClusterReady;
      for i := 0 to |replicas.value|
        invariant target.ClusterReady?
        invariant forall k :: 0 <= k < i ==> replicas.value[k]
      {
        if !replicas.value[i] {
          target := ClusterNotReady;
          break;
        }
      }
      assert target.ClusterReady? <==> PodsReady(spec, pods);
      for i := 0 to |partitions.value|
        invariant target.ClusterReady? <==> PodsReady(spec, pods)
        invariant forall p: nat :: 1 <= p <= i ==> PartitionOf(spec, at, p).ready
      {
        assert partitions.value[i] == PartitionOf(spec, at, i + 1);
        if !partitions.value[i].ready {
          target := ClusterNotReady;
          break;
        }
      }
      assert target == TargetState(spec, pods, at);
      if state != target {
        if !accepted { return None; }
        state := target;
        return Some(true);
      }
      return Some(false);
    }
  }

  // ---------------------------------------------------------------------------
  // Balance
  // ---------------------------------------------------------------------------

  /** All slots of partitions 1 to count, in order. */
  function AllSlots(spec: Spec, count: nat): (pods: seq<nat>)
    requires NonNegative(spec)
  {
    if count == 0 then [] else AllSlots(spec, count - 1) + Voting(spec, count) + ReadOnly(spec, count)
  }

  /** The remainders modulo n of the numbers from first on. */
  function Wheel(first: nat, count: nat, n: nat): (pods: seq<nat>)
    requires n > 0
    ensures |pods| == count
    ensures forall k :: 0 <= k < count ==> pods[k] == (first + k) % n
  {
    seq<nat>(count, (k: nat) => (first + k) % n)
  }

  /** Where a stretch of the wheel ends, the next begins. */
  lemma WheelJoins(first: nat, a: nat, b: nat, n: nat)
    requires n > 0
    ensures Wheel(first, a, n) + Wheel(first + a, b, n) == Wheel(first, a + b, n)
  {}

  /** The slots of a partition are a stretch of the wheel. */
  lemma PartitionIsWheel(spec: Spec, partition: nat)
    requires NonNegative(spec)
    ensures NumSlots(spec) * partition >= 0
    ensures Voting(spec, partition) + ReadOnly(spec, partition) ==
              Wheel(NumSlots(spec) * partition, NumSlots(spec), NumReplicas(spec))
  {
    MulMonotone(0, NumSlots(spec), partition);
  }

  /** Partition by partition, the slots go round the pods without a gap. */
  lemma {:induction false} SlotsAreWheel(spec: Spec, count: nat)
    requires NonNegative(spec)
    ensures NumSlots(spec) * count >= 0
    ensures AllSlots(spec, count) == Wheel(NumSlots(spec), NumSlots(spec) * count, NumReplicas(spec))
  {
    var (s, n) := (NumSlots(spec), NumReplicas(spec));
    if count == 0 {
      assert Wheel(s, 0, n) == [];
    } else {
      hide Wheel, Slot, Slots, Voting, ReadOnly, NumSlots, NumReplicas, NonNegative;
      SlotsAreWheel(spec, count - 1);
      PartitionIsWheel(spec, count);
      Distribute(s, count);
      WheelJoins(s, s * (count - 1), s, n);
      var (a, b, c) := (AllSlots(spec, count - 1), Voting(spec, count), ReadOnly(spec, count));
      assert (a + b) + c == a + (b + c);
    }
  }

  lemma Distribute(s: nat, count: nat)
    requires count > 0
    ensures s * count == s + s * (count - 1)
  {}

  /** How often a pod occurs. */
  function Load(pods: seq<nat>, pod: nat): nat { multiset(pods)[pod] }

  lemma LoadAppend(a: seq<nat>, b: seq<nat>, pod: nat)
    ensures Load(a + b, pod) == Load(a, pod) + Load(b, pod)
  {
    assert multiset(a + b) == multiset(a) + multiset(b);
  }

  lemma {:induction false} LoadBelowTurn(first: nat, count: nat, n: nat, pod: nat)
    requires pod < n && count <= n
    ensures Load(Wheel(first, count, n), pod) == if exists k :: first <= k < first + count && k % n == pod then 1 else 0
  {
    var w := Wheel(first, count, n);
    if count == 0 {
      assert w == [];
    } else {
      var last := first + count - 1;
      LoadBelowTurn(first, count - 1, n, pod);
      assert w == Wheel(first, count - 1, n) + [last % n];
      LoadAppend(Wheel(first, count - 1, n), [last % n], pod);
      if last % n == pod {
        forall k | first <= k < last
          ensures k % n != pod
        {
          CloseRemaindersDiffer(k, last, n);
        }
      }
    }
  }

  /** The next number from first on with a given remainder. */
  lemma NextVisit(first: nat, n: nat, pod: nat) returns (k: nat)
    requires pod < n
    ensures first <= k < first + n && k % n == pod
  {
    var (q, r) := (first / n, first % n);
    Quotient(first, n);
    if r <= pod {
      k := q * n + pod;
      RemainderUnique(k, q, pod, n);
    } else {
      assert (q + 1) * n == q * n + n;
      k := (q + 1) * n + pod;
      RemainderUnique(k, q + 1, pod, n);
    }
  }

  /** A full turn visits every pod once. */
  lemma TurnVisits(first: nat, n: nat, pod: nat)
    requires pod < n
    ensures Load(Wheel(first, n, n), pod) == 1
  {
    hide Load, Wheel;
    LoadBelowTurn(first, n, n, pod);
    var k := NextVisit(first, n, pod);
  }

  lemma {:induction false} WheelLoad(first: nat, turns: nat, rest: nat, total: nat, n: nat, pod: nat)
    requires pod < n && rest < n && total == turns * n + rest
    ensures turns <= Load(Wheel(first, total, n), pod) <= turns + if rest > 0 then 1 else 0
    decreases turns
  {
    if turns == 0 {
      LoadBelowTurn(first, rest, n, pod);
    } else {
      hide Wheel, Load;
      OneTurnLess(turns, n);
      assert total - n == (turns - 1) * n + rest;
      var more := total - n;
      WheelLoad(first + n, turns - 1, rest, more, n, pod);
      TurnVisits(first, n, pod);
      WheelJoins(first, n, more, n);
      LoadAppend(Wheel(first, n, n), Wheel(first + n, more, n), pod);
    }
  }

  lemma OneTurnLess(turns: nat, n: nat)
    requires turns > 0
    ensures turns * n == (turns - 1) * n + n >= n
  {
    MulMonotone(0, turns - 1, n);
  }

  /** Every pod hosts the total divided by the number of pods, rounded down or up. */
  lemma Balanced(spec: Spec, count: nat, pod: nat)
    requires NonNegative(spec) && pod < NumReplicas(spec)
    ensures var (total, n) := (NumSlots(spec) * count, NumReplicas(spec));
            total / n <= Load(AllSlots(spec, count), pod) <= total / n + if total % n == 0 then 0 else 1
  {
    hide Load, AllSlots, Slot;
    SlotsAreWheel(spec, count);
    WheelBalanced(NumSlots(spec), NumSlots(spec) * count, NumReplicas(spec), pod);
  }

  lemma WheelBalanced(first: nat, total: nat, n: nat, pod: nat)
    requires pod < n
    ensures total / n <= Load(Wheel(first, total, n), pod) <= total / n + if total % n == 0 then 0 else 1
  {
    hide Load, Wheel;
    Quotient(total, n);
    WheelLoad(first, total / n, total % n, total, n, pod);
  }

  /** Every pod is used exactly when there are at least as many slots as pods. */
  lemma Covered(spec: Spec, count: nat)
    requires NonNegative(spec)
    ensures (forall pod: nat :: pod < NumReplicas(spec) ==> pod in AllSlots(spec, count)) <==>
            NumReplicas(spec) <= NumSlots(spec) * count
  {
    hide AllSlots, Slot;
    SlotsAreWheel(spec, count);
    WheelCovers(NumSlots(spec), NumSlots(spec) * count, NumReplicas(spec));
  }

  lemma WheelCovers(first: nat, total: nat, n: nat)
    requires n > 0
    ensures (forall pod: nat :: pod < n ==> pod in Wheel(first, total, n)) <==> n <= total
  {
    var w := Wheel(first, total, n);
    if n <= total {
      forall pod: nat | pod < n
        ensures pod in w
      {
        var k := NextVisit(first, n, pod);
        assert w[k - first] == pod;
      }
    } else {
      var pod := (first + total) % n;
      forall k: nat | k < total
        ensures w[k] != pod
      {
        CloseRemaindersDiffer(first + k, first + total, n);
      }
      assert pod !in w;
    }
  }

  // ---------------------------------------------------------------------------
  // Agreement of the formulas
  // ---------------------------------------------------------------------------

  /** The pod reconcileMember writes into a RaftMember: it counts M slots a group, not M + R. */
  function MemberPod(spec: Spec, groupID: nat, memberID: nat): nat
    requires NonNegative(spec)
  {
    (NumMembers(spec) * groupID + memberID) % NumReplicas(spec)
  }

  /** A RaftMember names the pod the group status names exactly when N divides R times the group id. */
  lemma MemberPodAgrees(spec: Spec, groupID: nat, memberID: nat)
    requires NonNegative(spec)
    ensures NumROMembers(spec) * groupID >= 0
    ensures MemberPod(spec, groupID, memberID) == Slot(spec, groupID, memberID) <==>
            NumROMembers(spec) * groupID % NumReplicas(spec) == 0
  {
    var (m, r) := (NumMembers(spec), NumROMembers(spec));
    assert (m + r) * groupID == m * groupID + r * groupID;
    MulMonotone(0, m, groupID);
    MulMonotone(0, r, groupID);
    ShiftKeepsRemainder(m * groupID + memberID, r * groupID, NumReplicas(spec));
  }

  /** A group whose members are placed elsewhere than its status says. */
  lemma MemberPodDisagrees()
    ensures var spec := Spec(3, 1, Some(2), Some(1));
            MemberPod(spec, 1, 0) == 2 && Slot(spec, 1, 0) == 0
  {}

  /** By how much an edit changes the number of read-only members. */
  function Change(a: Spec, b: Spec): nat {
    if NumROMembers(a) <= NumROMembers(b) then NumROMembers(b) - NumROMembers(a) else NumROMembers(a) - NumROMembers(b)
  }

  lemma LongerStride(s: nat, d: nat, t: nat, partition: nat, j: nat, n: nat)
    requires n > 0 && t == s + d
    ensures 0 <= d * partition
    ensures (s * partition + j) % n == (t * partition + j) % n <==> d * partition % n == 0
  {
    MulMonotone(0, s, partition);
    MulMonotone(0, d, partition);
    assert t * partition == s * partition + d * partition;
    ShiftKeepsRemainder(s * partition + j, d * partition, n);
  }

  lemma StridesGrow(a: Spec, b: Spec)
    requires NonNegative(a) && NonNegative(b) && NumROMembers(a) <= NumROMembers(b)
    requires NumReplicas(a) == NumReplicas(b) && NumMembers(a) == NumMembers(b)
    ensures NumSlots(b) == NumSlots(a) + Change(a, b) && NumReplicas(a) > 0 && NumSlots(a) >= 0
  {}

  /** More read-only members move slot j of a partition on, by the change times the partition's id. */
  lemma SlotShifts(a: Spec, b: Spec, partition: nat, j: nat)
    requires NonNegative(a) && NonNegative(b) && NumROMembers(a) <= NumROMembers(b)
    requires NumReplicas(a) == NumReplicas(b) && NumMembers(a) == NumMembers(b)
    ensures Change(a, b) * partition >= 0
    ensures Slot(a, partition, j) == Slot(b, partition, j) <==> Change(a, b) * partition % NumReplicas(a) == 0
  {
    hide Slot, NumSlots, NumReplicas, NumMembers, NumROMembers, Change, NonNegative;
    StridesGrow(a, b);
    SlotIs(a, partition, j);
    SlotIs(b, partition, j);
    LongerStride(NumSlots(a), Change(a, b), NumSlots(b), partition, j, NumReplicas(a));
  }

  lemma VotersShift(a: Spec, b: Spec, partition: nat)
    requires NonNegative(a) && NonNegative(b) && NumROMembers(a) <= NumROMembers(b)
    requires NumReplicas(a) == NumReplicas(b) && NumMembers(a) == NumMembers(b)
    ensures Change(a, b) * partition >= 0
    ensures Voting(a, partition) == Voting(b, partition) <==>
            NumMembers(a) == 0 || Change(a, b) * partition % NumReplicas(a) == 0
  {
    hide Slot;
    SlotShifts(a, b, partition, 0);
    forall j: nat
      ensures Slot(a, partition, j) == Slot(b, partition, j) <==> Change(a, b) * partition % NumReplicas(a) == 0
    {
      SlotShifts(a, b, partition, j);
    }
    if NumMembers(a) > 0 && Voting(a, partition) == Voting(b, partition) {
      assert Voting(a, partition)[0] == Slot(a, partition, 0) && Voting(b, partition)[0] == Slot(b, partition, 0);
    }
  }

  /** An edit of the number of read-only members leaves the voting pods of a partition where they are exactly when
      N divides the change times the partition's id, or there are none. */
  lemma VotersStay(a: Spec, b: Spec, partition: nat)
    requires NonNegative(a) && NonNegative(b)
    requires NumReplicas(a) == NumReplicas(b) && NumMembers(a) == NumMembers(b)
    ensures Change(a, b) * partition >= 0
    ensures Voting(a, partition) == Voting(b, partition) <==>
            NumMembers(a) == 0 || Change(a, b) * partition % NumReplicas(a) == 0
  {
    hide Voting, NonNegative, NumReplicas, NumMembers;
    if NumROMembers(a) <= NumROMembers(b) { VotersShift(a, b, partition); } else { VotersShift(b, a, partition); }
  }

  lemma MultipleOfMultiple(d: nat, k: nat, n: nat)
    requires n > 0 && d % n == 0
    ensures d * k >= 0 && d * k % n == 0
  {
    Quotient(d, n);
    assert d * k == d / n * k * n;
    MulMonotone(0, d / n, k);
    RemainderUnique(d * k, d / n * k, 0, n);
  }

  /** It leaves all of them exactly when N divides the change. */
  lemma AllVotersStay(a: Spec, b: Spec, count: nat)
    requires NonNegative(a) && NonNegative(b) && count > 0
    requires NumReplicas(a) == NumReplicas(b) && NumMembers(a) == NumMembers(b)
    ensures (forall p: nat :: 1 <= p <= count ==> Voting(a, p) == Voting(b, p)) <==>
            NumMembers(a) == 0 || Change(a, b) % NumReplicas(a) == 0
  {
    var (d, n) := (Change(a, b), NumReplicas(a));
    assert n > 0;
    hide Voting, NonNegative, NumMembers, NumReplicas, Change;
    assert d * 1 == d;
    VotersStay(a, b, 1);
    if NumMembers(a) == 0 || d % n == 0 {
      forall p: nat
        ensures Voting(a, p) == Voting(b, p)
      {
        if d % n == 0 { MultipleOfMultiple(d, p, n); }
        VotersStay(a, b, p);
      }
    }
  }

  /** With one pod, every slot is on it. */
  lemma OnePod(spec: Spec, partition: nat, first: nat, count: nat)
    requires NonNegative(spec) && NumReplicas(spec) == 1
    ensures Slots(spec, partition, first, count) == seq(count, i => 0)
  {
    hide Slot;
  }

  /** A partition in the node's configuration; None is a name left empty. */
  datatype NodePartition = NodePartition(id: nat, replicas: seq<Option<nat>>, readReplicas: seq<Option<nat>>)

  /** The partition loop of newNodeConfigString. The second inner loop writes into members, not roMembers;
      None is the panic when it runs past the end. */
  method NewNodePartition(spec: Spec, partition: nat) returns (config: Option<NodePartition>)
    requires NonNegative(spec)
    ensures config.None? <==> NumROMembers(spec) > NumMembers(spec)
    ensures config.Some? ==> config.value == NodePartitionOf(spec, partition)
    ensures config.Some? ==>
              && config.value.id == partition
              && |config.value.replicas| == NumMembers(spec) && |config.value.readReplicas| == NumROMembers(spec)
              && (forall k: nat :: k < NumMembers(spec) ==>
                    config.value.replicas[k] ==
                      Some(Slot(spec, partition, if k < NumROMembers(spec) then NumMembers(spec) + k else k)))
              && (forall k :: 0 <= k < NumROMembers(spec) ==> config.value.readReplicas[k] == None)
  {
    hide Slot;
    var (numMembers, numROMembers) := (NumMembers(spec), NumROMembers(spec));
    var members := new Option<nat>[numMembers](_ => None);
    for j := 0 to numMembers
      invariant forall k :: 0 <= k < j ==> members[k] == Some(Slot(spec, partition, k))
    {
      members[j] := Some(Slot(spec, partition, j));
    }
    var roMembers := new Option<nat>[numROMembers](_ => None);
    for j := 0 to numROMembers
      invariant j <= numMembers
      invariant forall k :: 0 <= k < numMembers ==>
                  members[k] == Some(Slot(spec, partition, if k < j then numMembers + k else k))
      invariant forall k :: 0 <= k < numROMembers ==> roMembers[k] == None
    {
      if j >= members.Length { return None; }
      members[j] := Some(Slot(spec, partition, numMembers + j));
    }
    return Some(NodePartition(partition, members[..], roMembers[..]));
  }

  function NodePartitionOf(spec: Spec, partition: nat): NodePartition
    requires NonNegative(spec)
  {
    var (m, r) := (NumMembers(spec), NumROMembers(spec));
    NodePartition(partition,
                  seq(m, (k: nat) => Some(Slot(spec, partition, if k < r then m + k else k))),
                  seq(r, (k: nat) => None))
  }

  function Named(pods: seq<nat>): seq<Option<nat>> { seq(|pods|, i requires 0 <= i < |pods| => Some(pods[i])) }

  /** The node's configuration names the voting pods of the status exactly when it has no read-only members
      or the number of pods divides the number of voting members, and the read-only pods only in the first case. */
  lemma NodeConfigAgrees(spec: Spec, partition: nat)
    requires NonNegative(spec) && NumROMembers(spec) <= NumMembers(spec)
    ensures NodePartitionOf(spec, partition).replicas == Named(Voting(spec, partition)) <==>
            NumROMembers(spec) == 0 || NumMembers(spec) % NumReplicas(spec) == 0
    ensures NodePartitionOf(spec, partition).readReplicas == Named(ReadOnly(spec, partition)) <==>
            NumROMembers(spec) == 0
  {
    var (m, r, n) := (NumMembers(spec), NumROMembers(spec), NumReplicas(spec));
    var (base, config) := (NumSlots(spec) * partition, NodePartitionOf(spec, partition));
    MulMonotone(0, NumSlots(spec), partition);
    hide NonNegative, Slots;
    forall k | 0 <= k < m
      ensures config.replicas[k] == Named(Voting(spec, partition))[k] <==> k >= r || m % n == 0
    {
      ShiftKeepsRemainder(base + k, m, n);
    }
    if r > 0 {
      assert config.readReplicas[0] != Named(ReadOnly(spec, partition))[0];
      if m % n != 0 { assert config.replicas[0] != Named(Voting(spec, partition))[0]; }
    }
    if r == 0 || m % n == 0 { assert config.replicas == Named(Voting(spec, partition)); }
  }

  /** A configuration that names other voting pods than the status, and no read-only pod at all. */
  lemma NodeConfigDisagrees()
    ensures var spec := Spec(4, 1, Some(3), Some(1));
            && NodePartitionOf(spec, 1) == NodePartition(1, [Some(3), Some(1), Some(2)], [None])
            && Voting(spec, 1) == [0, 1, 2] && ReadOnly(spec, 1) == [3]
  {
    var spec := Spec(4, 1, Some(3), Some(1));
    assert Slot(spec, 1, 0) == 0 && Slot(spec, 1, 1) == 1 && Slot(spec, 1, 2) == 2 && Slot(spec, 1, 3) == 3;
  }

  /** Without read-only members every formula names the same pods. */
  lemma AllAgree(spec: Spec, partition: nat, j: nat)
    requires NonNegative(spec) && NumROMembers(spec) == 0 && j < NumMembers(spec)
    ensures MemberPod(spec, partition, j) == Slot(spec, partition, j) == Voting(spec, partition)[j]
    ensures NodePartitionOf(spec, partition).replicas == Named(Voting(spec, partition))
  {
    MemberPodAgrees(spec, partition, j);
    NodeConfigAgrees(spec, partition);
  }

  /** No placement expression reaches 2^63: Go's int does not overflow. */
  lemma NoOverflow(spec: Spec, partition: int32, j: nat)
    requires NonNegative(spec) && 0 <= partition && j < NumSlots(spec)
    ensures 0 <= NumSlots(spec) * partition + j < 0x8000_0000_0000_0000
    ensures 0 <= NumMembers(spec) * partition + j < 0x8000_0000_0000_0000
  {
    var s := NumSlots(spec);
    assert s <= 2 * 0x7fff_ffff;
    MulMonotone(0, NumMembers(spec), partition);
    MulMonotone(NumMembers(spec), s, partition);
    MulMonotone(s, 2 * 0x7fff_ffff, partition);
  }
}
