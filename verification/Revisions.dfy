/** reconcileStatus of a MultiRaftProtocol: when the status is written, and when its revision moves on. */
module Revisions {
  import opened Options
  import opened Placement

  datatype ReplicaStatus = ReplicaStatus(id: nat, ready: bool)

  /** What a pass reads of the cluster and the pods. */
  datatype Observed = Observed(state: ClusterState, replicas: seq<ReplicaStatus>, partitions: seq<PartitionStatus>)

  /** The stored status; the embedded ProtocolStatus may be absent. */
  datatype Published = Published(revision: nat, replicas: seq<ReplicaStatus>, partitions: seq<PartitionStatus>)
  datatype Status = Status(published: Option<Published>, state: ClusterState)

  // ---------------------------------------------------------------------------
  // The four comparisons
  // ---------------------------------------------------------------------------

  function ReplicaIDs(rs: seq<ReplicaStatus>): seq<nat> { seq(|rs|, i requires 0 <= i < |rs| => rs[i].id) }

  /** A partition without its read replicas and readiness. */
  function Voters(ps: seq<PartitionStatus>): seq<(nat, seq<nat>)> {
    seq(|ps|, i requires 0 <= i < |ps| => (ps[i].id, ps[i].replicas))
  }

  function Readiness(ps: seq<PartitionStatus>): seq<bool> { seq(|ps|, i requires 0 <= i < |ps| => ps[i].ready) }

  method IsReplicasSame(a: seq<ReplicaStatus>, b: seq<ReplicaStatus>) returns (same: bool)
    ensures same <==> ReplicaIDs(a) == ReplicaIDs(b)
    ensures same <==> |a| == |b| && forall i :: 0 <= i < |a| ==> a[i].id == b[i].id
  {
    if |a| != |b| { return false; }
    for i := 0 to |a|
      invariant forall k :: 0 <= k < i ==> a[k].id == b[k].id
    {
      if a[i].id != b[i].id {
        assert ReplicaIDs(a)[i] != ReplicaIDs(b)[i];
        return false;
      }
    }
    return true;
  }

  method IsReplicasChanged(a: seq<ReplicaStatus>, b: seq<ReplicaStatus>) returns (changed: bool)
    ensures changed <==> a != b
  {
    if |a| != |b| { return true; }
    for i := 0 to |a|
      invariant a[..i] == b[..i]
    {
      if a[i].id != b[i].id { return true; }
      if a[i].ready != b[i].ready { return true; }
    }
    return false;
  }

  /** The loop over the voting replicas of two partitions. */
  method SameNames(a: seq<nat>, b: seq<nat>) returns (same: bool)
    ensures same <==> a == b
  {
    if |a| != |b| { return false; }
    for j := 0 to |a|
      invariant a[..j] == b[..j]
    {
      if a[j] != b[j] { return false; }
    }
    return true;
  }

  method IsPartitionsSame(a: seq<PartitionStatus>, b: seq<PartitionStatus>) returns (same: bool)
    ensures same <==> Voters(a) == Voters(b)
    ensures same <==> |a| == |b| && forall i :: 0 <= i < |a| ==> a[i].id == b[i].id && a[i].replicas == b[i].replicas
  {
    if |a| != |b| { return false; }
    for i := 0 to |a|
      invariant forall k :: 0 <= k < i ==> a[k].id == b[k].id && a[k].replicas == b[k].replicas
    {
      var names := SameNames(a[i].replicas, b[i].replicas);
      if a[i].id != b[i].id || !names {
        assert Voters(a)[i] != Voters(b)[i];
        return false;
      }
    }
    return true;
  }

  method IsPartitionsChanged(a: seq<PartitionStatus>, b: seq<PartitionStatus>) returns (changed: bool)
    ensures changed <==> Voters(a) != Voters(b) || Readiness(a) != Readiness(b)
    ensures !changed <==> |a| == |b| && forall i :: 0 <= i < |a| ==>
                            a[i].id == b[i].id && a[i].replicas == b[i].replicas && a[i].ready == b[i].ready
  {
    if |a| != |b| { return true; }
    for i := 0 to |a|
      invariant forall k :: 0 <= k < i ==>
                  a[k].id == b[k].id && a[k].replicas == b[k].replicas && a[k].ready == b[k].ready
    {
      var names := SameNames(a[i].replicas, b[i].replicas);
      if a[i].id != b[i].id || !names {
        assert Voters(a)[i] != Voters(b)[i];
        return true;
      }
      if a[i].ready != b[i].ready {
        assert Readiness(a)[i] != Readiness(b)[i];
        return true;
      }
    }
    return false;
  }

  // ---------------------------------------------------------------------------
  // The pass
  // ---------------------------------------------------------------------------

  /** The names of the replicas and of each partition's voting replicas. */
  datatype Topology = Topology(replicas: seq<nat>, partitions: seq<(nat, seq<nat>)>)

  function TopologyOf(replicas: seq<ReplicaStatus>, partitions: seq<PartitionStatus>): Topology {
    Topology(ReplicaIDs(replicas), Voters(partitions))
  }

  function StatusTopology(s: Status): Option<Topology> {
    match s.published
    case None => None
    case Some(p) => Some(TopologyOf(p.replicas, p.partitions))
  }

  /** The status says what has been observed, but for the read replicas. */
  predicate UpToDate(s: Status, o: Observed) {
    && s.state == o.state
    && s.published.Some?
    && s.published.value.replicas == o.replicas
    && Voters(s.published.value.partitions) == Voters(o.partitions)
    && Readiness(s.published.value.partitions) == Readiness(o.partitions)
  }

  /** Two published statuses have one topology exactly when they name the same replicas, and the same voters of the
      same partitions, in order. */
  lemma SameTopologyIs(p: Published, q: Published)
    ensures TopologyOf(p.replicas, p.partitions) == TopologyOf(q.replicas, q.partitions) <==>
              && |p.replicas| == |q.replicas| && |p.partitions| == |q.partitions|
              && (forall i :: 0 <= i < |p.replicas| ==> p.replicas[i].id == q.replicas[i].id)
              && (forall i :: 0 <= i < |p.partitions| ==>
                    p.partitions[i].id == q.partitions[i].id && p.partitions[i].replicas == q.partitions[i].replicas)
  {
    if TopologyOf(p.replicas, p.partitions) == TopologyOf(q.replicas, q.partitions) {
      assert |ReplicaIDs(p.replicas)| == |ReplicaIDs(q.replicas)| && |Voters(p.partitions)| == |Voters(q.partitions)|;
      forall i | 0 <= i < |p.replicas|
        ensures p.replicas[i].id == q.replicas[i].id
      {
        assert ReplicaIDs(p.replicas)[i] == ReplicaIDs(q.replicas)[i];
      }
      forall i | 0 <= i < |p.partitions|
        ensures p.partitions[i].id == q.partitions[i].id && p.partitions[i].replicas == q.partitions[i].replicas
      {
        assert Voters(p.partitions)[i] == Voters(q.partitions)[i];
      }
    }
  }

  /** A pass publishes what it observes, all of it, unless the status says so already, and moves the revision on by one
      exactly when there was none or the topology changes. */
  lemma PassIs(s: Status, o: Observed)
    ensures UpToDate(s, o) ==> Pass(s, o) == s
    ensures !UpToDate(s, o) ==>
              && Pass(s, o).state == o.state && Pass(s, o).published.Some?
              && Pass(s, o).published.value.replicas == o.replicas
              && Pass(s, o).published.value.partitions == o.partitions
    ensures s.published.None? ==> Pass(s, o).published.value.revision == 1
    ensures s.published.Some? ==>
              var (p, q) := (s.published.value, Pass(s, o).published.value);
              q.revision == p.revision +
                if UpToDate(s, o) || TopologyOf(p.replicas, p.partitions) == TopologyOf(o.replicas, o.partitions)
                then 0 else 1
  {}

  function Revision(s: Status): nat { match s.published case None => 0 case Some(p) => p.revision }

  function Pass(s: Status, o: Observed): Status {
    if UpToDate(s, o) then s
    else
      var moved := StatusTopology(s) != Some(TopologyOf(o.replicas, o.partitions));
      Status(Some(Published(Revision(s) + if moved then 1 else 0, o.replicas, o.partitions)), o.state)
  }

  class MultiRaftProtocol {
    var published: Option<Published>
    var state: ClusterState

    function View(): Status
      reads this
    {
      Status(published, state)
    }

    constructor ()
      ensures View() == Status(None, Unset)
    {
      published, state := None, Unset;
    }

    /** reconcileStatus. Nothing is observed when the cluster or a pod cannot be read; `accepted` says whether
        the API server takes the update. A None result is an error, and then nothing is stored. */
    method ReconcileStatus(observed: Option<Observed>, accepted: bool) returns (updated: Option<bool>)
      modifies this
      ensures observed.None? ==> updated.None? && View() == old(View())
      ensures observed.Some? ==>
                var next := Pass(old(View()), observed.value);
                if UpToDate(old(View()), observed.value) then updated == Some(false) && View() == next == old(View())
                else if accepted then updated == Some(true) && View() == next
                else updated.None? && View() == old(View())
    {
      if observed.None? { return None; }
      var o := observed.value;
      var changed, same := true, false;
      if published.Some? {
        var replicasChanged := IsReplicasChanged(published.value.replicas, o.replicas);
        var partitionsChanged := IsPartitionsChanged(published.value.partitions, o.partitions);
        changed := replicasChanged || partitionsChanged || state != o.state;
        var replicasSame := IsReplicasSame(published.value.replicas, o.replicas);
        var partitionsSame := IsPartitionsSame(published.value.partitions, o.partitions);
        same := replicasSame && partitionsSame;
      }
      if !changed { return Some(false); }
      var revision := if published.Some? then published.value.revision else 0;
      if !same { revision := revision + 1; }
      if !accepted { return None; }
      published, state := Some(Published(revision, o.replicas, o.partitions)), o.state;
      return Some(true);
    }
  }

  /** After a pass the status is up to date, and a second pass leaves it alone. */
  lemma PassSettles(s: Status, o: Observed)
    ensures UpToDate(Pass(s, o), o) && Pass(Pass(s, o), o) == Pass(s, o)
  {}

  /** Read replicas are not compared: they are published exactly when something else is, or were right before. */
  lemma ReadReplicas(s: Status, o: Observed)
    ensures Pass(s, o).published.value.partitions == o.partitions <==>
            !UpToDate(s, o) || s.published.value.partitions == o.partitions
  {}

  /** The voters of all partitions, placed for two specifications. */
  lemma SameVoters(a: Spec, b: Spec, atA: Lookups, atB: Lookups)
    requires NonNegative(a) && NonNegative(b)
    ensures var (before, after) := (Partitions(a, atA, NumPartitions(a)), Partitions(b, atB, NumPartitions(b)));
            Voters(before) == Voters(after) <==>
              && NumPartitions(a) == NumPartitions(b)
              && forall p: nat :: 1 <= p <= NumPartitions(a) ==> Voting(a, p) == Voting(b, p)
  {
    hide Voting, ReadOnly, AllReady;
    var (before, after) := (Partitions(a, atA, NumPartitions(a)), Partitions(b, atB, NumPartitions(b)));
    if Voters(before) == Voters(after) {
      assert |Voters(before)| == |Voters(after)|;
      forall p: nat | 1 <= p <= NumPartitions(a)
        ensures Voting(a, p) == Voting(b, p)
      {
        assert Voters(before)[p - 1] == (p, Voting(a, p)) && Voters(after)[p - 1] == (p, Voting(b, p));
      }
    }
  }

  /** Exactly which edits of a specification the protocol status does not notice, all else being as published: those
      that keep the numbers of partitions and voters, and the pods, and change the number of read-only members, if
      there are voters at all, by a multiple of the number of pods. */
  lemma EditMissed(a: Spec, b: Spec, atA: Lookups, atB: Lookups, s: Status, o: Observed)
    requires NonNegative(a) && NonNegative(b)
    requires s.published.Some? && s.published.value.partitions == Partitions(a, atA, NumPartitions(a))
    requires o.partitions == Partitions(b, atB, NumPartitions(b))
    requires |s.published.value.replicas| == NumReplicas(a) && |o.replicas| == NumReplicas(b)
    ensures UpToDate(s, o) <==>
              && s.state == o.state && s.published.value.replicas == o.replicas
              && Readiness(s.published.value.partitions) == Readiness(o.partitions)
              && NumPartitions(a) == NumPartitions(b) && NumMembers(a) == NumMembers(b)
              && (NumMembers(a) == 0 || Change(a, b) % NumReplicas(a) == 0)
    ensures NumROMembers(a) != NumROMembers(b) ==> s.published.value.partitions != o.partitions
  {
    hide Partitions, Voters, Readiness, NonNegative, Change;
    SameVoters(a, b, atA, atB);
    VotersCounted(a, b, 1);
    if NumReplicas(a) == NumReplicas(b) && NumMembers(a) == NumMembers(b) { AllVotersStay(a, b, NumPartitions(a)); }
    if NumROMembers(a) != NumROMembers(b) { ReadOnlyCounted(a, b, atA, atB); }
  }

  lemma VotersCounted(a: Spec, b: Spec, p: nat)
    requires NonNegative(a) && NonNegative(b)
    ensures NumPartitions(a) >= 1 && (Voting(a, p) == Voting(b, p) ==> NumMembers(a) == NumMembers(b))
  {
    assert |Voting(a, p)| == NumMembers(a) && |Voting(b, p)| == NumMembers(b);
  }

  lemma ReadOnlyCounted(a: Spec, b: Spec, atA: Lookups, atB: Lookups)
    requires NonNegative(a) && NonNegative(b) && NumROMembers(a) != NumROMembers(b)
    ensures Partitions(a, atA, NumPartitions(a)) != Partitions(b, atB, NumPartitions(b))
  {
    var (before, after) := (Partitions(a, atA, NumPartitions(a)), Partitions(b, atB, NumPartitions(b)));
    assert before[0] == PartitionOf(a, atA, 1) && after[0] == PartitionOf(b, atB, 1);
    assert |before[0].readReplicas| == NumROMembers(a) && |after[0].readReplicas| == NumROMembers(b);
  }

  /** One pod, and one partition with one voting member and so many read-only ones. */
  function OneVoter(readReplicas: int32): Spec { Spec(1, 1, Some(1), Some(readReplicas)) }

  lemma OneVoterPlaced(readReplicas: int32)
    requires readReplicas >= 0
    ensures NonNegative(OneVoter(readReplicas))
    ensures Voting(OneVoter(readReplicas), 1) == [0]
    ensures ReadOnly(OneVoter(readReplicas), 1) == seq(readReplicas, i => 0)
  {
    hide Slots;
    var spec := OneVoter(readReplicas);
    OnePod(spec, 1, 0, 1);
    OnePod(spec, 1, 1, readReplicas);
  }

  /** A read-only member is added to such a partition, and all is ready: the protocol status does not change. */
  lemma ReadReplicasMissed()
    ensures NonNegative(OneVoter(0)) && NonNegative(OneVoter(1))
    ensures var p := PartitionStatus(1, Voting(OneVoter(0), 1), ReadOnly(OneVoter(0), 1), true);
            var q := PartitionStatus(1, Voting(OneVoter(1), 1), ReadOnly(OneVoter(1), 1), true);
            var o := Observed(ClusterReady, [ReplicaStatus(0, true)], [q]);
            var s := Status(Some(Published(1, [ReplicaStatus(0, true)], [p])), ClusterReady);
            Pass(s, o) == s && s.published.value.partitions != o.partitions
  {
    OneVoterPlaced(0);
    OneVoterPlaced(1);
    hide Voting, ReadOnly, OneVoter;
    var (p, q) := (PartitionStatus(1, [0], [], true), PartitionStatus(1, [0], [0], true));
    assert Voters([p]) == [(1, [0])] == Voters([q]) && Readiness([p]) == [true] == Readiness([q]);
    assert [p][0] != [q][0];
  }

  // ---------------------------------------------------------------------------
  // Runs
  // ---------------------------------------------------------------------------

  /** The statuses stored over a run: at every step a pass over something observed, or nothing. */
  predicate IsRun(history: seq<Status>, inputs: seq<Option<Observed>>) {
    && |history| == |inputs| + 1
    && history[0] == Status(None, Unset)
    && forall i :: 0 <= i < |inputs| ==>
         history[i + 1] == match inputs[i] case None => history[i] case Some(o) => Pass(history[i], o)
  }

  /** How often the topology has changed up to a point of the run. */
  function Changes(history: seq<Status>, n: nat): nat
    requires n < |history|
  {
    if n == 0 then 0
    else Changes(history, n - 1) + if StatusTopology(history[n]) != StatusTopology(history[n - 1]) then 1 else 0
  }

  /** The revision counts the changes of topology, no more and no less. */
  lemma {:induction false} RevisionCounts(history: seq<Status>, inputs: seq<Option<Observed>>, n: nat)
    requires IsRun(history, inputs) && n < |history|
    ensures Revision(history[n]) == Changes(history, n)
  {
    if n > 0 {
      RevisionCounts(history, inputs, n - 1);
      var before := history[n - 1];
      assert history[n - 1 + 1] == match inputs[n - 1] case None => before case Some(o) => Pass(before, o);
    }
  }

  lemma {:induction false} ChangesGrow(history: seq<Status>, i: nat, j: nat)
    requires i <= j < |history|
    ensures Changes(history, i) <= Changes(history, j)
    ensures Changes(history, i) == Changes(history, j) ==> StatusTopology(history[i]) == StatusTopology(history[j])
    decreases j
  {
    if i < j { ChangesGrow(history, i, j - 1); }
  }

  /** Revisions never go back, and two statuses with one revision name the same replicas and voters. */
  lemma RevisionFixesTopology(history: seq<Status>, inputs: seq<Option<Observed>>, i: nat, j: nat)
    requires IsRun(history, inputs) && i <= j < |history|
    ensures Revision(history[i]) <= Revision(history[j])
    ensures Revision(history[i]) == Revision(history[j]) ==> StatusTopology(history[i]) == StatusTopology(history[j])
  {
    RevisionCounts(history, inputs, i);
    RevisionCounts(history, inputs, j);
    ChangesGrow(history, i, j);
  }
}
