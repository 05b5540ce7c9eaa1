/** updateMemberStatus of a RaftMember, and the status over a run of Raft events. */
module MemberStatus {
  import opened Options
  import opened Placement

  datatype State = Ready | NotReady
  datatype Role = Leader | Candidate | Follower

  /** A RaftMemberStatus; also the fields an update offers. Times are nanoseconds. */
  datatype Status = Status(
    state: Option<State>, role: Option<Role>, leader: Option<string>, term: Option<nat>,
    lastUpdated: Option<int>, lastSnapshotIndex: Option<nat>, lastSnapshotTime: Option<int>)

  const EMPTY := Status(None, None, None, None, None, None, None)

  /** The greater of what is known and what is offered. */
  function Raise(known: Option<int>, offered: Option<int>): Option<int> {
    if offered.Some? && (known.None? || offered.value > known.value) then offered else known
  }

  /** The offered value, if there is one. */
  function Replace<T>(known: Option<T>, offered: Option<T>): Option<T> {
    if offered.Some? then offered else known
  }

  predicate Raises(known: Option<int>, offered: Option<int>) {
    offered.Some? && (known.None? || offered.value > known.value)
  }

  function Apply(s: Status, u: Status): Status {
    Status(
      Replace(s.state, u.state),
      Replace(s.role, u.role),
      Replace(if Raises(s.term, u.term) then None else s.leader, u.leader),
      if Raises(s.term, u.term) then u.term else s.term,
      Raise(s.lastUpdated, u.lastUpdated),
      if Raises(s.lastSnapshotIndex, u.lastSnapshotIndex) then u.lastSnapshotIndex else s.lastSnapshotIndex,
      Raise(s.lastSnapshotTime, u.lastSnapshotTime))
  }

  /** The events the controller records, and the readiness its own reconcile writes. */
  datatype Event =
    | MemberReady(timestamp: int)
    | LeaderUpdated(term: nat, leader: string, timestamp: int)
    | Snapshot(index: nat, now: int, timestamp: int)
    | PodChecked(state: State)
    | NotRecorded

  /** What recordPartitionReady, recordLeaderUpdated and recordSnapshot* offer. */
  function UpdateFor(podName: string, e: Event): Status {
    match e
    case MemberReady(t) => EMPTY.(state := Some(Ready), lastUpdated := Some(t))
    case LeaderUpdated(term, leader, t) =>
      EMPTY.(role := Some(if leader == podName then Leader else Follower),
      term := Some(term),
      leader := if leader != "" then Some(leader) else None,
      lastUpdated := Some(t))
    case Snapshot(index, now, t) =>
      EMPTY.(lastSnapshotIndex := Some(index), lastSnapshotTime := Some(now), lastUpdated := Some(t))
    case PodChecked(state) => EMPTY.(state := Some(state))
    case NotRecorded => EMPTY
  }

  /** The RaftMember that the API server holds. */
  class RaftMember {
    const podName: string
    var state: Option<State>
    var role: Option<Role>
    var leader: Option<string>
    var term: Option<nat>
    var lastUpdated: Option<int>
    var lastSnapshotIndex: Option<nat>
    var lastSnapshotTime: Option<int>

    function View(): Status
      reads this
    {
      Status(state, role, leader, term, lastUpdated, lastSnapshotIndex, lastSnapshotTime)
    }

    constructor (podName: string)
      ensures this.podName == podName && View() == EMPTY
    {
      this.podName := podName;
      state, role, leader, term := None, None, None, None;
      lastUpdated, lastSnapshotIndex, lastSnapshotTime := None, None, None;
    }

    /** updateMemberStatus: field by field, in the order of the program. */
    method UpdateMemberStatus(status: Status)
      modifies this
      ensures View() == Apply(old(View()), status)
    {
      if status.term.Some? && (term.None? || status.term.value > term.value) {
        term := status.term;
        leader := None;
      }
      if status.leader.Some? { leader := status.leader; }
      assert leader == Apply(old(View()), status).leader && term == Apply(old(View()), status).term;
      UpdateRest(status);
    }

    /** The fields behind the leader. */
    method UpdateRest(status: Status)
      modifies this`state, this`role, this`lastUpdated, this`lastSnapshotIndex, this`lastSnapshotTime
      ensures View() == Apply(old(View()), status).(leader := leader, term := term)
    {
      if status.state.Some? { state := status.state; }
      if status.role.Some? && (role.None? || role.value != status.role.value) { role := status.role; }
      assert state == Replace(old(state), status.state) && role == Replace(old(role), status.role);
      if status.lastUpdated.Some? && (lastUpdated.None? || status.lastUpdated.value > lastUpdated.value) {
        lastUpdated := status.lastUpdated;
      }
      assert lastUpdated == Raise(old(lastUpdated), status.lastUpdated);
      if status.lastSnapshotIndex.Some?
         && (lastSnapshotIndex.None? || status.lastSnapshotIndex.value > lastSnapshotIndex.value) {
        lastSnapshotIndex := status.lastSnapshotIndex;
      }
      assert lastSnapshotIndex == Apply(old(View()), status).lastSnapshotIndex;
      if status.lastSnapshotTime.Some?
         && (lastSnapshotTime.None? || status.lastSnapshotTime.value > lastSnapshotTime.value) {
        lastSnapshotTime := status.lastSnapshotTime;
      }
    }

    /** recordPartitionReady: the member is Ready, and nothing else is touched but the time of the last update. */
    method RecordPartitionReady(timestamp: int)
      modifies this
      ensures View() == Apply(old(View()), UpdateFor(podName, MemberReady(timestamp)))
      ensures View() == old(View()).(state := Some(Ready), lastUpdated := lastUpdated)
      ensures lastUpdated == Some(Latest(old(lastUpdated), timestamp))
    {
      var offered := EMPTY.(state := Some(Ready), lastUpdated := Some(timestamp));
      UpdateMemberStatus(offered);
    }

    /** recordLeaderUpdated: the role says whether the event names this pod, whatever its term; the term is never
        lowered; a leader that the event names is taken, whatever its term, and one known before is forgotten
        only when the event names none and its term is higher. */
    method RecordLeaderUpdated(eventTerm: nat, eventLeader: string, timestamp: int)
      modifies this
      ensures View() == Apply(old(View()), UpdateFor(podName, LeaderUpdated(eventTerm, eventLeader, timestamp)))
      ensures role == Some(Leader) <==> eventLeader == podName
      ensures role in {Some(Leader), Some(Follower)}
      ensures term == Some(Latest(old(term), eventTerm))
      ensures eventLeader != "" ==> leader == Some(eventLeader)
      ensures eventLeader == "" ==> leader == if term == old(term) then old(leader) else None
      ensures lastUpdated == Some(Latest(old(lastUpdated), timestamp))
      ensures View() == old(View()).(role := role, term := term, leader := leader, lastUpdated := lastUpdated)
    {
      var eventRole := Follower;
      if eventLeader == podName { eventRole := Leader; }
      var offeredLeader: Option<string> := None;
      if eventLeader != "" { offeredLeader := Some(eventLeader); }
      var offered := EMPTY.(role := Some(eventRole), term := Some(eventTerm), leader := offeredLeader,
      lastUpdated := Some(timestamp));
      UpdateMemberStatus(offered);
    }

    /** recordSnapshotReceived, Recovered, Created and Compacted: an index or a time behind the one known is ignored. */
    method RecordSnapshot(index: nat, now: int, timestamp: int)
      modifies this
      ensures View() == Apply(old(View()), UpdateFor(podName, Snapshot(index, now, timestamp)))
      ensures lastSnapshotIndex == Some(Latest(old(lastSnapshotIndex), index))
      ensures lastSnapshotTime == Some(Latest(old(lastSnapshotTime), now))
      ensures lastUpdated == Some(Latest(old(lastUpdated), timestamp))
      ensures View() == old(View()).(lastSnapshotIndex := lastSnapshotIndex, lastSnapshotTime := lastSnapshotTime,
                                     lastUpdated := lastUpdated)
    {
      var offered := EMPTY.(lastSnapshotIndex := Some(index), lastSnapshotTime := Some(now),
      lastUpdated := Some(timestamp));
      UpdateMemberStatus(offered);
    }

    /** reconcileStatus: the state follows the pod's condition, and is written only when it changes; a pod that
        cannot be read is an error, also when it does not exist. */
    method ReconcileStatus(pod: PodLookup, accepted: bool) returns (updated: Option<bool>)
      modifies this`state
      ensures state == if accepted then StateAfter(old(state), pod) else old(state)
      ensures updated == if !pod.Found? then None
                         else if StateAfter(old(state), pod) == old(state) then Some(false)
                         else if accepted then Some(true)
                         else None
      ensures pod.Found? && accepted ==>
                View() == Apply(old(View()), UpdateFor(podName, PodChecked(StateOf(pod.conditions))))
    {
      if !pod.Found? { return None; }
      var target := Ready;
      for i := 0 to |pod.conditions|
        invariant target.Ready?
        invariant HasPodReady(pod.conditions) == HasPodReady(pod.conditions[i..])
        invariant FirstReady(pod.conditions) == FirstReady(pod.conditions[i..])
      {
        if pod.conditions[i].isPodReady {
          if !pod.conditions[i].isTrue { target := NotReady; }
          break;
        }
      }
      if state != Some(target) {
        if !accepted { return None; }
        state := Some(target);
        return Some(true);
      }
      return Some(false);
    }

    /** The switch over the events of a pod: a member of a named pod that is in the role of leader names its own pod. */
    method Record(e: Event)
      modifies this
      ensures View() == Apply(old(View()), UpdateFor(podName, e))
      ensures podName != "" && LeaderIsNamed(podName, old(View())) ==> LeaderIsNamed(podName, View())
    {
      match e {
        case MemberReady(timestamp) => RecordPartitionReady(timestamp);
        case LeaderUpdated(eventTerm, eventLeader, timestamp) => RecordLeaderUpdated(eventTerm, eventLeader, timestamp);
        case Snapshot(index, now, timestamp) => RecordSnapshot(index, now, timestamp);
        case PodChecked(checked) => UpdateMemberStatus(EMPTY.(state := Some(checked)));
        case NotRecorded =>
      }
    }
  }

  /** The later of two times, the higher of two terms. */
  function Latest(known: Option<int>, offered: int): int {
    if known.Some? && known.value > offered then known.value else offered
  }

  /** There is a PodReady condition. */
  predicate HasPodReady(conditions: seq<Condition>) {
    conditions != [] && (conditions[0].isPodReady || HasPodReady(conditions[1..]))
  }

  /** The state of a member whose pod has these conditions: a PodReady condition that is not true makes it NotReady. */
  function StateOf(conditions: seq<Condition>): State {
    if HasPodReady(conditions) ==> FirstReady(conditions) then Ready else NotReady
  }

  lemma {:induction false} ReadyHasCondition(conditions: seq<Condition>)
    ensures FirstReady(conditions) ==> HasPodReady(conditions)
    decreases |conditions|
  {
    if conditions != [] { ReadyHasCondition(conditions[1..]); }
  }

  /** It is NotReady exactly when the first PodReady condition is there and is not true. */
  lemma {:induction false} StateIs(conditions: seq<Condition>)
    ensures StateOf(conditions) == NotReady <==>
              exists k: nat :: IsFirstPodReady(conditions, k) && !conditions[k].isTrue
    ensures HasPodReady(conditions) <==> exists k: nat :: IsFirstPodReady(conditions, k)
    decreases |conditions|
  {
    if conditions == [] {
    } else if conditions[0].isPodReady {
      OnlyFirst(conditions, 0);
      if k: nat :| IsFirstPodReady(conditions, k) && !conditions[k].isTrue { OnlyFirst(conditions, k); }
    } else {
      var rest := conditions[1..];
      StateIs(rest);
      OtherInFront(conditions, 0);
      if k: nat :| IsFirstPodReady(rest, k) { OtherInFront(conditions, k); }
      if k: nat :| IsFirstPodReady(rest, k) && !rest[k].isTrue { OtherInFront(conditions, k); }
      if k: nat :| IsFirstPodReady(conditions, k) { OtherInFront(conditions, k - 1); }
      if k: nat :| IsFirstPodReady(conditions, k) && !conditions[k].isTrue { OtherInFront(conditions, k - 1); }
    }
  }

  /** A starting pod. */
  lemma StartingPodNotReady()
    ensures StateAfter(Some(Ready), Found([Condition(true, false)])) == Some(NotReady)
  {
    assert IsFirstPodReady([Condition(true, false)], 0);
    StateIs([Condition(true, false)]);
  }

  /** The state behind a pass that the API server accepts. */
  function StateAfter(known: Option<State>, pod: PodLookup): Option<State> {
    if pod.Found? then Some(StateOf(pod.conditions)) else known
  }

  /** Whatever the API server answers, behind a pass the member is Ready just when its group finds its pod ready,
      exactly when a pod that exists has a PodReady condition, and one that cannot be read was not Ready before. */
  lemma MemberStateAgrees(known: Option<State>, pod: PodLookup)
    ensures (StateAfter(known, pod) == Some(Ready) <==> IsReady(pod)) <==>
            if pod.Found? then HasPodReady(pod.conditions) else known != Some(Ready)
  {
    if pod.Found? { ReadyHasCondition(pod.conditions); }
  }

  /** A pod that has just been scheduled, and one that has been deleted: the member is Ready, or stays so. */
  lemma MemberStateDisagrees()
    ensures StateAfter(None, Found([])) == Some(Ready) && !IsReady(Found([]))
    ensures var known := StateAfter(None, Found([Condition(true, true)]));
            StateAfter(known, NotFound) == Some(Ready) && !IsReady(NotFound)
  {
    var c := [Condition(true, true)];
    assert c[0].isPodReady;
  }

  // ---------------------------------------------------------------------------
  // The four maxima
  // ---------------------------------------------------------------------------

  function Run(s: Status, us: seq<Status>): Status
    decreases |us|
  {
    if us == [] then s else Run(Apply(s, us[0]), us[1..])
  }

  /** The value is the greatest of the first one and those offered. */
  ghost predicate IsGreatest(r: Option<int>, first: Option<int>, offered: multiset<Option<int>>) {
    && (r == first || r in offered)
    && (first.Some? ==> r.Some? && first.value <= r.value)
    && forall v :: v in offered && v.Some? ==> r.Some? && v.value <= r.value
  }

  /** The fields that only grow. */
  datatype Field = Term | LastUpdated | LastSnapshotIndex | LastSnapshotTime

  function Get(f: Field, s: Status): Option<int> {
    match f
    case Term => (match s.term case None => None case Some(t) => Some(t))
    case LastUpdated => s.lastUpdated
    case LastSnapshotIndex => (match s.lastSnapshotIndex case None => None case Some(i) => Some(i))
    case LastSnapshotTime => s.lastSnapshotTime
  }

  /** The values the updates offer in one field. */
  function Offered(us: seq<Status>, f: Field): multiset<Option<int>>
    decreases |us|
  {
    if us == [] then multiset{} else multiset{Get(f, us[0])} + Offered(us[1..], f)
  }

  lemma ApplyRaises(s: Status, u: Status, f: Field)
    ensures Get(f, Apply(s, u)) == Raise(Get(f, s), Get(f, u))
  {}

  /** After any run, each of the four fields is the greatest value ever offered. */
  lemma {:induction false} RunMaximum(s: Status, us: seq<Status>, f: Field)
    ensures IsGreatest(Get(f, Run(s, us)), Get(f, s), Offered(us, f))
    decreases |us|
  {
    hide Apply, Get;
    if us != [] {
      ApplyRaises(s, us[0], f);
      RunMaximum(Apply(s, us[0]), us[1..], f);
    }
  }

  lemma {:induction false} OfferedCount(us: seq<Status>, f: Field, v: Option<int>)
    ensures v in Offered(us, f) <==> exists u :: u in multiset(us) && Get(f, u) == v
    decreases |us|
  {
    hide Get;
    if us != [] {
      OfferedCount(us[1..], f, v);
      assert us == [us[0]] + us[1..];
      assert multiset(us) == multiset{us[0]} + multiset(us[1..]);
    }
  }

  /** The order in which the updates arrive does not matter to the four fields. */
  lemma OrderIrrelevant(s: Status, us: seq<Status>, vs: seq<Status>, f: Field)
    requires multiset(us) == multiset(vs)
    ensures Get(f, Run(s, us)) == Get(f, Run(s, vs))
  {
    hide Run, Get, Offered;
    RunMaximum(s, us, f);
    RunMaximum(s, vs, f);
    forall v
      ensures v in Offered(us, f) <==> v in Offered(vs, f)
    {
      OfferedCount(us, f, v);
      OfferedCount(vs, f, v);
    }
  }

  // ---------------------------------------------------------------------------
  // Role and leader
  // ---------------------------------------------------------------------------

  function Updates(podName: string, events: seq<Event>): seq<Status> {
    seq(|events|, i requires 0 <= i < |events| => UpdateFor(podName, events[i]))
  }

  predicate LeaderIsNamed(podName: string, s: Status) {
    s.role == Some(Leader) ==> s.leader == Some(podName)
  }

  /** A member in the role of leader names its own pod as the leader, over any run of events in any order. */
  lemma {:induction false} LeaderNamesItself(podName: string, s: Status, events: seq<Event>)
    requires podName != "" && LeaderIsNamed(podName, s)
    ensures LeaderIsNamed(podName, Run(s, Updates(podName, events)))
    decreases |events|
  {
    var us := Updates(podName, events);
    if events != [] {
      assert us[1..] == Updates(podName, events[1..]);
      assert us[0] == UpdateFor(podName, events[0]);
      LeaderNamesItself(podName, Apply(s, us[0]), events[1..]);
    }
  }

  /** With no pod name, an event without a leader makes the member leader of nothing. */
  lemma NamelessLeader(term: nat, timestamp: int)
    ensures var s := Apply(EMPTY, UpdateFor("", LeaderUpdated(term, "", timestamp)));
            s.role == Some(Leader) && s.leader == None
  {}

  // ---------------------------------------------------------------------------
  // The term of the leader
  // ---------------------------------------------------------------------------

  /** A status with the term of the event that carried its leader. */
  datatype Tracked = Tracked(status: Status, carriedAt: Option<nat>)

  function Track(podName: string, t: Tracked, e: Event): Tracked {
    Tracked(
      Apply(t.status, UpdateFor(podName, e)),
      if e.LeaderUpdated? && e.leader != "" then Some(e.term)
      else if e.LeaderUpdated? && Raises(t.status.term, Some(e.term)) then None
      else t.carriedAt)
  }

  function TrackAll(podName: string, events: seq<Event>): Tracked {
    if events == [] then Tracked(EMPTY, None)
    else Track(podName, TrackAll(podName, events[..|events| - 1]), events[|events| - 1])
  }

  /** The leader, if there is one, was carried by an event of exactly the current term. */
  predicate LeaderCurrent(t: Tracked) {
    t.status.leader.Some? ==> t.carriedAt.Some? && t.carriedAt == t.status.term
  }

  /** The event carries no leader, or its term is not behind the status. */
  predicate NotBehind(s: Status, e: Event) {
    e.LeaderUpdated? && e.leader != "" ==> !Raises(Some(e.term), s.term)
  }

  /** One event keeps the leader current exactly when it is not a leader from a term gone by. */
  lemma StepKeepsLeaderCurrent(podName: string, t: Tracked, e: Event)
    requires LeaderCurrent(t)
    ensures LeaderCurrent(Track(podName, t, e)) <==> NotBehind(t.status, e)
  {}

  /** No leader carried by an event comes after an event of a later term. */
  predicate InOrder(events: seq<Event>) {
    forall i, j ::
      0 <= i < j < |events| && events[i].LeaderUpdated? && events[j].LeaderUpdated? && events[j].leader != "" ==>
        events[i].term <= events[j].term
  }

  /** The run's status is the one TrackAll keeps, and its term the greatest of the events'. */
  lemma {:induction false} TrackedTerm(podName: string, events: seq<Event>)
    ensures var term := TrackAll(podName, events).status.term;
            && (forall i :: 0 <= i < |events| && events[i].LeaderUpdated? ==>
                  term.Some? && events[i].term <= term.value)
            && (term.Some? ==>
                  exists i :: 0 <= i < |events| && events[i].LeaderUpdated? && events[i].term == term.value)
    decreases |events|
  {
    if events != [] {
      var n := |events| - 1;
      var front := events[..n];
      TrackedTerm(podName, front);
      var before := TrackAll(podName, front).status.term;
      if before.Some? {
        var i :| 0 <= i < |front| && front[i].LeaderUpdated? && front[i].term == before.value;
        assert events[i] == front[i];
      }
      assert forall i :: 0 <= i < n ==> events[i] == front[i];
    }
  }

  lemma InOrderSnoc(podName: string, front: seq<Event>, last: Event)
    ensures InOrder(front + [last]) <==> InOrder(front) && NotBehind(TrackAll(podName, front).status, last)
  {
    hide TrackAll;
    var events := front + [last];
    TrackedTerm(podName, front);
    assert forall i :: 0 <= i < |front| ==> events[i] == front[i];
    assert events[|front|] == last;
    if InOrder(events) && last.LeaderUpdated? && last.leader != "" {
      assert forall i :: 0 <= i < |front| && front[i].LeaderUpdated? ==> events[i].term <= last.term;
    }
  }

  ghost predicate CurrentThroughout(podName: string, events: seq<Event>) {
    forall n :: 0 <= n <= |events| ==> LeaderCurrent(TrackAll(podName, events[..n]))
  }

  lemma CurrentThroughoutSnoc(podName: string, front: seq<Event>, last: Event)
    ensures CurrentThroughout(podName, front + [last]) <==>
            CurrentThroughout(podName, front) && LeaderCurrent(TrackAll(podName, front + [last]))
    ensures CurrentThroughout(podName, front) ==> LeaderCurrent(TrackAll(podName, front))
  {
    hide TrackAll, LeaderCurrent;
    var events := front + [last];
    assert forall n :: 0 <= n <= |front| ==> events[..n] == front[..n];
    assert events[..|events|] == events && front[..|front|] == front;
  }

  /** At every point of a run the leader is current, exactly when no leader arrives behind a later term. */
  lemma {:induction false} LeaderCurrentThroughout(podName: string, events: seq<Event>)
    ensures CurrentThroughout(podName, events) <==> InOrder(events)
    decreases |events|
  {
    if events != [] {
      hide InOrder, CurrentThroughout, LeaderCurrent, NotBehind, Track;
      var n := |events| - 1;
      var (front, last) := (events[..n], events[n]);
      assert events == front + [last];
      LeaderCurrentThroughout(podName, front);
      InOrderSnoc(podName, front, last);
      CurrentThroughoutSnoc(podName, front, last);
      if CurrentThroughout(podName, front) { StepKeepsLeaderCurrent(podName, TrackAll(podName, front), last); }
    }
  }

  /** A leader of term 3 that arrives behind term 5 becomes the leader of term 5. */
  lemma LateLeaderTaken(podName: string)
    ensures var t := TrackAll(podName, [LeaderUpdated(5, "", 0), LeaderUpdated(3, "old", 1)]);
            t.status.term == Some(5) && t.status.leader == Some("old") && t.carriedAt == Some(3)
  {
    var (a, b) := (LeaderUpdated(5, "", 0), LeaderUpdated(3, "old", 1));
    assert [a, b][..1] == [a] && [a][..0] == [];
    assert TrackAll(podName, [a]) == Track(podName, TrackAll(podName, []), a);
    assert TrackAll(podName, [a, b]) == Track(podName, TrackAll(podName, [a]), b);
  }

  lemma {:induction false} TrackedIsRun(podName: string, events: seq<Event>)
    ensures TrackAll(podName, events).status == Run(EMPTY, Updates(podName, events))
    decreases |events|
  {
    var us := Updates(podName, events);
    if events != [] {
      var n := |events| - 1;
      TrackedIsRun(podName, events[..n]);
      assert us[..n] == Updates(podName, events[..n]);
      assert us == us[..n] + [us[n]];
      RunSnoc(EMPTY, us[..n], us[n]);
    }
  }

  lemma {:induction false} RunSnoc(s: Status, us: seq<Status>, u: Status)
    ensures Run(s, us + [u]) == Apply(Run(s, us), u)
    decreases |us|
  {
    if us != [] {
      assert (us + [u])[1..] == us[1..] + [u];
      RunSnoc(Apply(s, us[0]), us[1..], u);
    }
  }
}
