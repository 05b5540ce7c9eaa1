/** reconcileStatus of a RaftGroup: the fold of its members' terms and leaders. */
module GroupStatus {
  import opened Options

  datatype State = Unset | Ready | NotReady

  /** A RaftGroupStatus; a term is a uint64, and a leader the name of a pod. */
  datatype Status = Status(state: State, term: Option<nat>, leader: Option<string>)

  /** What the fold reads of a RaftMemberStatus. */
  datatype Member = Member(term: Option<nat>, leader: Option<string>)

  /** Terms in order; a term not known yet comes before every other. */
  predicate AtMost(a: Option<nat>, b: Option<nat>) { a.None? || (b.Some? && a.value <= b.value) }

  /** The loop body for one member. */
  function Absorb(g: Status, m: Member): Status {
    var raised := if AtMost(m.term, g.term) then g else g.(term := m.term, leader := None);
    if m.leader.Some? && raised.leader.None? then raised.(leader := m.leader) else raised
  }

  function Fold(g: Status, ms: seq<Member>): Status
    decreases |ms|
  {
    if ms == [] then g else Fold(Absorb(g, ms[0]), ms[1..])
  }

  function AllTrue(replicas: seq<bool>): State {
    if false in replicas then NotReady else Ready
  }

  /** One reconcile pass over pods and members that answer. */
  function Pass(g: Status, replicas: seq<bool>, ms: seq<Member>): Status {
    Fold(g.(state := AllTrue(replicas)), ms)
  }

  // ---------------------------------------------------------------------------
  // The loop
  // ---------------------------------------------------------------------------

  lemma {:induction false} FoldSnoc(g: Status, ms: seq<Member>, m: Member)
    ensures Fold(g, ms + [m]) == Absorb(Fold(g, ms), m)
    decreases |ms|
  {
    if ms == [] {
    } else {
      assert (ms + [m])[1..] == ms[1..] + [m];
      FoldSnoc(Absorb(g, ms[0]), ms[1..], m);
    }
  }

  /** The RaftGroup that the API server holds. */
  class RaftGroup {
    var state: State
    var term: Option<nat>
    var leader: Option<string>

    function View(): Status
      reads this
    {
      Status(state, term, leader)
    }

    constructor ()
      ensures View() == Status(Unset, None, None)
    {
      state, term, leader := Unset, None, None;
    }

    /** reconcileStatus. A None in place of the pods' readiness or of a member is a failed lookup; `accepted`
        says whether the API server takes the update. A None result is an error, and then nothing is stored. */
    method ReconcileStatus(replicas: Option<seq<bool>>, members: seq<Option<Member>>, accepted: bool)
      returns (updated: Option<bool>)
      modifies this
      ensures (replicas.None? || None in members) ==> updated.None? && View() == old(View())
      ensures replicas.Some? && None !in members ==>
                var ms := seq(|members|, i requires 0 <= i < |members| && members[i].Some? => members[i].value);
                var next := Pass(old(View()), replicas.value, ms);
                if next == old(View()) then updated == Some(false) && View() == next
                else if accepted then updated == Some(true) && View() == next
                else updated.None? && View() == old(View())
    {
      if replicas.None? { return None; }
      var (s, t, l, changed) := (state, term, leader, false);
      var target := Ready;
      for i := 0 to |replicas.value|
        invariant target.Ready?
        invariant false !in replicas.value[..i]
      {
        if !replicas.value[i] {
          target := NotReady;
          break;
        }
      }
      assert replicas.value[..|replicas.value|] == replicas.value;
      if s != target {
        s := target;
        changed := true;
      }
      ghost var start := old(View()).(state := AllTrue(replicas.value));
      ghost var seen: seq<Member> := [];
      for memberID := 0 to |members|
        invariant |seen| == memberID && forall k :: 0 <= k < memberID ==> members[k] == Some(seen[k])
        invariant Status(s, t, l) == Fold(start, seen)
        invariant View() == old(View()) && AtMost(term, t)
        invariant t == term && leader.Some? ==> l == leader
        invariant changed <==> Status(s, t, l) != old(View())
      {
        if members[memberID].None? { return None; }
        var member := members[memberID].value;
        FoldSnoc(start, seen, member);
        if member.term.Some? && (t.None? || member.term.value > t.value) {
          t, l, changed := member.term, None, true;
        }
        if member.leader.Some? && l.None? {
          l, changed := member.leader, true;
        }
        seen := seen + [member];
      }
      assert seen == seq(|members|, i requires 0 <= i < |members| && members[i].Some? => members[i].value);
      if changed {
        if !accepted { return None; }
        state, term, leader := s, t, l;
        return Some(true);
      }
      return Some(false);
    }
  }

  // ---------------------------------------------------------------------------
  // What one pass computes
  // ---------------------------------------------------------------------------

  /** The leader of the first member that has one. */
  function FirstLeader(ms: seq<Member>): Option<string>
    decreases |ms|
  {
    if ms == [] then None else if ms[0].leader.Some? then ms[0].leader else FirstLeader(ms[1..])
  }

  /** The first member at a term. */
  function FirstAt(term: Option<nat>, ms: seq<Member>): (k: nat)
    ensures k <= |ms|
    ensures k < |ms| ==> ms[k].term == term
    ensures forall i :: 0 <= i < k ==> ms[i].term != term
    decreases |ms|
  {
    if ms == [] || ms[0].term == term then 0 else 1 + FirstAt(term, ms[1..])
  }

  /** The term is the maximum of the old one and those of the members. */
  lemma {:induction false} FoldTerm(g: Status, ms: seq<Member>)
    ensures AtMost(g.term, Fold(g, ms).term)
    ensures forall m :: m in ms ==> AtMost(m.term, Fold(g, ms).term)
    ensures Fold(g, ms).term == g.term || exists m :: m in ms && m.term == Fold(g, ms).term
    ensures Fold(g, ms).state == g.state
    decreases |ms|
  {
    if ms != [] {
      FoldTerm(Absorb(g, ms[0]), ms[1..]);
      assert forall m :: m in ms ==> m == ms[0] || m in ms[1..];
      assert forall m :: m in ms[1..] ==> m in ms;
    }
  }

  /** The leader: if no member raises the term, the old one, or else the first member's that has one; if some
      member does, the first one reported from the first member at the new term on. */
  lemma {:induction false} FoldLeader(g: Status, ms: seq<Member>)
    ensures var r := Fold(g, ms);
            r.leader == if r.term != g.term then FirstLeader(ms[FirstAt(r.term, ms)..])
                        else if g.leader.Some? then g.leader
                        else FirstLeader(ms)
    decreases |ms|
  {
    if ms != [] {
      var (r, g1) := (Fold(g, ms), Absorb(g, ms[0]));
      FoldTerm(g1, ms[1..]);
      FoldLeader(g1, ms[1..]);
      var k := FirstAt(r.term, ms[1..]);
      if r.term != g1.term {
        assert FirstAt(r.term, ms) == 1 + k;
        assert ms[1..][k..] == ms[1 + k..];
      } else if r.term != g.term {
        assert FirstAt(r.term, ms) == 0;
        assert ms[0..] == ms;
      }
    }
  }

  /** A term is only ever raised, to the maximum of the old one and the members'. */
  lemma PassTerm(g: Status, replicas: seq<bool>, ms: seq<Member>)
    ensures var r := Pass(g, replicas, ms);
            && AtMost(g.term, r.term)
            && (forall m :: m in ms ==> AtMost(m.term, r.term))
            && (r.term == g.term || exists m :: m in ms && m.term == r.term)
            && r.state == (if forall i :: 0 <= i < |replicas| ==> replicas[i] then Ready else NotReady)
  {
    FoldTerm(g.(state := AllTrue(replicas)), ms);
  }

  // ---------------------------------------------------------------------------
  // Convergence
  // ---------------------------------------------------------------------------

  /** A pass leaves nothing for a second one exactly when it has set a leader or there is none to set. */
  lemma SettledAfterOne(g: Status, replicas: seq<bool>, ms: seq<Member>)
    ensures var r := Pass(g, replicas, ms);
            Pass(r, replicas, ms) == r <==> r.leader.Some? || FirstLeader(ms).None?
  {
    var r := Pass(g, replicas, ms);
    FoldTerm(g.(state := AllTrue(replicas)), ms);
    FoldTerm(r, ms);
    FoldLeader(r, ms);
  }

  /** With members and pods that stay as they are, the third pass changes nothing. */
  lemma SettledAfterTwo(g: Status, replicas: seq<bool>, ms: seq<Member>)
    ensures var r := Pass(Pass(g, replicas, ms), replicas, ms);
            Pass(r, replicas, ms) == r
  {
    var r := Pass(g, replicas, ms);
    SettledAfterOne(r, replicas, ms);
    FoldTerm(g.(state := AllTrue(replicas)), ms);
    FoldTerm(r, ms);
    FoldLeader(r, ms);
  }

  /** When the members' greatest term is news and every member at it has a leader, one pass suffices,
      and takes the leader of the lowest-numbered such member. */
  lemma NewTermSettles(g: Status, replicas: seq<bool>, ms: seq<Member>, k: nat)
    requires k < |ms| && !AtMost(ms[k].term, g.term)
    requires forall m :: m in ms ==> AtMost(m.term, ms[k].term)
    requires forall i :: 0 <= i < k ==> ms[i].term != ms[k].term
    requires forall m :: m in ms && m.term == ms[k].term ==> m.leader.Some?
    ensures var r := Pass(g, replicas, ms);
            r.term == ms[k].term && r.leader == ms[k].leader && Pass(r, replicas, ms) == r
  {
    var g0 := g.(state := AllTrue(replicas));
    FoldTerm(g0, ms);
    FoldLeader(g0, ms);
    assert ms[k] in ms;
    SettledAfterOne(g, replicas, ms);
  }

  /** A member behind the new term can still supply its leader: the fold does not compare the terms again. */
  lemma StaleLeaderPublished()
    ensures Pass(Status(Unset, None, None), [true, true], [Member(Some(5), None), Member(Some(3), Some("old"))])
              == Status(Ready, Some(5), Some("old"))
  {
    var (a, b) := (Member(Some(5), None), Member(Some(3), Some("old")));
    var g := Status(Ready, None, None);
    assert [a, b][1..] == [b] && [b][1..] == [];
    assert Fold(g, [a, b]) == Fold(Absorb(g, a), [b]) == Fold(Absorb(Absorb(g, a), b), []);
  }

  /** The same members the other way round: the first pass raises the term, and the second, which finds no leader,
      takes one from the member in front that is behind the term. */
  lemma StaleLeaderPublishedLater()
    ensures var ms := [Member(Some(3), Some("old")), Member(Some(5), None)];
            && Pass(Status(Unset, None, None), [true, true], ms) == Status(Ready, Some(5), None)
            && Pass(Status(Ready, Some(5), None), [true, true], ms) == Status(Ready, Some(5), Some("old"))
  {
    var (a, b) := (Member(Some(3), Some("old")), Member(Some(5), None));
    assert [a, b][1..] == [b] && [b][1..] == [];
    forall g
      ensures Fold(g, [a, b]) == Absorb(Absorb(g, a), b)
    {
      assert Fold(g, [a, b]) == Fold(Absorb(g, a), [b]) == Fold(Absorb(Absorb(g, a), b), []);
    }
  }

  /** Where the leader a pass publishes comes from. */
  function LeaderSource(ms: seq<Member>, from: nat): (k: nat)
    requires from <= |ms|
    ensures from <= k <= |ms| && (k < |ms| ==> ms[k].leader.Some?)
    ensures forall i :: from <= i < k ==> ms[i].leader.None?
    decreases |ms| - from
  {
    if from == |ms| || ms[from].leader.Some? then from else LeaderSource(ms, from + 1)
  }

  lemma {:induction false} FirstLeaderIsSource(ms: seq<Member>, from: nat)
    requires from <= |ms|
    ensures FirstLeader(ms[from..]) == if LeaderSource(ms, from) < |ms| then ms[LeaderSource(ms, from)].leader else None
    decreases |ms| - from
  {
    if from < |ms| && ms[from].leader.None? {
      assert ms[from..][1..] == ms[from + 1..];
      FirstLeaderIsSource(ms, from + 1);
    }
  }

  /** Some member at the term has a leader, and no member behind the term has one in front of it. */
  ghost predicate CurrentLeaderFirst(ms: seq<Member>, term: Option<nat>, from: nat) {
    exists k :: from <= k < |ms| && ms[k].term == term && ms[k].leader.Some?
                && forall i :: from <= i < k && ms[i].term != term ==> ms[i].leader.None?
  }

  lemma SourceIsCurrent(ms: seq<Member>, term: Option<nat>, from: nat)
    requires from <= |ms|
    ensures var k := LeaderSource(ms, from);
            k < |ms| && ms[k].term == term <==> CurrentLeaderFirst(ms, term, from)
  {
    var source := LeaderSource(ms, from);
    if k :| from <= k < |ms| && ms[k].term == term && ms[k].leader.Some?
            && forall i :: from <= i < k && ms[i].term != term ==> ms[i].leader.None? {
      assert source <= k;
    }
  }

  /** From where on a pass looks for a leader: the first member at a raised term, or the first of all. */
  function SearchFrom(g: Status, term: Option<nat>, ms: seq<Member>): (k: nat)
    ensures k <= |ms|
  {
    if term != g.term then FirstAt(term, ms) else 0
  }

  /** A pass that does not find a leader for its term publishes the first it comes to, if any, and that was reported
      at the term exactly when, among the members it looks through, none behind the term reports one first. */
  lemma LeaderIsCurrent(g: Status, replicas: seq<bool>, ms: seq<Member>)
    requires Pass(g, replicas, ms).term != g.term || g.leader.None?
    ensures var r := Pass(g, replicas, ms);
            var from := SearchFrom(g, r.term, ms);
            var source := LeaderSource(ms, from);
            && r.leader == (if source < |ms| then ms[source].leader else None)
            && (source < |ms| && ms[source].term == r.term <==> CurrentLeaderFirst(ms, r.term, from))
  {
    var r := Pass(g, replicas, ms);
    var from := SearchFrom(g, r.term, ms);
    FoldLeader(g.(state := AllTrue(replicas)), ms);
    assert ms[0..] == ms;
    FirstLeaderIsSource(ms, from);
    SourceIsCurrent(ms, r.term, from);
  }

  /** Any other pass keeps the leader it finds. */
  lemma LeaderKept(g: Status, replicas: seq<bool>, ms: seq<Member>)
    requires Pass(g, replicas, ms).term == g.term && g.leader.Some?
    ensures Pass(g, replicas, ms).leader == g.leader
  {
    FoldLeader(g.(state := AllTrue(replicas)), ms);
  }

  // ---------------------------------------------------------------------------
  // Runs
  // ---------------------------------------------------------------------------

  /** What a pass reads. */
  datatype Input = Input(replicas: seq<bool>, members: seq<Member>)

  /** The statuses stored over a run: at every step a pass over some input, or nothing. */
  predicate IsRun(history: seq<Status>, inputs: seq<Option<Input>>) {
    && |history| == |inputs| + 1
    && forall i :: 0 <= i < |inputs| ==>
         history[i + 1] == match inputs[i]
                           case None => history[i]
                           case Some(input) => Pass(history[i], input.replicas, input.members)
  }

  lemma {:induction false} RunKeepsLeader(history: seq<Status>, inputs: seq<Option<Input>>, i: nat, j: nat)
    requires IsRun(history, inputs) && i <= j < |history|
    ensures AtMost(history[i].term, history[j].term)
    ensures history[i].term == history[j].term && history[i].leader.Some? ==> history[j].leader == history[i].leader
    decreases j
  {
    if i < j {
      RunKeepsLeader(history, inputs, i, j - 1);
      if inputs[j - 1].Some? {
        var (g, input) := (history[j - 1], inputs[j - 1].value);
        FoldTerm(g.(state := AllTrue(input.replicas)), input.members);
        FoldLeader(g.(state := AllTrue(input.replicas)), input.members);
      }
    }
  }

  /** Over any run, whatever the members report, no two leaders are published with the same term. */
  lemma OneLeaderPerTerm(history: seq<Status>, inputs: seq<Option<Input>>, i: nat, j: nat)
    requires IsRun(history, inputs) && i < |history| && j < |history|
    requires history[i].term == history[j].term && history[i].leader.Some? && history[j].leader.Some?
    ensures history[i].leader == history[j].leader
  {
    RunKeepsLeader(history, inputs, if i < j then i else j, if i < j then j else i);
  }

  /** The pass finds no leader for its term, and publishes one. */
  predicate Publishes(g: Status, input: Input) {
    var r := Pass(g, input.replicas, input.members);
    r.leader.Some? && (r.term != g.term || g.leader.None?)
  }

  /** The term at which the member that the published leader comes from reported it. */
  function ReportedAt(history: seq<Status>, inputs: seq<Option<Input>>, n: nat): Option<nat>
    requires IsRun(history, inputs) && n < |history|
  {
    if n == 0 then None
    else
      match inputs[n - 1]
      case None => ReportedAt(history, inputs, n - 1)
      case Some(input) =>
        if Publishes(history[n - 1], input) then
          var from := SearchFrom(history[n - 1], history[n].term, input.members);
          LeaderIsCurrent(history[n - 1], input.replicas, input.members);
          input.members[LeaderSource(input.members, from)].term
        else ReportedAt(history, inputs, n - 1)
  }

  /** Pass n publishes a leader, and not one that is behind the term. */
  ghost predicate PublishesCurrent(history: seq<Status>, inputs: seq<Option<Input>>, n: nat)
    requires IsRun(history, inputs) && n < |inputs|
  {
    inputs[n].Some? && Publishes(history[n], inputs[n].value) ==>
      var (g, ms) := (history[n], inputs[n].value.members);
      CurrentLeaderFirst(ms, history[n + 1].term, SearchFrom(g, history[n + 1].term, ms))
  }

  lemma {:induction false} ReportedAtTerm(history: seq<Status>, inputs: seq<Option<Input>>, n: nat)
    requires IsRun(history, inputs) && n < |history| && history[0].leader.None?
    requires forall i :: 0 <= i < n ==> PublishesCurrent(history, inputs, i)
    ensures history[n].leader.Some? ==> ReportedAt(history, inputs, n) == history[n].term
  {
    if n > 0 {
      ReportedAtTerm(history, inputs, n - 1);
      assert PublishesCurrent(history, inputs, n - 1);
      assert history[n] == history[n - 1 + 1];
      if inputs[n - 1].Some? && Publishes(history[n - 1], inputs[n - 1].value) {
        LeaderIsCurrent(history[n - 1], inputs[n - 1].value.replicas, inputs[n - 1].value.members);
      }
    }
  }

  /** Over a run from a status without a leader, the leader published was reported at the term published at every
      point, exactly when in every pass that published one no member behind the term came first. */
  lemma LeadersCurrentThroughout(history: seq<Status>, inputs: seq<Option<Input>>)
    requires IsRun(history, inputs) && history[0].leader.None?
    ensures (forall n :: 0 <= n < |history| && history[n].leader.Some? ==>
               ReportedAt(history, inputs, n) == history[n].term)
            <==> forall i :: 0 <= i < |inputs| ==> PublishesCurrent(history, inputs, i)
  {
    if forall i :: 0 <= i < |inputs| ==> PublishesCurrent(history, inputs, i) {
      forall n | 0 <= n < |history| && history[n].leader.Some?
        ensures ReportedAt(history, inputs, n) == history[n].term
      {
        ReportedAtTerm(history, inputs, n);
      }
    }
    if forall n :: 0 <= n < |history| && history[n].leader.Some? ==> ReportedAt(history, inputs, n) == history[n].term {
      forall i | 0 <= i < |inputs|
        ensures PublishesCurrent(history, inputs, i)
      {
        if inputs[i].Some? && Publishes(history[i], inputs[i].value) {
          LeaderIsCurrent(history[i], inputs[i].value.replicas, inputs[i].value.members);
          assert ReportedAt(history, inputs, i + 1) == history[i + 1].term;
        }
      }
    }
  }
}
