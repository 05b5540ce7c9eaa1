/** The numbering of replicas in Protocol, and the configuration that updateConfig makes of a leader's name. */
module NodeIDs {
  import opened Options

  // ---------------------------------------------------------------------------
  // Strings in order
  // ---------------------------------------------------------------------------

  predicate Less(a: string, b: string) {
    b != [] && (a == [] || a[0] < b[0] || (a[0] == b[0] && Less(a[1..], b[1..])))
  }

  lemma {:induction false} LessIsTotal(a: string, b: string)
    ensures Less(a, b) || a == b || Less(b, a)
    ensures !Less(a, a)
    decreases |a|
  {
    if a != [] {
      LessIsTotal(a[1..], if b == [] then [] else b[1..]);
      if b != [] && a[0] == b[0] && a[1..] == b[1..] { assert a == [a[0]] + a[1..] == b; }
    }
  }

  lemma {:induction false} LessIsTransitive(a: string, b: string, c: string)
    requires Less(a, b) && Less(b, c)
    ensures Less(a, c)
    decreases |a|
  {
    if a != [] && a[0] == b[0] && b[0] == c[0] { LessIsTransitive(a[1..], b[1..], c[1..]); }
  }

  /** Go's order of strings: they agree up to a place where one ends, or has the smaller character. */
  ghost predicate Precedes(a: string, b: string) {
    exists k :: 0 <= k <= |a| && k <= |b| && a[..k] == b[..k]
                && ((k == |a| && k < |b|) || (k < |a| && k < |b| && a[k] < b[k]))
  }

  lemma {:induction false} LessIsPrecedes(a: string, b: string)
    ensures Less(a, b) <==> Precedes(a, b)
    decreases |a|
  {
    if a == [] {
      if b != [] { assert a[..0] == b[..0]; }
    } else if b != [] {
      if a[0] == b[0] {
        LessIsPrecedes(a[1..], b[1..]);
        SameHead(a, b);
      } else if a[0] < b[0] {
        assert a[..0] == b[..0];
      } else {
        HeadsInOrder(a, b);
      }
    }
  }

  lemma HeadsInOrder(a: string, b: string)
    requires a != [] && b != []
    ensures Precedes(a, b) ==> a[0] <= b[0]
  {
    if k :| 0 < k <= |a| && k <= |b| && a[..k] == b[..k] { assert a[..k][0] == b[..k][0]; }
  }

  /** A character in front of both changes nothing. */
  lemma SameHead(a: string, b: string)
    requires a != [] && b != [] && a[0] == b[0]
    ensures Precedes(a, b) <==> Precedes(a[1..], b[1..])
  {
    var (x, y) := (a[1..], b[1..]);
    if k :| 0 <= k <= |x| && k <= |y| && x[..k] == y[..k]
            && ((k == |x| && k < |y|) || (k < |x| && k < |y| && x[k] < y[k])) {
      assert a[..k + 1] == [a[0]] + x[..k] && b[..k + 1] == [b[0]] + y[..k];
    }
    if k :| 0 <= k <= |a| && k <= |b| && a[..k] == b[..k]
            && ((k == |a| && k < |b|) || (k < |a| && k < |b| && a[k] < b[k])) {
      assert k > 0;
      assert x[..k - 1] == a[..k][1..] && y[..k - 1] == b[..k][1..];
    }
  }

  predicate Ordered(ss: seq<string>) { forall i, j :: 0 <= i < j < |ss| ==> !Less(ss[j], ss[i]) }

  // ---------------------------------------------------------------------------
  // Replicas in order
  // ---------------------------------------------------------------------------

  /** A replica: its id and its API address, "host:port". */
  datatype Replica = Replica(id: string, address: string)

  predicate Ascending(rs: seq<Replica>) { forall i, j :: 0 <= i < j < |rs| ==> Less(rs[i].id, rs[j].id) }

  /** The replicas come from a map keyed by id. */
  predicate DistinctIDs(rs: seq<Replica>) { forall i, j :: 0 <= i < j < |rs| ==> rs[i].id != rs[j].id }

  function Insert(r: Replica, rs: seq<Replica>): (out: seq<Replica>)
    ensures multiset(out) == multiset(rs) + multiset{r}
    decreases |rs|
  {
    if rs == [] || Less(r.id, rs[0].id) then [r] + rs
    else
      assert rs == [rs[0]] + rs[1..];
      [rs[0]] + Insert(r, rs[1..])
  }

  /** The replicas by ascending id. */
  function Sorted(rs: seq<Replica>): (out: seq<Replica>)
    ensures multiset(out) == multiset(rs)
    decreases |rs|
  {
    if rs == [] then [] else
    assert rs == [rs[0]] + rs[1..];
    Insert(rs[0], Sorted(rs[1..]))
  }

  lemma {:induction false} InsertAscending(r: Replica, rs: seq<Replica>)
    requires Ascending(rs) && forall x :: x in rs ==> x.id != r.id
    ensures Ascending(Insert(r, rs))
    decreases |rs|
  {
    if rs == [] {
    } else if Less(r.id, rs[0].id) {
      forall j | 0 < j < |rs|
        ensures Less(r.id, rs[j].id)
      {
        LessIsTransitive(r.id, rs[0].id, rs[j].id);
      }
    } else {
      LessIsTotal(rs[0].id, r.id);
      assert rs[0] in rs;
      assert forall x :: x in rs[1..] ==> x in rs;
      InsertAscending(r, rs[1..]);
      var rest := Insert(r, rs[1..]);
      forall j | 0 <= j < |rest|
        ensures Less(rs[0].id, rest[j].id)
      {
        assert rest[j] in multiset(rest);
        assert rest[j] == r || rest[j] in rs[1..];
      }
    }
  }

  lemma {:induction false} SortedAscending(rs: seq<Replica>)
    requires DistinctIDs(rs)
    ensures Ascending(Sorted(rs))
    decreases |rs|
  {
    if rs != [] {
      SortedAscending(rs[1..]);
      forall x | x in Sorted(rs[1..])
        ensures x.id != rs[0].id
      {
        assert x in multiset(Sorted(rs[1..]));
      }
      InsertAscending(rs[0], Sorted(rs[1..]));
    }
  }

  /** Only the first replica can be the least. */
  lemma HeadIsLeast(a: seq<Replica>, b: seq<Replica>)
    requires Ascending(a) && Ascending(b) && a != [] && b != [] && a[0] in b && b[0] in a
    ensures a[0] == b[0]
  {
    var (x, y) := (a[0], b[0]);
    var i :| 0 <= i < |b| && b[i] == x;
    var j :| 0 <= j < |a| && a[j] == y;
    if i > 0 && j > 0 {
      LessIsTransitive(x.id, y.id, x.id);
      LessIsTotal(x.id, x.id);
    }
  }

  lemma TailAscending(a: seq<Replica>)
    requires Ascending(a) && a != []
    ensures Ascending(a[1..])
  {}

  /** There is one way to put replicas in ascending order. */
  lemma {:induction false} AscendingUnique(a: seq<Replica>, b: seq<Replica>)
    requires Ascending(a) && Ascending(b) && multiset(a) == multiset(b)
    ensures a == b
    decreases |a|
  {
    hide Less, Ascending;
    if a == [] || b == [] {
      assert |multiset(a)| == |multiset(b)|;
    } else {
      assert a[0] in multiset(b) && b[0] in multiset(a);
      HeadIsLeast(a, b);
      var (ta, tb) := (a[1..], b[1..]);
      assert a == [a[0]] + ta && b == [b[0]] + tb;
      assert multiset(ta) == multiset(a) - multiset{a[0]} && multiset(tb) == multiset(b) - multiset{b[0]};
      TailAscending(a);
      TailAscending(b);
      AscendingUnique(ta, tb);
    }
  }

  /** Whatever order the replicas are enumerated in, sorting them gives every node the same list. */
  lemma SortIsCanonical(a: seq<Replica>, b: seq<Replica>)
    requires DistinctIDs(a) && DistinctIDs(b) && multiset(a) == multiset(b)
    ensures Sorted(a) == Sorted(b) && Ascending(Sorted(a)) && DistinctIDs(Sorted(a))
  {
    SortedAscending(a);
    SortedAscending(b);
    AscendingUnique(Sorted(a), Sorted(b));
    AscendingDistinct(Sorted(a));
  }

  lemma AscendingDistinct(a: seq<Replica>)
    requires Ascending(a)
    ensures DistinctIDs(a)
  {
    forall i, j | 0 <= i < j < |a|
      ensures a[i].id != a[j].id
    {
      LessIsTotal(a[i].id, a[i].id);
    }
  }

  // ---------------------------------------------------------------------------
  // Ids
  // ---------------------------------------------------------------------------

  function IDs(rs: seq<Replica>): seq<string> { seq(|rs|, i requires 0 <= i < |rs| => rs[i].id) }
  function Addresses(rs: seq<Replica>): seq<string> { seq(|rs|, i requires 0 <= i < |rs| => rs[i].address) }

  /** Node i + 1 is the replica at index i. */
  function Numbered(ss: seq<string>): (m: map<nat, string>)
    ensures forall id: nat :: id in m <==> 1 <= id <= |ss|
    ensures forall id: nat :: id in m ==> m[id] == ss[id - 1]
    decreases |ss|
  {
    if ss == [] then map[] else Numbered(ss[..|ss| - 1])[|ss| := ss[|ss| - 1]]
  }

  function MemberIDs(rs: seq<Replica>): map<nat, string> { Numbered(IDs(rs)) }
  function APIAddresses(rs: seq<Replica>): map<nat, string> { Numbered(Addresses(rs)) }

  /** The other way round; a later replica would overwrite an earlier one of the same id. */
  function NodeIDs(rs: seq<Replica>): (m: map<string, nat>)
    decreases |rs|
  {
    if rs == [] then map[] else NodeIDs(rs[..|rs| - 1])[rs[|rs| - 1].id := |rs|]
  }

  lemma {:induction false} NodeIDsAre(rs: seq<Replica>)
    requires DistinctIDs(rs)
    ensures forall i :: 0 <= i < |rs| ==> rs[i].id in NodeIDs(rs) && NodeIDs(rs)[rs[i].id] == i + 1
    ensures forall id :: id in NodeIDs(rs) ==> exists i :: 0 <= i < |rs| && rs[i].id == id
    decreases |rs|
  {
    if rs != [] {
      var front := rs[..|rs| - 1];
      NodeIDsAre(front);
      forall id | id in NodeIDs(rs)
        ensures exists i :: 0 <= i < |rs| && rs[i].id == id
      {
        if id in NodeIDs(front) {
          var i :| 0 <= i < |front| && front[i].id == id;
          assert rs[i].id == id;
        }
      }
    }
  }

  /** Nothing but a replica's id has a number. */
  lemma {:induction false} NumberedAreIDs(rs: seq<Replica>, id: string)
    requires id in NodeIDs(rs)
    ensures exists i :: 0 <= i < |rs| && rs[i].id == id
    decreases |rs|
  {
    if rs[|rs| - 1].id != id {
      var front := rs[..|rs| - 1];
      NumberedAreIDs(front, id);
      var i :| 0 <= i < |front| && front[i].id == id;
      assert rs[i].id == id;
    }
  }

  lemma NodeOf(rs: seq<Replica>, id: string)
    ensures DistinctIDs(rs) ==>
              forall i :: 0 <= i < |rs| && rs[i].id == id ==> id in NodeIDs(rs) && NodeIDs(rs)[id] == i + 1
    ensures (forall i :: 0 <= i < |rs| ==> rs[i].id != id) ==> id !in NodeIDs(rs)
  {
    if DistinctIDs(rs) { NodeIDsAre(rs); }
    if id in NodeIDs(rs) { NumberedAreIDs(rs, id); }
  }

  /** Node k is the replica at index k - 1, by its id and by its address; there is no other node. */
  lemma NodesAre(rs: seq<Replica>, k: nat)
    ensures NameOf(rs, k) == if 1 <= k <= |rs| then rs[k - 1].id else ""
    ensures k in APIAddresses(rs) <==> 1 <= k <= |rs|
    ensures 1 <= k <= |rs| ==> APIAddresses(rs)[k] == rs[k - 1].address
  {}

  /** With distinct ids, the two maps are each other's inverse. */
  lemma IDsInverse(rs: seq<Replica>)
    requires DistinctIDs(rs)
    ensures forall n :: n in MemberIDs(rs) ==> MemberIDs(rs)[n] in NodeIDs(rs) && NodeIDs(rs)[MemberIDs(rs)[n]] == n
    ensures forall id :: id in NodeIDs(rs) ==> NodeIDs(rs)[id] in MemberIDs(rs) && MemberIDs(rs)[NodeIDs(rs)[id]] == id
  {
    NodeIDsAre(rs);
  }

  // ---------------------------------------------------------------------------
  // The objects
  // ---------------------------------------------------------------------------

  /** Protocol: the sorted replicas and the maps computed from them when first asked for. */
  class Protocol {
    var replicas: seq<Replica>
    var memberIDs: Option<map<nat, string>>
    var nodeIDs: Option<map<string, nat>>
    var apiAddresses: Option<map<nat, string>>

    /** What is cached was computed from the replicas there are. */
    predicate Valid()
      reads this
    {
      && (memberIDs.Some? ==> memberIDs.value == MemberIDs(replicas))
      && (nodeIDs.Some? ==> nodeIDs.value == NodeIDs(replicas))
      && (apiAddresses.Some? ==> apiAddresses.value == APIAddresses(replicas))
    }

    constructor ()
      ensures Valid() && replicas == [] && memberIDs == None && nodeIDs == None && apiAddresses == None
    {
      replicas, memberIDs, nodeIDs, apiAddresses := [], None, None, None;
    }

    /** The part of Start that sorts the replicas, in whatever order the map hands them out. */
    method SetReplicas(enumeration: seq<Replica>)
      requires memberIDs == None && nodeIDs == None && apiAddresses == None
      modifies this`replicas
      ensures Valid() && replicas == Sorted(enumeration) && multiset(replicas) == multiset(enumeration)
      ensures DistinctIDs(enumeration) ==>
                forall i, j :: 0 <= i < j < |replicas| ==> Precedes(replicas[i].id, replicas[j].id)
    {
      var sorted: seq<Replica> := [];
      var i := |enumeration|;
      while i > 0
        invariant 0 <= i <= |enumeration| && sorted == Sorted(enumeration[i..])
      {
        i := i - 1;
        assert enumeration[i..][1..] == enumeration[i + 1..];
        sorted := Insert(enumeration[i], sorted);
      }
      assert enumeration[0..] == enumeration;
      replicas := sorted;
      if DistinctIDs(enumeration) {
        SortedAscending(enumeration);
        forall i, j | 0 <= i < j < |replicas|
          ensures Precedes(replicas[i].id, replicas[j].id)
        {
          LessIsPrecedes(replicas[i].id, replicas[j].id);
        }
      }
    }

    /** getMemberID; a number that is no node's gives the empty string. */
    method GetMemberID(id: nat) returns (member: string)
      requires Valid()
      modifies this`memberIDs
      ensures Valid() && member == NameOf(replicas, id)
    {
      if memberIDs.None? {
        var m: map<nat, string> := map[];
        for i := 0 to |replicas|
          invariant m == Numbered(IDs(replicas)[..i])
        {
          assert IDs(replicas)[..i + 1][..i] == IDs(replicas)[..i];
          m := m[i + 1 := replicas[i].id];
        }
        assert IDs(replicas)[..|replicas|] == IDs(replicas);
        memberIDs := Some(m);
      }
      return if id in memberIDs.value then memberIDs.value[id] else "";
    }

    /** getNodeID; a name that is no member's gives 0. */
    method GetNodeID(id: string) returns (node: nat)
      requires Valid()
      modifies this`nodeIDs
      ensures Valid() && node == if id in NodeIDs(replicas) then NodeIDs(replicas)[id] else 0
    {
      if nodeIDs.None? {
        var m: map<string, nat> := map[];
        for i := 0 to |replicas|
          invariant m == NodeIDs(replicas[..i])
        {
          assert replicas[..i + 1][..i] == replicas[..i];
          m := m[replicas[i].id := i + 1];
        }
        assert replicas[..|replicas|] == replicas;
        nodeIDs := Some(m);
      }
      return if id in nodeIDs.value then nodeIDs.value[id] else 0;
    }

    method GetAPIAddresses() returns (addresses: map<nat, string>)
      requires Valid()
      modifies this`apiAddresses
      ensures Valid() && addresses == APIAddresses(replicas)
    {
      if apiAddresses.None? {
        var m: map<nat, string> := map[];
        for i := 0 to |replicas|
          invariant m == Numbered(Addresses(replicas)[..i])
        {
          assert Addresses(replicas)[..i + 1][..i] == Addresses(replicas)[..i];
          m := m[i + 1 := replicas[i].address];
        }
        assert Addresses(replicas)[..|replicas|] == Addresses(replicas);
        apiAddresses := Some(m);
      }
      return apiAddresses.value;
    }
  }

  // ---------------------------------------------------------------------------
  // updateConfig
  // ---------------------------------------------------------------------------

  datatype Config = Config(leader: string, followers: seq<string>)

  function InsertString(x: string, ss: seq<string>): (out: seq<string>)
    ensures multiset(out) == multiset(ss) + multiset{x}
    decreases |ss|
  {
    if ss == [] || !Less(ss[0], x) then [x] + ss
    else
      assert ss == [ss[0]] + ss[1..];
      [ss[0]] + InsertString(x, ss[1..])
  }

  lemma {:induction false} InsertOrdered(x: string, ss: seq<string>)
    requires Ordered(ss)
    ensures Ordered(InsertString(x, ss))
    decreases |ss|
  {
    if ss == [] {
    } else if !Less(ss[0], x) {
      forall j | 0 < j < |ss|
        ensures !Less(ss[j], x)
      {
        NotLessTransitive(x, ss[0], ss[j]);
      }
    } else {
      InsertOrdered(x, ss[1..]);
      var rest := InsertString(x, ss[1..]);
      forall j | 0 <= j < |rest|
        ensures !Less(rest[j], ss[0])
      {
        assert rest[j] in multiset(rest);
        if Less(x, ss[0]) {
          LessIsTransitive(x, ss[0], x);
          LessIsTotal(x, x);
        }
      }
    }
  }

  lemma NotLessTransitive(a: string, b: string, c: string)
    requires !Less(b, a) && !Less(c, b)
    ensures !Less(c, a)
  {
    LessIsTotal(a, b);
    LessIsTotal(b, c);
    if Less(c, a) {
      if a == b {
      } else if b == c {
      } else {
        LessIsTransitive(a, b, c);
        LessIsTransitive(a, c, a);
        LessIsTotal(a, a);
      }
    }
  }

  /** The address of a node that is in a set. */
  function AddressOf(rs: seq<Replica>, ids: set<nat>, id: nat): multiset<string>
    requires 1 <= id <= |rs|
  {
    if id in ids then multiset{rs[id - 1].address} else multiset{}
  }

  /** The addresses of the nodes in a set, as often as there are nodes that have them. */
  function AddressesOf(rs: seq<Replica>, ids: set<nat>): multiset<string>
    decreases |rs|
  {
    if rs == [] then multiset{} else AddressesOf(rs[..|rs| - 1], ids) + AddressOf(rs, ids, |rs|)
  }

  lemma {:induction false} AddressesGrow(rs: seq<Replica>, ids: set<nat>, id: nat)
    requires 1 <= id <= |rs| && id !in ids
    ensures AddressesOf(rs, ids + {id}) == AddressesOf(rs, ids) + multiset{rs[id - 1].address}
    decreases |rs|
  {
    hide AddressesOf;
    var n := |rs|;
    var (front, more) := (rs[..n - 1], ids + {id});
    var (a, x) := (AddressesOf(front, ids), multiset{rs[id - 1].address});
    AddressesSnoc(rs, ids);
    AddressesSnoc(rs, more);
    if id < n {
      AddressesGrow(front, ids, id);
      assert front[id - 1] == rs[id - 1];
      Exchange(a, x, AddressOf(rs, ids, n));
    } else {
      AddressesBelow(front, ids, id);
      assert AddressesOf(rs, ids) == a;
    }
  }

  lemma AddressesSnoc(rs: seq<Replica>, ids: set<nat>)
    requires rs != []
    ensures AddressesOf(rs, ids) == AddressesOf(rs[..|rs| - 1], ids) + AddressOf(rs, ids, |rs|)
  {}

  lemma Exchange(a: multiset<string>, b: multiset<string>, c: multiset<string>)
    ensures (a + b) + c == (a + c) + b
  {}

  lemma {:induction false} AddressesBelow(rs: seq<Replica>, ids: set<nat>, id: nat)
    requires id > |rs|
    ensures AddressesOf(rs, ids + {id}) == AddressesOf(rs, ids)
    decreases |rs|
  {
    if rs != [] { AddressesBelow(rs[..|rs| - 1], ids, id); }
  }

  lemma {:induction false} NoAddresses(rs: seq<Replica>)
    ensures AddressesOf(rs, {}) == multiset{}
    decreases |rs|
  {
    if rs != [] { NoAddresses(rs[..|rs| - 1]); }
  }

  lemma {:induction false} AllAddresses(rs: seq<Replica>, ids: set<nat>)
    requires forall id :: 1 <= id <= |rs| ==> id in ids
    ensures AddressesOf(rs, ids) == multiset(Addresses(rs))
    decreases |rs|
  {
    if rs != [] {
      var front := rs[..|rs| - 1];
      AllAddresses(front, ids);
      assert Addresses(rs) == Addresses(front) + [rs[|rs| - 1].address];
    }
  }

  /** The loop over the addresses, in whatever order the map hands them out: everybody's but the leader's. */
  method Followers(ghost rs: seq<Replica>, apiAddresses: map<nat, string>, leaderID: nat)
    returns (followers: seq<string>)
    requires forall id: nat :: id in apiAddresses <==> 1 <= id <= |rs|
    requires forall id: nat :: id in apiAddresses ==> apiAddresses[id] == rs[id - 1].address
    ensures multiset(followers) + (if 1 <= leaderID <= |rs| then multiset{rs[leaderID - 1].address} else multiset{})
              == multiset(Addresses(rs))
  {
    hide AddressesOf, Addresses;
    followers := [];
    var rest := apiAddresses.Keys;
    ghost var others: set<nat> := {};
    NoAddresses(rs);
    while rest != {}
      invariant leaderID !in others && others !! rest
      invariant rest <= apiAddresses.Keys && apiAddresses.Keys - rest - {leaderID} == others
      invariant multiset(followers) == AddressesOf(rs, others)
      decreases rest
    {
      var id :| id in rest;
      if id != leaderID {
        AddressesGrow(rs, others, id);
        followers := followers + [apiAddresses[id]];
        others := others + {id};
      }
      rest := rest - {id};
    }
    assert forall id: nat :: 1 <= id <= |rs| ==> id in others + {leaderID};
    if 1 <= leaderID <= |rs| {
      AddressesGrow(rs, others, leaderID);
      AllAddresses(rs, others + {leaderID});
    } else {
      AllAddresses(rs, others);
    }
  }

  /** sort.Slice on the followers. */
  method SortStrings(ss: seq<string>) returns (sorted: seq<string>)
    ensures Ordered(sorted) && multiset(sorted) == multiset(ss)
    ensures forall i, j :: 0 <= i < j < |sorted| ==> sorted[i] == sorted[j] || Precedes(sorted[i], sorted[j])
  {
    hide Less, Ordered, InsertString, Precedes;
    sorted := [];
    assert Ordered(sorted) by { EmptyOrdered(); }
    for i := 0 to |ss|
      invariant Ordered(sorted) && multiset(sorted) == multiset(ss[..i])
    {
      assert ss[..i + 1] == ss[..i] + [ss[i]];
      InsertOrdered(ss[i], sorted);
      sorted := InsertString(ss[i], sorted);
    }
    assert ss[..|ss|] == ss;
    OrderedPrecedes(sorted);
  }

  lemma OrderedPrecedes(ss: seq<string>)
    requires Ordered(ss)
    ensures forall i, j :: 0 <= i < j < |ss| ==> ss[i] == ss[j] || Precedes(ss[i], ss[j])
  {
    forall i, j | 0 <= i < j < |ss|
      ensures ss[i] == ss[j] || Precedes(ss[i], ss[j])
    {
      LessIsTotal(ss[i], ss[j]);
      LessIsPrecedes(ss[i], ss[j]);
    }
  }

  lemma EmptyOrdered()
    ensures Ordered([])
  {}

  /** The configuration in which node leaderID leads and everybody else follows, in order. */
  ghost predicate Leads(config: Config, rs: seq<Replica>, leaderID: nat) {
    && Ordered(config.followers)
    && if 1 <= leaderID <= |rs| then
         config.leader == rs[leaderID - 1].address
         && multiset(config.followers) + multiset{config.leader} == multiset(Addresses(rs))
       else config.leader == "" && multiset(config.followers) == multiset(Addresses(rs))
  }

  /** What Raft tells the node of a partition's leader: a term, and the number of a node or of none. */
  datatype LeaderInfo = LeaderInfo(term: nat, leaderID: nat)

  /** The name the published event carries. */
  function NameOf(rs: seq<Replica>, k: nat): string {
    if k in MemberIDs(rs) then MemberIDs(rs)[k] else ""
  }

  /** The loop in Start takes an event up only if it has a term and names a leader. */
  predicate TakenUp(rs: seq<Replica>, info: LeaderInfo) {
    info.term > 0 && 1 <= info.leaderID <= |rs| && rs[info.leaderID - 1].id != ""
  }

  lemma TakenUpIs(rs: seq<Replica>, info: LeaderInfo)
    ensures TakenUp(rs, info) <==> info.term > 0 && NameOf(rs, info.leaderID) != ""
  {}

  /** The node whose event was taken up last, or 0. */
  function LastTakenUp(rs: seq<Replica>, infos: seq<LeaderInfo>): (k: nat)
    ensures k <= |rs|
    decreases |infos|
  {
    if infos == [] then 0
    else
      var n := |infos| - 1;
      if TakenUp(rs, infos[n]) then infos[n].leaderID else LastTakenUp(rs, infos[..n])
  }

  /** The leader a partition has after a run is the last one that any event named. */
  ghost predicate InForce(rs: seq<Replica>, before: Config, infos: seq<LeaderInfo>, after: Config) {
    var k := LastTakenUp(rs, infos);
    if k == 0 then after == before else Leads(after, rs, k)
  }

  /** The same in terms of replicas, whatever their numbers: the one that is named leads with its address, all others
      follow by theirs, in order; where none is named so, all follow nobody. */
  ghost predicate IsConfigFor(config: Config, rs: seq<Replica>, leader: string) {
    && (forall i, j :: 0 <= i < j < |config.followers| ==>
          config.followers[i] == config.followers[j] || Precedes(config.followers[i], config.followers[j]))
    && (DistinctIDs(rs) ==> forall i :: 0 <= i < |rs| && rs[i].id == leader ==>
          config.leader == rs[i].address
          && multiset(config.followers) + multiset{rs[i].address} == multiset(Addresses(rs)))
    && ((forall i :: 0 <= i < |rs| ==> rs[i].id != leader) ==>
          config.leader == "" && multiset(config.followers) == multiset(Addresses(rs)))
  }

  lemma AddressesAre(rs: seq<Replica>)
    ensures forall id: nat :: id in APIAddresses(rs) <==> 1 <= id <= |rs|
    ensures forall id: nat :: id in APIAddresses(rs) ==> APIAddresses(rs)[id] == rs[id - 1].address
  {}

  lemma LeadsNamed(config: Config, rs: seq<Replica>, leader: string)
    requires Leads(config, rs, if leader in NodeIDs(rs) then NodeIDs(rs)[leader] else 0)
    ensures IsConfigFor(config, rs, leader)
  {
    hide NodeIDs, Ordered, Precedes, DistinctIDs, Addresses;
    OrderedPrecedes(config.followers);
    NodeOf(rs, leader);
  }

  class Partition {
    const protocol: Protocol
    var config: Config

    constructor (protocol: Protocol)
      ensures this.protocol == protocol && config == Config("", [])
    {
      this.protocol := protocol;
      config := Config("", []);
    }

    /** updateConfig, up to the sends. A leader that is nobody's id leaves the leader's address empty
        and everybody a follower. */
    method UpdateConfig(leader: string)
      requires protocol.Valid()
      modifies this, protocol`nodeIDs, protocol`apiAddresses
      ensures protocol.Valid()
      ensures var ids := NodeIDs(protocol.replicas);
              Leads(config, protocol.replicas, if leader in ids then ids[leader] else 0)
      ensures IsConfigFor(config, protocol.replicas, leader)
    {
      hide Ordered, NodeIDs, Precedes, DistinctIDs, Addresses, APIAddresses, IsConfigFor;
      var leaderID := protocol.GetNodeID(leader);
      var apiAddresses := protocol.GetAPIAddresses();
      AddressesAre(protocol.replicas);
      var followers := Followers(protocol.replicas, apiAddresses, leaderID);
      var sorted := SortStrings(followers);
      config := Config(if leaderID in apiAddresses then apiAddresses[leaderID] else "", sorted);
      LeadsNamed(config, protocol.replicas, leader);
    }

    /** A leader event, from Raft through the listener to the loop in Start: with a term and the number of a node
        that has a name, this node's address leads and everybody else follows; otherwise nothing changes. */
    method LeaderUpdated(info: LeaderInfo)
      requires protocol.Valid() && DistinctIDs(protocol.replicas)
      modifies this, protocol`memberIDs, protocol`nodeIDs, protocol`apiAddresses
      ensures protocol.Valid()
      ensures if TakenUp(protocol.replicas, info) then Leads(config, protocol.replicas, info.leaderID)
              else config == old(config)
      ensures var (rs, k) := (protocol.replicas, info.leaderID);
              if info.term > 0 && 1 <= k <= |rs| && rs[k - 1].id != "" then
                IsConfigFor(config, rs, rs[k - 1].id)
              else config == old(config)
    {
      hide Leads, NodeIDs, DistinctIDs, IsConfigFor;
      NodeIDsAre(protocol.replicas);
      TakenUpIs(protocol.replicas, info);
      var member := protocol.GetMemberID(info.leaderID);
      if info.term > 0 && member != "" { UpdateConfig(member); }
    }

    /** The loop over the events of this partition. */
    method LeaderEvents(infos: seq<LeaderInfo>)
      requires protocol.Valid() && DistinctIDs(protocol.replicas)
      modifies this, protocol`memberIDs, protocol`nodeIDs, protocol`apiAddresses
      ensures protocol.Valid() && InForce(protocol.replicas, old(config), infos, config)
    {
      hide Leads, DistinctIDs;
      for i := 0 to |infos|
        invariant protocol.Valid() && InForce(protocol.replicas, old(config), infos[..i], config)
      {
        assert infos[..i + 1][..i] == infos[..i];
        LeaderUpdated(infos[i]);
      }
      assert infos[..|infos|] == infos;
    }
  }

  // ---------------------------------------------------------------------------
  // The leader that stays
  // ---------------------------------------------------------------------------

  /** The number of the node that an event says leads; 0 for none. */
  function Told(rs: seq<Replica>, info: LeaderInfo): nat {
    if 1 <= info.leaderID <= |rs| then info.leaderID else 0
  }

  lemma {:induction false} LastTakenUpIsSome(rs: seq<Replica>, infos: seq<LeaderInfo>)
    ensures LastTakenUp(rs, infos) != 0 <==> exists i :: 0 <= i < |infos| && TakenUp(rs, infos[i])
    decreases |infos|
  {
    if infos != [] {
      var n := |infos| - 1;
      LastTakenUpIsSome(rs, infos[..n]);
      assert forall i :: 0 <= i < n ==> infos[..n][i] == infos[i];
    }
  }

  /** An event that says that nobody leads leaves nobody leading exactly when none before it was taken up: otherwise
      the leader of before stays in the configuration. */
  lemma LeaderlessEvent(rs: seq<Replica>, infos: seq<LeaderInfo>, info: LeaderInfo)
    requires Told(rs, info) == 0
    ensures LastTakenUp(rs, infos + [info]) == LastTakenUp(rs, infos)
    ensures LastTakenUp(rs, infos + [info]) == Told(rs, info) <==>
            forall i :: 0 <= i < |infos| ==> !TakenUp(rs, infos[i])
  {
    assert (infos + [info])[..|infos|] == infos;
    LastTakenUpIsSome(rs, infos);
  }

  /** The event is taken up, or tells what the one before it told. */
  predicate Heeded(rs: seq<Replica>, infos: seq<LeaderInfo>, i: nat)
    requires i < |infos|
  {
    TakenUp(rs, infos[i]) || Told(rs, infos[i]) == if i == 0 then 0 else Told(rs, infos[i - 1])
  }

  /** Behind the event, the leader in force is the one that it tells of. */
  predicate Followed(rs: seq<Replica>, infos: seq<LeaderInfo>, i: nat)
    requires i < |infos|
  {
    LastTakenUp(rs, infos[..i + 1]) == Told(rs, infos[i])
  }

  /** Every event of a run is followed exactly when every event is taken up or tells nothing new. */
  lemma {:induction false} AlwaysFollowed(rs: seq<Replica>, infos: seq<LeaderInfo>)
    ensures (forall i :: 0 <= i < |infos| ==> Followed(rs, infos, i)) <==>
            forall i :: 0 <= i < |infos| ==> Heeded(rs, infos, i)
    decreases |infos|
  {
    if infos != [] {
      var n := |infos| - 1;
      var front := infos[..n];
      AlwaysFollowed(rs, front);
      forall i | 0 <= i < n
        ensures Followed(rs, front, i) == Followed(rs, infos, i) && Heeded(rs, front, i) == Heeded(rs, infos, i)
      {
        assert front[..i + 1] == infos[..i + 1];
      }
      if n == 0 || Followed(rs, infos, n - 1) { LastFollowed(rs, infos); }
      hide Followed, Heeded;
    }
  }

  lemma LastFollowed(rs: seq<Replica>, infos: seq<LeaderInfo>)
    requires infos != [] && (|infos| > 1 ==> Followed(rs, infos, |infos| - 2))
    ensures Followed(rs, infos, |infos| - 1) <==> Heeded(rs, infos, |infos| - 1)
  {
    var n := |infos| - 1;
    assert infos[..n + 1] == infos;
    if n == 0 {
      assert LastTakenUp(rs, infos[..0]) == 0;
    } else {
      assert infos[..|infos| - 2 + 1] == infos[..n];
    }
  }

  /** Node 1 is elected in term 1, and term 2 begins without a leader: node 1 stays the leader in the configuration. */
  lemma LeaderStays()
    ensures LastTakenUp([Replica("a", "a:1")], [LeaderInfo(1, 1), LeaderInfo(2, 0)]) == 1
  {
    LeaderlessEvent([Replica("a", "a:1")], [LeaderInfo(1, 1)], LeaderInfo(2, 0));
    assert [LeaderInfo(1, 1)] + [LeaderInfo(2, 0)] == [LeaderInfo(1, 1), LeaderInfo(2, 0)];
  }
}
