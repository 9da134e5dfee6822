/**
  The cluster manager never acts on stale votes (cman/daemon/commands.c:2224-2307, 1265-1312):
  every change of the members or of the quorum device is counted at once.
 */
module ClusterCurrent {
  import opened Basics
  import opened ClusterQuorum

  /** The same nodes with the same votes, and the same of them are members. */
  predicate SameEntries(a: seq<Node>, b: seq<Node>)
  {
    |a| == |b| && forall i :: 0 <= i < |a| ==>
      a[i].id == b[i].id && a[i].votes == b[i].votes && (a[i].state == Member <==> b[i].state == Member)
  }

  lemma {:induction false} SameVotes(a: seq<Node>, b: seq<Node>)
    requires SameEntries(a, b)
    ensures Votes(a) == Votes(b)
  {
    if a != [] { SameVotes(a[..|a| - 1], b[..|b| - 1]); }
  }

  lemma SameMembers(a: seq<Node>, b: seq<Node>, votes: map<int, u32>)
    requires SameEntries(a, b)
    ensures MemberIds(a) == MemberIds(b) && (Agrees(a, votes) <==> Agrees(b, votes))
  {
    forall n ensures n in MemberIds(a) <==> n in MemberIds(b) {
      if n in MemberIds(a) {
        var i :| 0 <= i < |a| && a[i].state == Member && a[i].id == n;
        assert b[i].state == Member && b[i].id == n;
      }
      if n in MemberIds(b) {
        var i :| 0 <= i < |b| && b[i].state == Member && b[i].id == n;
        assert a[i].state == Member && a[i].id == n;
      }
    }
  }

  lemma ForcedSame(nodes: seq<Node>, maxExpected: int)
    ensures SameEntries(nodes, Forced(nodes, maxExpected))
  {
  }

  /** An entry that was just inserted is the one that is found. */
  lemma {:induction false} InsertedFound(nodes: seq<Node>, n: Node)
    requires Find(nodes, n.id) == |nodes|
    ensures var r := Inserted(nodes, n); Find(r, n.id) < |r| && r[Find(r, n.id)] == n
  {
    if nodes != [] && n.id >= nodes[0].id {
      InsertedFound(nodes[1..], n);
      var r := Inserted(nodes, n);
      assert r[1..] == Inserted(nodes[1..], n);
    }
  }

  lemma {:induction false} FoundHasId(nodes: seq<Node>, id: int)
    ensures Find(nodes, id) < |nodes| ==> nodes[Find(nodes, id)].id == id
    ensures Find(nodes, id) == |nodes| <==> forall i :: 0 <= i < |nodes| ==> nodes[i].id != id
  {
    if nodes != [] && nodes[0].id != id {
      FoundHasId(nodes[1..], id);
      assert forall i :: 1 <= i < |nodes| ==> nodes[i] == nodes[1..][i - 1];
    }
  }

  // ---------- nothing changes without being counted

  /** A handler that does not recalculate has not touched a member, a vote or the device. */
  lemma QuietKeeps(c: Cluster, e: Event)
    requires !e.Edited? && After(c, e).1.Quiet?
    ensures var r := After(c, e).0; SameEntries(c.nodes, r.nodes) && r.device == c.device && r.configError == c.configError
  {
    if e.Joined? && Entry(c.nodes, e.id, e.total) >= |c.nodes| {
      InsertedFound(c.nodes, Node(e.id, false, Dead, 1, e.total, 0));
    }
  }

  predicate Unedited(es: seq<Event>)
  {
    forall i :: 0 <= i < |es| ==> !es[i].Edited?
  }

  /** What was counted last is what there is, and the flag says whether it is enough. */
  predicate UpToDate(t: Trace)
  {
    t.counted >= 0 ==>
      && SameEntries(t.nodes, t.c.nodes) && t.device == t.c.device
      && (t.c.quorate <==> t.c.quorum <= S32(AllVotes(t.c.nodes, t.c.device)) && !t.c.configError)
  }

  lemma SameTransitive(a: seq<Node>, b: seq<Node>, c: seq<Node>)
    requires SameEntries(a, b) && SameEntries(b, c)
    ensures SameEntries(a, c) && Votes(b) == Votes(c)
  {
    SameVotes(b, c);
  }

  lemma RecalculatedNow(c: Cluster, allowDecrease: bool, byCurrent: bool)
    ensures var r := Recalculated(c, allowDecrease, byCurrent);
            && SameEntries(c.nodes, r.nodes) && r.device == c.device
            && (r.quorate <==> r.quorum <= S32(AllVotes(r.nodes, r.device)) && !r.configError)
  {
    hide NewQuorum, S32, AllVotes, Forced;
    ForcedSame(c.nodes, if byCurrent then c.members else 0);
  }

  lemma QuietUpToDate(t: Trace, c: Cluster)
    requires UpToDate(t) && SameEntries(t.c.nodes, c.nodes) && c.device == t.c.device && c.configError == t.c.configError
    requires c.quorum == t.c.quorum && c.quorate == t.c.quorate
    ensures UpToDate(t.(c := c))
  {
    hide SameEntries, S32, Votes;
    if t.counted >= 0 { SameTransitive(t.nodes, t.c.nodes, c.nodes); }
  }

  lemma QuietQuorum(c: Cluster, e: Event)
    requires After(c, e).1.Quiet?
    ensures Step(c, e) == After(c, e).0
  {
    hide After, Recalculated;
  }

  /** After every event of every run in which nothing is edited behind its back, the daemon is up to date. */
  lemma {:induction false} AlwaysUpToDate(c: Cluster, es: seq<Event>)
    requires Unedited(es)
    ensures UpToDate(Run(c, es))
  {
    if es != [] {
      var before, e := es[..|es| - 1], es[|es| - 1];
      AlwaysUpToDate(c, before);
      hide After, Recalculated, SameEntries, S32, Highest, Votes, UpToDate;
      var t := Run(c, before);
      AfterKeeps(t.c, e);
      var (c1, next) := After(t.c, e);
      if next.Quiet? {
        QuietKeeps(t.c, e);
        QuietQuorum(t.c, e);
        QuietUpToDate(t, c1);
      } else {
        RecalculatedNow(c1, next.allowDecrease, next.byCurrent);
        CountedNow(c1, Recalculated(c1, next.allowDecrease, next.byCurrent), Max(t.counted, Highest(c1.nodes)));
      }
    }
  }

  lemma CountedNow(c: Cluster, r: Cluster, counted: int)
    requires SameEntries(c.nodes, r.nodes) && r.device == c.device
    requires r.quorate <==> r.quorum <= S32(AllVotes(r.nodes, r.device)) && !r.configError
    ensures UpToDate(Trace(r, counted, c.nodes, c.device))
  {
  }

  /**
    After every event, once anything has been counted: the members and the device counted last are
    the current ones, and the daemon is quorate if and only if the quorum is at most the signed
    total of what its current members and the device weigh, and the configuration is sound.
   */
  lemma QuorateExactly(c: Cluster, es: seq<Event>, votes: map<int, u32>)
    requires Unedited(es) && Run(c, es).counted >= 0 && Agrees(Run(c, es).c.nodes, votes)
    ensures var t := Run(c, es);
            && MemberIds(t.nodes) == MemberIds(t.c.nodes) <= votes.Keys && t.device == t.c.device
            && (t.c.quorate <==>
                t.c.quorum <= S32(Weight(votes, MemberIds(t.c.nodes)) + DeviceVotes(t.c.device)) && !t.c.configError)
  {
    hide Run, S32, Votes, MemberIds, Agrees, SameEntries;
    AlwaysUpToDate(c, es);
    var t := Run(c, es);
    SameMembers(t.nodes, t.c.nodes, votes);
    VotesAreWeight(t.c.nodes, votes);
  }

  /** NoTwoQuorate for what the two daemons have now. */
  lemma NoTwoQuorateNow(a: Cluster, b: Cluster, ea: seq<Event>, eb: seq<Event>, votes: map<int, u32>)
    requires !a.twoNode && a.quorum == 0 && !a.quorate && Steady(a, ea) && Unedited(ea) && Run(a, ea).counted >= 0
    requires !b.twoNode && b.quorum == 0 && !b.quorate && Steady(b, eb) && Unedited(eb) && Run(b, eb).counted >= 0
    requires Agrees(Run(a, ea).c.nodes, votes) && Agrees(Run(b, eb).c.nodes, votes)
    requires MemberIds(Run(a, ea).c.nodes) !! MemberIds(Run(b, eb).c.nodes)
    requires DeviceVotes(Run(a, ea).c.device) == 0 || DeviceVotes(Run(b, eb).c.device) == 0
    requires var ta, tb := Run(a, ea), Run(b, eb);
             var together := MemberIds(ta.c.nodes) + MemberIds(tb.c.nodes);
             together <= votes.Keys &&
             var held := Weight(votes, together) + Max(DeviceVotes(ta.c.device), DeviceVotes(tb.c.device));
             held <= ta.counted < 0xFFFF_FFFE && held <= tb.counted < 0xFFFF_FFFE
    ensures !(Run(a, ea).c.quorate && Run(b, eb).c.quorate)
  {
    hide Run, Steady, Weight, Votes, MemberIds, Agrees, S32, SameEntries, DeviceVotes;
    AlwaysUpToDate(a, ea);
    AlwaysUpToDate(b, eb);
    SameMembers(Run(a, ea).nodes, Run(a, ea).c.nodes, votes);
    SameMembers(Run(b, eb).nodes, Run(b, eb).c.nodes, votes);
    NoTwoQuorate(a, b, ea, eb, votes);
  }

  // ---------- who the members are

  predicate DistinctIds(nodes: seq<Node>)
  {
    forall i, j :: 0 <= i < j < |nodes| ==> nodes[i].id != nodes[j].id
  }

  function Ids(nodes: seq<Node>): set<int>
  {
    set i | 0 <= i < |nodes| :: nodes[i].id
  }

  /** Entries are members or dead, one for each node: what joins and departures alone lead to. */
  predicate Simple(nodes: seq<Node>)
  {
    DistinctIds(nodes) && forall i :: 0 <= i < |nodes| ==> nodes[i].state == Member || nodes[i].state == Dead
  }

  /** Who is present after the events, as the messaging layer reported them. */
  function Present(es: seq<Event>): set<int>
  {
    if es == [] then {}
    else
      var s, e := Present(es[..|es| - 1]), es[|es| - 1];
      if e.Joined? then s + {e.id} else if e.Left? then s - {e.id} else s
  }

  lemma PutMember(nodes: seq<Node>, i: nat, n: Node)
    requires Simple(nodes) && i < |nodes| && n.id == nodes[i].id && (n.state == Member || n.state == Dead)
    ensures var r := nodes[i := n];
            && Simple(r) && Ids(r) == Ids(nodes)
            && MemberIds(r) == if n.state == Member then MemberIds(nodes) + {n.id} else MemberIds(nodes) - {n.id}
  {
    var r := nodes[i := n];
    forall x ensures x in MemberIds(r) <==> if x == n.id then n.state == Member else x in MemberIds(nodes) {
      if x in MemberIds(r) {
        var k :| 0 <= k < |r| && r[k].state == Member && r[k].id == x;
        if k != i { assert nodes[k] == r[k]; }
      }
      if x in MemberIds(nodes) && x != n.id {
        var k :| 0 <= k < |nodes| && nodes[k].state == Member && nodes[k].id == x;
        assert r[k] == nodes[k];
      }
      if x == n.id && n.state == Member { assert r[i].state == Member && r[i].id == x; }
    }
    forall x ensures x in Ids(r) <==> x in Ids(nodes) {
      if x in Ids(r) { var k :| 0 <= k < |r| && r[k].id == x; assert nodes[k].id == x; }
      if x in Ids(nodes) { var k :| 0 <= k < |nodes| && nodes[k].id == x; assert r[k].id == x; }
    }
  }

  /** Where an entry is inserted. */
  function Place(nodes: seq<Node>, n: Node): (i: nat)
    ensures i <= |nodes|
  {
    if nodes == [] || n.id < nodes[0].id then 0 else 1 + Place(nodes[1..], n)
  }

  lemma {:induction false} InsertedSplit(nodes: seq<Node>, n: Node)
    ensures Inserted(nodes, n) == nodes[..Place(nodes, n)] + [n] + nodes[Place(nodes, n)..]
  {
    if nodes != [] && n.id >= nodes[0].id {
      InsertedSplit(nodes[1..], n);
      var i := Place(nodes, n);
      assert nodes[..i] == [nodes[0]] + nodes[1..][..i - 1] && nodes[i..] == nodes[1..][i - 1..];
    }
  }

  lemma IdsIn(nodes: seq<Node>, x: int)
    ensures x in Ids(nodes) <==> exists m :: m in nodes && m.id == x
    ensures x in MemberIds(nodes) <==> exists m :: m in nodes && m.id == x && m.state == Member
  {
    if m :| m in nodes && m.id == x { var i :| 0 <= i < |nodes| && nodes[i] == m; }
    if m :| m in nodes && m.id == x && m.state == Member { var i :| 0 <= i < |nodes| && nodes[i] == m; }
    if x in MemberIds(nodes) { var i :| 0 <= i < |nodes| && nodes[i].state == Member && nodes[i].id == x; assert nodes[i] in nodes; }
    if x in Ids(nodes) { var i :| 0 <= i < |nodes| && nodes[i].id == x; assert nodes[i] in nodes; }
  }

  /** A list with one more entry, dead and of a new id. */
  lemma OneMoreEntry(nodes: seq<Node>, i: nat, n: Node)
    requires Simple(nodes) && n.state == Dead && i <= |nodes| && forall k :: 0 <= k < |nodes| ==> nodes[k].id != n.id
    ensures var r := nodes[..i] + [n] + nodes[i..];
            Simple(r) && Ids(r) == Ids(nodes) + {n.id} && MemberIds(r) == MemberIds(nodes)
  {
    var r := nodes[..i] + [n] + nodes[i..];
    assert nodes == nodes[..i] + nodes[i..];
    assert forall m :: m in r <==> m in nodes || m == n;
    forall x ensures (x in Ids(r) <==> x in Ids(nodes) || x == n.id) && (x in MemberIds(r) <==> x in MemberIds(nodes)) {
      IdsIn(r, x);
      IdsIn(nodes, x);
    }
    forall k | 0 <= k < |r| ensures r[k] == if k < i then nodes[k] else if k == i then n else nodes[k - 1] {}
  }

  lemma InsertedMembers(nodes: seq<Node>, n: Node)
    requires Simple(nodes) && n.state == Dead && Find(nodes, n.id) == |nodes|
    ensures var r := Inserted(nodes, n); Simple(r) && Ids(r) == Ids(nodes) + {n.id} && MemberIds(r) == MemberIds(nodes)
  {
    hide Simple, MemberIds, Ids, Inserted, Find;
    FoundHasId(nodes, n.id);
    InsertedSplit(nodes, n);
    OneMoreEntry(nodes, Place(nodes, n), n);
  }

  lemma ForcedMembers(nodes: seq<Node>, maxExpected: int)
    requires Simple(nodes)
    ensures var r := Forced(nodes, maxExpected); Simple(r) && Ids(r) == Ids(nodes) && MemberIds(r) == MemberIds(nodes)
  {
    var r := Forced(nodes, maxExpected);
    ForcedSame(nodes, maxExpected);
    SameMembers(nodes, r, map[]);
    assert forall i :: 0 <= i < |nodes| ==> r[i].id == nodes[i].id && r[i].state == nodes[i].state;
    forall x ensures x in Ids(r) <==> x in Ids(nodes) {
      if x in Ids(r) { var k :| 0 <= k < |r| && r[k].id == x; assert nodes[k].id == x; }
      if x in Ids(nodes) { var k :| 0 <= k < |nodes| && nodes[k].id == x; assert r[k].id == x; }
    }
  }

  lemma JoinMembers(c: Cluster, id: int, total: u32)
    requires Simple(c.nodes) && (total == 1 ==> id in Ids(c.nodes))
    ensures var r := After(c, Joined(id, total)).0.nodes;
            Simple(r) && Ids(r) == Ids(c.nodes) + {id} && MemberIds(r) == MemberIds(c.nodes) + {id}
  {
    hide Ids, MemberIds;
    var nodes := Known(c.nodes, id, total);
    FoundHasId(c.nodes, id);
    IdsIn(c.nodes, id);
    if Find(c.nodes, id) == |c.nodes| {
      InsertedMembers(c.nodes, Node(id, false, Dead, 1, total, 0));
      InsertedFound(c.nodes, Node(id, false, Dead, 1, total, 0));
    }
    var i := Find(nodes, id);
    FoundHasId(nodes, id);
    IdsIn(nodes, id);
    assert nodes[i] in nodes;
    if nodes[i].state == Dead { PutMember(nodes, i, nodes[i].(state := Member, leaveReason := 0)); }
  }

  lemma LeaveMembers(c: Cluster, id: int)
    requires Simple(c.nodes)
    ensures var r := After(c, Left(id)).0.nodes;
            Simple(r) && Ids(r) == Ids(c.nodes) && MemberIds(r) == MemberIds(c.nodes) - {id}
  {
    hide Ids, MemberIds;
    FoundHasId(c.nodes, id);
    IdsIn(c.nodes, id);
    var i := Find(c.nodes, id);
    if i < |c.nodes| { PutMember(c.nodes, i, c.nodes[i].(state := Dead)); }
  }

  /** Every node that is reported alone is one of the configuration. */
  predicate Proper(es: seq<Event>, ids: set<int>)
  {
    forall i :: 0 <= i < |es| && es[i].Joined? && es[i].total == 1 ==> es[i].id in ids
  }

  /**
    From a configuration of nodes that are all down, the members after any joins, departures,
    device changes and recalculations are exactly the nodes the messaging layer has present.
   */
  lemma {:induction false} MembersExactly(c: Cluster, es: seq<Event>)
    requires Unedited(es) && Simple(c.nodes) && MemberIds(c.nodes) == {} && Proper(es, Ids(c.nodes))
    ensures var r := Run(c, es).c.nodes; Simple(r) && Ids(c.nodes) <= Ids(r) && MemberIds(r) == Present(es)
  {
    if es != [] {
      var before, e := es[..|es| - 1], es[|es| - 1];
      MembersExactly(c, before);
      hide Simple, Ids, MemberIds, AfterJoin, AfterLeave, NewQuorum, Forced, Enough;
      var t := Run(c, before);
      match e {
        case Joined(id, total) => JoinMembers(t.c, id, total);
        case Left(id) => LeaveMembers(t.c, id);
        case _ =>
      }
      var (c1, next) := After(t.c, e);
      ForcedMembers(c1.nodes, if next.Recalculate? && next.byCurrent then c1.members else 0);
    }
  }

  // ---------- the device, and what may lower the quorum

  /** What the quorum device was last reported to be. */
  function LastReport(es: seq<Event>, first: bool): bool
  {
    if es == [] then first
    else if es[|es| - 1].DeviceIs? then es[|es| - 1].up
    else LastReport(es[..|es| - 1], first)
  }

  lemma StepDevice(c: Cluster, e: Event)
    requires !e.Edited? && c.device.Some?
    ensures Step(c, e).device == Some(c.device.value.(up := if e.DeviceIs? then e.up else c.device.value.up))
  {
    hide AfterJoin, AfterLeave, NewQuorum, Forced, Enough;
    JoinDevice(c, e);
  }

  lemma JoinDevice(c: Cluster, e: Event)
    ensures e.Joined? ==> AfterJoin(c, e.id, e.total).0.device == c.device
    ensures e.Left? ==> AfterLeave(c, e.id).0.device == c.device
  {
  }

  /** In every run the device counts exactly while it was last reported up. */
  lemma {:induction false} DeviceExactly(c: Cluster, es: seq<Event>)
    requires Unedited(es) && c.device.Some?
    ensures Run(c, es).c.device == Some(c.device.value.(up := LastReport(es, c.device.value.up)))
  {
    if es != [] {
      DeviceExactly(c, es[..|es| - 1]);
      hide Step, After;
      StepDevice(Run(c, es[..|es| - 1]).c, es[|es| - 1]);
    }
  }

  /** Only a request that allows it, or the departure of a node that was removed on purpose, can lower the quorum. */
  lemma LoweredOnlyOnPurpose(c: Cluster, e: Event)
    requires !c.twoNode && 0 <= c.quorum < 0x8000_0000 && Step(c, e).quorum < c.quorum
    ensures e == Asked(true) ||
            (e.Left? && exists i :: 0 <= i < |c.nodes| && c.nodes[i].id == e.id && c.nodes[i].state == Leaving &&
                                    c.nodes[i].leaveReason == LEAVE_REMOVED)
  {
    hide NewQuorum, Recalculated;
    AfterKeeps(c, e);
    var (c1, next) := After(c, e);
    if next == Recalculate(false, false) { RaisesQuorum(c1); }
    if e.Left? { FoundHasId(c.nodes, e.id); }
  }

  // ---------- what the quorum is

  /** A majority of the expected votes and of the votes there are, and not below what must be kept. */
  predicate Majority(q: int, expected: int, votes: int, floor: int)
  {
    2 * q > expected && 2 * q > votes && q >= floor
  }

  ghost predicate LeastMajority(q: int, expected: int, votes: int, floor: int)
  {
    Majority(q, expected, votes, floor) && forall p :: Majority(p, expected, votes, floor) ==> q <= p
  }

  lemma HalfIsLeast(expected: nat, votes: nat, floor: nat)
    requires expected < 0x8000_0000 && votes < 0x8000_0000 && floor < 0x8000_0000
    ensures var q := Max(floor, Max(Half(expected), Half(U32(votes))));
            0 <= q < 0x8000_0000 && LeastMajority(q, expected, votes, floor)
  {
  }

  /**
    A recalculation over fewer than 2^31 votes sets the least majority: of the members' own number
    when it goes by the members there are, and of the highest expected votes otherwise. Only two
    nodes or fewer in two-node mode do with one vote.
   */
  lemma QuorumIsLeast(c: Cluster, allowDecrease: bool, byCurrent: bool)
    requires 0 <= c.quorum < 0x8000_0000 && 0 <= c.members < 0x8000_0000
    requires Highest(c.nodes) < 0x8000_0000 && AllVotes(c.nodes, c.device) < 0x8000_0000
    ensures var q := Recalculated(c, allowDecrease, byCurrent).quorum;
            if c.twoNode && CountMembers(c.nodes) <= 2 then q == 1
            else LeastMajority(q, if byCurrent && c.members > 0 then c.members else Highest(c.nodes),
                               AllVotes(c.nodes, c.device), if allowDecrease then 0 else c.quorum)
  {
    hide Half, U32, S32, Highest, AllVotes, LeastMajority, CountMembers, Forced;
    var expected := if byCurrent && c.members > 0 then c.members else Highest(c.nodes);
    var floor := if allowDecrease then 0 else c.quorum;
    HalfIsLeast(expected, AllVotes(c.nodes, c.device), floor);
    Small(1);
    Small(c.quorum);
    Small(c.members);
    Small(Max(floor, Max(Half(expected), Half(U32(AllVotes(c.nodes, c.device))))));
    HalfExceeds(expected);
  }

  /** When a node that was removed on purpose goes, the quorum becomes the least majority of those who stay. */
  lemma RemovalLowers(c: Cluster, id: int, i: nat)
    requires i < |c.nodes| && c.nodes[i].id == id && Find(c.nodes, id) == i
    requires c.nodes[i].state == Leaving && c.nodes[i].leaveReason == LEAVE_REMOVED
    requires !c.twoNode && 0 <= c.quorum < 0x8000_0000 && 1 < c.members <= 0x8000_0000
    requires Highest(c.nodes) < 0x8000_0000 && AllVotes(c.nodes, c.device) < 0x8000_0000
    ensures LeastMajority(Step(c, Left(id)).quorum, c.members - 1, AllVotes(c.nodes, c.device), 0)
    ensures forall n :: n in Step(c, Left(id)).nodes && n.state == Member ==> n.expected == c.members - 1
  {
    var gone := c.nodes[i := c.nodes[i].(state := Dead)];
    SetDead(c.nodes, i);
    hide Recalculated, Highest, Votes, LeastMajority;
    QuorumIsLeast(c.(nodes := gone, members := c.members - 1), true, true);
    ForcedWrites(c.(nodes := gone, members := c.members - 1), true);
  }

  lemma ForcedWrites(c: Cluster, allowDecrease: bool)
    requires 0 < c.members < 0x1_0000_0000
    ensures forall n :: n in Recalculated(c, allowDecrease, true).nodes && n.state == Member ==> n.expected == c.members
  {
    hide NewQuorum, Enough;
  }

  /** A node that was no member takes no votes away. */
  lemma {:induction false} SetDead(nodes: seq<Node>, i: nat)
    requires i < |nodes| && nodes[i].state == Leaving
    ensures var gone := nodes[i := nodes[i].(state := Dead)];
            Votes(gone) == Votes(nodes) && Highest(gone) == Highest(nodes)
    decreases |nodes|
  {
    var k := |nodes| - 1;
    var gone := nodes[i := nodes[i].(state := Dead)];
    if i < k {
      SetDead(nodes[..k], i);
      assert gone[..k] == nodes[..k][i := nodes[i].(state := Dead)];
    } else {
      assert gone[..k] == nodes[..k];
    }
  }

  // ---------- how many members there are

  /** Members, those that are leaving included. */
  function CountUp(nodes: seq<Node>): nat
  {
    if nodes == [] then 0 else CountUp(nodes[..|nodes| - 1]) + (if IsUp(nodes[|nodes| - 1]) then 1 else 0)
  }

  predicate IsUp(n: Node)
  {
    n.state == Member || n.state == Leaving
  }

  lemma {:induction false} CountPut(nodes: seq<Node>, i: nat, n: Node)
    requires i < |nodes|
    ensures CountUp(nodes[i := n]) == CountUp(nodes) - (if IsUp(nodes[i]) then 1 else 0) + (if IsUp(n) then 1 else 0)
    decreases |nodes|
  {
    var k := |nodes| - 1;
    if i < k {
      CountPut(nodes[..k], i, n);
      assert nodes[i := n][..k] == nodes[..k][i := n];
    } else {
      assert nodes[i := n][..k] == nodes[..k];
    }
  }

  lemma {:induction false} CountConcat(a: seq<Node>, b: seq<Node>)
    ensures CountUp(a + b) == CountUp(a) + CountUp(b)
    decreases |b|
  {
    if b == [] {
      assert a + b == a;
    } else {
      CountConcat(a, b[..|b| - 1]);
      assert (a + b)[..|a + b| - 1] == a + b[..|b| - 1];
    }
  }

  lemma CountInserted(nodes: seq<Node>, n: Node)
    requires !IsUp(n)
    ensures CountUp(Inserted(nodes, n)) == CountUp(nodes)
  {
    var i := Place(nodes, n);
    InsertedSplit(nodes, n);
    CountConcat(nodes[..i] + [n], nodes[i..]);
    CountConcat(nodes[..i], [n]);
    CountConcat(nodes[..i], nodes[i..]);
    assert nodes[..i] + nodes[i..] == nodes;
    assert [n][..0] == [];
  }

  lemma {:induction false} CountSame(a: seq<Node>, b: seq<Node>)
    requires |a| == |b| && forall i :: 0 <= i < |a| ==> a[i].state == b[i].state
    ensures CountUp(a) == CountUp(b)
    decreases |a|
  {
    if a != [] { CountSame(a[..|a| - 1], b[..|b| - 1]); }
  }

  /** A node that is leaving is reported anew. */
  predicate Rejoins(c: Cluster, e: Event)
  {
    e.Joined? && var i := Entry(c.nodes, e.id, e.total); i < |c.nodes| && c.nodes[i].state == Leaving
  }

  lemma JoinCount(c: Cluster, id: int, total: u32)
    ensures var r := AfterJoin(c, id, total).0;
            r.members - CountUp(r.nodes) == c.members - CountUp(c.nodes) + (if Rejoins(c, Joined(id, total)) then 1 else 0)
  {
    var nodes := Known(c.nodes, id, total);
    if Entry(c.nodes, id, total) == |c.nodes| {
      CountInserted(c.nodes, Node(id, false, Dead, 1, total, 0));
      InsertedFound(c.nodes, Node(id, false, Dead, 1, total, 0));
    }
    var i := Entry(nodes, id, total);
    hide CountUp, Inserted;
    if i < |nodes| { CountPut(nodes, i, nodes[i].(state := Member, leaveReason := 0)); }
  }

  lemma LeaveCount(c: Cluster, id: int)
    ensures var r := AfterLeave(c, id).0; r.members - CountUp(r.nodes) == c.members - CountUp(c.nodes)
  {
    hide CountUp;
    var i := Find(c.nodes, id);
    if i < |c.nodes| { CountPut(c.nodes, i, c.nodes[i].(state := Dead)); }
  }

  /**
    The number of members stays right under every event but an edit, if and only if no node that is
    just leaving is reported anew: such a node is counted twice from then on.
   */
  lemma CountExactly(c: Cluster, e: Event)
    requires !e.Edited? && c.members == CountUp(c.nodes)
    ensures var r := Step(c, e); r.members == CountUp(r.nodes) <==> !Rejoins(c, e)
  {
    hide AfterJoin, AfterLeave, NewQuorum, Enough, CountUp, Rejoins;
    var (c1, next) := After(c, e);
    match e {
      case Joined(id, total) => JoinCount(c, id, total);
      case Left(id) => LeaveCount(c, id); NeverRejoins(c, e);
      case _ => NeverRejoins(c, e);
    }
    CountSame(c1.nodes, Forced(c1.nodes, if next.Recalculate? && next.byCurrent then c1.members else 0));
  }

  lemma NeverRejoins(c: Cluster, e: Event)
    requires !e.Joined?
    ensures !Rejoins(c, e)
  {
  }

  /** One member that was about to leave and is reported anew makes two. */
  lemma RejoinCountsTwice()
    ensures var c := Start(false, [Node(1, true, Leaving, 1, 1, 0)]).(members := 1);
            c.members == CountUp(c.nodes) && Step(c, Joined(1, 2)).members == 2 && CountUp(Step(c, Joined(1, 2)).nodes) == 1
  {
    var n := Node(1, true, Leaving, 1, 1, 0);
    var c := Start(false, [n]).(members := 1);
    assert Entry(c.nodes, 1, 2) == 0;
    CountExactly(c, Joined(1, 2));
    CountPut([n], 0, n.(state := Member, leaveReason := 0));
  }

  /** Only the state of entry i has changed, if it was more than joining. */
  predicate OnlyDead(nodes: seq<Node>, r: seq<Node>, i: nat)
  {
    |r| == |nodes| && forall k :: 0 <= k < |r| ==>
      r[k].id == nodes[k].id && r[k].votes == nodes[k].votes &&
      r[k].state == if k == i && nodes[k].state != Joining then Dead else nodes[k].state
  }

  lemma LeaveStates(c: Cluster, id: int)
    ensures OnlyDead(c.nodes, AfterLeave(c, id).0.nodes, Find(c.nodes, id))
  {
    hide Find;
  }

  lemma ForcedStates(nodes: seq<Node>, r: seq<Node>, i: nat, maxExpected: int)
    requires OnlyDead(nodes, r, i)
    ensures OnlyDead(nodes, Forced(r, maxExpected), i)
  {
  }

  /** The departure of a node leaves it dead, unless it was only joining, and no other node changes its state. */
  lemma DepartureExactly(c: Cluster, id: int)
    ensures OnlyDead(c.nodes, Step(c, Left(id)).nodes, Find(c.nodes, id))
  {
    hide NewQuorum, Enough, OnlyDead, AfterLeave, Forced;
    LeaveStates(c, id);
    var (c1, next) := After(c, Left(id));
    if next.Recalculate? { ForcedStates(c.nodes, c1.nodes, Find(c.nodes, id), if next.byCurrent then c1.members else 0); }
  }
}
