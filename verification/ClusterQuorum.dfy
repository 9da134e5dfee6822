/**
  Votes and quorum of a cluster manager (cman/daemon/commands.c:186-255, 328-388, 2225-2304)
  as a machine over values: what every handler does to the node list, the quorum and the
  quorate flag. The unsigned and signed 32-bit arithmetic of the program is written out.
 */
module ClusterQuorum {
  import opened Basics

  datatype NodeState = Joining | Member | Dead | Leaving | AisOnly

  const LEAVE_REMOVED: nat := 3

  datatype Node = Node(id: int, us: bool, state: NodeState, votes: u32, expected: u32, leaveReason: nat)

  /** The quorum device, when one is registered. */
  datatype Device = Device(up: bool, votes: u32)

  datatype Cluster = Cluster(nodes: seq<Node>, device: Option<Device>, quorum: int, quorate: bool,
                             members: int, twoNode: bool, configError: bool)

  function U32(x: int): u32
  {
    x % 0x1_0000_0000
  }

  function S32(x: int): int
  {
    if U32(x) < 0x8000_0000 then U32(x) else U32(x) - 0x1_0000_0000
  }

  function Max(a: int, b: int): int
  {
    if a > b then a else b
  }

  // ---------- the calculation

  function Votes(nodes: seq<Node>): nat
  {
    if nodes == [] then 0
    else Votes(nodes[..|nodes| - 1]) + (if nodes[|nodes| - 1].state == Member then nodes[|nodes| - 1].votes else 0)
  }

  function Highest(nodes: seq<Node>): u32
  {
    if nodes == [] then 0
    else if nodes[|nodes| - 1].state == Member then Max(Highest(nodes[..|nodes| - 1]), nodes[|nodes| - 1].expected)
    else Highest(nodes[..|nodes| - 1])
  }

  function CountMembers(nodes: seq<Node>): nat
  {
    if nodes == [] then 0
    else CountMembers(nodes[..|nodes| - 1]) + (if nodes[|nodes| - 1].state == Member then 1 else 0)
  }

  function DeviceVotes(device: Option<Device>): nat
  {
    if device.Some? && device.value.up then device.value.votes else 0
  }

  /** All the votes there are, as an unbounded number. */
  function AllVotes(nodes: seq<Node>, device: Option<Device>): nat
  {
    Votes(nodes) + DeviceVotes(device)
  }

  /** More than half of n, in unsigned arithmetic. */
  function Half(n: nat): u32
  {
    U32(n + 2) / 2
  }

  function NewQuorum(c: Cluster, allowDecrease: bool, maxExpected: int): int
  {
    var highest := if maxExpected > 0 then U32(maxExpected) else if maxExpected == 0 then Highest(c.nodes) else 0;
    var q := Max(Half(highest), Half(U32(AllVotes(c.nodes, c.device))));
    var q1 := if allowDecrease then q else Max(U32(c.quorum), q);
    S32(if c.twoNode && CountMembers(c.nodes) <= 2 then 1 else q1)
  }

  /** A forced expected-votes value is written into every member. */
  function Forced(nodes: seq<Node>, maxExpected: int): seq<Node>
    ensures |Forced(nodes, maxExpected)| == |nodes|
  {
    if maxExpected == 0 then nodes
    else seq(|nodes|, i requires 0 <= i < |nodes| =>
               if nodes[i].state == Member then nodes[i].(expected := U32(maxExpected)) else nodes[i])
  }

  function Enough(c: Cluster): bool
  {
    c.quorum <= S32(AllVotes(c.nodes, c.device)) && !c.configError
  }

  function Recalculated(c: Cluster, allowDecrease: bool, byCurrent: bool): Cluster
  {
    var maxExpected := if byCurrent then c.members else 0;
    var c1 := c.(quorum := NewQuorum(c, allowDecrease, maxExpected), nodes := Forced(c.nodes, maxExpected));
    c1.(quorate := Enough(c1))
  }

  // ---------- the handlers

  /** The index of the first node with an id, or |nodes|. */
  function Find(nodes: seq<Node>, id: int): (i: nat)
    ensures i <= |nodes|
  {
    if nodes == [] || nodes[0].id == id then 0 else 1 + Find(nodes[1..], id)
  }

  function FindUs(nodes: seq<Node>): (i: nat)
    ensures i <= |nodes|
  {
    if nodes == [] || nodes[0].us then 0 else 1 + FindUs(nodes[1..])
  }

  /** Kept in order of ids. */
  function Inserted(nodes: seq<Node>, n: Node): seq<Node>
  {
    if nodes == [] || n.id < nodes[0].id then [n] + nodes else [nodes[0]] + Inserted(nodes[1..], n)
  }

  /** The entry for a node the messaging layer reports; a single reported node must be ourselves. */
  function Entry(nodes: seq<Node>, id: int, total: u32): nat
  {
    if Find(nodes, id) == |nodes| && total == 1 then FindUs(nodes) else Find(nodes, id)
  }

  /** The list in which a reported node has an entry: an unknown one gets a single vote. */
  function Known(nodes: seq<Node>, id: int, total: u32): seq<Node>
  {
    if Entry(nodes, id, total) < |nodes| then nodes
    else Inserted(nodes, Node(id, false, Dead, 1, total, 0))
  }

  datatype Event =
    | Joined(id: int, total: u32)                 // add_ais_node
    | Left(id: int)                               // del_ais_node
    | DeviceIs(up: bool)                          // a poll of the quorum device, or its silence
    | Edited(nodes: seq<Node>, device: Option<Device>, configError: bool)
                                                  // what other handlers write without recalculating
    | Asked(allowDecrease: bool)                  // any other recalculation

  /** How a handler ends: with or without a recalculation. */
  datatype Then = Quiet | Recalculate(allowDecrease: bool, byCurrent: bool)

  function AfterJoin(c: Cluster, id: int, total: u32): (Cluster, Then)
  {
    var nodes := Known(c.nodes, id, total);
    var i := Entry(nodes, id, total);
    if i < |nodes| && (nodes[i].state == Dead || nodes[i].state == Leaving) then
      (c.(nodes := nodes[i := nodes[i].(state := Member, leaveReason := 0)], members := c.members + 1), Recalculate(false, false))
    else (c.(nodes := nodes), Quiet)
  }

  function AfterLeave(c: Cluster, id: int): (Cluster, Then)
  {
    var i := Find(c.nodes, id);
    if i == |c.nodes| then (c, Quiet)
    else
      var n := c.nodes[i];
      var gone := c.(nodes := c.nodes[i := n.(state := Dead)]);
      match n.state
      case Member => (gone.(members := c.members - 1), Recalculate(false, false))
      case AisOnly => (gone, Quiet)
      case Leaving =>
        var removed := n.leaveReason == LEAVE_REMOVED;
        (gone.(members := c.members - 1), Recalculate(removed, removed))
      case _ => (c, Quiet)
  }

  function After(c: Cluster, e: Event): (Cluster, Then)
  {
    match e
    case Joined(id, total) => AfterJoin(c, id, total)
    case Left(id) => AfterLeave(c, id)
    case DeviceIs(up) =>
      if c.device.None? || c.device.value.up == up then (c, Quiet)
      else (c.(device := Some(c.device.value.(up := up))), Recalculate(false, false))
    case Edited(nodes, device, configError) =>
      (c.(nodes := nodes, device := device, configError := configError), Quiet)
    case Asked(allowDecrease) => (c, Recalculate(allowDecrease, false))
  }

  function Step(c: Cluster, e: Event): Cluster
  {
    var (c1, next) := After(c, e);
    if next.Quiet? then c1 else Recalculated(c1, next.allowDecrease, next.byCurrent)
  }

  // ---------- runs

  /**
    A run with two observations: the highest expected votes ever counted (-1 before the first
    recalculation), and the nodes and device that the latest recalculation counted.
   */
  datatype Trace = Trace(c: Cluster, counted: int, nodes: seq<Node>, device: Option<Device>)

  function Run(c: Cluster, es: seq<Event>): Trace
  {
    if es == [] then Trace(c, -1, [], None)
    else
      var t := Run(c, es[..|es| - 1]);
      var (c1, next) := After(t.c, es[|es| - 1]);
      var c2 := Step(t.c, es[|es| - 1]);
      if next.Quiet? then t.(c := c2)
      else Trace(c2, Max(t.counted, Highest(c1.nodes)), c1.nodes, c1.device)
  }

  function Start(twoNode: bool, nodes: seq<Node>): Cluster
  {
    Cluster(nodes, None, 0, false, 0, twoNode, false)
  }

  /** No recalculation of the run may lower the quorum. */
  predicate Steady(c: Cluster, es: seq<Event>)
  {
    es != [] ==>
      && Steady(c, es[..|es| - 1])
      && var next := After(Run(c, es[..|es| - 1]).c, es[|es| - 1]).1;
      && (next.Recalculate? ==> !next.allowDecrease && !next.byCurrent)
  }

  /** Two-node mode is fixed at start. */
  lemma AfterKeeps(c: Cluster, e: Event)
    ensures var c1 := After(c, e).0; c1.twoNode == c.twoNode && c1.quorum == c.quorum && c1.quorate == c.quorate
  {
  }

  /**
    The quorum is above half of what was counted, exactly when adding two to that did not wrap;
    and a quorate daemon had that many votes.
   */
  predicate Sound(t: Trace)
  {
    && 0 <= t.c.quorum < 0x8000_0000
    && (2 * t.c.quorum > t.counted <==> t.counted < 0xFFFF_FFFE)
    && (t.c.quorate ==> t.c.quorum <= S32(AllVotes(t.nodes, t.device)))
  }

  lemma HalfExceeds(n: u32)
    ensures Half(n) < 0x8000_0000
    ensures 2 * Half(n) > n <==> n < 0xFFFF_FFFE
  {
  }

  lemma Small(x: int)
    requires 0 <= x < 0x8000_0000
    ensures U32(x) == x == S32(x)
  {
  }

  lemma SignedIsNotMore(x: nat)
    ensures S32(x) <= x
  {
  }

  /** A recalculation that may not lower the quorum raises it above half the highest expected votes. */
  lemma RaisesQuorum(c: Cluster)
    requires !c.twoNode && 0 <= c.quorum < 0x8000_0000
    ensures var r := Recalculated(c, false, false);
            && c.quorum <= r.quorum < 0x8000_0000
            && Half(Highest(c.nodes)) <= r.quorum
            && (r.quorate ==> r.quorum <= S32(AllVotes(c.nodes, c.device)))
            && r.nodes == c.nodes && r.twoNode == c.twoNode
  {
    hide U32, S32, Half, Highest, AllVotes, CountMembers;
    HalfExceeds(Highest(c.nodes));
    HalfExceeds(U32(AllVotes(c.nodes, c.device)));
    Small(c.quorum);
    Small(Max(c.quorum, Max(Half(Highest(c.nodes)), Half(U32(AllVotes(c.nodes, c.device))))));
  }

  /**
    Over every run without two-node mode and without a lowering recalculation, the quorum never
    falls, and it is above half the highest expected votes ever counted if and only if those are
    below 2^32 - 2.
   */
  lemma {:induction false} QuorumNeverFalls(c: Cluster, es: seq<Event>)
    requires !c.twoNode && c.quorum == 0 && !c.quorate && Steady(c, es)
    ensures Sound(Run(c, es)) && !Run(c, es).c.twoNode
    ensures es != [] ==> Run(c, es[..|es| - 1]).c.quorum <= Run(c, es).c.quorum
  {
    hide NewQuorum, Recalculated, AfterJoin, AfterLeave, AllVotes, Highest, Half;
    if es != [] {
      var before, e := es[..|es| - 1], es[|es| - 1];
      QuorumNeverFalls(c, before);
      var t := Run(c, before);
      AfterKeeps(t.c, e);
      var (c1, next) := After(t.c, e);
      if next.Recalculate? {
        RaisesQuorum(c1);
        HalfExceeds(Highest(c1.nodes));
      }
    }
  }

  // ---------- two partitions

  /** The votes a set of nodes holds. */
  ghost function Weight(votes: map<int, u32>, ids: set<int>): nat
    requires ids <= votes.Keys
    decreases ids
  {
    if exists id :: id in ids then
      var id :| id in ids;
      votes[id] + Weight(votes, ids - {id})
    else 0
  }

  lemma {:induction false} WeightOfOneMore(votes: map<int, u32>, ids: set<int>, id: int)
    requires ids <= votes.Keys && id in votes && id !in ids
    ensures Weight(votes, ids + {id}) == votes[id] + Weight(votes, ids)
    decreases ids
  {
    var all := ids + {id};
    var pick :| pick in all && Weight(votes, all) == votes[pick] + Weight(votes, all - {pick});
    if pick == id {
      assert all - {pick} == ids;
    } else {
      var rest := ids - {pick};
      assert all - {pick} == rest + {id} && ids == rest + {pick};
      WeightOfOneMore(votes, rest, id);
      WeightOfOneMore(votes, rest, pick);
    }
  }

  lemma {:induction false} WeightOfDisjoint(votes: map<int, u32>, a: set<int>, b: set<int>)
    requires a <= votes.Keys && b <= votes.Keys && a !! b
    ensures Weight(votes, a + b) == Weight(votes, a) + Weight(votes, b)
    decreases a
  {
    if !(exists id :: id in a) {
      assert a + b == b;
    } else {
      var id :| id in a;
      var rest := a - {id};
      WeightOfDisjoint(votes, rest, b);
      WeightOfOneMore(votes, rest, id);
      WeightOfOneMore(votes, rest + b, id);
      assert a == rest + {id} && a + b == (rest + b) + {id};
    }
  }

  function MemberIds(nodes: seq<Node>): set<int>
  {
    set i | 0 <= i < |nodes| && nodes[i].state == Member :: nodes[i].id
  }

  /** One entry per node, and every entry carries the node's votes. */
  predicate Agrees(nodes: seq<Node>, votes: map<int, u32>)
  {
    && (forall i, j :: 0 <= i < j < |nodes| ==> nodes[i].id != nodes[j].id)
    && forall i :: 0 <= i < |nodes| ==> nodes[i].id in votes && nodes[i].votes == votes[nodes[i].id]
  }

  lemma {:induction false} VotesAreWeight(nodes: seq<Node>, votes: map<int, u32>)
    requires Agrees(nodes, votes)
    ensures MemberIds(nodes) <= votes.Keys && Votes(nodes) == Weight(votes, MemberIds(nodes))
  {
    if nodes != [] {
      var init, n := nodes[..|nodes| - 1], nodes[|nodes| - 1];
      VotesAreWeight(init, votes);
      assert forall i :: 0 <= i < |init| ==> init[i] == nodes[i];
      if n.state == Member {
        assert MemberIds(nodes) == MemberIds(init) + {n.id};
        WeightOfOneMore(votes, MemberIds(init), n.id);
      } else {
        assert MemberIds(nodes) == MemberIds(init);
      }
    }
  }

  /**
    Two daemons whose latest recalculations counted disjoint members, at most one of them the
    quorum device, and that each once counted expected votes of at least everything the two sides
    hold together, are not both quorate.
   */
  lemma NoTwoQuorate(a: Cluster, b: Cluster, ea: seq<Event>, eb: seq<Event>, votes: map<int, u32>)
    requires !a.twoNode && a.quorum == 0 && !a.quorate && Steady(a, ea)
    requires !b.twoNode && b.quorum == 0 && !b.quorate && Steady(b, eb)
    requires Agrees(Run(a, ea).nodes, votes) && Agrees(Run(b, eb).nodes, votes)
    requires MemberIds(Run(a, ea).nodes) !! MemberIds(Run(b, eb).nodes)
    requires DeviceVotes(Run(a, ea).device) == 0 || DeviceVotes(Run(b, eb).device) == 0
    requires var ta, tb := Run(a, ea), Run(b, eb);
             var together := MemberIds(ta.nodes) + MemberIds(tb.nodes);
             together <= votes.Keys &&
             var held := Weight(votes, together) + Max(DeviceVotes(ta.device), DeviceVotes(tb.device));
             held <= ta.counted < 0xFFFF_FFFE && held <= tb.counted < 0xFFFF_FFFE
    ensures !(Run(a, ea).c.quorate && Run(b, eb).c.quorate)
  {
    hide Run, Steady, Weight, Votes, MemberIds, Agrees, S32;
    QuorumNeverFalls(a, ea);
    QuorumNeverFalls(b, eb);
    var ta, tb := Run(a, ea), Run(b, eb);
    VotesAreWeight(ta.nodes, votes);
    VotesAreWeight(tb.nodes, votes);
    WeightOfDisjoint(votes, MemberIds(ta.nodes), MemberIds(tb.nodes));
    SignedIsNotMore(AllVotes(ta.nodes, ta.device));
    SignedIsNotMore(AllVotes(tb.nodes, tb.device));
  }

  // ---------- where the promises end

  /** A member whose one vote comes with expected votes of 2^32 - 2 makes itself quorate. */
  lemma HugeExpectedWraps() returns (c: Cluster, es: seq<Event>)
    ensures !c.twoNode && c.quorum == 0 && !c.quorate && Steady(c, es)
    ensures var t := Run(c, es); t.counted == 0xFFFF_FFFE && t.c.quorum == 1 && t.c.quorate
  {
    c, es := Start(false, [Node(1, true, Dead, 1, 0xFFFF_FFFE, 0)]), [Joined(1, 1)];
    OneStep(c, es[0]);
    LoneNode(c.nodes[0], 1);
    LoneMember(c.nodes[0].(state := Member));
  }

  lemma OneStep(c: Cluster, e: Event)
    ensures var t := Run(c, [e]);
            var (c1, next) := After(c, e);
            && t.c == Step(c, e)
            && (next.Recalculate? ==> t.counted == Highest(c1.nodes) && t.nodes == c1.nodes && t.device == c1.device)
            && (Steady(c, [e]) <==> (next.Recalculate? ==> !next.allowDecrease && !next.byCurrent))
  {
    assert [e][..0] == [];
  }

  lemma LoneMember(n: Node)
    requires n.state == Member
    ensures Votes([n]) == n.votes && Highest([n]) == n.expected && CountMembers([n]) == 1 && MemberIds([n]) == {n.id}
  {
    var all, none := [n], [n][..0];
    assert none == [] && all[..|all| - 1] == none && all[0] == n;
    assert Votes(none) == 0 && Highest(none) == 0 && CountMembers(none) == 0;
  }

  /** What becomes of a lone known node that is reported. */
  lemma LoneNode(n: Node, total: u32)
    requires n.state == Dead
    ensures Known([n], n.id, total) == [n] && Entry([n], n.id, total) == 0
  {
  }

  /**
    In two-node mode any node with one vote of two makes itself quorate alone, so two of them, with
    nothing in common, are both quorate: the mode is the only hypothesis of NoTwoQuorate they miss.
   */
  lemma LoneTwoNode(id: int, votes: map<int, u32>) returns (c: Cluster, es: seq<Event>)
    requires id in votes && votes[id] == 1
    ensures c.twoNode && c.quorum == 0 && !c.quorate && Steady(c, es)
    ensures var t := Run(c, es);
            && t.counted == 2 && t.device == None && t.c.quorate
            && Agrees(t.nodes, votes) && MemberIds(t.nodes) == {id} && Votes(t.nodes) == 1
  {
    var n := Node(id, true, Dead, 1, 2, 0);
    c, es := Start(true, [n]), [Joined(id, 1)];
    OneStep(c, es[0]);
    LoneNode(n, 1);
    LoneMember(n.(state := Member));
  }
}
