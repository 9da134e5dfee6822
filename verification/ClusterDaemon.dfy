/**
  The cluster manager's node list, quorum and membership count, updated in place by its
  handlers (cman/daemon/commands.c). Every method is proved against the machine of ClusterQuorum.
 */
module ClusterDaemon {
  import opened Basics
  import opened ClusterQuorum

  /** The nodes that must rejoin properly: known to the messaging layer only. */
  function Strangers(nodes: seq<Node>): seq<int>
  {
    if nodes == [] then []
    else Strangers(nodes[..|nodes| - 1]) + (if nodes[|nodes| - 1].state == AisOnly then [nodes[|nodes| - 1].id] else [])
  }

  /** Who is told to leave when a handler ends: the strangers, if the cluster has just become quorate. */
  function Told(was: Cluster, now: Cluster): seq<int>
  {
    if !was.quorate && now.quorate then Strangers(now.nodes) else []
  }

  lemma Wraps(a: nat, b: nat)
    ensures U32(U32(a) + b) == U32(a + b)
  {
  }

  lemma {:induction false} InsertedAt(nodes: seq<Node>, n: Node, i: nat)
    requires i <= |nodes| && (forall k :: 0 <= k < i ==> nodes[k].id <= n.id) && (i < |nodes| ==> n.id < nodes[i].id)
    ensures Inserted(nodes, n) == nodes[..i] + [n] + nodes[i..]
  {
    if i > 0 {
      InsertedAt(nodes[1..], n, i - 1);
      assert nodes[..i] == [nodes[0]] + nodes[1..][..i - 1] && nodes[i..] == nodes[1..][i - 1..];
    }
  }

  lemma {:induction false} FoundAt(nodes: seq<Node>, id: int, i: nat)
    requires i <= |nodes| && (forall k :: 0 <= k < i ==> nodes[k].id != id) && (i < |nodes| ==> nodes[i].id == id)
    ensures Find(nodes, id) == i
  {
    if i > 0 { FoundAt(nodes[1..], id, i - 1); }
  }

  lemma {:induction false} UsAt(nodes: seq<Node>, i: nat)
    requires i <= |nodes| && (forall k :: 0 <= k < i ==> !nodes[k].us) && (i < |nodes| ==> nodes[i].us)
    ensures FindUs(nodes) == i
  {
    if i > 0 { UsAt(nodes[1..], i - 1); }
  }

  class Manager {
    var nodes: seq<Node>
    var device: Option<Device>
    var quorum: int
    var quorate: bool
    var members: int
    var twoNode: bool
    var configError: bool

    ghost function View(): Cluster
      reads this
    {
      Cluster(nodes, device, quorum, quorate, members, twoNode, configError)
    }

    constructor (nodes: seq<Node>, twoNode: bool)
      ensures View() == Start(twoNode, nodes)
    {
      this.nodes, this.twoNode := nodes, twoNode;
      device, quorum, quorate, members, configError := None, 0, false, 0, false;
    }

    method FindNode(id: int) returns (i: nat)
      ensures i == Find(nodes, id)
      ensures i < |nodes| ==> nodes[i].id == id
      ensures forall k :: 0 <= k < i ==> nodes[k].id != id
    {
      i := 0;
      while i < |nodes| && nodes[i].id != id
        invariant i <= |nodes| && forall k :: 0 <= k < i ==> nodes[k].id != id
      {
        i := i + 1;
      }
      FoundAt(nodes, id, i);
    }

    method FindOurselves() returns (i: nat)
      ensures i == FindUs(nodes)
    {
      i := 0;
      while i < |nodes| && !nodes[i].us
        invariant i <= |nodes| && forall k :: 0 <= k < i ==> !nodes[k].us
      {
        i := i + 1;
      }
      UsAt(nodes, i);
    }

    /** node_add_ordered. */
    method AddOrdered(n: Node) returns (i: nat)
      modifies this`nodes
      ensures View() == old(View()).(nodes := Inserted(old(nodes), n))
      ensures i <= |old(nodes)| && nodes == old(nodes)[..i] + [n] + old(nodes)[i..]
    {
      i := 0;
      while i < |nodes| && nodes[i].id <= n.id
        invariant i <= |nodes| && forall k :: 0 <= k < i ==> nodes[k].id <= n.id
      {
        i := i + 1;
      }
      InsertedAt(nodes, n, i);
      nodes := nodes[..i] + [n] + nodes[i..];
    }

    /** The scan over the list, which also writes a forced expected-votes value into the members. */
    method CountVotes(maxExpected: int) returns (total: u32, highest: u32, count: nat)
      modifies this`nodes
      ensures total == U32(Votes(old(nodes))) && count == CountMembers(old(nodes))
      ensures highest == if maxExpected == 0 then Highest(old(nodes)) else 0
      ensures nodes == Forced(old(nodes), maxExpected)
    {
      hide U32;
      ghost var was := nodes;
      var i := 0;
      total, highest, count := 0, 0, 0;
      WrapsZero();
      while i < |nodes|
        invariant 0 <= i <= |nodes| == |was| && count == CountMembers(was[..i])
        invariant total == U32(Votes(was[..i]))
        invariant highest == if maxExpected == 0 then Highest(was[..i]) else 0
        invariant forall k :: i <= k < |nodes| ==> nodes[k] == was[k]
        invariant forall k :: 0 <= k < i ==> nodes[k] == Forced(was, maxExpected)[k]
      {
        var n := nodes[i];
        assert was[..i + 1][..i] == was[..i];
        if n.state == Member {
          if maxExpected != 0 {
            nodes := nodes[i := n.(expected := U32(maxExpected))];
          } else {
            highest := if highest > n.expected then highest else n.expected;
          }
          Wraps(Votes(was[..i]), n.votes);
          total := U32(total + n.votes);
          count := count + 1;
        }
        i := i + 1;
      }
      assert was[..i] == was;
    }

    method CalculateQuorum(allowDecrease: bool, maxExpected: int) returns (newQuorum: int, total: u32)
      modifies this`nodes
      ensures newQuorum == NewQuorum(old(View()), allowDecrease, maxExpected)
      ensures total == U32(AllVotes(old(nodes), device))
      ensures View() == old(View()).(nodes := Forced(old(nodes), maxExpected))
    {
      hide U32, S32, Half, Votes, Highest, CountMembers, Forced;
      var highest, count;
      total, highest, count := CountVotes(maxExpected);
      if device.Some? && device.value.up {
        Wraps(Votes(old(nodes)), device.value.votes);
        total := U32(total + device.value.votes);
      }
      if maxExpected > 0 { highest := U32(maxExpected); }
      var q1, q2 := Half(highest), Half(total);
      var q := if q1 > q2 then q1 else q2;
      if !allowDecrease { q := if U32(quorum) > q then U32(quorum) else q; }
      if twoNode && count <= 2 { q := 1; }
      newQuorum := S32(q);
    }

    static lemma WrapsZero()
      ensures U32(0) == 0
    {
    }

    /** Whoever is known to the messaging layer only is told to leave when the cluster becomes quorate. */
    method SetQuorate(total: int) returns (killed: seq<int>)
      modifies this`quorate
      ensures View() == old(View()).(quorate := quorum <= total && !configError)
      ensures killed == Told(old(View()), View())
    {
      var enough := !(quorum > total || configError);
      killed := [];
      if !quorate && enough {
        var i := 0;
        while i < |nodes|
          invariant 0 <= i <= |nodes| && killed == Strangers(nodes[..i])
        {
          assert nodes[..i + 1][..i] == nodes[..i];
          if nodes[i].state == AisOnly { killed := killed + [nodes[i].id]; }
          i := i + 1;
        }
        assert nodes[..i] == nodes;
      }
      quorate := enough;
    }

    method RecalculateQuorum(allowDecrease: bool, byCurrent: bool) returns (killed: seq<int>)
      modifies this
      ensures View() == Recalculated(old(View()), allowDecrease, byCurrent)
      ensures killed == Told(old(View()), View())
    {
      hide NewQuorum, Strangers, U32;
      var total;
      quorum, total := CalculateQuorum(allowDecrease, if byCurrent then members else 0);
      SameVotes(old(nodes), if byCurrent then members else 0);
      SignedOnce(AllVotes(old(nodes), device));
      killed := SetQuorate(S32(total));
    }

    static lemma SignedOnce(x: nat)
      ensures S32(U32(x)) == S32(x)
    {
    }

    /** Forcing expected votes leaves the votes alone. */
    static lemma {:induction false} SameVotes(nodes: seq<Node>, maxExpected: int)
      ensures Votes(Forced(nodes, maxExpected)) == Votes(nodes)
    {
      if nodes != [] && maxExpected != 0 {
        var init := nodes[..|nodes| - 1];
        SameVotes(init, maxExpected);
        assert Forced(nodes, maxExpected)[..|nodes| - 1] == Forced(init, maxExpected);
      }
    }

    method AddAisNode(id: int, total: u32) returns (killed: seq<int>)
      modifies this
      ensures View() == Step(old(View()), Joined(id, total))
      ensures killed == Told(old(View()), View())
    {
      hide Recalculated, Inserted, Strangers;
      killed := [];
      var i := FindNode(id);
      if i == |nodes| && total == 1 { i := FindOurselves(); }
      if i == |nodes| {
        ghost var was := nodes;
        i := AddOrdered(Node(id, false, Dead, 1, total, 0));
        FoundAt(nodes, id, i);
      }
      if nodes[i].state == Dead || nodes[i].state == Leaving {
        nodes := nodes[i := nodes[i].(state := Member, leaveReason := 0)];
        members := members + 1;
        killed := RecalculateQuorum(false, false);
      }
    }

    method DelAisNode(id: int) returns (killed: seq<int>)
      modifies this
      ensures View() == Step(old(View()), Left(id))
      ensures killed == Told(old(View()), View())
    {
      hide Recalculated, Strangers;
      killed := [];
      var i := FindNode(id);
      if i == |nodes| { return; }
      var n := nodes[i];
      match n.state {
        case Member =>
          nodes := nodes[i := n.(state := Dead)];
          members := members - 1;
          killed := RecalculateQuorum(false, false);
        case AisOnly =>
          nodes := nodes[i := n.(state := Dead)];
        case Leaving =>
          nodes := nodes[i := n.(state := Dead)];
          members := members - 1;
          var removed := n.leaveReason == LEAVE_REMOVED;
          killed := RecalculateQuorum(removed, removed);
        case _ =>
      }
    }

    /** A poll of the quorum device, or its timer finding it silent. */
    method DeviceTold(up: bool) returns (killed: seq<int>)
      modifies this
      ensures View() == Step(old(View()), DeviceIs(up))
      ensures killed == Told(old(View()), View())
    {
      hide Recalculated, Strangers;
      killed := [];
      if device.Some? && device.value.up != up {
        device := Some(device.value.(up := up));
        killed := RecalculateQuorum(false, false);
      }
    }
  }
}
