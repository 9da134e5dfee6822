/**
  The daemon process group of fenced (fence/fenced/cpg.c:1629-2133): which
  daemons are present, the protocol version they run, and which peers may count
  as cleanly started.
 */
module DaemonGroup {
  import opened Basics

  datatype Version = Version(major: nat, minor: nat, patch: nat)

  const UNSET: Version := Version(0, 0, 0)

  /** A protocol message, or what is stored of it: highest version, running version, PV_STATEFUL. */
  datatype Protocol = Protocol(max: Version, run: Version, stateful: bool)

  const NO_PROTOCOL: Protocol := Protocol(UNSET, UNSET, false)

  datatype Node = Node(isMember: bool, killed: bool, joinTime: nat, leftTime: nat, proto: Protocol)

  const NEW_NODE: Node := Node(false, false, 0, 0, NO_PROTOCOL)

  datatype Group = Group(nodes: map<int, Node>, members: seq<int>, ours: Protocol, kicked: seq<int>)

  /** What the group delivers to every daemon in the same order. */
  datatype Delivery = Config(members: seq<int>) | Proto(from: int, p: Protocol)

  /** A delivery with what is local to the daemon, or apply_changes marking the daemon stateful. */
  datatype Event = Deliver(d: Delivery, now: nat, quorate: bool, quorateTime: nat) | Stateful

  function Initial(max: Version): Group
  {
    Group(map[], [], Protocol(max, UNSET, false), [])
  }

  // ---------- configuration changes

  function Refresh(n: Node, present: bool, now: nat): Node
  {
    if present == n.isMember then n
    else if present then n.(isMember := true, joinTime := now)
    else n.(isMember := false, killed := false, proto := NO_PROTOCOL, leftTime := now)
  }

  function NodeAt(nodes: map<int, Node>, id: int): Node
  {
    if id in nodes then nodes[id] else NEW_NODE
  }

  function Confchg(g: Group, members: seq<int>, now: nat): (r: Group)
    ensures r.nodes.Keys == g.nodes.Keys + set m | m in members
  {
    g.(members := members,
       nodes := map n | n in g.nodes.Keys + (set m | m in members) :: Refresh(NodeAt(g.nodes, n), n in members, now))
  }

  // ---------- protocol messages

  /** Zero is not a version; once a run version is set none of its parts may be zero. */
  predicate WellFormed(p: Protocol)
  {
    && p.max.major != 0 && p.max.minor != 0 && p.max.patch != 0
    && (p.run.major != 0 ==> p.run.minor != 0 && p.run.patch != 0)
  }

  function ReceiveProtocol(g: Group, us: int, from: int, p: Protocol, quorate: bool, quorateTime: nat): Group
  {
    if !WellFormed(p) || from !in g.nodes || !g.nodes[from].isMember then g
    else
      var n := g.nodes[from];
      if from != us && n.proto.max.major == 0 && p.stateful && g.ours.stateful then
        if quorate && n.leftTime != 0 && quorateTime < n.leftTime then
          g.(nodes := g.nodes[from := n.(killed := true)],
             kicked := if n.killed then g.kicked else g.kicked + [from])
        else g
      else
        g.(nodes := g.nodes[from := n.(proto := p)],
           ours := if g.ours.run.major == 0 && p.run.major != 0 then g.ours.(run := p.run) else g.ours)
  }

  predicate IsClean(g: Group, id: int)
  {
    id in g.nodes && g.nodes[id].isMember && g.nodes[id].proto.max.major != 0
  }

  function Step(g: Group, us: int, e: Event): Group
  {
    match e
    case Deliver(Config(members), now, _, _) => Confchg(g, members, now)
    case Deliver(Proto(from, p), _, quorate, quorateTime) => ReceiveProtocol(g, us, from, p, quorate, quorateTime)
    case Stateful => g.(ours := g.ours.(stateful := true))
  }

  function Run(g: Group, us: int, events: seq<Event>): Group
  {
    if events == [] then g else Step(Run(g, us, events[..|events| - 1]), us, events[|events| - 1])
  }

  // ---------- choosing a version to propose

  predicate AllMessages(g: Group)
  {
    && g.members != []
    && forall i :: 0 <= i < |g.members| ==> g.members[i] in g.nodes && g.nodes[g.members[i]].proto.max.major != 0
  }

  /** The scan used for each part of the version, in which zero stands for "none yet". */
  function Least(values: seq<nat>): (r: nat)
    ensures (forall i :: 0 <= i < |values| ==> values[i] != 0) ==>
              && (r == 0 <==> values == [])
              && (values != [] ==> r in values)
              && forall i :: 0 <= i < |values| ==> r <= values[i]
  {
    if values == [] then 0
    else
      var m, x := Least(values[..|values| - 1]), values[|values| - 1];
      if m == 0 || x < m then x else m
  }

  lemma LeastSnoc(values: seq<nat>, x: nat)
    ensures Least(values + [x]) == (var m := Least(values); if m == 0 || x < m then x else m)
  {
    assert (values + [x])[..|values|] == values;
  }

  predicate Known(g: Group, upto: nat)
    requires upto <= |g.members|
  {
    forall i :: 0 <= i < upto ==> g.members[i] in g.nodes
  }

  function MaxAt(g: Group, i: nat): Version
    requires i < |g.members|
  {
    NodeAt(g.nodes, g.members[i]).proto.max
  }

  function Majors(g: Group, upto: nat): seq<nat>
    requires upto <= |g.members|
  {
    if upto == 0 then [] else Majors(g, upto - 1) + [MaxAt(g, upto - 1).major]
  }

  function Minors(g: Group, major: nat, upto: nat): seq<nat>
    requires upto <= |g.members|
  {
    if upto == 0 then []
    else
      var v := MaxAt(g, upto - 1);
      Minors(g, major, upto - 1) + (if v.major == major then [v.minor] else [])
  }

  function Patches(g: Group, major: nat, minor: nat, upto: nat): seq<nat>
    requires upto <= |g.members|
  {
    if upto == 0 then []
    else
      var v := MaxAt(g, upto - 1);
      Patches(g, major, minor, upto - 1) + (if v.major == major && v.minor == minor then [v.patch] else [])
  }

  function PickMin(g: Group): Option<Version>
  {
    var n := |g.members|;
    if !Known(g, n) then None
    else
      var major := Least(Majors(g, n));
      var minor := Least(Minors(g, major, n));
      var patch := Least(Patches(g, major, minor, n));
      if major == 0 || minor == 0 || patch == 0 then None else Some(Version(major, minor, patch))
  }

  // ---------- the object

  class GroupState {
    const us: int
    var nodes: map<int, Node>
    var members: seq<int>
    var ours: Protocol
    var kicked: seq<int>

    ghost function View(): Group
      reads this
    {
      Group(nodes, members, ours, kicked)
    }

    constructor (us: int)
      ensures View() == Initial(Version(1, 1, 1)) && this.us == us
    {
      this.us := us;
      nodes, members, kicked := map[], [], [];
      ours := Protocol(Version(1, 1, 1), UNSET, false);
    }

    method ConfchgCb(list: seq<int>, now: nat)
      modifies this
      ensures View() == Confchg(old(View()), list, now)
    {
      members := list;
      var i := 0;
      while i < |list|
        invariant 0 <= i <= |list|
        invariant members == list && ours == old(ours) && kicked == old(kicked)
        invariant nodes.Keys == old(nodes).Keys + set m | m in list[..i]
        invariant forall n :: n in nodes ==> nodes[n] == NodeAt(old(nodes), n)
      {
        assert list[..i + 1] == list[..i] + [list[i]];
        if list[i] !in nodes { nodes := nodes[list[i] := NEW_NODE]; }
        i := i + 1;
      }
      assert list[..i] == list;
      nodes := RefreshAll(nodes, list, now);
      assert nodes == Confchg(old(View()), list, now).nodes;
    }

    static method RefreshAll(nodes0: map<int, Node>, list: seq<int>, now: nat) returns (nodes: map<int, Node>)
      ensures nodes.Keys == nodes0.Keys
      ensures forall n :: n in nodes ==> nodes[n] == Refresh(nodes0[n], n in list, now)
    {
      nodes := nodes0;
      var todo := nodes.Keys;
      while exists n :: n in todo
        invariant todo <= nodes.Keys && nodes.Keys == nodes0.Keys
        invariant forall n :: n in todo ==> nodes[n] == nodes0[n]
        invariant forall n :: n in nodes && n !in todo ==> nodes[n] == Refresh(nodes0[n], n in list, now)
        decreases todo
      {
        var n :| n in todo;
        todo := todo - {n};
        var node := nodes[n];
        if n in list {
          if !node.isMember { nodes := nodes[n := node.(isMember := true, joinTime := now)]; }
        } else if node.isMember {
          nodes := nodes[n := node.(isMember := false, killed := false, proto := NO_PROTOCOL, leftTime := now)];
        }
      }
    }

    method ReceiveProtocolMsg(from: int, p: Protocol, quorate: bool, quorateTime: nat)
      modifies this
      ensures View() == ReceiveProtocol(old(View()), us, from, p, quorate, quorateTime)
    {
      if p.max.major == 0 || p.max.minor == 0 || p.max.patch == 0 { return; }
      if p.run.major != 0 && (p.run.minor == 0 || p.run.patch == 0) { return; }
      if from !in nodes || !nodes[from].isMember { return; }
      var node := nodes[from];
      if from != us && node.proto.max.major == 0 && p.stateful && ours.stateful {
        if quorate && node.leftTime != 0 && quorateTime < node.leftTime {
          if !node.killed { kicked := kicked + [from]; }
          nodes := nodes[from := node.(killed := true)];
        }
        return;
      }
      nodes := nodes[from := node.(proto := p)];
      if ours.run.major != 0 { return; }
      if p.run.major != 0 { ours := ours.(run := p.run); }
    }

    method AllProtocolMessages() returns (all: bool)
      ensures all == AllMessages(View())
    {
      if members == [] { return false; }
      var i := 0;
      while i < |members|
        invariant 0 <= i <= |members|
        invariant forall j :: 0 <= j < i ==> members[j] in nodes && nodes[members[j]].proto.max.major != 0
      {
        if members[i] !in nodes || nodes[members[i]].proto.max.major == 0 { return false; }
        i := i + 1;
      }
      return true;
    }

    method LeastMajor() returns (known: bool, major: nat)
      ensures known == Known(View(), |members|)
      ensures known ==> major == Least(Majors(View(), |members|))
    {
      ghost var g := View();
      major, known := 0, true;
      var i := 0;
      while i < |members|
        invariant 0 <= i <= |members| && Known(g, i)
        invariant major == Least(Majors(g, i))
      {
        if members[i] !in nodes { return false, major; }
        var x := nodes[members[i]].proto.max.major;
        LeastSnoc(Majors(g, i), x);
        if major == 0 || x < major { major := x; }
        i := i + 1;
      }
    }

    method LeastMinor(major: nat) returns (minor: nat)
      ensures minor == Least(Minors(View(), major, |members|))
    {
      ghost var g := View();
      minor := 0;
      var i := 0;
      while i < |members|
        invariant 0 <= i <= |members|
        invariant minor == Least(Minors(g, major, i))
      {
        var v := NodeAt(nodes, members[i]).proto.max;
        LeastSnoc(Minors(g, major, i), v.minor);
        assert v.major != major ==> Minors(g, major, i + 1) == Minors(g, major, i);
        if major == v.major && (minor == 0 || v.minor < minor) { minor := v.minor; }
        i := i + 1;
      }
    }

    method LeastPatch(major: nat, minor: nat) returns (patch: nat)
      ensures patch == Least(Patches(View(), major, minor, |members|))
    {
      ghost var g := View();
      patch := 0;
      var i := 0;
      while i < |members|
        invariant 0 <= i <= |members|
        invariant patch == Least(Patches(g, major, minor, i))
      {
        var v := NodeAt(nodes, members[i]).proto.max;
        LeastSnoc(Patches(g, major, minor, i), v.patch);
        assert !(v.major == major && v.minor == minor) ==> Patches(g, major, minor, i + 1) == Patches(g, major, minor, i);
        if major == v.major && minor == v.minor && (patch == 0 || v.patch < patch) { patch := v.patch; }
        i := i + 1;
      }
    }

    method PickMinProtocol() returns (r: Option<Version>)
      ensures r == PickMin(View())
    {
      var known, major := LeastMajor();
      if !known || major == 0 { return None; }
      var minor := LeastMinor(major);
      if minor == 0 { return None; }
      var patch := LeastPatch(major, minor);
      if patch == 0 { return None; }
      r := Some(Version(major, minor, patch));
    }

    method IsCleanDaemonMember(id: int) returns (clean: bool)
      ensures clean == IsClean(View(), id)
    {
      clean := id in nodes && nodes[id].isMember && nodes[id].proto.max.major != 0;
    }

    method SetStateful()
      modifies this`ours
      ensures View() == Step(old(View()), us, Stateful)
    {
      ours := ours.(stateful := true);
    }
  }
}
