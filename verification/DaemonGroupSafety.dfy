/**
  What the daemon group promises over whole runs: who counts as cleanly started
  (fence/fenced/cpg.c:1847-1870, 2066-2133), which running version everybody
  adopts (1801-1884) and what is proposed (1710-1776).
 */
module DaemonGroupSafety {
  import opened Basics
  import opened DaemonGroup

  // ---------- the trace

  /** The latest member list delivered. */
  function MembersAfter(events: seq<Event>): seq<int>
  {
    if events == [] then []
    else
      match events[|events| - 1]
      case Deliver(Config(members), _, _, _) => members
      case _ => MembersAfter(events[..|events| - 1])
  }

  predicate StatefulAfter(events: seq<Event>)
  {
    exists k :: 0 <= k < |events| && events[k].Stateful?
  }

  /** Event k is a well-formed message from member n that is not a stateful merge. */
  predicate Vouches(events: seq<Event>, k: int, n: int, us: int)
  {
    && 0 <= k < |events|
    && events[k].Deliver? && events[k].d.Proto? && events[k].d.from == n
    && WellFormed(events[k].d.p)
    && n in MembersAfter(events[..k])
    && (n == us || !events[k].d.p.stateful || !StatefulAfter(events[..k]))
  }

  /** No configuration after event k is without n. */
  predicate StaysAfter(events: seq<Event>, k: int, n: int)
  {
    forall j :: 0 <= j < |events| && k < j && events[j].Deliver? && events[j].d.Config? ==> n in events[j].d.members
  }

  ghost predicate VouchedFor(events: seq<Event>, n: int, us: int)
  {
    exists k :: Vouches(events, k, n, us) && StaysAfter(events, k, n)
  }

  // ---------- the invariant

  ghost predicate Inv(g: Group, events: seq<Event>, us: int)
  {
    && g.members == MembersAfter(events)
    && (g.ours.stateful <==> StatefulAfter(events))
    && (forall n :: n in g.members ==> n in g.nodes)
    && (forall n :: n in g.nodes ==> (g.nodes[n].isMember <==> n in g.members))
    && (forall n :: n in g.nodes ==> (g.nodes[n].proto.max.major != 0 <==> VouchedFor(events, n, us)))
    && (forall n :: VouchedFor(events, n, us) ==> n in g.members)
    && (forall n :: n in g.nodes && g.nodes[n].proto.max.major != 0 ==> WellFormed(g.nodes[n].proto))
  }

  lemma VouchedSnoc(events: seq<Event>, e: Event, n: int, us: int)
    ensures VouchedFor(events + [e], n, us) <==>
            || Vouches(events + [e], |events|, n, us)
            || (VouchedFor(events, n, us) && (e.Deliver? && e.d.Config? ==> n in e.d.members))
  {
    var all := events + [e];
    assert all[..|events|] == events;
    if k :| Vouches(all, k, n, us) && StaysAfter(all, k, n) {
      if k < |events| {
        assert all[..k] == events[..k];
        assert Vouches(events, k, n, us) && StaysAfter(events, k, n) by {
          forall j | k < j < |events| && events[j].Deliver? && events[j].d.Config?
            ensures n in events[j].d.members
          {
            assert all[j] == events[j];
          }
        }
        assert all[|events|] == e;
      }
    }
    if k :| Vouches(events, k, n, us) && StaysAfter(events, k, n) && (e.Deliver? && e.d.Config? ==> n in e.d.members) {
      assert all[..k] == events[..k] && all[k] == events[k];
      assert Vouches(all, k, n, us) && StaysAfter(all, k, n);
    }
    if Vouches(all, |events|, n, us) {
      assert StaysAfter(all, |events|, n);
    }
  }

  lemma AfterSnoc(events: seq<Event>, e: Event)
    ensures MembersAfter(events + [e]) == if e.Deliver? && e.d.Config? then e.d.members else MembersAfter(events)
    ensures StatefulAfter(events + [e]) <==> StatefulAfter(events) || e.Stateful?
  {
    var all := events + [e];
    assert all[..|events|] == events && all[|all| - 1] == e;
    if k :| 0 <= k < |events| && events[k].Stateful? { assert all[k].Stateful?; }
    if e.Stateful? { assert all[|events|].Stateful?; }
    if k :| 0 <= k < |all| && all[k].Stateful? {
      if k < |events| { assert events[k].Stateful?; }
    }
  }

  lemma ConfigInv(g: Group, events: seq<Event>, us: int, e: Event)
    requires Inv(g, events, us) && e.Deliver? && e.d.Config?
    ensures Inv(Step(g, us, e), events + [e], us)
  {
    AfterSnoc(events, e);
    forall n
      ensures VouchedFor(events + [e], n, us) <==> VouchedFor(events, n, us) && n in e.d.members
    {
      VouchedSnoc(events, e, n, us);
    }
  }

  lemma ProtoInv(g: Group, events: seq<Event>, us: int, e: Event)
    requires Inv(g, events, us) && e.Deliver? && e.d.Proto?
    ensures Inv(Step(g, us, e), events + [e], us)
  {
    AfterSnoc(events, e);
    var from, p := e.d.from, e.d.p;
    assert (events + [e])[..|events|] == events;
    var vouches := WellFormed(p) && from in g.members && (from == us || !p.stateful || !g.ours.stateful);
    forall n
      ensures VouchedFor(events + [e], n, us) <==> VouchedFor(events, n, us) || (n == from && vouches)
    {
      VouchedSnoc(events, e, n, us);
    }
  }

  lemma StatefulInv(g: Group, events: seq<Event>, us: int, e: Event)
    requires Inv(g, events, us) && e.Stateful?
    ensures Inv(Step(g, us, e), events + [e], us)
  {
    AfterSnoc(events, e);
    forall n
      ensures VouchedFor(events + [e], n, us) <==> VouchedFor(events, n, us)
    {
      VouchedSnoc(events, e, n, us);
    }
  }

  lemma {:induction false} RunInv(max: Version, us: int, events: seq<Event>)
    ensures Inv(Run(Initial(max), us, events), events, us)
  {
    if events == [] {
      assert forall n :: !VouchedFor(events, n, us);
    } else {
      var k := |events| - 1;
      RunInv(max, us, events[..k]);
      var g, e := Run(Initial(max), us, events[..k]), events[k];
      assert events == events[..k] + [e];
      if e.Stateful? { StatefulInv(g, events[..k], us, e); }
      else if e.d.Config? { ConfigInv(g, events[..k], us, e); }
      else { ProtoInv(g, events[..k], us, e); }
    }
  }

  /** Exactly when a peer counts as clean, in terms of what was delivered. */
  lemma CleanExactly(max: Version, us: int, events: seq<Event>, n: int)
    ensures IsClean(Run(Initial(max), us, events), n) <==> VouchedFor(events, n, us)
  {
    RunInv(max, us, events);
  }

  /**
    Clean rejoin: once we are stateful, a peer that is seen to leave counts as clean
    only if it has since joined again and sent a message without the stateful flag.
   */
  lemma CleanRejoin(max: Version, us: int, events: seq<Event>, n: int, s: nat, l: nat) returns (k: nat)
    requires n != us && s < l < |events| && events[s].Stateful?
    requires events[l].Deliver? && events[l].d.Config? && n !in events[l].d.members
    requires IsClean(Run(Initial(max), us, events), n)
    ensures l < k < |events| && events[k].Deliver? && events[k].d.Proto?
    ensures events[k].d.from == n && WellFormed(events[k].d.p) && !events[k].d.p.stateful
    ensures n in MembersAfter(events[..k]) && StaysAfter(events, k, n)
  {
    CleanExactly(max, us, events, n);
    k :| Vouches(events, k, n, us) && StaysAfter(events, k, n);
    assert k > l;
    assert events[..k][s].Stateful?;
  }

  // ---------- one running version for everybody

  /** What was delivered, without what is local to the daemon. */
  function Deliveries(events: seq<Event>): seq<Delivery>
  {
    if events == [] then []
    else
      var e := events[|events| - 1];
      Deliveries(events[..|events| - 1]) + (if e.Deliver? then [e.d] else [])
  }

  function Listed(ds: seq<Delivery>): seq<int>
  {
    if ds == [] then []
    else if ds[|ds| - 1].Config? then ds[|ds| - 1].members
    else Listed(ds[..|ds| - 1])
  }

  /** The run version of the first well-formed message from a member that has one. */
  function FirstRun(ds: seq<Delivery>): Option<Version>
  {
    if ds == [] then None
    else
      var before, d := ds[..|ds| - 1], ds[|ds| - 1];
      var r := FirstRun(before);
      if r.Some? then r
      else if d.Proto? && WellFormed(d.p) && d.p.run.major != 0 && d.from in Listed(before) then Some(d.p.run)
      else None
  }

  /** set_protocol comes before anything that could make the daemon stateful. */
  predicate Ordered(events: seq<Event>)
  {
    forall k :: 0 <= k < |events| && events[k].Stateful? ==> FirstRun(Deliveries(events[..k])).Some?
  }

  lemma {:induction false} ListedMatches(events: seq<Event>)
    ensures Listed(Deliveries(events)) == MembersAfter(events)
  {
    if events != [] {
      var before, e := events[..|events| - 1], events[|events| - 1];
      ListedMatches(before);
      if e.Deliver? {
        var ds := Deliveries(before);
        assert Deliveries(events) == ds + [e.d] && (ds + [e.d])[..|ds|] == ds;
      } else {
        assert Deliveries(events) == Deliveries(before);
      }
    }
  }

  function RunOr(r: Option<Version>): Version
  {
    if r.Some? then r.value else UNSET
  }

  lemma {:induction false} OrderedPrefix(events: seq<Event>, k: nat)
    requires Ordered(events) && k <= |events|
    ensures Ordered(events[..k])
  {
    forall j | 0 <= j < k && events[..k][j].Stateful?
      ensures FirstRun(Deliveries(events[..k][..j])).Some?
    {
      assert events[..k][..j] == events[..j];
    }
  }

  lemma {:induction false} FirstRunNonzero(ds: seq<Delivery>)
    ensures FirstRun(ds).Some? ==> FirstRun(ds).value.major != 0
  {
    if ds != [] { FirstRunNonzero(ds[..|ds| - 1]); }
  }

  /** One delivery moves the adopted version and the first run version together. */
  lemma AdoptStep(g: Group, us: int, ds: seq<Delivery>, e: Event)
    requires e.Deliver?
    requires g.ours.run == RunOr(FirstRun(ds)) && g.members == Listed(ds)
    requires g.ours.stateful ==> FirstRun(ds).Some?
    requires forall n :: n in g.members ==> n in g.nodes
    requires forall n :: n in g.nodes ==> (g.nodes[n].isMember <==> n in g.members)
    ensures Step(g, us, e).ours.run == RunOr(FirstRun(ds + [e.d]))
  {
    assert (ds + [e.d])[..|ds|] == ds;
    FirstRunNonzero(ds);
  }

  /** Every daemon runs the first run version that was delivered to it. */
  lemma {:induction false} RunsFirst(max: Version, us: int, events: seq<Event>)
    requires Ordered(events)
    ensures Run(Initial(max), us, events).ours.run == RunOr(FirstRun(Deliveries(events)))
  {
    if events != [] {
      var k := |events| - 1;
      var before, e := events[..k], events[k];
      var ds := Deliveries(before);
      OrderedPrefix(events, k);
      RunsFirst(max, us, before);
      if e.Deliver? {
        RunInv(max, us, before);
        ListedMatches(before);
        if FirstRun(ds).None? { NotYetStateful(events, k); }
        AdoptStep(Run(Initial(max), us, before), us, ds, e);
        assert Deliveries(events) == ds + [e.d];
      } else {
        assert Deliveries(events) == ds;
      }
    }
  }

  lemma NotYetStateful(events: seq<Event>, k: nat)
    requires Ordered(events) && k <= |events| && FirstRun(Deliveries(events[..k])).None?
    ensures !StatefulAfter(events[..k])
  {
    if j :| 0 <= j < k && events[..k][j].Stateful? {
      assert events[j].Stateful?;
      FirstRunSticks(events, j, k);
    }
  }

  /** Once set, the first run version is the first run version forever. */
  lemma {:induction false} FirstRunSticks(events: seq<Event>, j: nat, k: nat)
    requires j <= k <= |events| && FirstRun(Deliveries(events[..j])).Some?
    ensures FirstRun(Deliveries(events[..k])) == FirstRun(Deliveries(events[..j]))
    decreases k - j
  {
    if j < k {
      FirstRunSticks(events, j, k - 1);
      var before, e := events[..k - 1], events[k - 1];
      assert events[..k][..k - 1] == before;
      var ds := Deliveries(before);
      if e.Deliver? {
        assert Deliveries(events[..k]) == ds + [e.d] && (ds + [e.d])[..|ds|] == ds;
      } else {
        assert Deliveries(events[..k]) == ds;
      }
    }
  }

  /** Before the common part nobody had a run version, so only the common part decides. */
  lemma {:induction false} CommonDecides(pre: seq<Delivery>, common: seq<Delivery>)
    requires FirstRun(pre).None? && common != [] && common[0].Config?
    ensures FirstRun(pre + common) == FirstRun(common) && Listed(pre + common) == Listed(common)
    decreases |common|
  {
    var n := |common| - 1;
    var all := pre + common;
    assert all[..|all| - 1] == pre + common[..n] && all[|all| - 1] == common[n];
    if n == 0 {
      assert pre + common[..n] == pre && common[..n] == [];
      assert FirstRun([]).None?;
    } else {
      CommonDecides(pre, common[..n]);
    }
  }

  /**
    Agreement: two daemons that have both received the same deliveries since a
    configuration before which neither had seen a run version run the same version.
   */
  lemma SameVersion(max1: Version, max2: Version, us1: int, us2: int, events1: seq<Event>, events2: seq<Event>,
                    pre1: seq<Delivery>, pre2: seq<Delivery>, common: seq<Delivery>)
    requires Ordered(events1) && Ordered(events2)
    requires Deliveries(events1) == pre1 + common && Deliveries(events2) == pre2 + common
    requires common != [] && common[0].Config?
    requires FirstRun(pre1).None? && FirstRun(pre2).None?
    ensures Run(Initial(max1), us1, events1).ours.run == Run(Initial(max2), us2, events2).ours.run
  {
    RunsFirst(max1, us1, events1);
    RunsFirst(max2, us2, events2);
    CommonDecides(pre1, common);
    CommonDecides(pre2, common);
  }

  /** A run version, once adopted, never changes. */
  lemma {:induction false} VersionNeverChanges(max: Version, us: int, events: seq<Event>, k: nat)
    requires k <= |events| && Run(Initial(max), us, events[..k]).ours.run.major != 0
    ensures Run(Initial(max), us, events).ours.run == Run(Initial(max), us, events[..k]).ours.run
    decreases |events|
  {
    if k < |events| {
      var before := events[..|events| - 1];
      assert before[..k] == events[..k];
      VersionNeverChanges(max, us, before, k);
    } else {
      assert events[..k] == events;
    }
  }

  // ---------- the proposal

  predicate AtMost(a: Version, b: Version)
  {
    a.major < b.major || (a.major == b.major && (a.minor < b.minor || (a.minor == b.minor && a.patch <= b.patch)))
  }

  /** No part of a stored version is zero. */
  predicate NoZeros(g: Group)
  {
    forall i :: 0 <= i < |g.members| ==> var v := MaxAt(g, i); v.major != 0 && v.minor != 0 && v.patch != 0
  }

  lemma {:induction false} MajorsExactly(g: Group, upto: nat)
    requires upto <= |g.members|
    ensures |Majors(g, upto)| == upto && forall i :: 0 <= i < upto ==> Majors(g, upto)[i] == MaxAt(g, i).major
  {
    if upto > 0 { MajorsExactly(g, upto - 1); }
  }

  lemma {:induction false} MinorsExactly(g: Group, major: nat, upto: nat)
    requires upto <= |g.members|
    ensures forall x :: x in Minors(g, major, upto) <==> exists i :: 0 <= i < upto && MaxAt(g, i).major == major && MaxAt(g, i).minor == x
  {
    if upto > 0 { MinorsExactly(g, major, upto - 1); }
  }

  lemma {:induction false} PatchesExactly(g: Group, major: nat, minor: nat, upto: nat)
    requires upto <= |g.members|
    ensures forall x :: x in Patches(g, major, minor, upto) <==>
              exists i :: 0 <= i < upto && MaxAt(g, i).major == major && MaxAt(g, i).minor == minor && MaxAt(g, i).patch == x
  {
    if upto > 0 { PatchesExactly(g, major, minor, upto - 1); }
  }

  lemma LeastIsIn(values: seq<nat>)
    requires values != [] && forall x :: x in values ==> x != 0
    ensures Least(values) in values && forall x :: x in values ==> Least(values) <= x
  {
    forall i | 0 <= i < |values| ensures values[i] != 0 { assert values[i] in values; }
  }

  lemma LeastMajor(g: Group) returns (i: nat)
    requires AllMessages(g) && NoZeros(g)
    ensures i < |g.members| && MaxAt(g, i).major == Least(Majors(g, |g.members|))
    ensures forall j :: 0 <= j < |g.members| ==> MaxAt(g, i).major <= MaxAt(g, j).major
  {
    var n := |g.members|;
    MajorsExactly(g, n);
    i :| 0 <= i < n && Majors(g, n)[i] == Least(Majors(g, n));
  }

  lemma LeastMinor(g: Group, i0: nat) returns (i: nat)
    requires NoZeros(g) && i0 < |g.members|
    ensures i < |g.members| && MaxAt(g, i).major == MaxAt(g, i0).major
    ensures MaxAt(g, i).minor == Least(Minors(g, MaxAt(g, i0).major, |g.members|))
    ensures forall j :: 0 <= j < |g.members| && MaxAt(g, j).major == MaxAt(g, i).major ==> MaxAt(g, i).minor <= MaxAt(g, j).minor
  {
    var n, major := |g.members|, MaxAt(g, i0).major;
    MinorsExactly(g, major, n);
    assert MaxAt(g, i0).minor in Minors(g, major, n);
    LeastIsIn(Minors(g, major, n));
    i :| 0 <= i < n && MaxAt(g, i).major == major && MaxAt(g, i).minor == Least(Minors(g, major, n));
    forall j | 0 <= j < n && MaxAt(g, j).major == major ensures MaxAt(g, i).minor <= MaxAt(g, j).minor {
      assert MaxAt(g, j).minor in Minors(g, major, n);
    }
  }

  lemma LeastPatch(g: Group, i1: nat) returns (i: nat)
    requires NoZeros(g) && i1 < |g.members|
    ensures i < |g.members| && MaxAt(g, i).major == MaxAt(g, i1).major && MaxAt(g, i).minor == MaxAt(g, i1).minor
    ensures MaxAt(g, i).patch == Least(Patches(g, MaxAt(g, i1).major, MaxAt(g, i1).minor, |g.members|))
    ensures forall j :: 0 <= j < |g.members| && MaxAt(g, j).major == MaxAt(g, i).major && MaxAt(g, j).minor == MaxAt(g, i).minor
                        ==> MaxAt(g, i).patch <= MaxAt(g, j).patch
  {
    var n, major, minor := |g.members|, MaxAt(g, i1).major, MaxAt(g, i1).minor;
    PatchesExactly(g, major, minor, n);
    assert MaxAt(g, i1).patch in Patches(g, major, minor, n);
    LeastIsIn(Patches(g, major, minor, n));
    i :| 0 <= i < n && MaxAt(g, i).major == major && MaxAt(g, i).minor == minor &&
         MaxAt(g, i).patch == Least(Patches(g, major, minor, n));
    forall j | 0 <= j < n && MaxAt(g, j).major == major && MaxAt(g, j).minor == minor
      ensures MaxAt(g, i).patch <= MaxAt(g, j).patch
    {
      assert MaxAt(g, j).patch in Patches(g, major, minor, n);
    }
  }

  /** With a message from every member, the proposal is the lexicographic minimum of their versions. */
  lemma PickIsLeast(g: Group)
    requires AllMessages(g) && NoZeros(g)
    ensures PickMin(g).Some?
    ensures exists i :: 0 <= i < |g.members| && MaxAt(g, i) == PickMin(g).value
    ensures forall i :: 0 <= i < |g.members| ==> AtMost(PickMin(g).value, MaxAt(g, i))
  {
    var i0 := LeastMajor(g);
    var i1 := LeastMinor(g, i0);
    var i2 := LeastPatch(g, i1);
    var v := MaxAt(g, i2);
    assert PickMin(g) == Some(v);
  }

  /** In every run the stored versions have no zeros as soon as a proposal is due. */
  lemma ProposalIsLeast(max: Version, us: int, events: seq<Event>)
    requires AllMessages(Run(Initial(max), us, events))
    ensures var g := Run(Initial(max), us, events);
            && PickMin(g).Some?
            && (exists i :: 0 <= i < |g.members| && MaxAt(g, i) == PickMin(g).value)
            && forall i :: 0 <= i < |g.members| ==> AtMost(PickMin(g).value, MaxAt(g, i))
  {
    RunInv(max, us, events);
    PickIsLeast(Run(Initial(max), us, events));
  }
}
