/**
  Whom a daemon kicks out of the cluster (fence/fenced/cpg.c:1847-1870, 2066-2084): a peer that
  comes back from a partition with its state, when we have been quorate since before it left.
 */
module DaemonGroupKicks {
  import opened Basics
  import opened DaemonGroup
  import opened DaemonGroupSafety

  /** When the node was last seen to leave, 0 if never. */
  function LeftTime(events: seq<Event>, n: int): nat
  {
    if events == [] then 0
    else
      var before, e := events[..|events| - 1], events[|events| - 1];
      if e.Deliver? && e.d.Config? && n !in e.d.members && n in MembersAfter(before) then e.now else LeftTime(before, n)
  }

  /** Event k is a stateful message of a member that has not been vouched for since it joined, to a stateful daemon. */
  ghost predicate Returns(events: seq<Event>, k: int, n: int, us: int)
  {
    && 0 <= k < |events| && n != us
    && events[k].Deliver? && events[k].d.Proto? && events[k].d.from == n
    && WellFormed(events[k].d.p) && events[k].d.p.stateful && StatefulAfter(events[..k])
    && n in MembersAfter(events[..k]) && !VouchedFor(events[..k], n, us)
  }

  /** It returns after we, and not it, kept the quorum. */
  ghost predicate Kicks(events: seq<Event>, k: int, n: int, us: int)
  {
    && Returns(events, k, n, us)
    && events[k].quorate && LeftTime(events[..k], n) != 0 && events[k].quorateTime < LeftTime(events[..k], n)
  }

  ghost predicate KickedBy(events: seq<Event>, n: int, us: int)
  {
    exists k :: Kicks(events, k, n, us)
  }

  /** It has been kicked since we last saw it leave. */
  ghost predicate KickedSince(events: seq<Event>, n: int, us: int)
  {
    events != [] &&
    var before, e := events[..|events| - 1], events[|events| - 1];
    !(e.Deliver? && e.d.Config? && n !in e.d.members && n in MembersAfter(before)) &&
    (KickedSince(before, n, us) || Kicks(events, |events| - 1, n, us))
  }

  ghost predicate KickInv(g: Group, events: seq<Event>, us: int)
  {
    && (forall n :: n in g.nodes ==> g.nodes[n].leftTime == LeftTime(events, n))
    && (forall n :: n !in g.nodes ==> LeftTime(events, n) == 0)
    && (forall n :: n in g.nodes && g.nodes[n].killed ==> n in g.kicked)
    && (forall n :: n in g.nodes ==> (g.nodes[n].killed <==> KickedSince(events, n, us)))
    && (forall n :: n !in g.nodes ==> !KickedSince(events, n, us))
    && forall n :: n in g.kicked <==> KickedBy(events, n, us)
  }

  lemma LeftSnoc(events: seq<Event>, e: Event, n: int)
    ensures LeftTime(events + [e], n) ==
            if e.Deliver? && e.d.Config? && n !in e.d.members && n in MembersAfter(events) then e.now else LeftTime(events, n)
  {
    assert (events + [e])[..|events|] == events;
  }

  lemma KickedSnoc(events: seq<Event>, e: Event, n: int, us: int)
    ensures KickedBy(events + [e], n, us) <==> KickedBy(events, n, us) || Kicks(events + [e], |events|, n, us)
  {
    hide VouchedFor, LeftTime, MembersAfter, StatefulAfter;
    var all := events + [e];
    forall k | 0 <= k < |events| ensures Kicks(all, k, n, us) <==> Kicks(events, k, n, us) {
      assert all[..k] == events[..k] && all[k] == events[k];
    }
    if k :| Kicks(all, k, n, us) { if k < |events| { assert Kicks(events, k, n, us); } }
    if k :| Kicks(events, k, n, us) { assert Kicks(all, k, n, us); }
  }

  lemma SinceSnoc(events: seq<Event>, e: Event, n: int, us: int)
    ensures KickedSince(events + [e], n, us) <==>
            && !(e.Deliver? && e.d.Config? && n !in e.d.members && n in MembersAfter(events))
            && (KickedSince(events, n, us) || Kicks(events + [e], |events|, n, us))
  {
    hide VouchedFor, LeftTime, StatefulAfter;
    assert (events + [e])[..|events|] == events;
  }

  lemma OthersKicks(g: Group, events: seq<Event>, us: int, e: Event)
    requires Inv(g, events, us) && KickInv(g, events, us) && (e.Deliver? ==> e.d.Config?)
    ensures KickInv(Step(g, us, e), events + [e], us)
  {
    hide VouchedFor, LeftTime, StatefulAfter, KickedBy, KickedSince;
    forall n ensures KickedBy(events + [e], n, us) <==> KickedBy(events, n, us) {
      KickedSnoc(events, e, n, us);
    }
    forall n
      ensures KickedSince(events + [e], n, us) <==>
              !(e.Deliver? && e.d.Config? && n !in e.d.members && n in g.members) && KickedSince(events, n, us)
    {
      SinceSnoc(events, e, n, us);
    }
    forall n
      ensures LeftTime(events + [e], n) ==
              if e.Deliver? && e.d.Config? && n !in e.d.members && n in g.members then e.now else LeftTime(events, n)
    {
      LeftSnoc(events, e, n);
    }
  }

  lemma ProtoKicks(g: Group, events: seq<Event>, us: int, e: Event)
    requires Inv(g, events, us) && KickInv(g, events, us) && e.Deliver? && e.d.Proto?
    ensures KickInv(Step(g, us, e), events + [e], us)
  {
    hide VouchedFor, LeftTime, StatefulAfter, KickedBy, KickedSince;
    var from, p := e.d.from, e.d.p;
    assert (events + [e])[..|events|] == events;
    var kicks := && WellFormed(p) && from in g.members && from != us && p.stateful && g.ours.stateful
                 && g.nodes[from].proto.max.major == 0
                 && e.quorate && g.nodes[from].leftTime != 0 && e.quorateTime < g.nodes[from].leftTime;
    forall n ensures KickedBy(events + [e], n, us) <==> KickedBy(events, n, us) || (n == from && kicks) {
      KickedSnoc(events, e, n, us);
    }
    forall n ensures KickedSince(events + [e], n, us) <==> KickedSince(events, n, us) || (n == from && kicks) {
      SinceSnoc(events, e, n, us);
    }
    forall n ensures LeftTime(events + [e], n) == LeftTime(events, n) {
      LeftSnoc(events, e, n);
    }
  }

  lemma {:induction false} RunKicks(max: Version, us: int, events: seq<Event>)
    ensures KickInv(Run(Initial(max), us, events), events, us)
  {
    if events == [] {
      assert forall n :: !KickedBy(events, n, us);
    } else {
      var k := |events| - 1;
      var before, e := events[..k], events[k];
      RunKicks(max, us, before);
      RunInv(max, us, before);
      assert events == before + [e];
      hide KickInv, Inv, Step;
      if e.Deliver? && e.d.Proto? { ProtoKicks(Run(Initial(max), us, before), before, us, e); }
      else { OthersKicks(Run(Initial(max), us, before), before, us, e); }
    }
  }

  /**
    In every run, exactly those peers are kicked that returned with state and unvouched to a
    stateful daemon that was quorate, and had been since before it saw them leave.
   */
  lemma KickedExactly(max: Version, us: int, events: seq<Event>, n: int)
    ensures n in Run(Initial(max), us, events).kicked <==> KickedBy(events, n, us)
  {
    RunKicks(max, us, events);
  }

  /** A peer is kicked at most once for each time it stays: only by the first such message since it last left. */
  lemma KickedOncePerStay(max: Version, us: int, events: seq<Event>)
    requires events != []
    ensures var before, e := events[..|events| - 1], events[|events| - 1];
            var was, now := Run(Initial(max), us, before).kicked, Run(Initial(max), us, events).kicked;
            if e.Deliver? && e.d.Proto? && Kicks(events, |events| - 1, e.d.from, us) && !KickedSince(before, e.d.from, us)
            then now == was + [e.d.from] else now == was
  {
    var before, e := events[..|events| - 1], events[|events| - 1];
    RunKicks(max, us, before);
    RunInv(max, us, before);
    hide VouchedFor, LeftTime, StatefulAfter, KickedBy, KickedSince;
  }
}
