/**
  What a fence daemon remembers (fence/fenced/cpg.c:309-343, 447-486, 1017-1052, 1270-1367,
  1403-1457): what a new change records of its configuration, and what the flags and times of a
  domain say about the events it has seen.
 */
module FenceRecord {
  import opened Basics
  import opened FenceDomain
  import opened FenceMerge
  import opened FenceGate
  import opened FenceVictims
  import opened FenceRejoin
  import opened FenceDuty
  import opened FenceNews

  // ---------- a new change

  lemma {:induction false} CountFailedExactly(left: seq<Left>)
    ensures CountFailed(left) == |set i | 0 <= i < |left| && left[i].reason != Leave|
  {
    if left != [] {
      var k := |left| - 1;
      CountFailedExactly(left[..k]);
      var a := set i | 0 <= i < k && left[..k][i].reason != Leave;
      var b := set i | 0 <= i < |left| && left[i].reason != Leave;
      assert b == a + (if left[k].reason != Leave then {k} else {});
    }
  }

  /** A join marks nobody but the joined, and gives each of them but ourselves a history. */
  lemma {:induction false} JoinOnly(ms: seq<Member>, h: map<int, History>, joined: seq<int>, us: int, id: int)
    requires Join(ms, h, joined, us).Joined?
    ensures var r := Join(ms, h, joined, us);
            && (FindMemb(r.members, id) >= 0 && r.members[FindMemb(r.members, id)].added ==>
                  id in joined || (FindMemb(ms, id) >= 0 && ms[FindMemb(ms, id)].added))
            && (id in h || (id in joined && id != us) ==> id in r.history)
    decreases |joined|
  {
    if joined != [] {
      var i := FindMemb(ms, joined[0]);
      var h1 := if joined[0] == us then h else InitHistory(h, joined[0]);
      FindMembUpdate(ms, i, ms[i].(added := true), id);
      assert joined == [joined[0]] + joined[1..];
      JoinOnly(ms[i := ms[i].(added := true)], h1, joined[1..], us, id);
    }
  }

  lemma {:induction false} InitAllKnown(h: map<int, History>, ms: seq<Member>, id: int)
    requires id in h || FindMemb(ms, id) >= 0
    ensures id in InitMembers(h, ms)
    decreases |ms|
  {
    if ms != [] { InitAllKnown(InitHistory(h, ms[0].nodeid), ms[1..], id); }
  }

  /** A change records exactly its configuration: its members, who of them joined, and how many left or failed. */
  lemma NewChangeExactly(d: Domain, us: int, cfg: Config, now: nat, n: int)
    requires AddChange(d, us, cfg, now).0
    ensures var r, cg := AddChange(d, us, cfg, now).1, AddChange(d, us, cfg, now).1.changes[0];
            && r.changeSeq == cg.seqno == d.changeSeq + 1 && cg.createTime == now
            && MemberIds(cg.members) == cfg.members && (cg.weJoined <==> us in cfg.joined)
            && cg.joinedCount == |cfg.joined| && cg.removeCount == |cfg.left|
            && cg.failedCount == |set i | 0 <= i < |cfg.left| && cfg.left[i].reason != Leave|
            && (AddedIn(cg, n) <==> n in cfg.joined)
            && (n in cfg.joined && n != us ==> n in r.history)
            && (us in cfg.joined && n in cfg.members ==> n in r.history)
  {
    var h, ms := FlagFailed(d.history, cfg.left), FreshMembers(cfg.members);
    NewMembers(d, us, cfg, now, n);
    CountFailedExactly(cfg.left);
    JoinOnly(ms, h, cfg.joined, us, n);
    if n in cfg.joined { JoinMarks(ms, h, cfg.joined, us, n); }
    FreshNotAdded(cfg.members, n);
    var j := Join(ms, h, cfg.joined, us);
    if n in j.history || FindMemb(j.members, n) >= 0 { InitAllKnown(j.history, j.members, n); }
    hide Join, FlagFailed, FindMemb, InitMembers, CountFailed, Kicks;
  }

  lemma FreshNotAdded(ids: seq<int>, n: int)
    ensures var ms := FreshMembers(ids); FindMemb(ms, n) >= 0 ==> !ms[FindMemb(ms, n)].added
  {
  }

  // ---------- the flags of a domain

  lemma FinishFlags(d: Domain, us: int, env: Env)
    requires Completes(d)
    ensures var r := Finish(d, us, env);
            && r.leavingGroup == d.leavingGroup && r.initComplete == d.initComplete && r.complete == d.complete
            && r.localInitComplete == (d.localInitComplete || Leads(d, us))
  {
    hide Completes, Master, Delay, FenceFrom, Lead;
  }

  /** apply_changes touches neither flag of departure, nor what others told us; leading an end makes us complete. */
  lemma ApplyFlags(d: Domain, us: int, env: Env)
    ensures var r := Apply(d, us, env);
            && r.freed == d.freed && r.leavingGroup == d.leavingGroup && r.initComplete == d.initComplete
            && r.complete == d.complete
            && r.localInitComplete == (d.localInitComplete || Leads(d, us))
  {
    hide ClearChecks, NoChecks, Completes, Master, Finish;
    if Completes(d) {
      FinishFlags(d, us, env);
      CompletesWaits(d);
    }
  }

  lemma CompletesWaits(d: Domain)
    requires Completes(d)
    ensures d.changes != [] && d.changes[0].state == WaitMessages
  {
  }

  /** We join the domain in a configuration that is not refused. */
  predicate Joins(d: Domain, us: int, e: Event)
  {
    !d.freed && e.Confchg? && !(d.leavingGroup && WeLeft(e.cfg.left, us)) &&
    us in e.cfg.joined && AddChange(d, us, e.cfg, e.now).0
  }

  lemma StepFlags(d: Domain, us: int, e: Event)
    requires !d.freed
    ensures var r := Step(d, us, e);
            && r.leavingGroup == (d.leavingGroup || e.LeaveRequest?)
            && r.freed == (e.Confchg? && d.leavingGroup && WeLeft(e.cfg.left, us))
            && r.initComplete == (d.initComplete || (e.Complete? && ShownAsMember(e.ids, us)))
            && r.localInitComplete == (d.localInitComplete || Asks(d, us, e))
            && r.complete == if Joins(d, us, e) then [] else d.complete
  {
    hide Apply, AddChange, ReceiveStart, Leads, ShownAsMember;
    match e
    case Confchg(cfg, now, present, env) =>
      var (ok, d1) := AddChange(d, us, cfg, now);
      if ok {
        NewChangeExactly(d, us, cfg, now, us);
        ApplyFlags(TakeVictims(d1, present), us, env);
        NeverLeads(TakeVictims(d1, present), us);
      }
    case ClusterAdd(_, _) =>
    case LeaveRequest =>
    case _ =>
      ApplyFlags(Received(d, us, e), us, e.env);
      LeadsCompletes(Received(d, us, e), us);
  }

  lemma NeverLeads(d: Domain, us: int)
    requires d.changes != [] && d.changes[0].state == WaitConditions
    ensures !Leads(d, us)
  {
  }

  lemma LeadsCompletes(d: Domain, us: int)
    ensures Leads(d, us) ==> Completes(d)
  {
  }

  /** We asked to leave, and then a configuration without us was delivered. */
  predicate Departed(us: int, events: seq<Event>)
  {
    events != [] &&
    (Departed(us, events[..|events| - 1]) ||
     (events[|events| - 1].Confchg? && WeLeft(events[|events| - 1].cfg.left, us) &&
      exists k :: 0 <= k < |events| - 1 && events[k].LeaveRequest?))
  }

  /** While we were there, a complete message listed us as a member. */
  predicate ToldComplete(us: int, events: seq<Event>)
  {
    events != [] &&
    (ToldComplete(us, events[..|events| - 1]) ||
     (!Departed(us, events[..|events| - 1]) && events[|events| - 1].Complete? && ShownAsMember(events[|events| - 1].ids, us)))
  }

  /** While we were there, we led the end of a change. */
  predicate HasLed(d: Domain, us: int, events: seq<Event>)
  {
    events != [] &&
    (HasLed(d, us, events[..|events| - 1]) || Asks(Run(d, us, events[..|events| - 1]), us, events[|events| - 1]))
  }

  predicate HasJoined(d: Domain, us: int, events: seq<Event>)
  {
    events != [] &&
    (HasJoined(d, us, events[..|events| - 1]) || Joins(Run(d, us, events[..|events| - 1]), us, events[|events| - 1]))
  }

  predicate AskedToLeave(events: seq<Event>)
  {
    exists k :: 0 <= k < |events| && events[k].LeaveRequest?
  }

  lemma AskedSnoc(events: seq<Event>)
    requires events != []
    ensures AskedToLeave(events) <==> AskedToLeave(events[..|events| - 1]) || events[|events| - 1].LeaveRequest?
  {
    var before := events[..|events| - 1];
    if k :| 0 <= k < |before| && before[k].LeaveRequest? { assert events[k].LeaveRequest?; }
    if k :| 0 <= k < |events| && events[k].LeaveRequest? { if k < |before| { assert before[k].LeaveRequest?; } }
  }

  /**
    In every run: the domain is freed exactly once we have asked to leave and then seen ourselves
    leave; it counts as initialised exactly once a complete message listed us; and as master-complete
    exactly once we have led the end of a change. These last two decide the flag our starts carry.
    The configured nodes are considered as victims until we have joined, and never again.
   */
  lemma {:induction false} FlagsExactly(complete: seq<int>, h: map<int, History>, us: int, events: seq<Event>)
    ensures var d := Run(Initial(complete, h), us, events);
            && (d.freed <==> Departed(us, events))
            && (!d.freed ==> (d.leavingGroup <==> AskedToLeave(events)))
            && (d.initComplete <==> ToldComplete(us, events))
            && (d.localInitComplete <==> HasLed(Initial(complete, h), us, events))
            && d.complete == if HasJoined(Initial(complete, h), us, events) then [] else complete
    decreases |events|
  {
    if events != [] {
      var before, e := events[..|events| - 1], events[|events| - 1];
      FlagsExactly(complete, h, us, before);
      AskedSnoc(events);
      AskedBefore(events);
      hide Step, Asks, Joins, ShownAsMember, WeLeft, AskedToLeave;
      var d := Run(Initial(complete, h), us, before);
      if !d.freed { StepFlags(d, us, e); } else { FreedStays(d, us, e); }
    }
  }

  lemma AskedBefore(events: seq<Event>)
    requires events != []
    ensures AskedToLeave(events[..|events| - 1]) <==> exists k :: 0 <= k < |events| - 1 && events[k].LeaveRequest?
  {
    var before := events[..|events| - 1];
    if k :| 0 <= k < |before| && before[k].LeaveRequest? { assert events[k].LeaveRequest?; }
    if k :| 0 <= k < |events| - 1 && events[k].LeaveRequest? { assert before[k].LeaveRequest?; }
  }

  lemma FreedStays(d: Domain, us: int, e: Event)
    requires d.freed
    ensures Step(d, us, e) == d && !Asks(d, us, e) && !Joins(d, us, e)
  {
  }

  // ---------- when a node came to the cluster

  /** The time of the last news that the node joined the cluster, while we were there. */
  function LastClusterAdd(us: int, events: seq<Event>, n: int, first: nat): nat
  {
    if events == [] then first
    else
      var before, e := events[..|events| - 1], events[|events| - 1];
      if e.ClusterAdd? && e.nodeid == n && !Departed(us, before) then e.now else LastClusterAdd(us, before, n, first)
  }

  predicate ComingKept(h: map<int, History>, r: map<int, History>, n: int)
    requires n in h
  {
    n in r && r[n].clusterAddTime == h[n].clusterAddTime
  }

  lemma {:induction false} SaveComing(h: map<int, History>, ids: seq<IdInfo>, n: int)
    requires n in h
    ensures ComingKept(h, SaveHistory(h, ids), n)
    decreases |ids|
  {
    if ids != [] { SaveComing(SaveId(h, ids[0]), ids[1..], n); }
  }

  lemma AddChangeComing(d: Domain, us: int, cfg: Config, now: nat, n: int)
    requires n in d.history
    ensures ComingKept(d.history, AddChange(d, us, cfg, now).1.history, n)
  {
    var h := FlagFailed(d.history, cfg.left);
    JoinKeepsHistory(FreshMembers(cfg.members), h, cfg.joined, us);
    var j := Join(FreshMembers(cfg.members), h, cfg.joined, us);
    assert n in j.history;
    if j.Joined? { InitTimes(j.history, j.members, n); }
    hide Join, FailedIn;
  }

  lemma ReceivedComing(d: Domain, us: int, e: Event, n: int)
    requires n in d.history
    ensures ComingKept(d.history, Received(d, us, e).history, n)
  {
    if e.Start? {
      hide FindMemb, IsAdded, MatchChange;
      var c := FindChange(d, e.msg, us, |d.changes|);
      if c >= 0 { SaveComing(d.history[e.msg.from := d.history[e.msg.from].(addTime := e.now)], e.msg.ids, n); }
      hide SaveHistory;
    } else {
      hide SaveHistory, ReceiveStart;
    }
  }

  lemma StepComing(d: Domain, us: int, e: Event, n: int)
    requires n in d.history && !d.freed
    ensures var r := Step(d, us, e).history;
            n in r && r[n].clusterAddTime == if e.ClusterAdd? && e.nodeid == n then e.now else d.history[n].clusterAddTime
  {
    hide Apply, AddChange, Received;
    match e
    case Confchg(cfg, now, present, env) =>
      AddChangeComing(d, us, cfg, now, n);
      var (ok, d1) := AddChange(d, us, cfg, now);
      if ok { ApplyTimes(TakeVictims(d1, present), us, env); }
    case ClusterAdd(_, _) =>
    case LeaveRequest =>
    case _ =>
      ReceivedComing(d, us, e, n);
      ApplyTimes(Received(d, us, e), us, e.env);
      StepIsApply(d, us, e);
  }

  /** In every run, a node known from the start is taken to have come to the cluster when it was last reported to. */
  lemma {:induction false} ClusterAddExactly(complete: seq<int>, h: map<int, History>, us: int, events: seq<Event>, n: int)
    requires n in h
    ensures var r := Run(Initial(complete, h), us, events).history;
            n in r && r[n].clusterAddTime == LastClusterAdd(us, events, n, h[n].clusterAddTime)
    decreases |events|
  {
    if events != [] {
      var before, e := events[..|events| - 1], events[|events| - 1];
      ClusterAddExactly(complete, h, us, before, n);
      FlagsExactly(complete, h, us, before);
      hide Step, Departed;
      var d := Run(Initial(complete, h), us, before);
      if !d.freed { StepComing(d, us, e, n); } else { FreedStays(d, us, e); }
    }
  }
}
