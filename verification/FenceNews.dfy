/**
  What reaches a fence daemon from outside the domain (fence/fenced/cpg.c:1306-1329, 433-445,
  529-543): processes that died are kicked out of the cluster, and a node fenced by other means
  is not fenced again.
 */
module FenceNews {
  import opened Basics
  import opened FenceDomain
  import opened FenceGate
  import opened FenceVictims
  import opened FenceDuty

  // ---------- who is kicked out of the cluster

  /** Only reports about victims, or the notes around them, are added. */
  ghost predicate NoKicks(l: seq<Note>, r: seq<Note>)
  {
    l <= r && forall k :: |l| <= k < |r| ==> !r[k].Kicked?
  }

  lemma {:induction false} ReduceNoKicks(d: Domain, us: int, poll: Poll, now: nat, i: nat)
    ensures NoKicks(d.log, ReduceFrom(d, us, poll, now, i).log)
    decreases |d.victims| - i
  {
    if i < |d.victims| {
      var id := d.victims[i].nodeid;
      if id in poll.members && id in poll.clean {
        ReduceNoKicks(Done(d, us, id, ByMember, now).(victims := d.victims[..i] + d.victims[i + 1..]), us, poll, now, i);
      } else {
        ReduceNoKicks(d, us, poll, now, i + 1);
      }
    }
  }

  lemma {:induction false} DelayNoKicks(d: Domain, us: int, polls: seq<Poll>, now: nat)
    ensures NoKicks(d.log, Delay(d, us, polls, now).log)
    decreases |polls|
  {
    if polls != [] && d.victims != [] {
      hide ReduceFrom;
      ReduceNoKicks(d, us, polls[0], now, 0);
      DelayNoKicks(ReduceFrom(d, us, polls[0], now, 0), us, polls[1..], now);
    }
  }

  lemma {:induction false} ReportsNoKicks(vs: seq<Victim>, h: map<int, History>, env: Env, seqno: nat)
    ensures forall k :: 0 <= k < |Reports(vs, h, env, seqno)| ==> Reports(vs, h, env, seqno)[k].SentVictimDone?
  {
    if vs != [] { ReportsNoKicks(vs[1..], h, env, seqno); }
  }

  lemma LeadNoKicks(d: Domain, us: int, env: Env)
    ensures NoKicks(d.log, Lead(d, us, env).log)
  {
    hide Delay, FenceFrom, Reports;
    DelayNoKicks(d, us, env.polls, env.now);
    var d1 := Delay(d, us, env.polls, env.now);
    var d2 := d1.(log := d1.log + [Fencing(NewestSeq(d))]);
    FenceReports(d2, us, env, 0);
    ReportsNoKicks(d2.victims[0..], d2.history, env, NewestSeq(d2));
  }

  lemma ApplyNoKicks(d: Domain, us: int, env: Env)
    ensures NoKicks(d.log, Apply(d, us, env).log)
  {
    hide Lead, Master, AllStarted, ClearChecks, NoChecks;
    if Completes(d) {
      var cg := d.changes[0];
      LeadNoKicks(d.(master := Master(cg.members), changes := d.changes[0 := cg.(state := WaitFencing)]), us, env);
    }
  }

  /** A configuration that is not our own departure reports that the node's process died. */
  predicate Kicking(d: Domain, us: int, e: Event, n: int)
  {
    !d.freed && e.Confchg? && !(d.leavingGroup && WeLeft(e.cfg.left, us)) && Left(n, ProcDown) in e.cfg.left
  }

  lemma {:induction false} KicksExactly(left: seq<Left>, n: int)
    ensures Kicked(n) in Kicks(left) <==> Left(n, ProcDown) in left
  {
    if left != [] {
      KicksExactly(left[..|left| - 1], n);
      assert left == left[..|left| - 1] + [left[|left| - 1]];
    }
  }

  lemma AddChangeKicks(d: Domain, us: int, cfg: Config, now: nat, n: int)
    ensures var r := AddChange(d, us, cfg, now).1.log;
            Kicked(n) in r <==> Kicked(n) in d.log || Left(n, ProcDown) in cfg.left
  {
    hide Join, Kicks;
    KicksExactly(cfg.left, n);
  }

  lemma StepKicks(d: Domain, us: int, e: Event, n: int)
    ensures Kicked(n) in Step(d, us, e).log <==> Kicked(n) in d.log || Kicking(d, us, e, n)
  {
    hide Apply, AddChange, ReceiveStart, ReceiveVictimDone, ReceiveComplete, ReceiveExternal;
    if !d.freed {
      match e
      case Confchg(cfg, now, present, env) =>
        AddChangeKicks(d, us, cfg, now, n);
        var (ok, d1) := AddChange(d, us, cfg, now);
        if ok { ApplyNoKicks(TakeVictims(d1, present), us, env); }
      case ClusterAdd(_, _) =>
      case LeaveRequest =>
      case _ =>
        StartNoKicks(d, us, e);
        ApplyNoKicks(Received(d, us, e), us, e.env);
    }
  }

  lemma StartNoKicks(d: Domain, us: int, e: Event)
    ensures NoKicks(d.log, Received(d, us, e).log)
  {
    hide FindChange, FindMemb, IsAdded, SaveHistory, RemoveFirst;
  }

  predicate KickingAt(d: Domain, us: int, events: seq<Event>, k: int, n: int)
  {
    0 <= k < |events| && Kicking(Run(d, us, events[..k]), us, events[k], n)
  }

  lemma KickingEarlier(d: Domain, us: int, events: seq<Event>, k: nat, n: int)
    requires k < |events| - 1
    ensures KickingAt(d, us, events, k, n) <==> KickingAt(d, us, events[..|events| - 1], k, n)
  {
    hide Run, Kicking;
    assert events[..|events| - 1][..k] == events[..k];
  }

  /** In every run, exactly the nodes whose process was reported dead by a configuration are kicked out of the cluster. */
  lemma {:induction false} KickedExactly(complete: seq<int>, h: map<int, History>, us: int, events: seq<Event>, n: int)
    ensures Kicked(n) in Run(Initial(complete, h), us, events).log <==>
            exists k :: KickingAt(Initial(complete, h), us, events, k, n)
    decreases |events|
  {
    var d0 := Initial(complete, h);
    if events == [] {
      assert forall k :: !KickingAt(d0, us, events, k, n);
    } else {
      var last := |events| - 1;
      var before := events[..last];
      KickedExactly(complete, h, us, before, n);
      StepKicks(Run(d0, us, before), us, events[last], n);
      hide Step, Kicking;
      assert KickingAt(d0, us, events, last, n) <==> Kicking(Run(d0, us, before), us, events[last], n);
      hide KickingAt;
      if k :| KickingAt(d0, us, before, k, n) {
        InRange(d0, us, before, k, n);
        KickingEarlier(d0, us, events, k, n);
      }
      if k :| KickingAt(d0, us, events, k, n) {
        InRange(d0, us, events, k, n);
        if k < last { KickingEarlier(d0, us, events, k, n); }
      }
    }
  }

  lemma InRange(d: Domain, us: int, events: seq<Event>, k: int, n: int)
    requires KickingAt(d, us, events, k, n)
    ensures 0 <= k < |events|
  {
  }

  // ---------- fencing from outside averts fencing from inside

  /** The node is known, has been fenced from outside, and neither time has moved. */
  predicate TimesKept(h: map<int, History>, r: map<int, History>, n: int)
    requires n in h
  {
    n in r && r[n].addTime == h[n].addTime && (h[n].externalTime != 0 ==> r[n].externalTime == h[n].externalTime)
  }

  lemma {:induction false} SaveTimes(h: map<int, History>, ids: seq<IdInfo>, n: int)
    requires n in h
    ensures TimesKept(h, SaveHistory(h, ids), n)
    decreases |ids|
  {
    if ids != [] { SaveTimes(SaveId(h, ids[0]), ids[1..], n); }
  }

  lemma {:induction false} InitTimes(h: map<int, History>, ms: seq<Member>, n: int)
    requires n in h
    ensures n in InitMembers(h, ms) && InitMembers(h, ms)[n] == h[n]
    decreases |ms|
  {
    if ms != [] { InitTimes(InitHistory(h, ms[0].nodeid), ms[1..], n); }
  }

  lemma {:induction false} FenceTimes(d: Domain, us: int, env: Env, i: nat)
    requires i <= |d.victims|
    ensures SameTimes(d.history, FenceFrom(d, us, env, i).history)
    decreases |d.victims| - i
  {
    if i < |d.victims| {
      if d.victims[i].localVictimDone {
        FenceTimes(d, us, env, i + 1);
      } else {
        FenceOneReports(d, us, env, i);
        FenceTimes(FenceOne(d, us, env, i), us, env, i + 1);
      }
    }
  }

  lemma {:induction false} DelayTimes(d: Domain, us: int, polls: seq<Poll>, now: nat)
    ensures SameTimes(d.history, Delay(d, us, polls, now).history)
    decreases |polls|
  {
    if polls != [] && d.victims != [] {
      hide ReduceFrom;
      ReduceTimes(d, us, polls[0], now, 0);
      DelayTimes(ReduceFrom(d, us, polls[0], now, 0), us, polls[1..], now);
    }
  }

  lemma LeadTimes(d: Domain, us: int, env: Env)
    ensures SameTimes(d.history, Lead(d, us, env).history)
  {
    hide Delay, FenceFrom;
    DelayTimes(d, us, env.polls, env.now);
    var d1 := Delay(d, us, env.polls, env.now);
    FenceTimes(d1.(log := d1.log + [Fencing(NewestSeq(d))]), us, env, 0);
  }

  lemma ApplyTimes(d: Domain, us: int, env: Env)
    ensures SameTimes(d.history, Apply(d, us, env).history)
  {
    hide Lead, Master, AllStarted, NoChecks;
    if Completes(d) {
      var cg := d.changes[0];
      LeadTimes(d.(master := Master(cg.members), changes := d.changes[0 := cg.(state := WaitFencing)]), us, env);
    }
  }

  lemma AddChangeTimes(d: Domain, us: int, cfg: Config, now: nat, n: int)
    requires n in d.history
    ensures TimesKept(d.history, AddChange(d, us, cfg, now).1.history, n)
  {
    var h := FlagFailed(d.history, cfg.left);
    JoinKeepsHistory(FreshMembers(cfg.members), h, cfg.joined, us);
    var j := Join(FreshMembers(cfg.members), h, cfg.joined, us);
    assert n in j.history;
    if j.Joined? { InitTimes(j.history, j.members, n); }
    hide Join, FailedIn;
  }

  /** Only a start of the node or news of an external fencing of it moves its times. */
  predicate Concerns(e: Event, n: int)
  {
    (e.Start? && e.msg.from == n) || (e.External? && e.victim == n)
  }

  lemma ReceivedTimes(d: Domain, us: int, e: Event, n: int)
    requires n in d.history && !Concerns(e, n)
    ensures TimesKept(d.history, Received(d, us, e).history, n)
  {
    if e.Start? {
      hide FindMemb, IsAdded, MatchChange;
      var c := FindChange(d, e.msg, us, |d.changes|);
      if c >= 0 { SaveTimes(d.history[e.msg.from := d.history[e.msg.from].(addTime := e.now)], e.msg.ids, n); }
      hide SaveHistory;
    } else {
      hide SaveHistory, ReceiveStart;
    }
  }

  lemma StepTimes(d: Domain, us: int, e: Event, n: int)
    requires n in d.history && !Concerns(e, n)
    ensures TimesKept(d.history, Step(d, us, e).history, n)
  {
    hide Apply, AddChange, Received;
    if !d.freed {
      match e
      case Confchg(cfg, now, present, env) =>
        AddChangeTimes(d, us, cfg, now, n);
        var (ok, d1) := AddChange(d, us, cfg, now);
        if ok { ApplyTimes(TakeVictims(d1, present), us, env); }
      case ClusterAdd(_, _) =>
      case LeaveRequest =>
      case _ =>
        ReceivedTimes(d, us, e, n);
        ApplyTimes(Received(d, us, e), us, e.env);
        StepIsApply(d, us, e);
    }
  }

  lemma StepIsApply(d: Domain, us: int, e: Event)
    requires !d.freed && IsMessage(e)
    ensures Step(d, us, e) == Apply(Received(d, us, e), us, e.env)
  {
    hide Apply, ReceiveStart, ReceiveVictimDone, ReceiveComplete, ReceiveExternal;
  }

  /**
    A node fenced from outside since its last start stays so, whatever else happens, until it
    starts again or is reported once more: by LeadFences it is then reported as dealt with externally.
   */
  lemma {:induction false} ExternalAverts(d: Domain, us: int, events: seq<Event>, n: int)
    requires FencedExternally(d.history, n)
    requires forall k :: 0 <= k < |events| ==> !Concerns(events[k], n)
    ensures FencedExternally(Run(d, us, events).history, n)
    decreases |events|
  {
    if events != [] {
      hide Step;
      var before := events[..|events| - 1];
      ExternalAverts(d, us, before, n);
      StepTimes(Run(d, us, before), us, events[|events| - 1], n);
    }
  }

  /** The news of an external fencing, later than the node's last start, has that effect. */
  lemma ExternalNews(d: Domain, us: int, from: int, n: int, now: nat, env: Env)
    requires !d.freed && n in d.history && d.history[n].addTime < now
    ensures FencedExternally(Step(d, us, External(from, n, now, env)).history, n)
  {
    ApplyTimes(ReceiveExternal(d, from, n, now), us, env);
  }
}
