/**
  The fencing gate (fence/fenced/cpg.c:388-401, 649-715, 1218-1358): fencing is
  entered only under the newest change, after our own start for it was sent while
  quorate and the start of every one of its members was accepted, and at most once
  per change.
 */
module FenceGate {
  import opened FenceDomain
  import opened FenceMerge

  // ---------- what the log says

  ghost predicate LastCreated(log: seq<Note>, j: nat, upto: nat)
  {
    && j < upto <= |log|
    && log[j].Created?
    && forall i :: j < i < upto ==> !log[i].Created? && !log[i].Fencing?
  }

  ghost predicate StartSent(log: seq<Note>, j: nat, upto: nat, s: nat)
  {
    upto <= |log| && exists i :: j < i < upto && log[i].SentStart? && log[i].seqno == s && log[i].quorate
  }

  ghost predicate StartTaken(log: seq<Note>, j: nat, upto: nat, s: nat, from: int)
  {
    upto <= |log| && exists i :: j < i < upto && log[i] == Accepted(s, from)
  }

  /** Position j of the log is the creation of the change that is fenced for at position k. */
  ghost predicate FencingAllowed(log: seq<Note>, j: nat, k: nat)
  {
    && k < |log| && log[k].Fencing?
    && LastCreated(log, j, k)
    && log[k].seqno == log[j].seqno
    && StartSent(log, j, k, log[j].seqno)
    && forall m :: m in log[j].members ==> StartTaken(log, j, k, log[j].seqno, m)
  }

  ghost predicate Gated(log: seq<Note>)
  {
    forall k :: 0 <= k < |log| && log[k].Fencing? ==> exists j: nat :: FencingAllowed(log, j, k)
  }

  // ---------- the invariant that ties the log to the newest change

  ghost predicate Tied(d: Domain, j: nat)
  {
    && d.changes != []
    && LastCreated(d.log, j, |d.log|)
    && var cg := d.changes[0];
       && d.log[j] == Created(cg.seqno, MemberIds(cg.members))
       && (cg.state == WaitMessages ==> StartSent(d.log, j, |d.log|, cg.seqno))
       && forall i :: 0 <= i < |cg.members| && cg.members[i].start
                      ==> StartTaken(d.log, j, |d.log|, cg.seqno, cg.members[i].nodeid)
  }

  ghost predicate GateInv(d: Domain)
  {
    Gated(d.log) && (d.changes != [] ==> exists j: nat :: Tied(d, j))
  }

  // ---------- the log only grows

  ghost predicate Grows(l: seq<Note>, r: seq<Note>)
  {
    l <= r && forall k :: |l| <= k < |r| ==> !r[k].Created? && !r[k].Fencing?
  }

  lemma GrowGated(l: seq<Note>, r: seq<Note>)
    requires Gated(l) && Grows(l, r)
    ensures Gated(r)
  {
    forall k | 0 <= k < |r| && r[k].Fencing?
      ensures exists j: nat :: FencingAllowed(r, j, k)
    {
      assert l[k].Fencing?;
      var j: nat :| FencingAllowed(l, j, k);
      LongerAllowed(l, r, j, k);
    }
  }

  lemma LongerAllowed(l: seq<Note>, r: seq<Note>, j: nat, k: nat)
    requires FencingAllowed(l, j, k) && l <= r
    ensures FencingAllowed(r, j, k)
  {
    forall m | m in r[j].members
      ensures StartTaken(r, j, k, r[j].seqno, m)
    {
      assert StartTaken(l, j, k, l[j].seqno, m);
      var i :| j < i < k && l[i] == Accepted(l[j].seqno, m);
      assert r[i] == Accepted(l[j].seqno, m);
    }
    var i :| j < i < k && l[i].SentStart? && l[i].seqno == l[j].seqno && l[i].quorate;
    assert r[i].SentStart? && r[i].seqno == l[j].seqno && r[i].quorate;
  }

  /** Growing the log, and touching nothing else of the newest change, keeps the tie. */
  lemma GrowTied(d: Domain, r: Domain, j: nat)
    requires Tied(d, j) && Grows(d.log, r.log) && r.changes != []
    requires r.changes[0] == d.changes[0]
    ensures Tied(r, j)
  {
    var cg := d.changes[0];
    forall i | 0 <= i < |cg.members| && cg.members[i].start
      ensures StartTaken(r.log, j, |r.log|, cg.seqno, cg.members[i].nodeid)
    {
      StillTaken(d.log, r.log, j, cg.seqno, cg.members[i].nodeid);
    }
    if cg.state == WaitMessages {
      StillSent(d.log, r.log, j, cg.seqno);
    }
  }

  lemma StillTaken(l: seq<Note>, r: seq<Note>, j: nat, s: nat, from: int)
    requires StartTaken(l, j, |l|, s, from) && l <= r
    ensures StartTaken(r, j, |r|, s, from)
  {
    var i :| j < i < |l| && l[i] == Accepted(s, from);
    assert r[i] == Accepted(s, from);
  }

  lemma StillSent(l: seq<Note>, r: seq<Note>, j: nat, s: nat)
    requires StartSent(l, j, |l|, s) && l <= r
    ensures StartSent(r, j, |r|, s)
  {
    var i :| j < i < |l| && l[i].SentStart? && l[i].seqno == s && l[i].quorate;
    assert r[i] == l[i];
  }

  lemma {:induction false} ReduceGrows(d: Domain, us: int, poll: Poll, now: nat, i: nat)
    ensures Grows(d.log, ReduceFrom(d, us, poll, now, i).log)
    decreases |d.victims| - i
  {
    if i < |d.victims| {
      var id := d.victims[i].nodeid;
      if id in poll.members && id in poll.clean {
        var d1 := Done(d, us, id, ByMember, now).(victims := d.victims[..i] + d.victims[i + 1..]);
        ReduceGrows(d1, us, poll, now, i);
      } else {
        ReduceGrows(d, us, poll, now, i + 1);
      }
    }
  }

  lemma {:induction false} DelayGrows(d: Domain, us: int, polls: seq<Poll>, now: nat)
    ensures Grows(d.log, Delay(d, us, polls, now).log)
    decreases |polls|
  {
    if polls != [] && d.victims != [] {
      ReduceGrows(d, us, polls[0], now, 0);
      DelayGrows(ReduceFrom(d, us, polls[0], now, 0), us, polls[1..], now);
    }
  }

  lemma {:induction false} FenceGrows(d: Domain, us: int, env: Env, i: nat)
    ensures Grows(d.log, FenceFrom(d, us, env, i).log)
    decreases |d.victims| - i
  {
    if i < |d.victims| {
      if d.victims[i].localVictimDone {
        FenceGrows(d, us, env, i + 1);
      } else {
        var id := d.victims[i].nodeid;
        var how := Outcome(d.history, id, LastAttempt(env, id));
        var d1 := d.(currentVictim := id, victims := d.victims[i := d.victims[i].(localVictimDone := true)]);
        FenceGrows(Done(d1, us, id, how, env.now), us, env, i + 1);
      }
    }
  }

  // ---------- every step keeps the invariant

  /** The newest change is allowed to be fenced for exactly when everything has been logged. */
  lemma CompleteAllowsFencing(d: Domain, j: nat, log: seq<Note>)
    requires Tied(d, j) && Completes(d) && Gated(d.log) && Grows(d.log, log)
    ensures Gated(log + [Fencing(d.changes[0].seqno)])
  {
    var cg := d.changes[0];
    var r := log + [Fencing(cg.seqno)];
    GrowGated(d.log, log);
    forall k | 0 <= k < |r| && r[k].Fencing?
      ensures exists j: nat :: FencingAllowed(r, j, k)
    {
      if k < |log| {
        assert log[k].Fencing?;
        var j: nat :| FencingAllowed(log, j, k);
        LongerAllowed(log, r, j, k);
      } else {
        forall m | m in r[j].members
          ensures StartTaken(r, j, k, r[j].seqno, m)
        {
          var i :| 0 <= i < |cg.members| && cg.members[i].nodeid == m;
          assert cg.members[i].start;
          StillTaken(d.log, log, j, cg.seqno, m);
          var n :| j < n < |log| && log[n] == Accepted(cg.seqno, m);
          assert r[n] == log[n];
        }
        StillSent(d.log, log, j, cg.seqno);
        var n :| j < n < |log| && log[n].SentStart? && log[n].seqno == cg.seqno && log[n].quorate;
        assert r[n] == log[n];
        assert FencingAllowed(r, j, k);
      }
    }
  }

  lemma FinishGate(d: Domain, us: int, env: Env)
    requires GateInv(d) && Completes(d)
    ensures GateInv(Finish(d, us, env))
  {
    var cg := d.changes[0];
    var d1 := d.(master := Master(cg.members), changes := d.changes[0 := cg.(state := WaitFencing)]);
    if d1.master == us {
      var j: nat :| Tied(d, j);
      DelayGrows(d1, us, env.polls, env.now);
      var d2 := Delay(d1, us, env.polls, env.now);
      var d3 := d2.(log := d2.log + [Fencing(cg.seqno)]);
      CompleteAllowsFencing(d, j, d2.log);
      FenceGrows(d3, us, env, 0);
      var d4 := FenceFrom(d3, us, env, 0);
      GrowGated(d3.log, d4.log);
      GrowGated(d4.log, d4.log + [SentComplete(cg.seqno)]);
    }
  }

  lemma SendStartGate(d: Domain, h: map<int, History>, count: nat)
    requires GateInv(d) && d.changes != [] && d.changes[0].state == WaitConditions
    ensures var cg := d.changes[0];
            GateInv(d.(history := h, changes := d.changes[0 := cg.(state := WaitMessages)],
                       log := d.log + [SentStart(cg.seqno, true, count)]))
  {
    var cg := d.changes[0];
    var r := d.(history := h, changes := d.changes[0 := cg.(state := WaitMessages)],
                log := d.log + [SentStart(cg.seqno, true, count)]);
    var j: nat :| Tied(d, j);
    GrowGated(d.log, r.log);
    var n := |d.log|;
    assert r.log[n].SentStart? && r.log[n].seqno == cg.seqno && r.log[n].quorate;
    assert StartSent(r.log, j, |r.log|, cg.seqno);
    GrowTied(d, d.(log := r.log), j);
    assert Tied(r, j);
  }

  lemma ApplyGate(d: Domain, us: int, env: Env)
    requires GateInv(d)
    ensures GateInv(Apply(d, us, env))
  {
    if d.changes != [] {
      if d.changes[0].state == WaitConditions {
        var h := ClearChecks(d.history, env.clusterMembers);
        if NoChecks(h) && env.quorate {
          SendStartGate(d, h, d.startedCount);
        } else {
          Untouched(d, d.(history := h));
        }
      } else if Completes(d) {
        FinishGate(d, us, env);
      }
    }
  }

  /** A member's start is recorded together with the note that it was accepted. */
  lemma AcceptGate(d: Domain, r: Domain, k: nat, i: nat, m: Member)
    requires GateInv(d) && k < |d.changes| && i < |d.changes[k].members|
    requires m.nodeid == d.changes[k].members[i].nodeid
    requires r.changes == d.changes[k := d.changes[k].(members := d.changes[k].members[i := m])]
    requires r.log == d.log + [Accepted(d.changes[k].seqno, m.nodeid)] ||
             (r.log == d.log && m.start == d.changes[k].members[i].start)
    ensures GateInv(r)
  {
    var j: nat :| Tied(d, j);
    GrowGated(d.log, r.log);
    GrowTied(d, d.(log := r.log), j);
    if k == 0 {
      assert MemberIds(r.changes[0].members) == MemberIds(d.changes[0].members);
      if |r.log| > |d.log| {
        assert r.log[|d.log|] == Accepted(d.changes[0].seqno, m.nodeid);
        assert StartTaken(r.log, j, |r.log|, d.changes[0].seqno, m.nodeid);
      }
    }
    assert Tied(r, j);
  }

  lemma StartGate(d: Domain, us: int, m: StartMsg, now: nat)
    requires GateInv(d)
    ensures GateInv(ReceiveStart(d, us, m, now))
  {
    hide GateInv, SaveHistory, MatchChange;
    var k := FindChange(d, m, us, |d.changes|);
    if k >= 0 {
      var r := ReceiveStart(d, us, m, now);
      var i := FindMemb(d.changes[k].members, m.from);
      var memb := d.changes[k].members[i].(complete := m.complete);
      if IsAdded(d.changes, m.from) && m.startedCount != 0 && d.startedCount != 0 {
        AcceptGate(d, r, k, i, memb.(disallowed := true));
      } else {
        AcceptGate(d, r, k, i, memb.(start := true));
      }
    }
  }

  lemma AddChangeGate(d: Domain, us: int, cfg: Config, now: nat)
    requires GateInv(d)
    ensures GateInv(AddChange(d, us, cfg, now).1)
  {
    var (ok, r) := AddChange(d, us, cfg, now);
    KicksOnly(cfg.left);
    var kicked := d.log + Kicks(cfg.left);
    GrowGated(d.log, kicked);
    if ok {
      NewMembers(d, us, cfg, now, 0);
      forall k | 0 <= k < |r.log| && r.log[k].Fencing?
        ensures exists j: nat :: FencingAllowed(r.log, j, k)
      {
        assert kicked[k].Fencing?;
        var j: nat :| FencingAllowed(kicked, j, k);
        LongerAllowed(kicked, r.log, j, k);
      }
      assert Tied(r, |kicked|);
    } else if d.changes != [] {
      var j: nat :| Tied(d, j);
      GrowTied(d, r, j);
    }
  }

  lemma StepGate(d: Domain, us: int, e: Event)
    requires GateInv(d)
    ensures GateInv(Step(d, us, e))
  {
    hide Apply, AddChange, ReceiveStart, GateInv;
    if !d.freed {
      match e
      case Confchg(cfg, now, present, env) =>
        AddChangeGate(d, us, cfg, now);
        var (ok, d1) := AddChange(d, us, cfg, now);
        if d.leavingGroup && WeLeft(cfg.left, us) {
          Untouched(d, Step(d, us, e));
        } else if ok {
          var d2 := TakeVictims(d1, present);
          Untouched(d1, d2);
          ApplyGate(d2, us, env);
        }
      case Start(m, now, env) =>
        StartGate(d, us, m, now);
        ApplyGate(ReceiveStart(d, us, m, now), us, env);
      case VictimDone(from, id, env) =>
        Untouched(d, ReceiveVictimDone(d, us, from, id));
        ApplyGate(ReceiveVictimDone(d, us, from, id), us, env);
      case Complete(from, ids, env) =>
        Untouched(d, ReceiveComplete(d, us, ids));
        ApplyGate(ReceiveComplete(d, us, ids), us, env);
      case External(from, victim, now, env) =>
        Untouched(d, ReceiveExternal(d, from, victim, now));
        ApplyGate(ReceiveExternal(d, from, victim, now), us, env);
      case Tick(env) => ApplyGate(d, us, env);
      case ClusterAdd(_, _) => Untouched(d, Step(d, us, e));
      case LeaveRequest => Untouched(d, Step(d, us, e));
    }
  }

  lemma Untouched(d: Domain, r: Domain)
    requires GateInv(d) && r.changes == d.changes && r.log == d.log
    ensures GateInv(r)
  {
    if d.changes != [] {
      var j: nat :| Tied(d, j);
      assert Tied(r, j);
    }
  }

  /** In every run, every entry into fencing was allowed by what the log shows before it. */
  lemma {:induction false} FencingIsGated(complete: seq<int>, h: map<int, History>, us: int, events: seq<Event>)
    ensures GateInv(Run(Initial(complete, h), us, events))
    decreases |events|
  {
    if events != [] {
      FencingIsGated(complete, h, us, events[..|events| - 1]);
      StepGate(Run(Initial(complete, h), us, events[..|events| - 1]), us, events[|events| - 1]);
    }
  }

  // ---------- the quorum conditions

  /** While the newest change waits for messages, cman has caught up with every failure. */
  predicate QuorumChecked(d: Domain)
  {
    Waiting(d) ==> NoChecks(d.history)
  }

  predicate Waiting(d: Domain)
  {
    d.changes != [] && d.changes[0].state == WaitMessages
  }

  lemma {:induction false} SaveKeepsChecks(h: map<int, History>, ids: seq<IdInfo>)
    requires NoChecks(h)
    ensures NoChecks(SaveHistory(h, ids))
    decreases |ids|
  {
    if ids != [] {
      SaveKeepsChecks(SaveId(h, ids[0]), ids[1..]);
    }
  }

  lemma ApplyChecked(d: Domain, us: int, env: Env)
    requires QuorumChecked(d)
    ensures QuorumChecked(Apply(d, us, env))
  {
    if Completes(d) {
      assert Apply(d, us, env).changes == [];
    }
  }

  lemma StartChecked(d: Domain, us: int, m: StartMsg, now: nat)
    requires QuorumChecked(d)
    ensures QuorumChecked(ReceiveStart(d, us, m, now))
  {
    hide SaveHistory, MatchChange;
    var k := FindChange(d, m, us, |d.changes|);
    if k >= 0 && Waiting(d) && !(IsAdded(d.changes, m.from) && m.startedCount != 0 && d.startedCount != 0) {
      SaveKeepsChecks(d.history[m.from := d.history[m.from].(addTime := now)], m.ids);
    }
  }

  /** Whether or not it fails, a join only adds fresh history. */
  lemma {:induction false} JoinKeepsHistory(ms: seq<Member>, h: map<int, History>, joined: seq<int>, us: int)
    ensures var r := Join(ms, h, joined, us).history;
            forall n :: n in r ==> if n in h then r[n] == h[n] else r[n] == NO_HISTORY
    ensures h.Keys <= Join(ms, h, joined, us).history.Keys
    decreases |joined|
  {
    if joined != [] && FindMemb(ms, joined[0]) >= 0 {
      var i := FindMemb(ms, joined[0]);
      JoinKeepsHistory(ms[i := ms[i].(added := true)],
                       if joined[0] == us then h else InitHistory(h, joined[0]), joined[1..], us);
    }
  }

  /** A configuration that joins a non-member while it reports a known node as failed. */
  predicate Botched(d: Domain, cfg: Config)
  {
    && (exists n :: n in cfg.joined && n !in cfg.members)
    && (exists n :: n in d.history && FailedIn(cfg.left, n))
  }

  lemma FreshFind(ids: seq<int>, n: int)
    ensures FindMemb(FreshMembers(ids), n) >= 0 <==> n in ids
  {
    if n in ids {
      var i :| 0 <= i < |ids| && ids[i] == n;
      assert FreshMembers(ids)[i].nodeid == n;
    }
  }

  lemma AddSucceedsExactly(d: Domain, us: int, cfg: Config, now: nat)
    ensures AddChange(d, us, cfg, now).0 <==> forall n :: n in cfg.joined ==> n in cfg.members
  {
    var ms := FreshMembers(cfg.members);
    forall n ensures FindMemb(ms, n) >= 0 <==> n in cfg.members { FreshFind(cfg.members, n); }
    JoinSucceeds(ms, FlagFailed(d.history, cfg.left), cfg.joined, us);
  }

  /** A failed add_change has nevertheless flagged the nodes reported as failed. */
  lemma FailedAddFlags(d: Domain, us: int, cfg: Config, now: nat)
    requires NoChecks(d.history) && !AddChange(d, us, cfg, now).0
    ensures NoChecks(AddChange(d, us, cfg, now).1.history) <==> !exists n :: n in d.history && FailedIn(cfg.left, n)
  {
    var h := FlagFailed(d.history, cfg.left);
    JoinKeepsHistory(FreshMembers(cfg.members), h, cfg.joined, us);
    var r := AddChange(d, us, cfg, now).1.history;
    if n :| n in d.history && FailedIn(cfg.left, n) {
      assert n in r && r[n].checkQuorum;
    }
  }

  /** A configuration leaves the quorum conditions unsettled exactly when it is botched while we wait. */
  lemma ConfchgCheckedExactly(d: Domain, us: int, cfg: Config, now: nat, present: set<int>, env: Env)
    requires QuorumChecked(d) && !(d.leavingGroup && WeLeft(cfg.left, us))
    ensures QuorumChecked(DoConfchg(d, us, cfg, now, present, env)) <==> !(Waiting(d) && Botched(d, cfg))
  {
    AddSucceedsExactly(d, us, cfg, now);
    var (ok, d1) := AddChange(d, us, cfg, now);
    if ok {
      assert !Waiting(d1);
      ApplyChecked(TakeVictims(d1, present), us, env);
    } else if Waiting(d) {
      FailedAddFlags(d, us, cfg, now);
    }
  }

  /** The membership service never joins a node it does not list as a member. */
  predicate ProperConfig(e: Event)
  {
    e.Confchg? ==> forall n :: n in e.cfg.joined ==> n in e.cfg.members
  }

  lemma StepChecked(d: Domain, us: int, e: Event)
    requires QuorumChecked(d) && ProperConfig(e)
    ensures QuorumChecked(Step(d, us, e))
  {
    hide Apply, AddChange, ReceiveStart;
    if !d.freed {
      match e
      case Confchg(cfg, now, present, env) =>
        if !(d.leavingGroup && WeLeft(cfg.left, us)) {
          ConfchgCheckedExactly(d, us, cfg, now, present, env);
        }
      case Start(m, now, env) =>
        StartChecked(d, us, m, now);
        ApplyChecked(ReceiveStart(d, us, m, now), us, env);
      case VictimDone(from, id, env) => ApplyChecked(ReceiveVictimDone(d, us, from, id), us, env);
      case Complete(from, ids, env) => ApplyChecked(ReceiveComplete(d, us, ids), us, env);
      case External(from, victim, now, env) => ApplyChecked(ReceiveExternal(d, from, victim, now), us, env);
      case Tick(env) => ApplyChecked(d, us, env);
      case ClusterAdd(_, _) =>
      case LeaveRequest =>
    }
  }

  /** In every run of proper configurations no failure is unsettled while we wait for messages. */
  lemma {:induction false} QuorumIsChecked(complete: seq<int>, h: map<int, History>, us: int, events: seq<Event>)
    requires forall k :: 0 <= k < |events| ==> ProperConfig(events[k])
    ensures QuorumChecked(Run(Initial(complete, h), us, events))
    decreases |events|
  {
    if events != [] {
      var n := |events| - 1;
      QuorumIsChecked(complete, h, us, events[..n]);
      StepChecked(Run(Initial(complete, h), us, events[..n]), us, events[n]);
    }
  }

  /** Without that assumption the property fails: node 2 fails in a configuration that joins a non-member. */
  lemma BotchedConfigBreaksTheGate() returns (events: seq<Event>, h: map<int, History>)
    ensures !QuorumChecked(Run(Initial([], h), 1, events))
  {
    h := map[2 := NO_HISTORY];
    var env := Env(true, {1}, 0, [], map[]);
    var e1 := Confchg(Config([1], [], [1]), 0, {1}, env);
    var e2 := Confchg(Config([1], [Left(2, NodeDown)], [3]), 0, {1}, env);
    var d0 := Initial([], h);
    var d1 := Step(d0, 1, e1);
    FirstChangeWaits(d0, e1);
    assert e2.cfg.left[0].nodeid == 2;
    assert 3 in e2.cfg.joined && 3 !in e2.cfg.members;
    assert 2 in d1.history && FailedIn(e2.cfg.left, 2);
    assert Botched(d1, e2.cfg);
    ConfchgCheckedExactly(d1, 1, e2.cfg, 0, {1}, env);
    events := [e1, e2];
    assert events[..1] == [e1] && [e1][..0] == [];
    assert Run(d0, 1, [e1]) == Step(Run(d0, 1, []), 1, e1) == d1;
    assert Run(d0, 1, events) == Step(d1, 1, e2);
  }

  /** A quorate node that joins alone, with no failure unsettled, sends its start at once. */
  lemma FirstChangeWaits(d: Domain, e: Event)
    requires !d.freed && !d.leavingGroup && d.changes == [] && NoChecks(d.history)
    requires e.Confchg? && e.cfg == Config([1], [], [1]) && e.env.quorate
    ensures var r := Step(d, 1, e);
            Waiting(r) && QuorumChecked(r) && d.history.Keys <= r.history.Keys && !r.freed && !r.leavingGroup
  {
    AddSucceedsExactly(d, 1, e.cfg, e.now);
    var h := FlagFailed(d.history, []);
    JoinKeepsHistory(FreshMembers([1]), h, [1], 1);
    var d1 := AddChange(d, 1, e.cfg, e.now).1;
    InitKeepsChecks(Join(FreshMembers([1]), h, [1], 1).history, d1.changes[0].members);
    assert NoChecks(d1.history);
  }

  lemma {:induction false} InitKeepsChecks(h: map<int, History>, ms: seq<Member>)
    requires NoChecks(h)
    ensures NoChecks(InitMembers(h, ms)) && h.Keys <= InitMembers(h, ms).Keys
    decreases |ms|
  {
    if ms != [] {
      InitKeepsChecks(InitHistory(h, ms[0].nodeid), ms[1..]);
    }
  }

  // ---------- who fences

  lemma {:induction false} LowIsLowest(acc: int, ids: seq<int>)
    requires forall i :: 0 <= i < |ids| ==> ids[i] != 0
    ensures Low(acc, ids) == 0 <==> acc == 0 && ids == []
    ensures ids != [] ==> Low(acc, ids) in ids || Low(acc, ids) == acc
    ensures acc != 0 ==> Low(acc, ids) <= acc
    ensures forall i :: 0 <= i < |ids| ==> Low(acc, ids) <= ids[i]
    ensures acc == 0 && ids != [] ==> Low(acc, ids) in ids
    decreases |ids|
  {
    if ids != [] {
      var acc1 := if acc == 0 || ids[0] < acc then ids[0] else acc;
      LowIsLowest(acc1, ids[1..]);
      assert ids == [ids[0]] + ids[1..];
    }
  }

  lemma {:induction false} CompleteIdsExactly(ms: seq<Member>)
    ensures forall n :: n in CompleteIds(ms) <==> exists i :: 0 <= i < |ms| && ms[i].complete && ms[i].nodeid == n
  {
    if ms != [] {
      CompleteIdsExactly(ms[1..]);
      forall n
        ensures n in CompleteIds(ms) <==> exists i :: 0 <= i < |ms| && ms[i].complete && ms[i].nodeid == n
      {
        if i :| 0 <= i < |ms| && ms[i].complete && ms[i].nodeid == n {
          if i > 0 { assert ms[1..][i - 1] == ms[i]; }
        }
        if n in CompleteIds(ms[1..]) {
          var i :| 0 <= i < |ms[1..]| && ms[1..][i].complete && ms[1..][i].nodeid == n;
          assert ms[i + 1] == ms[1..][i];
        }
      }
    }
  }

  /** The master is the lowest member with complete state, or the lowest member when none has it. */
  lemma MasterIsLowest(ms: seq<Member>)
    requires ms != [] && forall i :: 0 <= i < |ms| ==> ms[i].nodeid != 0
    ensures exists i :: 0 <= i < |ms| && ms[i].nodeid == Master(ms) &&
                        (ms[i].complete || forall j :: 0 <= j < |ms| ==> !ms[j].complete)
    ensures forall j :: 0 <= j < |ms| && ms[j].complete ==> Master(ms) <= ms[j].nodeid
    ensures (forall j :: 0 <= j < |ms| ==> !ms[j].complete) ==> forall j :: 0 <= j < |ms| ==> Master(ms) <= ms[j].nodeid
  {
    var cs, ids := CompleteIds(ms), MemberIds(ms);
    CompleteIdsExactly(ms);
    forall i | 0 <= i < |cs| ensures cs[i] != 0 { assert cs[i] in cs; }
    LowIsLowest(0, cs);
    LowIsLowest(0, ids);
    assert ids[0] == ms[0].nodeid;
    forall j | 0 <= j < |ms| && ms[j].complete ensures Master(ms) <= ms[j].nodeid {
      assert ms[j].nodeid in cs;
    }
    assert forall j :: 0 <= j < |ms| && ms[j].complete ==> ms[j].nodeid in cs;
    if cs == [] {
      assert Master(ms) in ids;
    } else {
      assert cs[0] in cs;
    }
  }
}
