/**
  The node history of a fence daemon (fence/fenced/cpg.c:309-486, 600-647, 950-1015 and
  fence/fenced/recover.c:49-57): what is known of a node after every event follows from what was
  known before, from what the event says and from what the daemon itself reported in it.
 */
module FenceHistory {
  import opened Basics
  import opened FenceDomain
  import opened FenceMerge
  import opened FenceGate
  import opened FenceVictims
  import opened FenceMaster
  import opened FenceDuty
  import opened FenceNews

  /** A history entry without the flag of an unsettled failure, which QuorumIsChecked is about. */
  function Facts(h: History): History
  {
    h.(checkQuorum := false)
  }

  // ---------- our own deeds

  function Fenced(h: History, master: int, how: Option<How>, time: nat): History
  {
    h.(fenceMaster := master, fenceHow := how, fenceTime := time)
  }

  /** The history of a node after our notes: the latest report about it counts. */
  function Noted(h: History, notes: seq<Note>, us: int, now: nat, n: int): History
  {
    if notes == [] then h
    else
      var last := notes[|notes| - 1];
      if last.SentVictimDone? && last.victim == n then Fenced(h, us, Some(last.how), now)
      else Noted(h, notes[..|notes| - 1], us, now, n)
  }

  lemma {:induction false} NotedConcat(h: History, a: seq<Note>, b: seq<Note>, us: int, now: nat, n: int)
    ensures Noted(h, a + b, us, now, n) == Noted(Noted(h, a, us, now, n), b, us, now, n)
    decreases |b|
  {
    if b == [] {
      assert a + b == a;
    } else {
      assert (a + b)[..|a + b| - 1] == a + b[..|b| - 1];
      NotedConcat(h, a, b[..|b| - 1], us, now, n);
      if b[|b| - 1].SentVictimDone? && b[|b| - 1].victim == n { NotedFenced(h, a, us, now, n, Some(b[|b| - 1].how)); }
    }
  }

  lemma {:induction false} NotedNothing(h: History, notes: seq<Note>, us: int, now: nat, n: int)
    requires forall k :: 0 <= k < |notes| ==> !notes[k].SentVictimDone?
    ensures Noted(h, notes, us, now, n) == h
    decreases |notes|
  {
    if notes != [] { NotedNothing(h, notes[..|notes| - 1], us, now, n); }
  }

  lemma {:induction false} NotedFenced(h: History, a: seq<Note>, us: int, now: nat, n: int, how: Option<How>)
    ensures Fenced(Noted(h, a, us, now, n), us, how, now) == Fenced(h, us, how, now)
  {
    if a != [] { NotedFenced(h, a[..|a| - 1], us, now, n, how); }
  }

  /** From d to r, only our own reports have told us anything new about the node. */
  predicate OwnDeeds(d: Domain, r: Domain, us: int, now: nat, n: int)
  {
    && n in d.history && n in r.history && d.log <= r.log
    && Facts(r.history[n]) == Noted(Facts(d.history[n]), r.log[|d.log|..], us, now, n)
  }

  lemma DeedsInTurn(d: Domain, m: Domain, r: Domain, us: int, now: nat, n: int)
    requires OwnDeeds(d, m, us, now, n) && OwnDeeds(m, r, us, now, n)
    ensures OwnDeeds(d, r, us, now, n)
  {
    hide Noted, Facts;
    assert r.log[|d.log|..] == m.log[|d.log|..] + r.log[|m.log|..];
    NotedConcat(Facts(d.history[n]), m.log[|d.log|..], r.log[|m.log|..], us, now, n);
  }

  /** A note that is no report tells nothing about any node. */
  lemma NoDeed(d: Domain, r: Domain, us: int, now: nat, n: int)
    requires n in d.history && n in r.history && Facts(r.history[n]) == Facts(d.history[n])
    requires r.log == d.log || exists x: Note :: !x.SentVictimDone? && r.log == d.log + [x]
    ensures OwnDeeds(d, r, us, now, n)
  {
    hide Facts, Noted;
    NotedNothing(Facts(d.history[n]), r.log[|d.log|..], us, now, n);
  }

  lemma DoneDeeds(d: Domain, us: int, victim: int, how: How, now: nat, n: int)
    requires n in d.history
    ensures OwnDeeds(d, Done(d, us, victim, how, now), us, now, n)
  {
    var r := Done(d, us, victim, how, now);
    if victim in d.history {
      var x := SentVictimDone(NewestSeq(d), victim, how);
      assert r.log[|d.log|..] == [x] && [x][..0] == [];
    } else {
      assert r.log[|d.log|..] == [];
    }
  }

  lemma {:induction false} ReduceDeeds(d: Domain, us: int, poll: Poll, now: nat, i: nat, n: int)
    requires n in d.history
    ensures OwnDeeds(d, ReduceFrom(d, us, poll, now, i), us, now, n)
    decreases |d.victims| - i
  {
    hide OwnDeeds, Done;
    if i >= |d.victims| {
      NoDeed(d, d, us, now, n);
    } else {
      var id := d.victims[i].nodeid;
      if id in poll.members && id in poll.clean {
        var m := Done(d, us, id, ByMember, now).(victims := d.victims[..i] + d.victims[i + 1..]);
        DoneDeeds(d, us, id, ByMember, now, n);
        OtherFields(d, Done(d, us, id, ByMember, now), m, us, now, n);
        ReduceDeeds(m, us, poll, now, i, n);
        DeedsInTurn(d, m, ReduceFrom(m, us, poll, now, i), us, now, n);
      } else {
        ReduceDeeds(d, us, poll, now, i + 1, n);
      }
    }
  }

  lemma OtherFields(d: Domain, m: Domain, r: Domain, us: int, now: nat, n: int)
    requires OwnDeeds(d, m, us, now, n) && r.history == m.history && r.log == m.log
    ensures OwnDeeds(d, r, us, now, n) && n in r.history
  {
  }

  lemma {:induction false} DelayDeeds(d: Domain, us: int, polls: seq<Poll>, now: nat, n: int)
    requires n in d.history
    ensures OwnDeeds(d, Delay(d, us, polls, now), us, now, n)
    decreases |polls|
  {
    hide OwnDeeds, ReduceFrom;
    if polls == [] || d.victims == [] {
      NoDeed(d, d, us, now, n);
    } else {
      var m := ReduceFrom(d, us, polls[0], now, 0);
      ReduceDeeds(d, us, polls[0], now, 0, n);
      OtherFields(d, m, m, us, now, n);
      DelayDeeds(m, us, polls[1..], now, n);
      DeedsInTurn(d, m, Delay(m, us, polls[1..], now), us, now, n);
    }
  }

  lemma {:induction false} FenceDeeds(d: Domain, us: int, env: Env, i: nat, n: int)
    requires n in d.history
    ensures OwnDeeds(d, FenceFrom(d, us, env, i), us, env.now, n)
    decreases |d.victims| - i
  {
    hide OwnDeeds, Done, Outcome, LastAttempt;
    if i >= |d.victims| {
      NoDeed(d, d.(currentVictim := 0), us, env.now, n);
    } else if d.victims[i].localVictimDone {
      FenceDeeds(d, us, env, i + 1, n);
    } else {
      var id := d.victims[i].nodeid;
      var how := Outcome(d.history, id, LastAttempt(env, id));
      var d1 := d.(currentVictim := id, victims := d.victims[i := d.victims[i].(localVictimDone := true)]);
      var m := Done(d1, us, id, how, env.now);
      NoDeed(d, d1, us, env.now, n);
      DoneDeeds(d1, us, id, how, env.now, n);
      OtherFields(d1, m, m, us, env.now, n);
      FenceDeeds(m, us, env, i + 1, n);
      DeedsInTurn(d, d1, m, us, env.now, n);
      DeedsInTurn(d, m, FenceFrom(m, us, env, i + 1), us, env.now, n);
    }
  }

  lemma LeadDeeds(d: Domain, us: int, env: Env, n: int)
    requires n in d.history
    ensures OwnDeeds(d, Lead(d, us, env), us, env.now, n)
  {
    hide OwnDeeds, Delay, FenceFrom;
    var d1 := Delay(d, us, env.polls, env.now);
    var d2 := d1.(log := d1.log + [Fencing(NewestSeq(d))]);
    var d3 := FenceFrom(d2, us, env, 0);
    DelayDeeds(d, us, env.polls, env.now, n);
    OtherFields(d, d1, d1, us, env.now, n);
    NoDeed(d1, d2, us, env.now, n);
    FenceDeeds(d2, us, env, 0, n);
    OtherFields(d2, d3, d3, us, env.now, n);
    NoDeed(d3, Lead(d, us, env), us, env.now, n);
    DeedsInTurn(d, d1, d2, us, env.now, n);
    DeedsInTurn(d, d2, d3, us, env.now, n);
    DeedsInTurn(d, d3, Lead(d, us, env), us, env.now, n);
  }

  lemma FinishDeeds(d: Domain, us: int, env: Env, n: int)
    requires n in d.history && Completes(d)
    ensures OwnDeeds(d, Finish(d, us, env), us, env.now, n)
  {
    hide OwnDeeds, Lead, Master, AllStarted;
    var cg := d.changes[0];
    var d1 := d.(master := Master(cg.members), changes := d.changes[0 := cg.(state := WaitFencing)]);
    NoDeed(d, d1, us, env.now, n);
    if d1.master == us {
      LeadDeeds(d1, us, env, n);
      DeedsInTurn(d, d1, Lead(d1, us, env), us, env.now, n);
      OtherFields(d, Lead(d1, us, env), Finish(d, us, env), us, env.now, n);
    } else {
      OtherFields(d, d1, Finish(d, us, env), us, env.now, n);
    }
  }

  lemma ApplyDeeds(d: Domain, us: int, env: Env, n: int)
    requires n in d.history
    ensures OwnDeeds(d, Apply(d, us, env), us, env.now, n)
  {
    hide OwnDeeds, Finish, AllStarted, NoChecks;
    if Completes(d) {
      FinishDeeds(d, us, env, n);
    } else {
      assert Facts(Apply(d, us, env).history[n]) == Facts(d.history[n]);
      NoDeed(d, Apply(d, us, env), us, env.now, n);
    }
  }

  // ---------- what others tell us

  /** The first entry for the node that knows of a fencing of it. */
  function FirstFence(ids: seq<IdInfo>, n: int): Option<IdInfo>
  {
    if ids == [] then None
    else if ids[0].nodeid == n && ids[0].fenceTime != 0 then Some(ids[0])
    else FirstFence(ids[1..], n)
  }

  /** The first entry for the node that knows of a fencing of it by other means. */
  function FirstExternal(ids: seq<IdInfo>, n: int): Option<IdInfo>
  {
    if ids == [] then None
    else if ids[0].nodeid == n && ids[0].externalTime != 0 then Some(ids[0])
    else FirstExternal(ids[1..], n)
  }

  /** What we know stays; what we do not know is taken from the first entry that does. */
  function Filled(h: History, ids: seq<IdInfo>, n: int): History
  {
    var h1 := if h.fenceTime == 0 && FirstFence(ids, n).Some?
              then var id := FirstFence(ids, n).value; Fenced(h, id.fenceMaster, id.fenceHow, id.fenceTime)
              else h;
    if h.externalTime == 0 && FirstExternal(ids, n).Some?
    then var id := FirstExternal(ids, n).value; h1.(externalTime := id.externalTime, externalNode := id.externalNode)
    else h1
  }

  /** Saving the entries of a message one by one fills in what was unknown, once. */
  lemma {:induction false} SaveFills(h: map<int, History>, ids: seq<IdInfo>, n: int)
    requires n in h
    ensures n in SaveHistory(h, ids) && SaveHistory(h, ids)[n] == Filled(h[n], ids, n)
    decreases |ids|
  {
    if ids != [] {
      SaveFills(SaveId(h, ids[0]), ids[1..], n);
      FirstHas(ids[1..], n);
    }
  }

  lemma {:induction false} FirstHas(ids: seq<IdInfo>, n: int)
    ensures FirstFence(ids, n).Some? ==> FirstFence(ids, n).value.fenceTime != 0
    ensures FirstExternal(ids, n).Some? ==> FirstExternal(ids, n).value.externalTime != 0
  {
    if ids != [] { FirstHas(ids[1..], n); }
  }

  /** What an event says about the node. */
  function Learnt(d: Domain, us: int, e: Event, n: int): History
    requires n in d.history
  {
    var h := d.history[n];
    match e
    case Start(m, now, _) =>
      if !Accepts(d, us, m) then h else Filled(if m.from == n then h.(addTime := now) else h, m.ids, n)
    case VictimDone(from, id, _) =>
      if from != us && id.nodeid == n && IsVictim(d.victims, n)
      then Fenced(h, id.fenceMaster, id.fenceHow, id.fenceTime) else h
    case External(from, victim, now, _) =>
      if victim == n then h.(externalTime := now, externalNode := from) else h
    case ClusterAdd(m, now) => if m == n then h.(clusterAddTime := now) else h
    case _ => h
  }

  lemma StartLearns(d: Domain, us: int, m: StartMsg, now: nat, env: Env, n: int)
    requires n in d.history
    ensures var r := ReceiveStart(d, us, m, now);
            && n in r.history && r.history[n] == Learnt(d, us, Start(m, now, env), n)
            && (r.log == d.log || exists x: Note :: !x.SentVictimDone? && r.log == d.log + [x])
  {
    hide FindMemb, IsAdded, MatchChange, SaveHistory, Filled;
    if Accepts(d, us, m) {
      SaveFills(d.history[m.from := d.history[m.from].(addTime := now)], m.ids, n);
    }
  }

  lemma ReceivedLearns(d: Domain, us: int, e: Event, n: int)
    requires n in d.history && IsMessage(e)
    ensures var r := Received(d, us, e);
            && n in r.history && r.history[n] == Learnt(d, us, e, n)
            && (r.log == d.log || exists x: Note :: !x.SentVictimDone? && r.log == d.log + [x])
  {
    if e.Start? { StartLearns(d, us, e.msg, e.now, e.env, n); }
    hide ReceiveStart, Accepts, Filled;
  }

  lemma AddChangeLearns(d: Domain, us: int, cfg: Config, now: nat, n: int)
    requires n in d.history
    ensures var r := AddChange(d, us, cfg, now).1;
            && n in r.history && Facts(r.history[n]) == Facts(d.history[n])
            && d.log <= r.log && forall k :: |d.log| <= k < |r.log| ==> !r.log[k].SentVictimDone?
  {
    var h := FlagFailed(d.history, cfg.left);
    JoinKeepsHistory(FreshMembers(cfg.members), h, cfg.joined, us);
    var j := Join(FreshMembers(cfg.members), h, cfg.joined, us);
    assert n in j.history;
    if j.Joined? { InitTimes(j.history, j.members, n); }
    KicksOnly(cfg.left);
    hide Join, FailedIn, Kicks;
  }

  lemma {:induction false} KicksOnly(left: seq<Left>)
    ensures forall k :: 0 <= k < |Kicks(left)| ==> Kicks(left)[k].Kicked?
  {
    if left != [] { KicksOnly(left[..|left| - 1]); }
  }

  /** From what an event says to what is known after it, there are only our own reports. */
  predicate LearntAndDone(d: Domain, r: Domain, learnt: History, us: int, now: nat, n: int)
  {
    && n in r.history && d.log <= r.log
    && Facts(r.history[n]) == Noted(Facts(learnt), r.log[|d.log|..], us, now, n)
  }

  lemma Chain(d: Domain, m: Domain, r: Domain, us: int, now: nat, n: int)
    requires d.log <= m.log && forall k :: |d.log| <= k < |m.log| ==> !m.log[k].SentVictimDone?
    requires OwnDeeds(m, r, us, now, n)
    ensures LearntAndDone(d, r, m.history[n], us, now, n)
  {
    hide Noted, Facts;
    assert r.log[|d.log|..] == m.log[|d.log|..] + r.log[|m.log|..];
    NotedConcat(Facts(m.history[n]), m.log[|d.log|..], r.log[|m.log|..], us, now, n);
    NotedNothing(Facts(m.history[n]), m.log[|d.log|..], us, now, n);
  }

  /** The time an event happens at, as far as our own reports carry it. */
  function TimeOf(e: Event): nat
  {
    if e.ClusterAdd? || e.LeaveRequest? then 0 else e.env.now
  }

  /**
    After every event, what is known of a node is what was known, with what the event says about it
    filled in, overwritten by our own latest report about it in that event.
   */
  lemma HistoryExactly(d: Domain, us: int, e: Event, n: int)
    requires n in d.history && !d.freed
    ensures LearntAndDone(d, Step(d, us, e), Learnt(d, us, e, n), us, TimeOf(e), n)
  {
    hide Apply, AddChange, Received, OwnDeeds, LearntAndDone;
    match e
    case Confchg(cfg, now, present, env) => ConfchgLearns(d, us, cfg, now, present, env, n);
    case ClusterAdd(_, _) => Unsaid(d, Step(d, us, e), us, 0, n);
    case LeaveRequest => Unsaid(d, Step(d, us, e), us, 0, n);
    case _ =>
      hide Step, Learnt;
      ReceivedLearns(d, us, e, n);
      ApplyDeeds(Received(d, us, e), us, e.env, n);
      StepIsApply(d, us, e);
      Chain(d, Received(d, us, e), Step(d, us, e), us, e.env.now, n);
  }

  lemma Unsaid(d: Domain, r: Domain, us: int, now: nat, n: int)
    requires n in r.history && r.log == d.log
    ensures LearntAndDone(d, r, r.history[n], us, now, n)
  {
    assert r.log[|d.log|..] == [];
  }

  lemma ConfchgLearns(d: Domain, us: int, cfg: Config, now: nat, present: set<int>, env: Env, n: int)
    requires n in d.history
    ensures LearntAndDone(d, DoConfchg(d, us, cfg, now, present, env), d.history[n], us, env.now, n)
  {
    hide Apply, AddChange, OwnDeeds;
    var r := DoConfchg(d, us, cfg, now, present, env);
    if d.leavingGroup && WeLeft(cfg.left, us) {
      Unsaid(d, r, us, env.now, n);
    } else {
      AddChangeLearns(d, us, cfg, now, n);
      var (ok, d1) := AddChange(d, us, cfg, now);
      if ok {
        ApplyDeeds(TakeVictims(d1, present), us, env, n);
        Chain(d, TakeVictims(d1, present), r, us, env.now, n);
      } else {
        NoDeed(d1, d1, us, env.now, n);
        Chain(d, d1, r, us, env.now, n);
      }
    }
  }
}
