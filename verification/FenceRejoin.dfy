/**
  Why a victim may be spared (fence/fenced/recover.c:62-81, 328-344): a node
  reported done because it is a member again was, at that moment, a clean member of
  the daemon group, and so had rejoined it without state.
 */
module FenceRejoin {
  import opened FenceDomain
  import opened FenceVictims
  import G = DaemonGroup
  import S = DaemonGroupSafety

  /** Some pass of reduce_victims or the last fencing attempt found the node a clean cluster member. */
  predicate FoundClean(env: Env, n: int)
  {
    || SparedBySome(env.polls, n)
    || (LastAttempt(env, n).clusterMember && LastAttempt(env, n).clean)
  }

  /** Victims newly reported done by membership were found clean. */
  ghost predicate MemberNotes(l: seq<Note>, r: seq<Note>, env: Env)
  {
    && l <= r
    && forall k :: |l| <= k < |r| && r[k].SentVictimDone? && r[k].how == ByMember ==> FoundClean(env, r[k].victim)
  }

  lemma {:induction false} ReduceNotes(d: Domain, us: int, k: nat, env: Env, i: nat)
    requires k < |env.polls|
    ensures MemberNotes(d.log, ReduceFrom(d, us, env.polls[k], env.now, i).log, env)
    decreases |d.victims| - i
  {
    if i < |d.victims| {
      var id, poll := d.victims[i].nodeid, env.polls[k];
      if id in poll.members && id in poll.clean {
        assert Spared(env.polls[k], id);
        var d1 := Done(d, us, id, ByMember, env.now).(victims := d.victims[..i] + d.victims[i + 1..]);
        ReduceNotes(d1, us, k, env, i);
      } else {
        ReduceNotes(d, us, k, env, i + 1);
      }
    }
  }

  lemma {:induction false} DelayNotes(d: Domain, us: int, k: nat, env: Env)
    requires k <= |env.polls|
    ensures MemberNotes(d.log, Delay(d, us, env.polls[k..], env.now).log, env)
    decreases |env.polls| - k
  {
    if k < |env.polls| && d.victims != [] {
      ReduceNotes(d, us, k, env, 0);
      assert env.polls[k..][0] == env.polls[k] && env.polls[k..][1..] == env.polls[k + 1..];
      DelayNotes(ReduceFrom(d, us, env.polls[k], env.now, 0), us, k + 1, env);
    }
  }

  lemma {:induction false} FenceNotes(d: Domain, us: int, env: Env, i: nat)
    ensures MemberNotes(d.log, FenceFrom(d, us, env, i).log, env)
    decreases |d.victims| - i
  {
    if i < |d.victims| {
      if d.victims[i].localVictimDone {
        FenceNotes(d, us, env, i + 1);
      } else {
        var id := d.victims[i].nodeid;
        var how := Outcome(d.history, id, LastAttempt(env, id));
        var d1 := d.(currentVictim := id, victims := d.victims[i := d.victims[i].(localVictimDone := true)]);
        FenceNotes(Done(d1, us, id, how, env.now), us, env, i + 1);
      }
    }
  }

  lemma ApplyNotes(d: Domain, us: int, env: Env)
    ensures MemberNotes(d.log, Apply(d, us, env).log, env)
  {
    if Leads(d, us) {
      var cg := d.changes[0];
      var d1 := d.(master := Master(cg.members), changes := d.changes[0 := cg.(state := WaitFencing)]);
      assert env.polls[0..] == env.polls;
      DelayNotes(d1, us, 0, env);
      var d2 := Delay(d1, us, env.polls, env.now);
      var d3 := d2.(log := d2.log + [Fencing(cg.seqno)]);
      FenceNotes(d3, us, env, 0);
      assert Apply(d, us, env).log == FenceFrom(d3, us, env, 0).log + [SentComplete(cg.seqno)];
    }
  }

  // ---------- the domain and the daemon group together

  /** A domain and everything the daemon group has done so far. */
  datatype Coupled = Coupled(d: Domain, t: seq<G.Event>)

  /**
    The poll loop hands over a group delivery, or a domain event is handled.  While it leads, the
    daemon dispatches the group at every question about a victim: batch is what is dispatched
    until the event is done, and polled and tried say how much of the group's history there was
    when reduce_victims, in each pass, and the last fencing attempt asked about a node.
   */
  datatype Move =
    | Group(g: G.Event)
    | Fence(e: Event, batch: seq<G.Event>, polled: seq<map<int, nat>>, tried: map<int, nat>)

  /** The event ends the newest change; apply_changes then marks the daemon stateful first of all. */
  predicate Ends(d: Domain, us: int, e: Event)
  {
    && !d.freed && (e.Start? || e.VictimDone? || e.Complete? || e.External? || e.Tick?)
    && Completes(Received(d, us, e))
  }

  /** It ends it with us as the master, who then asks about victims. */
  predicate Asks(d: Domain, us: int, e: Event)
  {
    Ends(d, us, e) && Leads(Received(d, us, e), us)
  }

  function Next(j: Coupled, us: int, m: Move): Coupled
  {
    match m
    case Group(g) => j.(t := j.t + [g])
    case Fence(e, batch, _, _) =>
      Coupled(Step(j.d, us, e), if Ends(j.d, us, e) then j.t + [G.Stateful] + batch else j.t)
  }

  /** The answer was yes: the node was clean when p events of the group had happened. */
  ghost predicate AnsweredYes(max: G.Version, us: int, t: seq<G.Event>, from: nat, p: nat, n: int)
  {
    from <= p <= |t| && G.IsClean(G.Run(G.Initial(max), us, t[..p]), n)
  }

  /** Every "clean" of the environment is an answer given between two moments of the group's history. */
  ghost predicate Answered(max: G.Version, us: int, env: Env, t: seq<G.Event>, from: nat,
                           polled: seq<map<int, nat>>, tried: map<int, nat>)
  {
    && |polled| == |env.polls|
    && (forall k, n :: 0 <= k < |polled| && n in env.polls[k].clean ==>
          n in polled[k] && AnsweredYes(max, us, t, from, polled[k][n], n))
    && (forall n :: n in env.attempts && env.attempts[n].clean ==>
          n in tried && AnsweredYes(max, us, t, from, tried[n], n))
  }

  ghost predicate Allowed(max: G.Version, us: int, j: Coupled, m: Move)
  {
    match m
    case Group(g) => g.Deliver?
    case Fence(e, batch, polled, tried) =>
      && (forall i :: 0 <= i < |batch| ==> batch[i].Deliver?)
      && (Asks(j.d, us, e) ==> Answered(max, us, e.env, Next(j, us, m).t, |j.t| + 1, polled, tried))
  }

  function RunBoth(j: Coupled, us: int, ms: seq<Move>): Coupled
  {
    if ms == [] then j else Next(RunBoth(j, us, ms[..|ms| - 1]), us, ms[|ms| - 1])
  }

  ghost predicate Legal(max: G.Version, us: int, j: Coupled, ms: seq<Move>)
  {
    ms != [] ==>
      && Legal(max, us, j, ms[..|ms| - 1])
      && Allowed(max, us, RunBoth(j, us, ms[..|ms| - 1]), ms[|ms| - 1])
  }

  // ---------- what a step reports

  predicate Spares(note: Note)
  {
    note.SentVictimDone? && note.how == ByMember
  }

  /** Nothing is reported about victims between the two logs. */
  ghost predicate Silent(l: seq<Note>, r: seq<Note>)
  {
    l <= r && forall k :: |l| <= k < |r| ==> !r[k].SentVictimDone?
  }

  lemma {:induction false} KicksSilent(left: seq<Left>)
    ensures forall k :: 0 <= k < |Kicks(left)| ==> Kicks(left)[k].Kicked?
  {
    if left != [] { KicksSilent(left[..|left| - 1]); }
  }

  lemma AddChangeSilent(d: Domain, us: int, cfg: Config, now: nat)
    ensures Silent(d.log, AddChange(d, us, cfg, now).1.log)
  {
    KicksSilent(cfg.left);
  }

  lemma ApplySilent(d: Domain, us: int, env: Env)
    requires !Leads(d, us)
    ensures Silent(d.log, Apply(d, us, env).log)
  {
    hide Lead, ClearChecks, NoChecks, AllStarted, Master;
  }

  lemma ReceivedSilent(d: Domain, us: int, e: Event)
    ensures Silent(d.log, Received(d, us, e).log)
  {
    hide FindChange, FindMemb, IsAdded, SaveHistory, RemoveFirst;
  }

  lemma MessageNotes(d: Domain, us: int, e: Event)
    requires e.Start? || e.VictimDone? || e.Complete? || e.External? || e.Tick?
    ensures MemberNotes(d.log, Apply(Received(d, us, e), us, e.env).log, e.env)
    ensures !Leads(Received(d, us, e), us) ==> Silent(d.log, Apply(Received(d, us, e), us, e.env).log)
  {
    hide Apply, FoundClean, Received, Leads;
    ReceivedSilent(d, us, e);
    ApplyNotes(Received(d, us, e), us, e.env);
    if !Leads(Received(d, us, e), us) { ApplySilent(Received(d, us, e), us, e.env); }
  }

  /** Whatever is reported done by membership was found clean while we lead the end of a change. */
  lemma StepNotes(d: Domain, us: int, e: Event)
    ensures d.log <= Step(d, us, e).log
    ensures Asks(d, us, e) ==> MemberNotes(d.log, Step(d, us, e).log, e.env)
    ensures !Asks(d, us, e) ==> Silent(d.log, Step(d, us, e).log)
  {
    hide Apply, AddChange, FoundClean, ReceiveStart, ReceiveVictimDone, ReceiveComplete, ReceiveExternal;
    if !d.freed {
      match e
      case Confchg(cfg, now, present, env) =>
        AddChangeSilent(d, us, cfg, now);
        var (ok, d1) := AddChange(d, us, cfg, now);
        if ok { ApplySilent(TakeVictims(d1, present), us, env); }
      case ClusterAdd(_, _) =>
      case LeaveRequest =>
      case _ => MessageNotes(d, us, e);
    }
  }

  // ---------- the invariant of joint runs

  /** When p events of the group had happened we were stateful and the node was clean. */
  ghost predicate SparedAt(max: G.Version, us: int, t: seq<G.Event>, p: nat, n: int)
  {
    && p <= |t| && S.StatefulAfter(t[..p])
    && G.IsClean(G.Run(G.Initial(max), us, t[..p]), n)
  }

  ghost predicate Backed(max: G.Version, us: int, j: Coupled, i: nat)
    requires i < |j.d.log|
  {
    Spares(j.d.log[i]) ==> exists p :: SparedAt(max, us, j.t, p, j.d.log[i].victim)
  }

  lemma SparedLonger(max: G.Version, us: int, t: seq<G.Event>, more: seq<G.Event>, p: nat, n: int)
    requires SparedAt(max, us, t, p, n)
    ensures SparedAt(max, us, t + more, p, n)
  {
    assert (t + more)[..p] == t[..p];
  }

  /** An answer given after the daemon was marked stateful. */
  lemma AnswerSpares(max: G.Version, us: int, t: seq<G.Event>, batch: seq<G.Event>, p: nat, n: int)
    requires AnsweredYes(max, us, t + [G.Stateful] + batch, |t| + 1, p, n)
    ensures SparedAt(max, us, t + [G.Stateful] + batch, p, n)
  {
    var all := t + [G.Stateful] + batch;
    assert all[..p][|t|].Stateful?;
  }

  lemma FoundWhen(max: G.Version, us: int, j: Coupled, m: Move, n: int) returns (p: nat)
    requires m.Fence? && Allowed(max, us, j, m) && Asks(j.d, us, m.e) && FoundClean(m.e.env, n)
    ensures SparedAt(max, us, Next(j, us, m).t, p, n)
  {
    hide Leads, Received, SparedAt, AnsweredYes, Step;
    var env := m.e.env;
    if SparedBySome(env.polls, n) {
      var k :| 0 <= k < |env.polls| && Spared(env.polls[k], n);
      p := m.polled[k][n];
    } else {
      p := m.tried[n];
    }
    AnswerSpares(max, us, j.t, m.batch, p, n);
  }

  lemma NextBacked(max: G.Version, us: int, j: Coupled, m: Move, i: nat)
    requires Allowed(max, us, j, m) && i < |Next(j, us, m).d.log|
    requires i < |j.d.log| ==> Backed(max, us, j, i)
    ensures Backed(max, us, Next(j, us, m), i)
  {
    hide Step, FoundClean, SparedAt, Ends, Asks, Allowed;
    var r := Next(j, us, m);
    if m.Fence? { StepNotes(j.d, us, m.e); }
    if Spares(r.d.log[i]) {
      var n := r.d.log[i].victim;
      if i < |j.d.log| {
        assert r.d.log[i] == j.d.log[i];
        var p :| SparedAt(max, us, j.t, p, n);
        var more := r.t[|j.t|..];
        assert r.t == j.t + more;
        SparedLonger(max, us, j.t, more, p, n);
      } else {
        var p := FoundWhen(max, us, j, m, n);
      }
    }
  }

  lemma {:induction false} RunBacked(max: G.Version, us: int, j: Coupled, ms: seq<Move>, i: nat)
    requires j.d.log == [] && Legal(max, us, j, ms) && i < |RunBoth(j, us, ms).d.log|
    ensures Backed(max, us, RunBoth(j, us, ms), i)
    decreases |ms|
  {
    hide Next, Backed, Allowed;
    if ms != [] {
      var before := ms[..|ms| - 1];
      if i < |RunBoth(j, us, before).d.log| { RunBacked(max, us, j, before, i); }
      NextBacked(max, us, RunBoth(j, us, before), ms[|ms| - 1], i);
    }
  }

  // ---------- the theorem

  /** A configuration without n came at l. */
  predicate LeftAt(t: seq<G.Event>, l: nat, n: int)
  {
    l < |t| && t[l].Deliver? && t[l].d.Config? && n !in t[l].d.members
  }

  /** After l, in its latest membership, n sent a message without the stateful flag. */
  predicate CleanMessageAfter(t: seq<G.Event>, l: nat, n: int)
  {
    exists k :: l < k < |t| && t[k].Deliver? && t[k].d.Proto? && t[k].d.from == n && !t[k].d.p.stateful &&
                G.WellFormed(t[k].d.p) && n in S.MembersAfter(t[..k]) && S.StaysAfter(t, k, n)
  }

  /** Whenever n left after s it has come back clean. */
  predicate BackSince(t: seq<G.Event>, s: nat, n: int)
  {
    forall l :: s < l < |t| && LeftAt(t, l, n) ==> CleanMessageAfter(t, l, n)
  }

  lemma CleanExcuses(max: G.Version, us: int, t: seq<G.Event>, s: nat, n: int)
    requires n != us && s < |t| && t[s].Stateful? && G.IsClean(G.Run(G.Initial(max), us, t), n)
    ensures BackSince(t, s, n)
  {
    forall l | s < l < |t| && LeftAt(t, l, n) ensures CleanMessageAfter(t, l, n) {
      var k := S.CleanRejoin(max, us, t, n, s, l);
    }
  }

  /** The first event that marked us stateful. */
  lemma {:induction false} FirstStateful(t: seq<G.Event>) returns (s: nat)
    requires S.StatefulAfter(t)
    ensures s < |t| && t[s].Stateful? && forall q :: 0 <= q < s ==> !t[q].Stateful?
  {
    s := 0;
    while !t[s].Stateful?
      invariant s < |t| && forall q :: 0 <= q < s ==> !t[q].Stateful?
      decreases |t| - s
    {
      var k :| 0 <= k < |t| && t[k].Stateful?;
      s := s + 1;
    }
  }

  /**
    In every joint run of a domain and the daemon group: a peer reported done on membership
    grounds was found clean at a moment p of the group's history, after our first completion at
    s; and if it had left the group between s and p, it had by then joined again and sent a
    message without the stateful flag.
   */
  lemma SparedOnlyIfClean(max: G.Version, us: int, j: Coupled, ms: seq<Move>, i: nat) returns (s: nat, p: nat)
    requires j.d.log == [] && Legal(max, us, j, ms)
    requires i < |RunBoth(j, us, ms).d.log|
    requires Spares(RunBoth(j, us, ms).d.log[i]) && RunBoth(j, us, ms).d.log[i].victim != us
    ensures var r := RunBoth(j, us, ms);
            && s < p <= |r.t| && r.t[s].Stateful?
            && (forall q :: 0 <= q < s ==> !r.t[q].Stateful?)
            && G.IsClean(G.Run(G.Initial(max), us, r.t[..p]), r.d.log[i].victim)
            && BackSince(r.t[..p], s, r.d.log[i].victim)
  {
    hide RunBoth, Legal, BackSince;
    RunBacked(max, us, j, ms, i);
    var r := RunBoth(j, us, ms);
    var n := r.d.log[i].victim;
    p :| SparedAt(max, us, r.t, p, n);
    s := FirstStateful(r.t[..p]);
    CleanExcuses(max, us, r.t[..p], s, n);
  }
}
