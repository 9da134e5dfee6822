/**
  The victim list (fence/fenced/cpg.c:600-647, 1017-1052, 1175-1199, 1372-1389,
  fence/fenced/recover.c:38-81): no node is ever listed twice, and exactly three
  things take a victim off the list.
 */
module FenceVictims {
  import opened FenceDomain

  predicate Distinct(victims: seq<Victim>)
  {
    forall i, j :: 0 <= i < j < |victims| ==> victims[i].nodeid != victims[j].nodeid
  }

  predicate Spared(poll: Poll, id: int)
  {
    id in poll.members && id in poll.clean
  }

  /** The victims a reduce_victims pass keeps, in order. */
  function Unspared(victims: seq<Victim>, poll: Poll): seq<Victim>
  {
    if victims == [] then []
    else (if Spared(poll, victims[0].nodeid) then [] else [victims[0]]) + Unspared(victims[1..], poll)
  }

  lemma {:induction false} UnsparedExactly(victims: seq<Victim>, poll: Poll)
    ensures forall v :: v in Unspared(victims, poll) <==> v in victims && !Spared(poll, v.nodeid)
  {
    if victims != [] {
      assert victims == [victims[0]] + victims[1..];
      UnsparedExactly(victims[1..], poll);
    }
  }

  lemma {:induction false} UnsparedDistinct(victims: seq<Victim>, poll: Poll)
    requires Distinct(victims)
    ensures Distinct(Unspared(victims, poll))
  {
    if victims != [] {
      var rest := Unspared(victims[1..], poll);
      UnsparedDistinct(victims[1..], poll);
      UnsparedExactly(victims[1..], poll);
      forall j | 0 <= j < |rest| ensures rest[j].nodeid != victims[0].nodeid {
        assert rest[j] in victims[1..];
      }
    }
  }

  lemma UnsparedFrom(victims: seq<Victim>, poll: Poll, i: nat)
    requires i < |victims|
    ensures Unspared(victims[i..], poll)
            == (if Spared(poll, victims[i].nodeid) then [] else [victims[i]]) + Unspared(victims[i + 1..], poll)
  {
    assert victims[i..][0] == victims[i] && victims[i..][1..] == victims[i + 1..];
  }

  lemma {:induction false} ReduceKeeps(d: Domain, us: int, poll: Poll, now: nat, i: nat)
    requires i <= |d.victims|
    ensures ReduceFrom(d, us, poll, now, i).victims == d.victims[..i] + Unspared(d.victims[i..], poll)
    decreases |d.victims| - i
  {
    var vs := d.victims;
    if i == |vs| {
      assert vs[..i] == vs && vs[i..] == [];
    } else {
      var tail := Unspared(vs[i + 1..], poll);
      assert Unspared(vs[i..], poll) == (if Spared(poll, vs[i].nodeid) then [] else [vs[i]]) + tail by {
        UnsparedFrom(vs, poll, i);
      }
      if Spared(poll, vs[i].nodeid) {
        var left := vs[..i] + vs[i + 1..];
        var d1 := Done(d, us, vs[i].nodeid, ByMember, now).(victims := left);
        assert ReduceFrom(d, us, poll, now, i) == ReduceFrom(d1, us, poll, now, i);
        ReduceKeeps(d1, us, poll, now, i);
        assert left[..i] == vs[..i] && left[i..] == vs[i + 1..];
      } else {
        assert ReduceFrom(d, us, poll, now, i) == ReduceFrom(d, us, poll, now, i + 1);
        ReduceKeeps(d, us, poll, now, i + 1);
        assert vs[..i + 1] + tail == vs[..i] + ([vs[i]] + tail);
      }
    }
  }

  predicate SparedBySome(polls: seq<Poll>, id: int)
  {
    exists k :: 0 <= k < |polls| && Spared(polls[k], id)
  }

  lemma ReducePass(d: Domain, us: int, poll: Poll, now: nat)
    requires Distinct(d.victims)
    ensures var r := ReduceFrom(d, us, poll, now, 0).victims; r == Unspared(d.victims, poll) && Distinct(r)
  {
    ReduceKeeps(d, us, poll, now, 0);
    assert d.victims[0..] == d.victims;
    UnsparedDistinct(d.victims, poll);
  }

  /** Waiting before fencing removes precisely the victims some poll found to be clean cluster members. */
  lemma {:induction false} DelayKeeps(d: Domain, us: int, polls: seq<Poll>, now: nat)
    requires Distinct(d.victims)
    ensures Distinct(Delay(d, us, polls, now).victims)
    ensures forall n :: IsVictim(Delay(d, us, polls, now).victims, n)
                        <==> IsVictim(d.victims, n) && !SparedBySome(polls, n)
    decreases |polls|
  {
    if polls != [] && d.victims != [] {
      ReducePass(d, us, polls[0], now);
      var d1 := ReduceFrom(d, us, polls[0], now, 0);
      DelayKeeps(d1, us, polls[1..], now);
      forall n
        ensures IsVictim(d1.victims, n) && !SparedBySome(polls[1..], n)
                <==> IsVictim(d.victims, n) && !SparedBySome(polls, n)
      {
        UnsparedVictim(d.victims, polls[0], n);
        SparedCons(polls, n);
      }
    }
  }

  lemma UnsparedVictim(victims: seq<Victim>, poll: Poll, n: int)
    ensures IsVictim(Unspared(victims, poll), n) <==> IsVictim(victims, n) && !Spared(poll, n)
  {
    var r := Unspared(victims, poll);
    UnsparedExactly(victims, poll);
    if i :| 0 <= i < |victims| && victims[i].nodeid == n && !Spared(poll, n) {
      assert victims[i] in r;
    }
    if i :| 0 <= i < |r| && r[i].nodeid == n {
      assert r[i] in victims;
    }
  }

  lemma SparedCons(polls: seq<Poll>, n: int)
    requires polls != []
    ensures SparedBySome(polls, n) <==> Spared(polls[0], n) || SparedBySome(polls[1..], n)
  {
    if k :| 0 <= k < |polls| && Spared(polls[k], n) {
      if k > 0 { assert Spared(polls[1..][k - 1], n); }
    }
    if k :| 0 <= k < |polls[1..]| && Spared(polls[1..][k], n) {
      assert Spared(polls[k + 1], n);
    }
  }

  predicate SameVictims(a: seq<Victim>, b: seq<Victim>)
  {
    |a| == |b| && forall i :: 0 <= i < |a| ==> a[i].nodeid == b[i].nodeid
  }

  lemma SameVictim(a: seq<Victim>, b: seq<Victim>, n: int)
    requires SameVictims(a, b)
    ensures IsVictim(a, n) <==> IsVictim(b, n)
  {
    if i :| 0 <= i < |a| && a[i].nodeid == n { assert b[i].nodeid == n; }
    if i :| 0 <= i < |b| && b[i].nodeid == n { assert a[i].nodeid == n; }
  }

  /** fence_victims itself takes nobody off the list, but settles everybody on it. */
  lemma {:induction false} FenceKeeps(d: Domain, us: int, env: Env, i: nat)
    requires i <= |d.victims|
    requires forall k :: 0 <= k < i ==> d.victims[k].localVictimDone
    ensures var r := FenceFrom(d, us, env, i).victims;
            SameVictims(d.victims, r) && forall k :: 0 <= k < |r| ==> r[k].localVictimDone
    decreases |d.victims| - i
  {
    if i < |d.victims| {
      if d.victims[i].localVictimDone {
        FenceKeeps(d, us, env, i + 1);
      } else {
        var id := d.victims[i].nodeid;
        var how := Outcome(d.history, id, LastAttempt(env, id));
        var d1 := d.(currentVictim := id, victims := d.victims[i := d.victims[i].(localVictimDone := true)]);
        FenceKeeps(Done(d1, us, id, how, env.now), us, env, i + 1);
      }
    }
  }

  /** This step ends the newest change with us as the master. */
  predicate Leads(d: Domain, us: int)
  {
    Completes(d) && Master(d.changes[0].members) == us
  }

  lemma ApplyVictims(d: Domain, us: int, env: Env)
    requires Distinct(d.victims)
    ensures Distinct(Apply(d, us, env).victims)
    ensures forall n :: IsVictim(Apply(d, us, env).victims, n)
                        <==> IsVictim(d.victims, n) && !(Leads(d, us) && SparedBySome(env.polls, n))
  {
    if Leads(d, us) {
      var cg := d.changes[0];
      var d1 := d.(master := Master(cg.members), changes := d.changes[0 := cg.(state := WaitFencing)]);
      DelayKeeps(d1, us, env.polls, env.now);
      var d2 := Delay(d1, us, env.polls, env.now);
      var d3 := d2.(log := d2.log + [Fencing(cg.seqno)]);
      FenceKeeps(d3, us, env, 0);
      assert Apply(d, us, env).victims == FenceFrom(d3, us, env, 0).victims;
      forall n ensures IsVictim(FenceFrom(d3, us, env, 0).victims, n) <==> IsVictim(d2.victims, n) {
        SameVictim(d2.victims, FenceFrom(d3, us, env, 0).victims, n);
      }
    }
  }

  // ---------- additions

  predicate FailedMember(removed: seq<Member>, n: int)
  {
    exists i :: 0 <= i < |removed| && removed[i].nodeid == n && removed[i].failed
  }

  lemma {:induction false} AddVictimsExactly(victims: seq<Victim>, removed: seq<Member>)
    requires Distinct(victims)
    ensures Distinct(AddVictims(victims, removed))
    ensures forall n :: IsVictim(AddVictims(victims, removed), n) <==> IsVictim(victims, n) || FailedMember(removed, n)
    decreases |removed|
  {
    if removed != [] {
      var m := removed[0];
      var v1 := if m.failed && !IsVictim(victims, m.nodeid) then [Victim(m.nodeid, false, false)] + victims else victims;
      AddVictimsExactly(v1, removed[1..]);
      forall n
        ensures IsVictim(v1, n) || FailedMember(removed[1..], n) <==> IsVictim(victims, n) || FailedMember(removed, n)
      {
        ConsVictim(victims, Victim(m.nodeid, false, false), n);
        if i :| 0 <= i < |removed| && removed[i].nodeid == n && removed[i].failed {
          if i > 0 { assert removed[1..][i - 1] == removed[i]; }
        }
        if i :| 0 <= i < |removed[1..]| && removed[1..][i].nodeid == n && removed[1..][i].failed {
          assert removed[i + 1] == removed[1..][i];
        }
      }
    }
  }

  lemma ConsVictim(victims: seq<Victim>, v: Victim, n: int)
    ensures IsVictim([v] + victims, n) <==> v.nodeid == n || IsVictim(victims, n)
  {
    var r := [v] + victims;
    if v.nodeid == n { assert r[0].nodeid == n; }
    if i :| 0 <= i < |victims| && victims[i].nodeid == n { assert r[i + 1].nodeid == n; }
    if i :| 0 <= i < |r| && r[i].nodeid == n {
      if i > 0 { assert victims[i - 1].nodeid == n; }
    }
  }

  predicate Presumed(complete: seq<int>, present: set<int>, ms: seq<Member>, n: int)
  {
    n in complete && n !in present && FindMemb(ms, n) < 0
  }

  lemma {:induction false} AddInitExactly(victims: seq<Victim>, complete: seq<int>, present: set<int>, ms: seq<Member>)
    requires Distinct(victims)
    ensures Distinct(AddInitVictims(victims, complete, present, ms))
    ensures forall n :: IsVictim(AddInitVictims(victims, complete, present, ms), n)
                        <==> IsVictim(victims, n) || Presumed(complete, present, ms, n)
    decreases |complete|
  {
    if complete != [] {
      var id := complete[0];
      var v1 := if id !in present && FindMemb(ms, id) < 0 && !IsVictim(victims, id)
                then [Victim(id, true, false)] + victims else victims;
      AddInitExactly(v1, complete[1..], present, ms);
      assert complete == [id] + complete[1..];
      forall n
        ensures IsVictim(v1, n) || Presumed(complete[1..], present, ms, n)
                <==> IsVictim(victims, n) || Presumed(complete, present, ms, n)
      {
        ConsVictim(victims, Victim(id, true, false), n);
      }
    }
  }

  /** Who a delivered configuration makes a victim. */
  predicate MadeVictim(d: Domain, us: int, e: Event, n: int)
  {
    && e.Confchg?
    && AddChange(d, us, e.cfg, e.now).0
    && (FailedIn(e.cfg.left, n) ||
        (us in e.cfg.joined &&
         Presumed(d.complete, e.present, AddChange(d, us, e.cfg, e.now).1.changes[0].members, n)))
  }

  lemma TakeExactly(d: Domain, us: int, cfg: Config, now: nat, present: set<int>)
    requires Distinct(d.victims) && AddChange(d, us, cfg, now).0
    ensures var d1 := AddChange(d, us, cfg, now).1;
            var r := TakeVictims(d1, present).victims;
            && Distinct(r)
            && forall n :: IsVictim(r, n) <==>
                 IsVictim(d.victims, n) || FailedIn(cfg.left, n) ||
                 (us in cfg.joined && Presumed(d.complete, present, d1.changes[0].members, n))
  {
    var d1 := AddChange(d, us, cfg, now).1;
    var cg := d1.changes[0];
    AddVictimsExactly(d.victims, cg.removed);
    var v := AddVictims(d.victims, cg.removed);
    AddInitExactly(v, d.complete, present, cg.members);
    assert cg.removed == Removed(cfg.left);
    forall n ensures FailedMember(cg.removed, n) <==> FailedIn(cfg.left, n) { RemovedFailed(cfg.left, n); }
  }

  lemma RemovedFailed(left: seq<Left>, n: int)
    ensures FailedMember(Removed(left), n) <==> FailedIn(left, n)
  {
    var ms := Removed(left);
    if i :| 0 <= i < |left| && left[i].nodeid == n && left[i].reason != Leave {
      assert ms[i].nodeid == n && ms[i].failed;
    }
    if i :| 0 <= i < |ms| && ms[i].nodeid == n && ms[i].failed {
      assert left[i].nodeid == n && left[i].reason != Leave;
    }
  }

  lemma {:induction false} RemoveFirstExactly(victims: seq<Victim>, id: int)
    requires Distinct(victims)
    ensures Distinct(RemoveFirst(victims, id))
    ensures forall n :: IsVictim(RemoveFirst(victims, id), n) <==> IsVictim(victims, n) && n != id
    decreases |victims|
  {
    if victims != [] {
      var v, rest := victims[0], victims[1..];
      assert victims == [v] + rest;
      RemoveFirstExactly(rest, id);
      forall n ensures IsVictim(victims, n) <==> v.nodeid == n || IsVictim(rest, n) {
        ConsVictim(rest, v, n);
      }
      assert !IsVictim(rest, v.nodeid);
      if v.nodeid != id {
        var r := RemoveFirst(rest, id);
        assert !IsVictim(r, v.nodeid);
        forall n ensures IsVictim([v] + r, n) <==> v.nodeid == n || IsVictim(r, n) {
          ConsVictim(r, v, n);
        }
        assert Distinct([v] + r);
      }
    }
  }

  // ---------- the theorem

  /** The state in which apply_changes finds the domain after a message. */
  function Received(d: Domain, us: int, e: Event): Domain
  {
    match e
    case Start(m, now, _) => ReceiveStart(d, us, m, now)
    case VictimDone(from, id, _) => ReceiveVictimDone(d, us, from, id)
    case Complete(_, ids, _) => ReceiveComplete(d, us, ids)
    case External(from, victim, now, _) => ReceiveExternal(d, from, victim, now)
    case _ => d
  }

  /** A victim_done naming it, the first complete message that lists us, or reduction as a clean member. */
  predicate Released(d: Domain, us: int, e: Event, n: int)
  {
    || (e.VictimDone? && e.id.nodeid == n)
    || (e.Complete? && !d.initComplete && ShownAsMember(e.ids, us))
    || ((e.Start? || e.VictimDone? || e.Complete? || e.External? || e.Tick?) &&
        Leads(Received(d, us, e), us) && SparedBySome(e.env.polls, n))
  }

  lemma MessageVictims(d: Domain, us: int, e: Event)
    requires Distinct(d.victims) && (e.Start? || e.VictimDone? || e.Complete? || e.External? || e.Tick?)
    ensures var r := Apply(Received(d, us, e), us, e.env).victims;
            && Distinct(r)
            && forall n :: IsVictim(r, n) <==> IsVictim(d.victims, n) && !Released(d, us, e, n)
  {
    hide Apply, Leads, SparedBySome, ReceiveStart;
    var d1 := Received(d, us, e);
    if e.VictimDone? { RemoveFirstExactly(d.victims, e.id.nodeid); }
    assert Distinct(d1.victims);
    ApplyVictims(d1, us, e.env);
  }

  /** Every step keeps the list free of repetitions and changes it exactly as stated. */
  lemma StepVictims(d: Domain, us: int, e: Event)
    requires Distinct(d.victims) && !d.freed && !Step(d, us, e).freed
    ensures Distinct(Step(d, us, e).victims)
    ensures forall n :: IsVictim(Step(d, us, e).victims, n)
                        <==> (IsVictim(d.victims, n) && !Released(d, us, e, n)) || MadeVictim(d, us, e, n)
  {
    hide Apply, AddChange, ReceiveStart, ReceiveVictimDone, ReceiveComplete, ReceiveExternal;
    match e
    case Confchg(cfg, now, present, env) =>
      var (ok, d1) := AddChange(d, us, cfg, now);
      if ok {
        TakeExactly(d, us, cfg, now, present);
        ApplyVictims(TakeVictims(d1, present), us, env);
      }
    case Start(_, _, _) => MessageVictims(d, us, e);
    case VictimDone(_, _, _) => MessageVictims(d, us, e);
    case Complete(_, _, _) => MessageVictims(d, us, e);
    case External(_, _, _, _) => MessageVictims(d, us, e);
    case Tick(_) => MessageVictims(d, us, e);
    case ClusterAdd(_, _) =>
    case LeaveRequest =>
  }

  /** No run of the domain ever lists a node twice. */
  lemma {:induction false} NeverTwice(complete: seq<int>, h: map<int, History>, us: int, events: seq<Event>)
    ensures Distinct(Run(Initial(complete, h), us, events).victims)
    decreases |events|
  {
    if events != [] {
      var n := |events| - 1;
      NeverTwice(complete, h, us, events[..n]);
      var d := Run(Initial(complete, h), us, events[..n]);
      if !d.freed && !Step(d, us, events[n]).freed {
        StepVictims(d, us, events[n]);
      } else if !d.freed {
        FreedKeepsVictims(d, us, events[n]);
      }
    }
  }

  lemma FreedKeepsVictims(d: Domain, us: int, e: Event)
    requires !d.freed && Step(d, us, e).freed
    ensures Step(d, us, e).victims == d.victims
  {
    if e.Confchg? {
      assert d.leavingGroup && WeLeft(e.cfg.left, us);
    }
  }

  /** A victim that has gone was released by one of the events in between. */
  lemma {:induction false} GoneOnlyIfReleased(d: Domain, us: int, events: seq<Event>, n: int) returns (k: nat)
    requires Distinct(d.victims) && IsVictim(d.victims, n)
    requires !Run(d, us, events).freed && !IsVictim(Run(d, us, events).victims, n)
    ensures k < |events|
    ensures Distinct(Run(d, us, events).victims)
    ensures IsVictim(Run(d, us, events[..k]).victims, n)
    ensures Released(Run(d, us, events[..k]), us, events[k], n)
    decreases |events|
  {
    k := |events| - 1;
    var d1 := Run(d, us, events[..k]);
    DistinctAlong(d, us, events);
    DistinctAlong(d, us, events[..k]);
    if IsVictim(d1.victims, n) {
      StepVictims(d1, us, events[k]);
    } else {
      var j := GoneOnlyIfReleased(d, us, events[..k], n);
      assert events[..k][..j] == events[..j] && events[..k][j] == events[j];
      k := j;
    }
  }

  lemma {:induction false} DistinctAlong(d: Domain, us: int, events: seq<Event>)
    requires Distinct(d.victims) && !Run(d, us, events).freed
    ensures Distinct(Run(d, us, events).victims)
    ensures events != [] ==> !Run(d, us, events[..|events| - 1]).freed
    decreases |events|
  {
    if events != [] {
      var n := |events| - 1;
      DistinctAlong(d, us, events[..n]);
      StepVictims(Run(d, us, events[..n]), us, events[n]);
    }
  }
}
