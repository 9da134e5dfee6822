/**
  Who becomes master of a change (fence/fenced/cpg.c:739-761, 950-1015, 1065-1139): the start
  messages that were accepted for it decide, by the flag each of them carries.
 */
module FenceMaster {
  import opened Basics
  import opened FenceDomain
  import opened FenceMerge
  import opened FenceGate
  import opened FenceVictims
  import opened FenceRejoin

  // ---------- which start messages were accepted

  /** The sender is added although both sides have started before: a merge. */
  predicate Merging(d: Domain, m: StartMsg)
  {
    IsAdded(d.changes, m.from) && m.startedCount != 0 && d.startedCount != 0
  }

  predicate Accepts(d: Domain, us: int, m: StartMsg)
  {
    FindChange(d, m, us, |d.changes|) >= 0 && !Merging(d, m)
  }

  /** The change, by its sequence number, for which the message is accepted, and its sender. */
  function Key(d: Domain, us: int, m: StartMsg): (nat, int)
    requires Accepts(d, us, m)
  {
    (d.changes[FindChange(d, m, us, |d.changes|)].seqno, m.from)
  }

  function TakeFlag(d: Domain, us: int, e: Event, f: map<(nat, int), bool>): map<(nat, int), bool>
  {
    if !d.freed && e.Start? && Accepts(d, us, e.msg) then f[Key(d, us, e.msg) := e.msg.complete] else f
  }

  /** For every change and sender whose start was accepted in the run, the complete flag of that message. */
  function Flags(d: Domain, us: int, events: seq<Event>): map<(nat, int), bool>
    decreases |events|
  {
    if events == [] then map[]
    else
      var before, e := events[..|events| - 1], events[|events| - 1];
      TakeFlag(Run(d, us, before), us, e, Flags(d, us, before))
  }

  // ---------- the invariant

  /** The members of a change are started as the accepted messages say, and complete as they say. */
  ghost predicate Reflects(cg: Change, f: map<(nat, int), bool>)
  {
    && (forall i :: 0 <= i < |cg.members| && cg.members[i].start ==>
          && i == FindMemb(cg.members, cg.members[i].nodeid)
          && (cg.seqno, cg.members[i].nodeid) in f
          && cg.members[i].complete == f[(cg.seqno, cg.members[i].nodeid)])
    && (forall n :: (cg.seqno, n) in f ==>
          FindMemb(cg.members, n) >= 0 && cg.members[FindMemb(cg.members, n)].start)
  }

  predicate Numbered(changes: seq<Change>, last: nat)
  {
    && (forall c :: 0 <= c < |changes| ==> changes[c].seqno <= last)
    && forall c, e :: 0 <= c < e < |changes| ==> changes[e].seqno < changes[c].seqno
  }

  ghost predicate Tally(d: Domain, f: map<(nat, int), bool>)
  {
    && Numbered(d.changes, d.changeSeq)
    && (forall k :: k in f ==> k.0 <= d.changeSeq)
    && forall c :: 0 <= c < |d.changes| ==> Reflects(d.changes[c], f)
  }

  lemma SameTally(d: Domain, r: Domain, f: map<(nat, int), bool>)
    requires Tally(d, f) && r.changes == d.changes && r.changeSeq == d.changeSeq
    ensures Tally(r, f)
  {
  }

  /** A member that has not started is rewritten: its flag is recorded with its start, or it stays unstarted. */
  lemma UpdateReflects(cg: Change, i: nat, m: Member, f: map<(nat, int), bool>)
    requires Reflects(cg, f) && i < |cg.members| && i == FindMemb(cg.members, m.nodeid)
    requires m.nodeid == cg.members[i].nodeid && !cg.members[i].start
    ensures var cg1 := cg.(members := cg.members[i := m]);
            Reflects(cg1, if m.start then f[(cg.seqno, m.nodeid) := m.complete] else f)
  {
    var cg1 := cg.(members := cg.members[i := m]);
    forall id ensures FindMemb(cg1.members, id) == FindMemb(cg.members, id) {
      FindMembUpdate(cg.members, i, m, id);
    }
    assert (cg.seqno, m.nodeid) !in f;
  }

  /** Recording a start for another change says nothing about this one. */
  lemma OtherReflects(cg: Change, f: map<(nat, int), bool>, key: (nat, int), flag: bool)
    requires Reflects(cg, f) && key.0 != cg.seqno
    ensures Reflects(cg, f[key := flag])
  {
  }

  /** Exactly what a start message does to the pending changes. */
  lemma StartWrites(d: Domain, us: int, m: StartMsg, now: nat)
    ensures var r, c := ReceiveStart(d, us, m, now), FindChange(d, m, us, |d.changes|);
            && r.changeSeq == d.changeSeq
            && (c < 0 ==> r.changes == d.changes)
            && (c >= 0 ==>
                  var cg := d.changes[c];
                  var i := FindMemb(cg.members, m.from);
                  && !cg.members[i].start && cg.members[i].nodeid == m.from
                  && var m1 := cg.members[i].(complete := m.complete, start := !Merging(d, m),
                                              disallowed := Merging(d, m) || cg.members[i].disallowed);
                  r.changes == d.changes[c := cg.(members := cg.members[i := m1])])
  {
    hide SaveHistory, IsAdded;
  }

  lemma UpdateTally(d: Domain, r: Domain, c: nat, i: nat, m: Member, f: map<(nat, int), bool>)
    requires Tally(d, f) && r.changeSeq == d.changeSeq && c < |d.changes| && i < |d.changes[c].members|
    requires i == FindMemb(d.changes[c].members, m.nodeid) && !d.changes[c].members[i].start
    requires m.nodeid == d.changes[c].members[i].nodeid
    requires r.changes == d.changes[c := d.changes[c].(members := d.changes[c].members[i := m])]
    ensures Tally(r, if m.start then f[(d.changes[c].seqno, m.nodeid) := m.complete] else f)
  {
    hide Reflects, FindMemb;
    var cg := d.changes[c];
    var f1 := if m.start then f[(cg.seqno, m.nodeid) := m.complete] else f;
    UpdateReflects(cg, i, m, f);
    forall k | 0 <= k < |r.changes| ensures Reflects(r.changes[k], f1) {
      if k != c && m.start { OtherReflects(d.changes[k], f, (cg.seqno, m.nodeid), m.complete); }
    }
  }

  lemma StartTally(d: Domain, us: int, m: StartMsg, now: nat, f: map<(nat, int), bool>)
    requires Tally(d, f)
    ensures Tally(ReceiveStart(d, us, m, now), if Accepts(d, us, m) then f[Key(d, us, m) := m.complete] else f)
  {
    hide ReceiveStart, Tally, Merging, MatchChange;
    StartWrites(d, us, m, now);
    var r, c := ReceiveStart(d, us, m, now), FindChange(d, m, us, |d.changes|);
    if c >= 0 {
      var i := FindMemb(d.changes[c].members, m.from);
      UpdateTally(d, r, c, i, r.changes[c].members[i], f);
    } else {
      SameTally(d, r, f);
    }
  }

  lemma AddTally(d: Domain, us: int, cfg: Config, now: nat, f: map<(nat, int), bool>)
    requires Tally(d, f)
    ensures Tally(AddChange(d, us, cfg, now).1, f)
  {
    hide Reflects, Join;
    var (ok, r) := AddChange(d, us, cfg, now);
    if ok {
      NewMembers(d, us, cfg, now, 0);
      NewReflects(r.changes[0], f);
      forall c | 0 <= c < |r.changes| ensures Reflects(r.changes[c], f) {
        if c > 0 { assert r.changes[c] == d.changes[c - 1]; }
      }
      forall c, e | 0 <= c < e < |r.changes| ensures r.changes[e].seqno < r.changes[c].seqno {
        assert r.changes[e] == d.changes[e - 1];
        if c > 0 { assert r.changes[c] == d.changes[c - 1]; }
      }
    }
  }

  lemma NewReflects(cg: Change, f: map<(nat, int), bool>)
    requires (forall i :: 0 <= i < |cg.members| ==> !cg.members[i].start) && forall k :: k in f ==> k.0 < cg.seqno
    ensures Reflects(cg, f)
  {
  }

  /** apply_changes leaves the list alone, moves the newest change to waiting for messages, or clears it. */
  lemma ApplyWrites(d: Domain, us: int, env: Env)
    ensures var r := Apply(d, us, env);
            && r.changeSeq == d.changeSeq
            && (r.changes == d.changes || r.changes == [] ||
                (d.changes != [] && r.changes == d.changes[0 := d.changes[0].(state := WaitMessages)]))
  {
    hide ClearChecks, NoChecks, Lead, AllStarted, Master;
  }

  lemma ApplyTally(d: Domain, us: int, env: Env, f: map<(nat, int), bool>)
    requires Tally(d, f)
    ensures Tally(Apply(d, us, env), f)
  {
    hide Reflects, Apply;
    ApplyWrites(d, us, env);
    if d.changes != [] { SameMembers(d.changes[0], d.changes[0].(state := WaitMessages), f); }
  }

  lemma SameMembers(a: Change, b: Change, f: map<(nat, int), bool>)
    requires Reflects(a, f) && a.seqno == b.seqno && a.members == b.members
    ensures Reflects(b, f)
  {
  }

  lemma StepTally(d: Domain, us: int, e: Event, f: map<(nat, int), bool>)
    requires Tally(d, f)
    ensures Tally(Step(d, us, e), TakeFlag(d, us, e, f))
  {
    hide Apply, AddChange, ReceiveStart, Tally, Accepts, Key;
    if !d.freed {
      match e
      case Confchg(cfg, now, present, env) =>
        AddTally(d, us, cfg, now, f);
        var (ok, d1) := AddChange(d, us, cfg, now);
        if d.leavingGroup && WeLeft(cfg.left, us) {
          SameTally(d, Step(d, us, e), f);
        } else if ok {
          SameTally(d1, TakeVictims(d1, present), f);
          ApplyTally(TakeVictims(d1, present), us, env, f);
        }
      case Start(m, now, env) =>
        StartTally(d, us, m, now, f);
        ApplyTally(ReceiveStart(d, us, m, now), us, env, TakeFlag(d, us, e, f));
      case VictimDone(from, id, env) =>
        SameTally(d, ReceiveVictimDone(d, us, from, id), f);
        ApplyTally(ReceiveVictimDone(d, us, from, id), us, env, f);
      case Complete(from, ids, env) =>
        SameTally(d, ReceiveComplete(d, us, ids), f);
        ApplyTally(ReceiveComplete(d, us, ids), us, env, f);
      case External(from, victim, now, env) =>
        SameTally(d, ReceiveExternal(d, from, victim, now), f);
        ApplyTally(ReceiveExternal(d, from, victim, now), us, env, f);
      case Tick(env) => ApplyTally(d, us, env, f);
      case ClusterAdd(_, _) => SameTally(d, Step(d, us, e), f);
      case LeaveRequest => SameTally(d, Step(d, us, e), f);
    }
  }

  /**
    In every run: a member of a pending change is started if and only if a start message of it was
    accepted for that change, and a started one is complete if and only if that message carried the flag.
   */
  lemma {:induction false} FlagsDecide(complete: seq<int>, h: map<int, History>, us: int, events: seq<Event>)
    ensures Tally(Run(Initial(complete, h), us, events), Flags(Initial(complete, h), us, events))
    decreases |events|
  {
    if events != [] {
      var before := events[..|events| - 1];
      FlagsDecide(complete, h, us, before);
      hide Tally, TakeFlag, Step;
      StepTally(Run(Initial(complete, h), us, before), us, events[|events| - 1], Flags(Initial(complete, h), us, before));
    }
  }

  // ---------- the master

  /** n is the lowest of the ids that satisfy the flags, or the lowest of all when none does. */
  predicate LowestFlagged(n: int, ids: seq<int>, seqno: nat, f: map<(nat, int), bool>)
  {
    && n in ids
    && (forall i :: 0 <= i < |ids| ==> (seqno, ids[i]) in f)
    && if exists i :: 0 <= i < |ids| && f[(seqno, ids[i])]
       then f[(seqno, n)] && forall i :: 0 <= i < |ids| && f[(seqno, ids[i])] ==> n <= ids[i]
       else forall i :: 0 <= i < |ids| ==> n <= ids[i]
  }

  lemma StartedFlags(cg: Change, f: map<(nat, int), bool>, i: nat)
    requires Reflects(cg, f) && AllStarted(cg) && i < |cg.members|
    ensures (cg.seqno, cg.members[i].nodeid) in f && f[(cg.seqno, cg.members[i].nodeid)] == cg.members[i].complete
  {
    assert cg.members[i].start;
  }

  lemma MasterFlagged(cg: Change, f: map<(nat, int), bool>)
    requires Reflects(cg, f) && AllStarted(cg) && cg.members != []
    requires forall i :: 0 <= i < |cg.members| ==> cg.members[i].nodeid != 0
    ensures LowestFlagged(Master(cg.members), MemberIds(cg.members), cg.seqno, f)
  {
    hide Master, Reflects, AllStarted;
    var ms, ids, n := cg.members, MemberIds(cg.members), Master(cg.members);
    MasterIsLowest(ms);
    forall i | 0 <= i < |ms| ensures (cg.seqno, ids[i]) in f && f[(cg.seqno, ids[i])] == ms[i].complete {
      StartedFlags(cg, f, i);
    }
    var k :| 0 <= k < |ms| && ms[k].nodeid == n && (ms[k].complete || forall j :: 0 <= j < |ms| ==> !ms[j].complete);
    assert ids[k] == n;
  }

  lemma ApplyMaster(d: Domain, us: int, env: Env)
    requires Completes(d)
    ensures Apply(d, us, env).master == Master(d.changes[0].members)
  {
    hide Lead, Master, AllStarted;
  }

  lemma EndMaster(d: Domain, us: int, e: Event)
    requires Ends(d, us, e)
    ensures Step(d, us, e).master == Master(Received(d, us, e).changes[0].members)
  {
    hide Apply, Master, Completes, ReceiveStart, ReceiveVictimDone, ReceiveComplete, ReceiveExternal;
    ApplyMaster(Received(d, us, e), us, e.env);
  }

  /** An event that ends a change leaves the flags of all starts, its own included, as the tally has them. */
  lemma ReceivedTally(d: Domain, us: int, e: Event, f: map<(nat, int), bool>)
    requires Ends(d, us, e) && Tally(d, f)
    ensures Tally(Received(d, us, e), TakeFlag(d, us, e, f))
  {
    hide Tally, ReceiveStart, Accepts, Key, Completes;
    match e
    case Start(m, now, _) => StartTally(d, us, m, now, f);
    case _ => SameTally(d, Received(d, us, e), f);
  }

  /**
    In every run, the master set when a change ends is the lowest member whose accepted start
    carried the complete flag, or the lowest member when none did.
   */
  lemma MasterByMessages(complete: seq<int>, h: map<int, History>, us: int, events: seq<Event>, e: Event)
    requires Ends(Run(Initial(complete, h), us, events), us, e)
    requires var cg := Received(Run(Initial(complete, h), us, events), us, e).changes[0];
             cg.members != [] && forall i :: 0 <= i < |cg.members| ==> cg.members[i].nodeid != 0
    ensures var d := Run(Initial(complete, h), us, events);
            var cg := Received(d, us, e).changes[0];
            var f := TakeFlag(d, us, e, Flags(Initial(complete, h), us, events));
            LowestFlagged(Step(d, us, e).master, MemberIds(cg.members), cg.seqno, f)
  {
    hide LowestFlagged, Step, Received, TakeFlag, Flags, Run, Initial, Master, Reflects;
    var d := Run(Initial(complete, h), us, events);
    var f := Flags(Initial(complete, h), us, events);
    FlagsDecide(complete, h, us, events);
    ReceivedTally(d, us, e, f);
    EndMaster(d, us, e);
    MasterFlagged(Received(d, us, e).changes[0], TakeFlag(d, us, e, f));
  }

  // ---------- a start message and the change it was sent for

  /** The content of the start message a daemon sends for its newest change (send_info). */
  predicate IsStartOf(d: Domain, us: int, m: StartMsg)
    requires d.changes != []
  {
    var cg := d.changes[0];
    && m.from == us && m.complete == (d.initComplete || d.localInitComplete) && m.startedCount == d.startedCount
    && m.memberCount == |cg.members| && m.joinedCount == cg.joinedCount
    && m.removeCount == cg.removeCount && m.failedCount == cg.failedCount
    && (forall k :: 0 <= k < |m.ids| ==> m.ids[k].nodeid in d.history && (m.ids[k].isMember <==> HasMember(cg, m.ids[k].nodeid)))
    && forall n :: n in d.history ==> exists k :: 0 <= k < |m.ids| && m.ids[k].nodeid == n
  }

  predicate SameCounts(a: Change, b: Change)
  {
    |a.members| == |b.members| && a.joinedCount == b.joinedCount && a.removeCount == b.removeCount && a.failedCount == b.failedCount
  }

  lemma {:induction false} ShownExactly(ids: seq<IdInfo>, cg: Change, n: int)
    requires forall k :: 0 <= k < |ids| ==> (ids[k].isMember <==> HasMember(cg, ids[k].nodeid))
    ensures ShownAsMember(ids, n) <==> HasMember(cg, n) && exists k :: 0 <= k < |ids| && ids[k].nodeid == n
  {
    hide HasMember;
    if ids != [] && ids[0].nodeid != n {
      ShownExactly(ids[1..], cg, n);
      if k :| 0 <= k < |ids| && ids[k].nodeid == n { assert ids[1..][k - 1].nodeid == n; }
    }
  }

  /**
    A start message sent by s matches a change of r exactly when the two changes have the same
    counts, r's contains every member s knows of, r itself is one of those, and the sender is an
    unstarted member of r's change that joined the cluster before it was created.
   */
  lemma StartMatchesExactly(s: Domain, sender: int, m: StartMsg, r: Domain, cg: Change, us: int)
    requires s.changes != [] && IsStartOf(s, sender, m)
    ensures MatchChange(r, cg, m, us) <==>
            && SameCounts(s.changes[0], cg)
            && (forall n :: n in s.history && HasMember(s.changes[0], n) ==> HasMember(cg, n))
            && us in s.history && HasMember(s.changes[0], us)
            && Unstarted(cg, sender)
            && sender in r.history && r.history[sender].clusterAddTime <= cg.createTime
  {
    hide FindMemb;
    ShownExactly(m.ids, s.changes[0], us);
    if us in s.history {
      var k :| 0 <= k < |m.ids| && m.ids[k].nodeid == us;
    }
    if forall k :: 0 <= k < |m.ids| && m.ids[k].isMember ==> HasMember(cg, m.ids[k].nodeid) {
      forall n | n in s.history && HasMember(s.changes[0], n) ensures HasMember(cg, n) {
        var k :| 0 <= k < |m.ids| && m.ids[k].nodeid == n;
        assert m.ids[k].isMember;
      }
    }
  }
}
