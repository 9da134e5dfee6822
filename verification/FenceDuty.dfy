/**
  What a fence daemon must do (fence/fenced/cpg.c:649-737, 1218-1258; fence/fenced/recover.c:283-417):
  when it sends its start, when a change ends, and that its master then deals with every victim.
 */
module FenceDuty {
  import opened Basics
  import opened FenceDomain
  import opened FenceMerge
  import opened FenceGate
  import opened FenceVictims
  import opened FenceRejoin

  predicate IsMessage(e: Event)
  {
    e.Start? || e.VictimDone? || e.Complete? || e.External? || e.Tick?
  }

  // ---------- when a start is sent and when a change ends

  /** Every node of the history that failed, in cpg's eyes, has gone in cman's eyes too. */
  predicate Caught(h: map<int, History>, clusterMembers: set<int>)
  {
    forall n :: n in h && h[n].checkQuorum ==> n !in clusterMembers
  }

  lemma CaughtExactly(h: map<int, History>, clusterMembers: set<int>)
    ensures NoChecks(ClearChecks(h, clusterMembers)) <==> Caught(h, clusterMembers)
  {
    var r := ClearChecks(h, clusterMembers);
    forall n | n in h ensures r[n].checkQuorum <==> h[n].checkQuorum && n in clusterMembers {}
  }

  /** The newest change waits for conditions: the start goes out exactly when they hold. */
  lemma ApplyStarts(d: Domain, us: int, env: Env)
    requires d.changes != [] && d.changes[0].state == WaitConditions
    ensures var r := Apply(d, us, env);
            && (env.quorate && Caught(d.history, env.clusterMembers) ==>
                  && r.log == d.log + [SentStart(d.changes[0].seqno, true, d.startedCount)]
                  && r.changes == d.changes[0 := d.changes[0].(state := WaitMessages)])
            && (!(env.quorate && Caught(d.history, env.clusterMembers)) ==> r.log == d.log && r.changes == d.changes)
  {
    CaughtExactly(d.history, env.clusterMembers);
  }

  lemma StartsExactly(d: Domain, us: int, e: Event)
    requires !d.freed && IsMessage(e)
    requires var r := Received(d, us, e); r.changes != [] && r.changes[0].state == WaitConditions
    ensures var r, t, cg := Received(d, us, e), Step(d, us, e), Received(d, us, e).changes[0];
            && (e.env.quorate && Caught(r.history, e.env.clusterMembers) ==>
                  && t.log == r.log + [SentStart(cg.seqno, true, r.startedCount)]
                  && t.changes == r.changes[0 := cg.(state := WaitMessages)])
            && (!(e.env.quorate && Caught(r.history, e.env.clusterMembers)) ==> t.log == r.log && t.changes == r.changes)
  {
    hide Apply, Caught, ReceiveStart, ReceiveVictimDone, ReceiveComplete, ReceiveExternal;
    ApplyStarts(Received(d, us, e), us, e.env);
  }

  /** The same for the change a configuration has just made: its start may go out with the event that brings it. */
  lemma ConfchgStarts(d: Domain, us: int, cfg: Config, now: nat, present: set<int>, env: Env)
    requires !d.freed && !(d.leavingGroup && WeLeft(cfg.left, us)) && AddChange(d, us, cfg, now).0
    ensures var r, t := AddChange(d, us, cfg, now).1, Step(d, us, Confchg(cfg, now, present, env));
            && (env.quorate && Caught(r.history, env.clusterMembers) ==>
                  && t.log == r.log + [SentStart(r.changes[0].seqno, true, r.startedCount)]
                  && t.changes == r.changes[0 := r.changes[0].(state := WaitMessages)])
            && (!(env.quorate && Caught(r.history, env.clusterMembers)) ==> t.log == r.log && t.changes == r.changes)
  {
    hide Apply, Caught, AddChange, AddVictims, AddInitVictims;
    ApplyStarts(TakeVictims(AddChange(d, us, cfg, now).1, present), us, env);
  }

  /** What the end of a change leaves: nothing pending, and the count moved on past zero. */
  predicate Ended(r: Domain, t: Domain)
    requires r.changes != []
  {
    && t.changes == [] && !t.joiningGroup
    && t.startedCount == (if r.startedCount == TWO_32 - 1 then 1 else r.startedCount + 1)
    && t.startedChange.Some? && t.startedChange.value.seqno == r.changes[0].seqno
    && t.master == Master(r.changes[0].members)
  }

  lemma ApplyEnds(d: Domain, us: int, env: Env)
    requires d.changes != [] && d.changes[0].state == WaitMessages && d.startedCount < TWO_32
    ensures var r := Apply(d, us, env);
            if forall i :: 0 <= i < |d.changes[0].members| ==> d.changes[0].members[i].start then Ended(d, r) else r == d
  {
    hide Lead, Master;
  }

  /** The newest change waits for messages: it ends exactly when every one of its members has started. */
  lemma EndsExactly(d: Domain, us: int, e: Event)
    requires !d.freed && IsMessage(e) && d.startedCount < TWO_32
    requires var r := Received(d, us, e); r.changes != [] && r.changes[0].state == WaitMessages
    ensures var r, t := Received(d, us, e), Step(d, us, e);
            if forall i :: 0 <= i < |r.changes[0].members| ==> r.changes[0].members[i].start then Ended(r, t) else t == r
  {
    hide Apply, Ended, ReceiveStart, ReceiveVictimDone, ReceiveComplete, ReceiveExternal;
    ApplyEnds(Received(d, us, e), us, e.env);
  }

  // ---------- what fencing reports

  /** The times that decide about external fencing and about matching a start are the same. */
  predicate SameTimes(h: map<int, History>, r: map<int, History>)
  {
    h.Keys == r.Keys && forall n :: n in h ==>
      r[n].addTime == h[n].addTime && r[n].externalTime == h[n].externalTime && r[n].clusterAddTime == h[n].clusterAddTime
  }

  lemma {:induction false} ReduceTimes(d: Domain, us: int, poll: Poll, now: nat, i: nat)
    ensures SameTimes(d.history, ReduceFrom(d, us, poll, now, i).history)
    decreases |d.victims| - i
  {
    if i < |d.victims| {
      var id := d.victims[i].nodeid;
      if id in poll.members && id in poll.clean {
        ReduceTimes(Done(d, us, id, ByMember, now).(victims := d.victims[..i] + d.victims[i + 1..]), us, poll, now, i);
      } else {
        ReduceTimes(d, us, poll, now, i + 1);
      }
    }
  }

  /** Polling keeps exactly the victims that no poll spares, as they are. */
  lemma {:induction false} DelayLeaves(d: Domain, us: int, polls: seq<Poll>, now: nat)
    requires Distinct(d.victims)
    ensures var r := Delay(d, us, polls, now);
            && SameTimes(d.history, r.history) && Distinct(r.victims)
            && forall v :: v in r.victims <==> v in d.victims && !SparedBySome(polls, v.nodeid)
    decreases |polls|
  {
    if polls != [] && d.victims != [] {
      hide ReduceFrom;
      ReducePass(d, us, polls[0], now);
      ReduceTimes(d, us, polls[0], now, 0);
      UnsparedExactly(d.victims, polls[0]);
      DelayLeaves(ReduceFrom(d, us, polls[0], now, 0), us, polls[1..], now);
      forall v: Victim ensures SparedBySome(polls, v.nodeid) <==> Spared(polls[0], v.nodeid) || SparedBySome(polls[1..], v.nodeid) {
        SparedCons(polls, v.nodeid);
      }
    }
  }

  /** How a victim is dealt with: by what happened outside, by its return, by the agent, or by hand. */
  predicate HowIs(how: How, h: History, a: Attempt)
  {
    && (how == ByExternal <==> h.externalTime > h.addTime)
    && (how == ByMember <==> h.externalTime <= h.addTime && a.clusterMember && a.clean)
    && (how == ByAgent <==> h.externalTime <= h.addTime && !(a.clusterMember && a.clean) && a.agentOk)
  }

  predicate Due(v: Victim, h: map<int, History>)
  {
    !v.localVictimDone && v.nodeid in h
  }

  function Report(v: Victim, h: map<int, History>, env: Env, seqno: nat): Note
  {
    SentVictimDone(seqno, v.nodeid, Outcome(h, v.nodeid, LastAttempt(env, v.nodeid)))
  }

  function Reports(vs: seq<Victim>, h: map<int, History>, env: Env, seqno: nat): seq<Note>
  {
    if vs == [] then []
    else (if Due(vs[0], h) then [Report(vs[0], h, env, seqno)] else []) + Reports(vs[1..], h, env, seqno)
  }

  lemma {:induction false} ReportsSame(vs: seq<Victim>, h: map<int, History>, r: map<int, History>, env: Env, seqno: nat)
    requires SameTimes(h, r)
    ensures Reports(vs, h, env, seqno) == Reports(vs, r, env, seqno)
  {
    if vs != [] { ReportsSame(vs[1..], h, r, env, seqno); }
  }

  lemma {:induction false} FenceReports(d: Domain, us: int, env: Env, i: nat)
    requires i <= |d.victims|
    ensures FenceFrom(d, us, env, i).log == d.log + Reports(d.victims[i..], d.history, env, NewestSeq(d))
    decreases |d.victims| - i
  {
    if i < |d.victims| {
      var v := d.victims[i];
      ReportsFrom(d.victims, i, d.history, env, NewestSeq(d));
      hide Reports, Report;
      if v.localVictimDone {
        FenceReports(d, us, env, i + 1);
      } else {
        var d2 := FenceOne(d, us, env, i);
        FenceOneReports(d, us, env, i);
        FenceReports(d2, us, env, i + 1);
        assert d2.victims[i + 1..] == d.victims[i + 1..];
        ReportsSame(d.victims[i + 1..], d.history, d2.history, env, NewestSeq(d));
      }
    } else {
      assert d.victims[i..] == [];
    }
  }

  lemma ReportsFrom(vs: seq<Victim>, i: nat, h: map<int, History>, env: Env, seqno: nat)
    requires i < |vs|
    ensures Reports(vs[i..], h, env, seqno)
            == (if Due(vs[i], h) then [Report(vs[i], h, env, seqno)] else []) + Reports(vs[i + 1..], h, env, seqno)
  {
    assert vs[i..][0] == vs[i] && vs[i..][1..] == vs[i + 1..];
  }

  /** One victim that is not done: the state in which fence_victims goes on to the next. */
  function FenceOne(d: Domain, us: int, env: Env, i: nat): Domain
    requires i < |d.victims|
  {
    var v := d.victims[i];
    Done(d.(currentVictim := v.nodeid, victims := d.victims[i := v.(localVictimDone := true)]),
         us, v.nodeid, Outcome(d.history, v.nodeid, LastAttempt(env, v.nodeid)), env.now)
  }

  lemma FenceOneReports(d: Domain, us: int, env: Env, i: nat)
    requires i < |d.victims| && !d.victims[i].localVictimDone
    ensures var v, r := d.victims[i], FenceOne(d, us, env, i);
            && FenceFrom(d, us, env, i) == FenceFrom(r, us, env, i + 1)
            && r.victims == d.victims[i := v.(localVictimDone := true)]
            && NewestSeq(r) == NewestSeq(d) && SameTimes(d.history, r.history)
            && r.log == d.log + if Due(v, d.history) then [Report(v, d.history, env, NewestSeq(d))] else []
  {
    hide Outcome;
  }

  // ---------- one report each

  /** The note reports the victim under the change, dealt with as its history and last attempt say. */
  predicate Tells(note: Note, v: Victim, h: map<int, History>, env: Env, seqno: nat)
  {
    && note.SentVictimDone? && note.seqno == seqno && note.victim == v.nodeid
    && v.nodeid in h && HowIs(note.how, h[v.nodeid], LastAttempt(env, v.nodeid))
  }

  lemma ReportTells(v: Victim, h: map<int, History>, env: Env, seqno: nat)
    requires Due(v, h)
    ensures Tells(Report(v, h, env, seqno), v, h, env, seqno)
  {
  }

  lemma TellsOne(note: Note, v: Victim, w: Victim, h: map<int, History>, env: Env, seqno: nat)
    requires Tells(note, v, h, env, seqno) && Tells(note, w, h, env, seqno)
    ensures v.nodeid == w.nodeid
  {
  }

  ghost predicate Covers(notes: seq<Note>, vs: iset<Victim>, h: map<int, History>, env: Env, seqno: nat)
  {
    forall v :: v in vs ==> exists k :: 0 <= k < |notes| && Tells(notes[k], v, h, env, seqno)
  }

  ghost predicate TellsSome(note: Note, vs: iset<Victim>, h: map<int, History>, env: Env, seqno: nat)
  {
    exists v :: v in vs && Tells(note, v, h, env, seqno)
  }

  ghost predicate Sourced(notes: seq<Note>, vs: iset<Victim>, h: map<int, History>, env: Env, seqno: nat)
  {
    forall k :: 0 <= k < |notes| ==> TellsSome(notes[k], vs, h, env, seqno)
  }

  ghost predicate Once(notes: seq<Note>, h: map<int, History>, env: Env, seqno: nat)
  {
    forall j, k, v :: 0 <= j < k < |notes| && Tells(notes[j], v, h, env, seqno) ==> !Tells(notes[k], v, h, env, seqno)
  }

  /** The notes are reports, one for each of the victims. */
  ghost predicate OneEach(notes: seq<Note>, vs: iset<Victim>, h: map<int, History>, env: Env, seqno: nat)
  {
    Covers(notes, vs, h, env, seqno) && Sourced(notes, vs, h, env, seqno) && Once(notes, h, env, seqno)
  }

  ghost function DueOf(vs: seq<Victim>, h: map<int, History>): iset<Victim>
  {
    iset v | v in vs && Due(v, h)
  }

  lemma {:induction false} ReportsOneEach(vs: seq<Victim>, h: map<int, History>, env: Env, seqno: nat)
    requires Distinct(vs)
    ensures OneEach(Reports(vs, h, env, seqno), DueOf(vs, h), h, env, seqno)
  {
    if vs != [] {
      var v, rest := vs[0], vs[1..];
      assert vs == [v] + rest;
      assert Distinct(rest) && forall w :: w in rest ==> w.nodeid != v.nodeid;
      ReportsOneEach(rest, h, env, seqno);
      hide OneEach, Report;
      if Due(v, h) {
        assert DueOf(vs, h) == DueOf(rest, h) + iset{v};
        ReportTells(v, h, env, seqno);
        Prepend(Report(v, h, env, seqno), v, Reports(rest, h, env, seqno), DueOf(rest, h), h, env, seqno);
      } else {
        assert DueOf(vs, h) == DueOf(rest, h);
        assert Reports(vs, h, env, seqno) == Reports(rest, h, env, seqno);
      }
    }
  }

  lemma CoversMore(note: Note, v: Victim, notes: seq<Note>, vs: iset<Victim>, h: map<int, History>, env: Env, seqno: nat)
    requires Covers(notes, vs, h, env, seqno) && Tells(note, v, h, env, seqno)
    ensures Covers([note] + notes, vs + iset{v}, h, env, seqno)
  {
    hide Tells;
    var all := [note] + notes;
    forall w | w in vs + iset{v} ensures exists k :: 0 <= k < |all| && Tells(all[k], w, h, env, seqno) {
      if w == v {
        assert Tells(all[0], w, h, env, seqno);
      } else {
        var k :| 0 <= k < |notes| && Tells(notes[k], w, h, env, seqno);
        assert all[k + 1] == notes[k];
      }
    }
  }

  lemma SourcedMore(note: Note, v: Victim, notes: seq<Note>, vs: iset<Victim>, h: map<int, History>, env: Env, seqno: nat)
    requires Sourced(notes, vs, h, env, seqno) && Tells(note, v, h, env, seqno)
    ensures Sourced([note] + notes, vs + iset{v}, h, env, seqno)
  {
    hide Tells;
    var all := [note] + notes;
    forall k | 0 <= k < |all| ensures TellsSome(all[k], vs + iset{v}, h, env, seqno) {
      if k > 0 {
        assert all[k] == notes[k - 1] && TellsSome(notes[k - 1], vs, h, env, seqno);
        var w :| w in vs && Tells(notes[k - 1], w, h, env, seqno);
        assert w in vs + iset{v};
      } else {
        assert v in vs + iset{v};
      }
    }
  }

  lemma OnceMore(note: Note, v: Victim, notes: seq<Note>, vs: iset<Victim>, h: map<int, History>, env: Env, seqno: nat)
    requires Once(notes, h, env, seqno) && Sourced(notes, vs, h, env, seqno) && Tells(note, v, h, env, seqno)
    requires forall w :: w in vs ==> w.nodeid != v.nodeid
    ensures Once([note] + notes, h, env, seqno)
  {
    hide Tells;
    var all := [note] + notes;
    forall j, k, w | 0 <= j < k < |all| && Tells(all[j], w, h, env, seqno) ensures !Tells(all[k], w, h, env, seqno) {
      assert all[k] == notes[k - 1];
      if j > 0 {
        assert all[j] == notes[j - 1];
      } else {
        assert TellsSome(notes[k - 1], vs, h, env, seqno);
        var x :| x in vs && Tells(notes[k - 1], x, h, env, seqno);
        TellsOne(note, v, w, h, env, seqno);
        if Tells(all[k], w, h, env, seqno) { TellsOne(all[k], w, x, h, env, seqno); }
      }
    }
  }

  lemma Prepend(note: Note, v: Victim, notes: seq<Note>, vs: iset<Victim>, h: map<int, History>, env: Env, seqno: nat)
    requires OneEach(notes, vs, h, env, seqno) && Tells(note, v, h, env, seqno)
    requires forall w :: w in vs ==> w.nodeid != v.nodeid
    ensures OneEach([note] + notes, vs + iset{v}, h, env, seqno)
  {
    hide Tells, Covers, Sourced, Once;
    CoversMore(note, v, notes, vs, h, env, seqno);
    SourcedMore(note, v, notes, vs, h, env, seqno);
    OnceMore(note, v, notes, vs, h, env, seqno);
  }

  // ---------- the duty of the master

  /** The victims the master owes: those no poll spared, that are not done yet and have a history. */
  ghost function Owed(r: Domain, env: Env): iset<Victim>
  {
    iset v | v in r.victims && Due(v, r.history) && !SparedBySome(env.polls, v.nodeid)
  }

  /** Between positions f and c the log enters fencing, deals with every owed victim once, and ends. */
  ghost predicate DealtWith(log: seq<Note>, f: nat, c: nat, r: Domain, env: Env, seqno: nat)
  {
    && f < c < |log| && log[f] == Fencing(seqno) && log[c] == SentComplete(seqno)
    && OneEach(log[f + 1..c], Owed(r, env), r.history, env, seqno)
  }

  lemma SameTells(note: Note, v: Victim, h: map<int, History>, r: map<int, History>, env: Env, seqno: nat)
    requires SameTimes(h, r)
    ensures Tells(note, v, h, env, seqno) <==> Tells(note, v, r, env, seqno)
  {
  }

  lemma SameOneEach(notes: seq<Note>, vs: iset<Victim>, h: map<int, History>, r: map<int, History>, env: Env, seqno: nat)
    requires OneEach(notes, vs, h, env, seqno) && SameTimes(h, r)
    ensures OneEach(notes, vs, r, env, seqno)
  {
    hide Tells, SameTimes;
    assert Covers(notes, vs, r, env, seqno) by {
      forall v | v in vs ensures exists k :: 0 <= k < |notes| && Tells(notes[k], v, r, env, seqno) {
        var k :| 0 <= k < |notes| && Tells(notes[k], v, h, env, seqno);
        SameTells(notes[k], v, h, r, env, seqno);
      }
    }
    assert Sourced(notes, vs, r, env, seqno) by {
      forall k | 0 <= k < |notes| ensures TellsSome(notes[k], vs, r, env, seqno) {
        assert TellsSome(notes[k], vs, h, env, seqno);
        var v :| v in vs && Tells(notes[k], v, h, env, seqno);
        SameTells(notes[k], v, h, r, env, seqno);
      }
    }
    assert Once(notes, r, env, seqno) by {
      forall j, k, v: Victim | 0 <= j < k < |notes| && Tells(notes[j], v, r, env, seqno)
        ensures !Tells(notes[k], v, r, env, seqno)
      {
        SameTells(notes[j], v, h, r, env, seqno);
        SameTells(notes[k], v, h, r, env, seqno);
      }
    }
  }

  /** The master's part of the end of a change. */
  lemma LeadDeals(d: Domain, us: int, env: Env) returns (f: nat, c: nat)
    requires Distinct(d.victims)
    ensures var t := Lead(d, us, env);
            && d.log <= t.log && |d.log| <= f && c == |t.log| - 1
            && DealtWith(t.log, f, c, d, env, NewestSeq(d))
            && forall v :: v in t.victims ==> v.localVictimDone
  {
    hide Delay, FenceFrom, OneEach, Reports;
    var s := NewestSeq(d);
    DelayLeaves(d, us, env.polls, env.now);
    DelayNotes(d, us, 0, env);
    assert env.polls[0..] == env.polls;
    var d1 := Delay(d, us, env.polls, env.now);
    var d2 := d1.(log := d1.log + [Fencing(s)]);
    FenceReports(d2, us, env, 0);
    FenceKeeps(d2, us, env, 0);
    assert d2.victims[0..] == d1.victims && NewestSeq(d2) == s;
    var notes := Reports(d1.victims, d1.history, env, s);
    ReportsOneEach(d1.victims, d1.history, env, s);
    SameOneEach(notes, DueOf(d1.victims, d1.history), d1.history, d.history, env, s);
    assert DueOf(d1.victims, d1.history) == Owed(d, env);
    var t := Lead(d, us, env);
    f, c := |d1.log|, |t.log| - 1;
    assert t.log == d1.log + [Fencing(s)] + notes + [SentComplete(s)];
    assert t.log[f + 1..c] == notes;
  }

  /**
    An event that ends a change with us as the master: fencing is entered and left under that
    change, and in between every victim that no poll spared, that was not done and has a history is
    reported once, dealt with as its history and its last attempt say; whoever is still listed is done.
   */
  lemma LeadFences(d: Domain, us: int, e: Event) returns (f: nat, c: nat)
    requires Asks(d, us, e) && Distinct(Received(d, us, e).victims)
    ensures var r, t := Received(d, us, e), Step(d, us, e);
            && |r.log| <= f && c == |t.log| - 1
            && DealtWith(t.log, f, c, r, e.env, r.changes[0].seqno)
            && forall v :: v in t.victims ==> v.localVictimDone
  {
    hide Lead, DealtWith, ReceiveStart, ReceiveVictimDone, ReceiveComplete, ReceiveExternal;
    var r := Received(d, us, e);
    var cg := r.changes[0];
    var d1 := r.(master := Master(cg.members), changes := r.changes[0 := cg.(state := WaitFencing)]);
    f, c := LeadDeals(d1, us, e.env);
    SameDealt(Lead(d1, us, e.env).log, f, c, d1, r, e.env, cg.seqno);
  }

  lemma SameDealt(log: seq<Note>, f: nat, c: nat, d: Domain, r: Domain, env: Env, seqno: nat)
    requires DealtWith(log, f, c, d, env, seqno) && r.victims == d.victims && r.history == d.history
    ensures DealtWith(log, f, c, r, env, seqno)
  {
    hide OneEach;
    assert Owed(r, env) == Owed(d, env);
  }

  lemma LongerDealt(l: seq<Note>, log: seq<Note>, f: nat, c: nat, r: Domain, env: Env, seqno: nat)
    requires DealtWith(l, f, c, r, env, seqno) && l <= log
    ensures DealtWith(log, f, c, r, env, seqno)
  {
    hide OneEach;
    assert log[f + 1..c] == l[f + 1..c];
  }

  lemma {:induction false} LogGrows(d: Domain, us: int, events: seq<Event>, k: nat)
    requires k <= |events|
    ensures Run(d, us, events[..k]).log <= Run(d, us, events).log
    decreases |events|
  {
    if k < |events| {
      var before := events[..|events| - 1];
      assert before[..k] == events[..k];
      LogGrows(d, us, before, k);
      StepNotes(Run(d, us, before), us, events[|events| - 1]);
    } else {
      assert events[..k] == events;
    }
  }

  /** In every run, every end of a change that we lead has dealt with all its victims, and the log keeps saying so. */
  lemma EveryLeadFences(complete: seq<int>, h: map<int, History>, us: int, events: seq<Event>, k: nat) returns (f: nat, c: nat)
    requires k < |events| && Asks(Run(Initial(complete, h), us, events[..k]), us, events[k])
    ensures var d := Run(Initial(complete, h), us, events[..k]);
            var r := Received(d, us, events[k]);
            && |d.log| <= f
            && DealtWith(Run(Initial(complete, h), us, events).log, f, c, r, events[k].env, r.changes[0].seqno)
            && forall v :: v in Run(Initial(complete, h), us, events[..k + 1]).victims ==> v.localVictimDone
  {
    hide DealtWith, Step, Run, Distinct, Received, Leads;
    var d0 := Initial(complete, h);
    var d, e := Run(d0, us, events[..k]), events[k];
    NeverTwice(complete, h, us, events[..k]);
    ReceivedDistinct(d, us, e);
    ReceivedSilent(d, us, e);
    f, c := LeadFences(d, us, e);
    RunNext(d0, us, events, k);
    LogGrows(d0, us, events, k + 1);
    LongerDealt(Step(d, us, e).log, Run(d0, us, events).log, f, c, Received(d, us, e), e.env, Received(d, us, e).changes[0].seqno);
  }

  lemma RunNext(d: Domain, us: int, events: seq<Event>, k: nat)
    requires k < |events|
    ensures Run(d, us, events[..k + 1]) == Step(Run(d, us, events[..k]), us, events[k])
  {
    assert events[..k + 1][..k] == events[..k];
  }

  lemma ReceivedDistinct(d: Domain, us: int, e: Event)
    requires Distinct(d.victims)
    ensures Distinct(Received(d, us, e).victims)
  {
    hide ReceiveStart, FenceHistory;
    if e.VictimDone? { RemoveFirstExactly(d.victims, e.id.nodeid); }
  }
}
