/**
  Merge safety (fence/fenced/cpg.c:937-1015): when a partitioned group merges,
  a daemon that has started before and sees a started peer as added never
  completes a change until a configuration without that peer arrives.
 */
module FenceMerge {
  import opened FenceDomain

  // ---------- framing facts about members

  /** Rewriting a member without renaming it moves no lookup. */
  lemma FindMembUpdate(ms: seq<Member>, i: nat, m: Member, id: int)
    requires i < |ms| && m.nodeid == ms[i].nodeid
    ensures FindMemb(ms[i := m], id) == FindMemb(ms, id)
  {
    var a, b := FindMemb(ms, id), FindMemb(ms[i := m], id);
    if a >= 0 {
      assert ms[i := m][a].nodeid == id;
    }
    if b >= 0 {
      assert ms[b].nodeid == id;
    }
  }

  predicate SameIds(a: seq<Member>, b: seq<Member>)
  {
    |a| == |b| && forall i :: 0 <= i < |a| ==> a[i].nodeid == b[i].nodeid && a[i].start == b[i].start
  }

  lemma {:induction false} JoinKeepsIds(ms: seq<Member>, h: map<int, History>, joined: seq<int>, us: int)
    ensures Join(ms, h, joined, us).Joined? ==> SameIds(ms, Join(ms, h, joined, us).members)
    decreases |joined|
  {
    if joined != [] {
      var i := FindMemb(ms, joined[0]);
      if i >= 0 {
        JoinKeepsIds(ms[i := ms[i].(added := true)],
                     if joined[0] == us then h else InitHistory(h, joined[0]), joined[1..], us);
      }
    }
  }

  /** A successful join marks every joined node as added. */
  lemma {:induction false} JoinMarks(ms: seq<Member>, h: map<int, History>, joined: seq<int>, us: int, id: int)
    requires Join(ms, h, joined, us).Joined?
    requires id in joined || (FindMemb(ms, id) >= 0 && ms[FindMemb(ms, id)].added)
    ensures var r := Join(ms, h, joined, us).members; FindMemb(r, id) >= 0 && r[FindMemb(r, id)].added
    decreases |joined|
  {
    if joined != [] {
      var i := FindMemb(ms, joined[0]);
      var ms1 := ms[i := ms[i].(added := true)];
      FindMembUpdate(ms, i, ms[i].(added := true), id);
      assert joined == [joined[0]] + joined[1..];
      JoinMarks(ms1, if joined[0] == us then h else InitHistory(h, joined[0]), joined[1..], us, id);
    }
  }

  lemma {:induction false} KicksOnly(left: seq<Left>)
    ensures forall k :: 0 <= k < |Kicks(left)| ==> Kicks(left)[k].Kicked?
  {
    if left != [] { KicksOnly(left[..|left| - 1]); }
  }

  // ---------- the invariant

  predicate Unstarted(cg: Change, p: int)
  {
    var i := FindMemb(cg.members, p);
    i >= 0 && !cg.members[i].start
  }

  /** Change c added the peer and it has started neither that change nor any newer one. */
  predicate Blocked(d: Domain, p: int, c: nat)
  {
    && c < |d.changes|
    && d.startedCount != 0
    && AddedIn(d.changes[c], p)
    && forall j :: 0 <= j <= c ==> Unstarted(d.changes[j], p)
  }

  /** Nothing completed and no fencing began between the two states; starts sent carry the same count. */
  ghost predicate NoCompletion(d: Domain, r: Domain)
  {
    && r.startedCount == d.startedCount
    && r.startedChange == d.startedChange
    && d.log <= r.log
    && forall k :: |d.log| <= k < |r.log| ==>
         && !r.log[k].Fencing? && !r.log[k].SentComplete?
         && (r.log[k].SentStart? ==> r.log[k].startedCount == d.startedCount)
  }

  /** What the merge argument assumes of an event: the peer stays configured and has started before. */
  predicate PeerStays(e: Event, p: int)
  {
    match e
    case Confchg(cfg, _, _, _) => p in cfg.members
    case Start(m, _, _) => m.from == p ==> m.startedCount != 0
    case _ => true
  }

  lemma ApplyBlocked(d: Domain, us: int, env: Env, p: int, c: nat)
    requires Blocked(d, p, c)
    ensures Blocked(Apply(d, us, env), p, c) && NoCompletion(d, Apply(d, us, env))
    ensures !Completes(d)
  {
    hide Finish, ClearChecks, NoChecks, FindMemb;
    assert Unstarted(d.changes[0], p);
  }

  /** An update of one member that renames nobody and starts only nodes other than p keeps the peer blocked. */
  lemma UpdateBlocked(d: Domain, p: int, c: nat, k: nat, i: nat, m: Member)
    requires Blocked(d, p, c) && k < |d.changes| && i < |d.changes[k].members|
    requires var old_ := d.changes[k].members[i];
             m.nodeid == old_.nodeid && m.added == old_.added && (m.start == old_.start || m.nodeid != p)
    ensures var cg := d.changes[k];
            Blocked(d.(changes := d.changes[k := cg.(members := cg.members[i := m])]), p, c)
  {
    var cg := d.changes[k];
    FindMembUpdate(cg.members, i, m, p);
    var r := d.changes[k := cg.(members := cg.members[i := m])];
    forall j | 0 <= j <= c
      ensures Unstarted(r[j], p)
    {
      assert Unstarted(d.changes[j], p);
    }
  }

  lemma BlockedAdds(d: Domain, p: int, c: nat)
    requires Blocked(d, p, c)
    ensures IsAdded(d.changes, p) && d.startedCount != 0
  {
  }

  lemma BlockedSame(d: Domain, r: Domain, p: int, c: nat)
    requires Blocked(d, p, c) && r.changes == d.changes && r.startedCount == d.startedCount
    ensures Blocked(r, p, c)
  {
  }

  /** A start message rewrites one member, or nothing; it starts nobody who is added on both sides of a merge. */
  lemma StartShape(d: Domain, us: int, m: StartMsg, now: nat) returns (k: int, i: int, m1: Member)
    ensures k < 0 ==> ReceiveStart(d, us, m, now) == d
    ensures k >= 0 ==>
              && k < |d.changes| && 0 <= i < |d.changes[k].members|
              && var memb := d.changes[k].members[i];
                 && m1.nodeid == memb.nodeid == m.from && m1.added == memb.added
                 && (m1.start == memb.start || !(IsAdded(d.changes, m.from) && m.startedCount != 0 && d.startedCount != 0))
                 && ReceiveStart(d, us, m, now).changes
                    == d.changes[k := d.changes[k].(members := d.changes[k].members[i := m1])]
  {
    hide SaveHistory, IsAdded, MatchChange;
    k := FindChange(d, m, us, |d.changes|);
    if k >= 0 {
      i := FindMemb(d.changes[k].members, m.from);
      m1 := ReceiveStart(d, us, m, now).changes[k].members[i];
    } else {
      i, m1 := 0, Member(0, false, false, false, false, false);
    }
  }

  lemma StartQuiet(d: Domain, us: int, m: StartMsg, now: nat)
    ensures NoCompletion(d, ReceiveStart(d, us, m, now))
  {
    hide SaveHistory, IsAdded, MatchChange, FindMemb;
  }

  lemma StartBlocked(d: Domain, us: int, m: StartMsg, now: nat, p: int, c: nat)
    requires Blocked(d, p, c) && (m.from == p ==> m.startedCount != 0)
    ensures Blocked(ReceiveStart(d, us, m, now), p, c) && NoCompletion(d, ReceiveStart(d, us, m, now))
  {
    hide Blocked, ReceiveStart, IsAdded, NoCompletion;
    StartQuiet(d, us, m, now);
    BlockedAdds(d, p, c);
    var k, i, m1 := StartShape(d, us, m, now);
    var r := ReceiveStart(d, us, m, now);
    if k >= 0 {
      UpdateBlocked(d, p, c, k, i, m1);
      BlockedSame(d.(changes := r.changes), r, p, c);
    }
  }

  lemma AddChangeBlocked(d: Domain, us: int, cfg: Config, now: nat, p: int, c: nat)
    requires Blocked(d, p, c) && p in cfg.members
    ensures var (ok, r) := AddChange(d, us, cfg, now);
            Blocked(r, p, if ok then c + 1 else c) && NoCompletion(d, r)
  {
    var (ok, r) := AddChange(d, us, cfg, now);
    KicksOnly(cfg.left);
    if ok {
      NewMembers(d, us, cfg, now, p);
      forall j | 0 <= j <= c + 1
        ensures Unstarted(r.changes[j], p)
      {
        if j > 0 { assert r.changes[j] == d.changes[j - 1]; }
      }
      assert r.changes[c + 1] == d.changes[c];
    }
  }

  /** The members of a new change are those of the configuration, none started. */
  lemma NewMembers(d: Domain, us: int, cfg: Config, now: nat, p: int)
    requires AddChange(d, us, cfg, now).0
    ensures var ms := AddChange(d, us, cfg, now).1.changes[0].members;
            && MemberIds(ms) == cfg.members
            && (forall i :: 0 <= i < |ms| ==> !ms[i].start)
            && (p in cfg.members ==> FindMemb(ms, p) >= 0)
  {
    var h := FlagFailed(d.history, cfg.left);
    JoinKeepsIds(FreshMembers(cfg.members), h, cfg.joined, us);
    var ms := AddChange(d, us, cfg, now).1.changes[0].members;
    assert MemberIds(ms) == cfg.members;
    if p in cfg.members {
      var i :| 0 <= i < |cfg.members| && cfg.members[i] == p;
      assert ms[i].nodeid == p;
    }
  }

  lemma ConfchgBlocked(d: Domain, us: int, e: Event, p: int, c: nat) returns (c': nat)
    requires Blocked(d, p, c) && e.Confchg? && p in e.cfg.members
    ensures var r := DoConfchg(d, us, e.cfg, e.now, e.present, e.env); Blocked(r, p, c') && NoCompletion(d, r)
  {
    hide Apply, AddChange, Blocked;
    c' := c;
    if d.leavingGroup && WeLeft(e.cfg.left, us) {
      BlockedSame(d, d.(freed := true), p, c);
    } else {
      AddChangeBlocked(d, us, e.cfg, e.now, p, c);
      var (ok, d1) := AddChange(d, us, e.cfg, e.now);
      if ok {
        c' := c + 1;
        var d2 := TakeVictims(d1, e.present);
        BlockedSame(d1, d2, p, c');
        ApplyBlocked(d2, us, e.env, p, c');
      }
    }
  }

  lemma MessageBlocked(d: Domain, d1: Domain, us: int, env: Env, p: int, c: nat)
    requires Blocked(d, p, c) && Blocked(d1, p, c) && NoCompletion(d, d1)
    ensures Blocked(Apply(d1, us, env), p, c) && NoCompletion(d, Apply(d1, us, env))
  {
    ApplyBlocked(d1, us, env, p, c);
  }

  lemma StepBlocked(d: Domain, us: int, e: Event, p: int, c: nat) returns (c': nat)
    requires Blocked(d, p, c) && PeerStays(e, p)
    ensures Blocked(Step(d, us, e), p, c') && NoCompletion(d, Step(d, us, e))
  {
    hide Apply, AddChange, ReceiveStart, DoConfchg;
    c' := c;
    if !d.freed {
      match e
      case Confchg(cfg, now, present, env) => c' := ConfchgBlocked(d, us, e, p, c);
      case Start(m, now, env) =>
        StartBlocked(d, us, m, now, p, c);
        MessageBlocked(d, ReceiveStart(d, us, m, now), us, env, p, c);
      case VictimDone(from, id, env) => MessageBlocked(d, ReceiveVictimDone(d, us, from, id), us, env, p, c);
      case Complete(from, ids, env) => MessageBlocked(d, ReceiveComplete(d, us, ids), us, env, p, c);
      case External(from, victim, now, env) => MessageBlocked(d, ReceiveExternal(d, from, victim, now), us, env, p, c);
      case Tick(env) => MessageBlocked(d, d, us, env, p, c);
      case ClusterAdd(_, _) =>
      case LeaveRequest =>
    }
  }

  // ---------- theorems

  lemma NewChangeBlocks(d: Domain, us: int, cfg: Config, now: nat, p: int)
    requires d.startedCount != 0 && p in cfg.joined && p in cfg.members && AddChange(d, us, cfg, now).0
    ensures Blocked(AddChange(d, us, cfg, now).1, p, 0) && NoCompletion(d, AddChange(d, us, cfg, now).1)
  {
    hide InitMembers;
    NewMembers(d, us, cfg, now, p);
    JoinMarks(FreshMembers(cfg.members), FlagFailed(d.history, cfg.left), cfg.joined, us, p);
    KicksOnly(cfg.left);
  }

  /** The configuration that adds a started peer to a started daemon blocks it. */
  lemma MergeBegins(d: Domain, us: int, e: Event, p: int)
    requires !d.freed && d.startedCount != 0
    requires e.Confchg? && p in e.cfg.joined && p in e.cfg.members
    requires !(d.leavingGroup && WeLeft(e.cfg.left, us))
    requires AddChange(d, us, e.cfg, e.now).0
    ensures Blocked(Step(d, us, e), p, 0) && NoCompletion(d, Step(d, us, e))
  {
    hide AddChange, Apply, Blocked;
    NewChangeBlocks(d, us, e.cfg, e.now, p);
    var d1 := AddChange(d, us, e.cfg, e.now).1;
    var d2 := TakeVictims(d1, e.present);
    BlockedSame(d1, d2, p, 0);
    ApplyBlocked(d2, us, e.env, p, 0);
  }

  /** A join can fail only through a joined node that is not a member. */
  lemma {:induction false} JoinSucceeds(ms: seq<Member>, h: map<int, History>, joined: seq<int>, us: int)
    ensures Join(ms, h, joined, us).Joined? <==> forall n :: n in joined ==> FindMemb(ms, n) >= 0
    decreases |joined|
  {
    if joined != [] {
      var i := FindMemb(ms, joined[0]);
      assert joined == [joined[0]] + joined[1..];
      if i >= 0 {
        var ms1 := ms[i := ms[i].(added := true)];
        forall n ensures FindMemb(ms1, n) == FindMemb(ms, n) {
          FindMembUpdate(ms, i, ms[i].(added := true), n);
        }
        JoinSucceeds(ms1, if joined[0] == us then h else InitHistory(h, joined[0]), joined[1..], us);
        assert forall n :: n in joined <==> n == joined[0] || n in joined[1..];
      } else {
        assert joined[0] in joined;
      }
    }
  }

  /**
    Merge safety: from the moment a pending change shows a started peer as added,
    no interleaving of further configurations that keep the peer, and of messages,
    completes a change or enters fencing.
   */
  lemma {:induction false} MergeSafety(d: Domain, us: int, events: seq<Event>, p: int, c: nat) returns (c': nat)
    requires Blocked(d, p, c)
    requires forall k :: 0 <= k < |events| ==> PeerStays(events[k], p)
    ensures Blocked(Run(d, us, events), p, c') && NoCompletion(d, Run(d, us, events))
    decreases |events|
  {
    if events == [] {
      c' := c;
    } else {
      var n := |events| - 1;
      c' := MergeSafety(d, us, events[..n], p, c);
      c' := StepBlocked(Run(d, us, events[..n]), us, events[n], p, c');
    }
  }

  lemma ApplyStaysStarted(d: Domain, us: int, env: Env)
    requires d.startedCount != 0
    ensures Apply(d, us, env).startedCount != 0
  {
    if Completes(d) {
      assert Apply(d, us, env).startedCount == NextStarted(d.startedCount);
    }
  }

  lemma StepStaysStarted(d: Domain, us: int, e: Event)
    requires d.startedCount != 0
    ensures Step(d, us, e).startedCount != 0
  {
    hide Apply, AddChange, ReceiveStart, ReceiveVictimDone, ReceiveComplete, ReceiveExternal;
    match e
    case Confchg(cfg, now, present, env) =>
      var (ok, d1) := AddChange(d, us, cfg, now);
      if ok { ApplyStaysStarted(TakeVictims(d1, present), us, env); }
    case Start(m, now, env) => ApplyStaysStarted(ReceiveStart(d, us, m, now), us, env);
    case VictimDone(from, id, env) => ApplyStaysStarted(ReceiveVictimDone(d, us, from, id), us, env);
    case Complete(from, ids, env) => ApplyStaysStarted(ReceiveComplete(d, us, ids), us, env);
    case External(from, victim, now, env) => ApplyStaysStarted(ReceiveExternal(d, from, victim, now), us, env);
    case Tick(env) => ApplyStaysStarted(d, us, env);
    case ClusterAdd(_, _) =>
    case LeaveRequest =>
  }

  /** "Never started" cannot come back, not even when the 32-bit counter wraps. */
  lemma {:induction false} StaysStarted(d: Domain, us: int, events: seq<Event>)
    requires d.startedCount != 0
    ensures Run(d, us, events).startedCount != 0
    decreases |events|
  {
    if events != [] {
      StaysStarted(d, us, events[..|events| - 1]);
      StepStaysStarted(Run(d, us, events[..|events| - 1]), us, events[|events| - 1]);
    }
  }

  // ---------- both sides of a merge

  datatype Move = Move(toFirst: bool, event: Event)

  /** The message's count is that of a start the peer has sent since the merge. */
  predicate Carried(m: StartMsg, peer: Domain, mark: nat)
  {
    exists k :: mark <= k < |peer.log| && peer.log[k].SentStart? && peer.log[k].startedCount == m.startedCount
  }

  /** Configurations keep the peer, and starts from the peer are ones it sent. */
  predicate Fair(e: Event, peer: Domain, p: int, mark: nat)
  {
    match e
    case Confchg(cfg, _, _, _) => p in cfg.members
    case Start(m, _, _) => m.from == p ==> Carried(m, peer, mark)
    case _ => true
  }

  function Play(a: Domain, b: Domain, ida: int, idb: int, moves: seq<Move>): (Domain, Domain)
    decreases |moves|
  {
    if moves == [] then (a, b)
    else if moves[0].toFirst then Play(Step(a, ida, moves[0].event), b, ida, idb, moves[1..])
    else Play(a, Step(b, idb, moves[0].event), ida, idb, moves[1..])
  }

  predicate FairPlay(a: Domain, b: Domain, ida: int, idb: int, marka: nat, markb: nat, moves: seq<Move>)
    decreases |moves|
  {
    moves != [] ==>
      if moves[0].toFirst then
        && Fair(moves[0].event, b, idb, markb)
        && FairPlay(Step(a, ida, moves[0].event), b, ida, idb, marka, markb, moves[1..])
      else
        && Fair(moves[0].event, a, ida, marka)
        && FairPlay(a, Step(b, idb, moves[0].event), ida, idb, marka, markb, moves[1..])
  }

  /** Every start sent since the mark carries a nonzero count. */
  predicate StartedSince(d: Domain, mark: nat)
  {
    d.startedCount != 0 &&
    forall k :: mark <= k < |d.log| && d.log[k].SentStart? ==> d.log[k].startedCount != 0
  }

  /**
    Two started daemons that each see the other as added stay stuck together:
    whatever else is delivered to either of them, neither completes a change as
    long as the configurations keep them both.
   */
  lemma {:induction false} MergeDeadlock(a: Domain, b: Domain, ida: int, idb: int, ca: nat, cb: nat,
                                         marka: nat, markb: nat, moves: seq<Move>)
    requires Blocked(a, idb, ca) && Blocked(b, ida, cb)
    requires StartedSince(a, marka) && StartedSince(b, markb)
    requires FairPlay(a, b, ida, idb, marka, markb, moves)
    ensures var (a', b') := Play(a, b, ida, idb, moves); NoCompletion(a, a') && NoCompletion(b, b')
    decreases |moves|
  {
    if moves != [] {
      var e := moves[0].event;
      if moves[0].toFirst {
        var ca' := StepBlocked(a, ida, e, idb, ca);
        MergeDeadlock(Step(a, ida, e), b, ida, idb, ca', cb, marka, markb, moves[1..]);
      } else {
        var cb' := StepBlocked(b, idb, e, ida, cb);
        MergeDeadlock(a, Step(b, idb, e), ida, idb, ca, cb', marka, markb, moves[1..]);
      }
    }
  }
}
