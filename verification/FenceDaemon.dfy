/**
  The callbacks of fenced as they run: an object updated in place, with the loops
  of fence/fenced/cpg.c and fence/fenced/recover.c.  Every method is proved to do
  to the object what the corresponding function of FenceDomain does to its value,
  so the theorems about runs hold of the object.
 */
module FenceDaemon {
  import opened Basics
  import opened FenceDomain
  import F = FenceDomain

  // ---------- how the scans grow by one element

  lemma {:induction false} LowSnoc(acc: int, ids: seq<int>, x: int)
    ensures Low(acc, ids + [x]) == (var l := Low(acc, ids); if l == 0 || x < l then x else l)
    decreases |ids|
  {
    if ids != [] {
      assert (ids + [x])[1..] == ids[1..] + [x];
      LowSnoc(if acc == 0 || ids[0] < acc then ids[0] else acc, ids[1..], x);
    } else {
      assert ids + [x] == [x] && [x][1..] == [];
    }
  }

  lemma {:induction false} CompleteSnoc(ms: seq<Member>, m: Member)
    ensures CompleteIds(ms + [m]) == CompleteIds(ms) + (if m.complete then [m.nodeid] else [])
  {
    if ms != [] {
      assert (ms + [m])[1..] == ms[1..] + [m];
      CompleteSnoc(ms[1..], m);
    }
  }

  class Daemon {
    const us: int
    var freed: bool
    var changeSeq: nat
    var startedCount: nat
    var startedChange: Option<Change>
    var changes: seq<Change>
    var history: map<int, History>
    var initComplete: bool
    var localInitComplete: bool
    var master: int
    var joiningGroup: bool
    var leavingGroup: bool
    var currentVictim: int
    var victims: seq<Victim>
    var complete: seq<int>
    var log: seq<Note>

    ghost function View(): Domain
      reads this
    {
      Domain(freed, changeSeq, startedCount, startedChange, changes, history, initComplete, localInitComplete,
             master, joiningGroup, leavingGroup, currentVictim, victims, complete, log)
    }

    constructor (us: int, complete: seq<int>, history: map<int, History>)
      ensures View() == Initial(complete, history) && this.us == us
    {
      this.us := us;
      this.complete, this.history := complete, history;
      freed, changeSeq, startedCount, startedChange, changes := false, 0, 0, None, [];
      initComplete, localInitComplete, master, joiningGroup, leavingGroup := false, false, 0, true, false;
      currentVictim, victims, log := 0, [], [];
    }

    // ---------- searches

    static method FindMemb(ms: seq<Member>, id: int) returns (i: int)
      ensures i == F.FindMemb(ms, id)
    {
      i := 0;
      while i < |ms|
        invariant 0 <= i <= |ms|
        invariant forall j :: 0 <= j < i ==> ms[j].nodeid != id
      {
        if ms[i].nodeid == id { return; }
        i := i + 1;
      }
      i := -1;
    }

    method IsVictim(id: int) returns (found: bool)
      ensures found == F.IsVictim(victims, id)
    {
      var i := 0;
      while i < |victims|
        invariant 0 <= i <= |victims|
        invariant forall j :: 0 <= j < i ==> victims[j].nodeid != id
      {
        if victims[i].nodeid == id { return true; }
        i := i + 1;
      }
      return false;
    }

    method IsAdded(id: int) returns (added: bool)
      ensures added == F.IsAdded(changes, id)
    {
      var c := 0;
      while c < |changes|
        invariant 0 <= c <= |changes|
        invariant forall j :: 0 <= j < c ==> !AddedIn(changes[j], id)
      {
        var i := FindMemb(changes[c].members, id);
        if i >= 0 && changes[c].members[i].added { return true; }
        c := c + 1;
      }
      return false;
    }

    static method ShownAsMember(ids: seq<IdInfo>, id: int) returns (shown: bool)
      ensures shown == F.ShownAsMember(ids, id)
    {
      var k := 0;
      while k < |ids|
        invariant 0 <= k <= |ids|
        invariant F.ShownAsMember(ids, id) == F.ShownAsMember(ids[k..], id)
      {
        if ids[k].nodeid == id { return ids[k].isMember; }
        k := k + 1;
      }
      return false;
    }

    method MatchChange(cg: Change, m: StartMsg) returns (matches: bool)
      ensures matches == F.MatchChange(View(), cg, m, us)
    {
      var shown := ShownAsMember(m.ids, us);
      if !shown { return false; }
      var i := FindMemb(cg.members, m.from);
      if i < 0 || cg.members[i].start { return false; }
      if m.from !in history || history[m.from].clusterAddTime > cg.createTime { return false; }
      if m.memberCount != |cg.members| || m.joinedCount != cg.joinedCount ||
         m.removeCount != cg.removeCount || m.failedCount != cg.failedCount { return false; }
      var k := 0;
      while k < |m.ids|
        invariant 0 <= k <= |m.ids|
        invariant forall j :: 0 <= j < k && m.ids[j].isMember ==> HasMember(cg, m.ids[j].nodeid)
      {
        if m.ids[k].isMember {
          var j := FindMemb(cg.members, m.ids[k].nodeid);
          if j < 0 {
            assert !HasMember(cg, m.ids[k].nodeid);
            return false;
          }
        }
        k := k + 1;
      }
      return true;
    }

    method FindChange(m: StartMsg) returns (c: int)
      ensures c == F.FindChange(View(), m, us, |changes|)
    {
      c := |changes|;
      while c > 0
        invariant 0 <= c <= |changes|
        invariant F.FindChange(View(), m, us, |changes|) == F.FindChange(View(), m, us, c)
      {
        var matches := MatchChange(changes[c - 1], m);
        if matches { return c - 1; }
        c := c - 1;
      }
      return -1;
    }

    // ---------- messages

    method SaveHistory(ids: seq<IdInfo>)
      modifies this`history
      ensures history == F.SaveHistory(old(history), ids)
    {
      var k := 0;
      while k < |ids|
        invariant 0 <= k <= |ids|
        invariant F.SaveHistory(history, ids[k..]) == F.SaveHistory(old(history), ids)
      {
        assert ids[k..][1..] == ids[k + 1..];
        history := SaveId(history, ids[k]);
        k := k + 1;
      }
    }

    method ReceiveStart(m: StartMsg, now: nat)
      modifies this
      ensures View() == F.ReceiveStart(old(View()), us, m, now)
    {
      hide F.MatchChange, F.SaveHistory, F.IsAdded;
      var c := FindChange(m);
      if c < 0 { return; }
      var cg := changes[c];
      var i := FindMemb(cg.members, m.from);
      var memb := cg.members[i].(complete := m.complete);
      var added := IsAdded(m.from);
      if added && m.startedCount != 0 && startedCount != 0 {
        changes := changes[c := cg.(members := cg.members[i := memb.(disallowed := true)])];
        return;
      }
      history := history[m.from := history[m.from].(addTime := now)];
      changes := changes[c := cg.(members := cg.members[i := memb.(start := true)])];
      log := log + [Accepted(cg.seqno, m.from)];
      SaveHistory(m.ids);
    }

    method ReceiveVictimDone(from: int, id: IdInfo)
      modifies this
      ensures View() == F.ReceiveVictimDone(old(View()), us, from, id)
    {
      var i := 0;
      while i < |victims| && victims[i].nodeid != id.nodeid
        invariant 0 <= i <= |victims|
        invariant forall j :: 0 <= j < i ==> victims[j].nodeid != id.nodeid
      {
        i := i + 1;
      }
      if i == |victims| { return; }
      RemoveAt(victims, id.nodeid, i);
      if from != us {
        history := FenceHistory(history, id.nodeid, id.fenceMaster, id.fenceHow, id.fenceTime);
      }
      victims := victims[..i] + victims[i + 1..];
    }

    lemma {:induction false} RemoveAt(vs: seq<Victim>, id: int, i: nat)
      requires i < |vs| && vs[i].nodeid == id && forall j :: 0 <= j < i ==> vs[j].nodeid != id
      ensures RemoveFirst(vs, id) == vs[..i] + vs[i + 1..]
    {
      if i > 0 {
        RemoveAt(vs[1..], id, i - 1);
      }
    }

    method ReceiveComplete(ids: seq<IdInfo>)
      modifies this
      ensures View() == F.ReceiveComplete(old(View()), us, ids)
    {
      if initComplete { return; }
      var shown := ShownAsMember(ids, us);
      if !shown { return; }
      initComplete := true;
      while victims != []
        modifies this`victims
      {
        victims := victims[1..];
      }
    }

    method ReceiveExternal(from: int, victim: int, now: nat)
      modifies this
      ensures View() == F.ReceiveExternal(old(View()), from, victim, now)
    {
      if victim in history {
        history := history[victim := history[victim].(externalTime := now, externalNode := from)];
      }
    }

    // ---------- fencing

    method Done(victim: int, how: How, now: nat)
      modifies this
      ensures View() == F.Done(old(View()), us, victim, how, now)
    {
      if victim !in history { return; }
      history := history[victim := history[victim].(fenceMaster := us, fenceTime := now, fenceHow := Some(how))];
      log := log + [SentVictimDone(if changes == [] then 0 else changes[0].seqno, victim, how)];
    }

    method ReduceVictims(poll: Poll, now: nat) returns (count: nat)
      modifies this
      ensures View() == ReduceFrom(old(View()), us, poll, now, 0)
      ensures count == |victims|
    {
      count := |victims|;
      var i := 0;
      while i < |victims|
        invariant 0 <= i <= |victims|
        invariant count == |victims|
        invariant ReduceFrom(View(), us, poll, now, i) == ReduceFrom(old(View()), us, poll, now, 0)
        decreases |victims| - i
      {
        var id := victims[i].nodeid;
        if id in poll.members && id in poll.clean {
          Done(id, ByMember, now);
          victims := victims[..i] + victims[i + 1..];
          count := count - 1;
        } else {
          i := i + 1;
        }
      }
    }

    method DelayFencing(polls: seq<Poll>, now: nat)
      modifies this
      ensures View() == Delay(old(View()), us, polls, now)
    {
      if victims == [] { return; }
      var k := 0;
      while k < |polls| && victims != []
        invariant 0 <= k <= |polls|
        invariant Delay(View(), us, polls[k..], now) == Delay(old(View()), us, polls, now)
      {
        assert polls[k..][1..] == polls[k + 1..];
        var count := ReduceVictims(polls[k], now);
        k := k + 1;
      }
    }

    method FenceVictims(env: Env)
      modifies this
      ensures View() == FenceFrom(old(View()), us, env, 0)
    {
      var i := 0;
      while i < |victims|
        invariant 0 <= i <= |victims|
        invariant FenceFrom(View(), us, env, i) == FenceFrom(old(View()), us, env, 0)
        decreases |victims| - i
      {
        if !victims[i].localVictimDone {
          var id := victims[i].nodeid;
          currentVictim := id;
          var a := LastAttempt(env, id);
          var ext := id in history && history[id].externalTime > history[id].addTime;
          victims := victims[i := victims[i].(localVictimDone := true)];
          if (a.clusterMember && a.clean) || ext {
            Done(id, if ext then ByExternal else ByMember, env.now);
          } else if a.agentOk {
            Done(id, ByAgent, env.now);
          } else {
            Done(id, ByOverride, env.now);
          }
        }
        i := i + 1;
      }
      currentVictim := 0;
    }

    // ---------- progress of the newest change

    static method ClearSeen(h0: map<int, History>, clusterMembers: set<int>)
      returns (h: map<int, History>, waitCount: nat)
      ensures h == ClearChecks(h0, clusterMembers)
      ensures waitCount == 0 <==> NoChecks(h)
    {
      h, waitCount := h0, 0;
      var todo := h.Keys;
      while exists n :: n in todo
        invariant todo <= h.Keys && h.Keys == h0.Keys
        invariant forall n :: n in todo ==> h[n] == h0[n]
        invariant forall n :: n in h && n !in todo ==> h[n] == ClearChecks(h0, clusterMembers)[n]
        invariant waitCount == 0 ==> forall n :: n in h && n !in todo ==> !h[n].checkQuorum
        invariant waitCount > 0 ==> exists n :: n in h && n !in todo && h[n].checkQuorum
        decreases todo
      {
        var n :| n in todo;
        todo := todo - {n};
        if h[n].checkQuorum {
          if n !in clusterMembers {
            h := h[n := h[n].(checkQuorum := false)];
          } else {
            waitCount := waitCount + 1;
          }
        }
      }
      assert forall n :: n in h ==> h[n] == ClearChecks(h0, clusterMembers)[n];
    }

    method CheckQuorumDone(clusterMembers: set<int>, quorate: bool) returns (done: bool)
      modifies this`history
      ensures history == ClearChecks(old(history), clusterMembers)
      ensures done == (NoChecks(history) && quorate)
    {
      var waitCount;
      history, waitCount := ClearSeen(history, clusterMembers);
      done := waitCount == 0 && quorate;
    }

    method WaitMessagesDone() returns (done: bool)
      requires changes != []
      ensures done == AllStarted(changes[0])
    {
      var ms, need, i := changes[0].members, 0, 0;
      while i < |ms|
        invariant 0 <= i <= |ms| && need >= 0
        invariant need == 0 <==> forall j :: 0 <= j < i ==> ms[j].start
      {
        if !ms[i].start { need := need + 1; }
        i := i + 1;
      }
      done := need == 0;
    }

    method SetMaster()
      requires changes != []
      modifies this`master
      ensures master == Master(changes[0].members)
    {
      var ms, low, complete, i := changes[0].members, 0, 0, 0;
      while i < |ms|
        invariant 0 <= i <= |ms|
        invariant low == Low(0, MemberIds(ms[..i]))
        invariant complete == Low(0, CompleteIds(ms[..i]))
      {
        assert ms[..i + 1] == ms[..i] + [ms[i]];
        assert MemberIds(ms[..i + 1]) == MemberIds(ms[..i]) + [ms[i].nodeid];
        LowSnoc(0, MemberIds(ms[..i]), ms[i].nodeid);
        CompleteSnoc(ms[..i], ms[i]);
        LowSnoc(0, CompleteIds(ms[..i]), ms[i].nodeid);
        assert !ms[i].complete ==> CompleteIds(ms[..i]) + [] == CompleteIds(ms[..i]);
        if low == 0 || ms[i].nodeid < low { low := ms[i].nodeid; }
        if ms[i].complete && (complete == 0 || ms[i].nodeid < complete) { complete := ms[i].nodeid; }
        i := i + 1;
      }
      assert ms[..i] == ms;
      master := if complete != 0 then complete else low;
    }

    method CleanupChanges()
      requires changes != []
      modifies this
      ensures View() == Cleanup(old(View()))
    {
      startedChange := Some(changes[0]);
      changes := changes[1..];
      startedCount := (startedCount + 1) % TWO_32;
      if startedCount == 0 { startedCount := startedCount + 1; }
      while changes != []
        modifies this`changes
      {
        changes := changes[1..];
      }
    }

    method ApplyChanges(env: Env)
      modifies this
      ensures View() == Apply(old(View()), us, env)
    {
      if changes == [] { return; }
      var cg := changes[0];
      match cg.state
      case WaitConditions =>
        var done := CheckQuorumDone(env.clusterMembers, env.quorate);
        if done {
          log := log + [SentStart(cg.seqno, env.quorate, startedCount)];
          changes := changes[0 := cg.(state := WaitMessages)];
        }
      case WaitMessages =>
        var done := WaitMessagesDone();
        if done { FinishChange(env); }
      case WaitFencing =>
    }

    method EnterFencing()
      requires changes != []
      modifies this`master, this`changes
      ensures var d, cg := old(View()), old(changes)[0];
              View() == d.(master := Master(cg.members), changes := d.changes[0 := cg.(state := WaitFencing)])
    {
      SetMaster();
      changes := changes[0 := changes[0].(state := WaitFencing)];
    }

    method FinishChange(env: Env)
      requires Completes(View())
      modifies this
      ensures View() == Finish(old(View()), us, env)
    {
      EnterFencing();
      if master == us {
        LeadFencing(env);
        Conclude();
      } else {
        Conclude();
      }
    }

    method Conclude()
      requires changes != []
      modifies this
      ensures View() == Cleanup(old(View())).(joiningGroup := false)
    {
      CleanupChanges();
      joiningGroup := false;
    }

    method LeadFencing(env: Env)
      requires changes != []
      modifies this
      ensures View() == Lead(old(View()), us, env)
    {
      var s := changes[0].seqno;
      DelayFencing(env.polls, env.now);
      log := log + [Fencing(s)];
      FenceVictims(env);
      log := log + [SentComplete(s)];
      localInitComplete := true;
    }

    // ---------- configuration changes

    method NoteLeft(left: seq<Left>) returns (removed: seq<Member>, failed: int)
      modifies this`history, this`log
      ensures removed == Removed(left) && failed == CountFailed(left)
      ensures history == FlagFailed(old(history), left) && log == old(log) + Kicks(left)
    {
      hide FlagFailed;
      removed, failed := [], 0;
      NoneFailed(history);
      var i := 0;
      while i < |left|
        invariant 0 <= i <= |left|
        invariant removed == Removed(left[..i]) && failed == CountFailed(left[..i])
        invariant history == FlagFailed(old(history), left[..i]) && log == old(log) + Kicks(left[..i])
      {
        var l := left[i];
        var isFailed := l.reason == NodeDown || l.reason == ProcDown;
        ghost var before := history;
        if isFailed {
          failed := failed + 1;
          if l.nodeid in history { history := history[l.nodeid := history[l.nodeid].(checkQuorum := true)]; }
        }
        removed := removed + [Member(l.nodeid, false, false, isFailed, false, false)];
        if l.reason == ProcDown { log := log + [Kicked(l.nodeid)]; }
        FlagSnoc(old(history), left, i);
        assert left[..i + 1][..i] == left[..i];
        i := i + 1;
      }
      assert left[..i] == left;
    }

    lemma NoneFailed(h: map<int, History>)
      ensures FlagFailed(h, []) == h
    {
    }

    lemma FlagSnoc(h: map<int, History>, left: seq<Left>, i: nat)
      requires i < |left|
      ensures FlagFailed(h, left[..i + 1])
              == (var r, l := FlagFailed(h, left[..i]), left[i];
                  if l.reason != Leave && l.nodeid in r then r[l.nodeid := r[l.nodeid].(checkQuorum := true)] else r)
    {
      forall n ensures FailedIn(left[..i + 1], n) <==> FailedIn(left[..i], n) || (left[i].nodeid == n && left[i].reason != Leave)
      {
        if FailedIn(left[..i], n) {
          var k :| 0 <= k < i && left[..i][k].nodeid == n && left[..i][k].reason != Leave;
          assert left[..i + 1][k] == left[..i][k];
        }
        if left[i].nodeid == n && left[i].reason != Leave {
          assert left[..i + 1][i].nodeid == n;
        }
        if FailedIn(left[..i + 1], n) {
          var k :| 0 <= k < i + 1 && left[..i + 1][k].nodeid == n && left[..i + 1][k].reason != Leave;
          if k < i { assert left[..i][k] == left[..i + 1][k]; }
        }
      }
    }

    method MarkJoined(blank: seq<Member>, joined: seq<int>) returns (ok: bool, ms: seq<Member>, weJoined: bool)
      modifies this`history
      ensures var r := Join(blank, old(history), joined, us);
              ok == r.Joined? && history == r.history && (ok ==> ms == r.members && weJoined == (us in joined))
    {
      ms, weJoined, ok := blank, false, true;
      var i := 0;
      while i < |joined|
        invariant 0 <= i <= |joined|
        invariant weJoined == (us in joined[..i])
        invariant Join(ms, history, joined[i..], us) == Join(blank, old(history), joined, us)
      {
        var k := FindMemb(ms, joined[i]);
        assert joined[i..][1..] == joined[i + 1..];
        if k < 0 { return false, ms, weJoined; }
        ms := ms[k := ms[k].(added := true)];
        if joined[i] == us {
          weJoined := true;
        } else {
          history := InitHistory(history, joined[i]);
        }
        assert joined[..i + 1] == joined[..i] + [joined[i]];
        i := i + 1;
      }
      assert joined[..i] == joined;
    }

    method InitAll(ms: seq<Member>)
      modifies this`history
      ensures history == InitMembers(old(history), ms)
    {
      var i := 0;
      while i < |ms|
        invariant 0 <= i <= |ms|
        invariant InitMembers(history, ms[i..]) == InitMembers(old(history), ms)
      {
        assert ms[i..][1..] == ms[i + 1..];
        history := InitHistory(history, ms[i].nodeid);
        i := i + 1;
      }
    }

    static method NewMembers(ids: seq<int>) returns (ms: seq<Member>)
      ensures ms == FreshMembers(ids)
    {
      ms := [];
      var i := 0;
      while i < |ids|
        invariant 0 <= i <= |ids|
        invariant ms == FreshMembers(ids[..i])
      {
        ms := ms + [Member(ids[i], false, false, false, false, false)];
        i := i + 1;
      }
      assert ids[..i] == ids;
    }

    method AddChange(cfg: Config, now: nat) returns (ok: bool)
      modifies this
      ensures (ok, View()) == F.AddChange(old(View()), us, cfg, now)
    {
      hide FlagFailed, InitMembers, Join, Kicks, CountFailed, Removed;
      changeSeq := changeSeq + 1;
      var blank := NewMembers(cfg.members);
      var removed, failed := NoteLeft(cfg.left);
      var ms, weJoined;
      ok, ms, weJoined := MarkJoined(blank, cfg.joined);
      if !ok { return; }
      if weJoined { InitAll(ms); }
      var cg := Change(changeSeq, WaitConditions, weJoined, now, |cfg.joined|, |cfg.left|, failed, ms, removed);
      changes := [cg] + changes;
      log := log + [Created(cg.seqno, cfg.members)];
    }

    method AddVictims(removed: seq<Member>)
      modifies this`victims
      ensures victims == F.AddVictims(old(victims), removed)
    {
      var i := 0;
      while i < |removed|
        invariant 0 <= i <= |removed|
        invariant F.AddVictims(victims, removed[i..]) == F.AddVictims(old(victims), removed)
      {
        assert removed[i..][1..] == removed[i + 1..];
        if removed[i].failed {
          var known := IsVictim(removed[i].nodeid);
          if !known { victims := [Victim(removed[i].nodeid, false, false)] + victims; }
        }
        i := i + 1;
      }
    }

    method AddVictimsInit(present: set<int>, ms: seq<Member>)
      modifies this`victims, this`complete
      ensures victims == AddInitVictims(old(victims), old(complete), present, ms) && complete == []
    {
      while complete != []
        invariant AddInitVictims(victims, complete, present, ms) == AddInitVictims(old(victims), old(complete), present, ms)
      {
        var id := complete[0];
        complete := complete[1..];
        var i := FindMemb(ms, id);
        var known := IsVictim(id);
        if id !in present && i < 0 && !known { victims := [Victim(id, true, false)] + victims; }
      }
    }

    method ConfchgCb(cfg: Config, now: nat, present: set<int>, env: Env)
      modifies this
      ensures View() == DoConfchg(old(View()), us, cfg, now, present, env)
    {
      hide F.AddChange, Apply, F.AddVictims, AddInitVictims;
      if leavingGroup {
        var i := 0;
        while i < |cfg.left|
          invariant 0 <= i <= |cfg.left|
          invariant forall j :: 0 <= j < i ==> cfg.left[j].nodeid != us
          invariant View() == old(View())
        {
          if cfg.left[i].nodeid == us {
            freed := true;
            return;
          }
          i := i + 1;
        }
      }
      var ok := AddChange(cfg, now);
      if !ok { return; }
      var cg := changes[0];
      AddVictims(cg.removed);
      if cg.weJoined { AddVictimsInit(present, cg.members); }
      ApplyChanges(env);
    }

    /** One delivered event; the object follows the value-level step. */
    method Handle(e: Event)
      requires !freed
      modifies this
      ensures View() == Step(old(View()), us, e)
    {
      match e
      case Confchg(cfg, now, present, env) => ConfchgCb(cfg, now, present, env);
      case Start(m, now, env) => ReceiveStart(m, now); ApplyChanges(env);
      case VictimDone(from, id, env) => ReceiveVictimDone(from, id); ApplyChanges(env);
      case Complete(from, ids, env) => ReceiveComplete(ids); ApplyChanges(env);
      case External(from, victim, now, env) => ReceiveExternal(from, victim, now); ApplyChanges(env);
      case Tick(env) => ApplyChanges(env);
      case ClusterAdd(n, now) =>
        history := InitHistory(history, n);
        history := history[n := history[n].(clusterAddTime := now)];
      case LeaveRequest => leavingGroup := true;
    }
  }
}
