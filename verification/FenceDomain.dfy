/**
  The fence domain kept by one fenced daemon, as values: what every callback
  does to the domain (fence/fenced/cpg.c, fence/fenced/recover.c).

  Configuration changes and messages arrive in one agreed order.  Everything the
  daemon cannot compute itself (clocks, cman membership, quorum, the results of
  fence agents) is part of the event.  A log records what the daemon created,
  accepted and sent, so that properties of whole runs can be stated about it.
 */
module FenceDomain {
  import opened Basics

  datatype Member = Member(
    nodeid: int,
    start: bool,       // a start message was accepted for this change
    added: bool,       // joined in this change
    failed: bool,
    disallowed: bool,
    complete: bool)    // FD_MFLG_COMPLETE in its start message

  datatype ChangeState = WaitConditions | WaitMessages | WaitFencing

  datatype Change = Change(
    seqno: nat,
    state: ChangeState,
    weJoined: bool,
    createTime: nat,
    joinedCount: int,
    removeCount: int,
    failedCount: int,
    members: seq<Member>,
    removed: seq<Member>)

  datatype How = ByAgent | ByMember | ByOverride | ByExternal

  datatype History = History(
    checkQuorum: bool,
    addTime: nat,
    clusterAddTime: nat,
    fenceTime: nat,
    fenceMaster: int,
    fenceHow: Option<How>,
    externalTime: nat,
    externalNode: int)

  const NO_HISTORY: History := History(false, 0, 0, 0, 0, None, 0, 0)

  datatype Victim = Victim(nodeid: int, initVictim: bool, localVictimDone: bool)

  /** What the daemon observably did, oldest first. */
  datatype Note =
    | Created(seqno: nat, members: seq<int>)
    | SentStart(seqno: nat, quorate: bool, startedCount: nat)
    | Accepted(seqno: nat, from: int)
    | Fencing(seqno: nat)                     // fence_victims is entered
    | SentVictimDone(seqno: nat, victim: int, how: How)
    | SentComplete(seqno: nat)
    | Kicked(nodeid: int)

  datatype Domain = Domain(
    freed: bool,
    changeSeq: nat,
    startedCount: nat,
    startedChange: Option<Change>,
    changes: seq<Change>,                     // newest first
    history: map<int, History>,
    initComplete: bool,
    localInitComplete: bool,
    master: int,
    joiningGroup: bool,
    leavingGroup: bool,
    currentVictim: int,
    victims: seq<Victim>,
    complete: seq<int>,                       // nodes of cluster.conf not yet considered
    log: seq<Note>)

  // ---------- inputs

  datatype Reason = Leave | NodeDown | ProcDown

  datatype Left = Left(nodeid: int, reason: Reason)

  datatype Config = Config(members: seq<int>, left: seq<Left>, joined: seq<int>)

  datatype IdInfo = IdInfo(
    nodeid: int, isMember: bool,
    fenceMaster: int, fenceHow: Option<How>, fenceTime: nat,
    externalNode: int, externalTime: nat)

  datatype StartMsg = StartMsg(
    from: int, complete: bool, startedCount: nat,
    memberCount: int, joinedCount: int, removeCount: int, failedCount: int,
    ids: seq<IdInfo>)

  /** One pass of reduce_victims: who was a cman member, who was a clean daemon member. */
  datatype Poll = Poll(members: set<int>, clean: set<int>)

  /** The attempt that ends the retry loop for a victim; failed attempts change nothing. */
  datatype Attempt = Attempt(clusterMember: bool, clean: bool, agentOk: bool)

  datatype Env = Env(
    quorate: bool,
    clusterMembers: set<int>,
    now: nat,
    polls: seq<Poll>,
    attempts: map<int, Attempt>)

  datatype Event =
    | Confchg(cfg: Config, now: nat, present: set<int>, env: Env)
    | Start(msg: StartMsg, now: nat, env: Env)
    | VictimDone(from: int, id: IdInfo, env: Env)
    | Complete(from: int, ids: seq<IdInfo>, env: Env)
    | External(from: int, victim: int, now: nat, env: Env)
    | Tick(env: Env)                          // process_fd_changes
    | ClusterAdd(nodeid: int, now: nat)       // node_history_cluster_add
    | LeaveRequest                            // fd_leave

  // ---------- lookups

  /** The position of the first member with this id, or -1 (find_memb). */
  function FindMemb(ms: seq<Member>, id: int): (i: int)
    ensures -1 <= i < |ms|
    ensures i >= 0 ==> ms[i].nodeid == id && forall j :: 0 <= j < i ==> ms[j].nodeid != id
    ensures i < 0 ==> forall j :: 0 <= j < |ms| ==> ms[j].nodeid != id
  {
    if ms == [] then -1
    else if ms[0].nodeid == id then 0
    else
      var i := FindMemb(ms[1..], id);
      assert forall j :: 1 <= j < |ms| ==> ms[j] == ms[1..][j - 1];
      if i < 0 then -1 else i + 1
  }

  predicate HasMember(cg: Change, id: int)
  {
    FindMemb(cg.members, id) >= 0
  }

  function MemberIds(ms: seq<Member>): (ids: seq<int>)
    ensures |ids| == |ms| && forall i :: 0 <= i < |ms| ==> ids[i] == ms[i].nodeid
  {
    seq(|ms|, i requires 0 <= i < |ms| => ms[i].nodeid)
  }

  predicate IsVictim(victims: seq<Victim>, id: int)
  {
    exists i :: 0 <= i < |victims| && victims[i].nodeid == id
  }

  /** The first id_info for a node says it is a member (get_id_struct). */
  predicate ShownAsMember(ids: seq<IdInfo>, id: int)
  {
    ids != [] && if ids[0].nodeid == id then ids[0].isMember else ShownAsMember(ids[1..], id)
  }

  predicate MatchChange(d: Domain, cg: Change, m: StartMsg, us: int)
  {
    var i := FindMemb(cg.members, m.from);
    && ShownAsMember(m.ids, us)
    && i >= 0
    && !cg.members[i].start
    && m.from in d.history
    && d.history[m.from].clusterAddTime <= cg.createTime
    && m.memberCount == |cg.members|
    && m.joinedCount == cg.joinedCount
    && m.removeCount == cg.removeCount
    && m.failedCount == cg.failedCount
    && forall k :: 0 <= k < |m.ids| && m.ids[k].isMember ==> HasMember(cg, m.ids[k].nodeid)
  }

  /** The oldest pending change the message matches, or -1 (find_change). */
  function FindChange(d: Domain, m: StartMsg, us: int, bound: nat): (i: int)
    requires bound <= |d.changes|
    ensures -1 <= i < bound
    ensures i >= 0 ==> MatchChange(d, d.changes[i], m, us)
    ensures i >= 0 ==> FindMemb(d.changes[i].members, m.from) >= 0 && m.from in d.history
    ensures forall j :: 0 <= j < bound && i < j ==> !MatchChange(d, d.changes[j], m, us)
  {
    if bound == 0 then -1
    else if MatchChange(d, d.changes[bound - 1], m, us) then bound - 1
    else FindChange(d, m, us, bound - 1)
  }

  /** Some pending change shows the node as added (is_added). */
  predicate IsAdded(changes: seq<Change>, id: int)
  {
    exists c :: 0 <= c < |changes| && AddedIn(changes[c], id)
  }

  predicate AddedIn(cg: Change, id: int)
  {
    var i := FindMemb(cg.members, id);
    i >= 0 && cg.members[i].added
  }

  // ---------- node history

  function InitHistory(h: map<int, History>, id: int): map<int, History>
  {
    if id in h then h else h[id := NO_HISTORY]
  }

  function InitMembers(h: map<int, History>, ms: seq<Member>): map<int, History>
    decreases |ms|
  {
    if ms == [] then h else InitMembers(InitHistory(h, ms[0].nodeid), ms[1..])
  }

  function SaveId(h: map<int, History>, id: IdInfo): map<int, History>
  {
    var h1 := InitHistory(h, id.nodeid);
    var n := h1[id.nodeid];
    var n1 := if n.fenceTime == 0 && id.fenceTime != 0
              then n.(fenceMaster := id.fenceMaster, fenceTime := id.fenceTime, fenceHow := id.fenceHow)
              else n;
    var n2 := if n1.externalTime == 0 && id.externalTime != 0
              then n1.(externalTime := id.externalTime, externalNode := id.externalNode)
              else n1;
    h1[id.nodeid := n2]
  }

  function SaveHistory(h: map<int, History>, ids: seq<IdInfo>): map<int, History>
    decreases |ids|
  {
    if ids == [] then h else SaveHistory(SaveId(h, ids[0]), ids[1..])
  }

  function FenceHistory(h: map<int, History>, victim: int, master: int, how: Option<How>, time: nat): map<int, History>
  {
    if victim in h
    then h[victim := h[victim].(fenceMaster := master, fenceTime := time, fenceHow := how)]
    else h
  }

  // ---------- messages

  function ReceiveStart(d: Domain, us: int, m: StartMsg, now: nat): (r: Domain)
    ensures r == d.(changes := r.changes, history := r.history, log := r.log)
  {
    var c := FindChange(d, m, us, |d.changes|);
    if c < 0 then d
    else
      var cg := d.changes[c];
      var i := FindMemb(cg.members, m.from);
      var memb := cg.members[i].(complete := m.complete);
      if IsAdded(d.changes, m.from) && m.startedCount != 0 && d.startedCount != 0 then
        d.(changes := d.changes[c := cg.(members := cg.members[i := memb.(disallowed := true)])])
      else
        var h := d.history[m.from := d.history[m.from].(addTime := now)];
        d.(changes := d.changes[c := cg.(members := cg.members[i := memb.(start := true)])],
           history := SaveHistory(h, m.ids),
           log := d.log + [Accepted(cg.seqno, m.from)])
  }

  /** The list without its first entry for the node. */
  function RemoveFirst(victims: seq<Victim>, id: int): seq<Victim>
  {
    if victims == [] then []
    else if victims[0].nodeid == id then victims[1..]
    else [victims[0]] + RemoveFirst(victims[1..], id)
  }

  function ReceiveVictimDone(d: Domain, us: int, from: int, id: IdInfo): (r: Domain)
    ensures r == d.(victims := r.victims, history := r.history)
  {
    if !IsVictim(d.victims, id.nodeid) then d
    else
      d.(victims := RemoveFirst(d.victims, id.nodeid),
         history := if from == us then d.history
                    else FenceHistory(d.history, id.nodeid, id.fenceMaster, id.fenceHow, id.fenceTime))
  }

  function ReceiveComplete(d: Domain, us: int, ids: seq<IdInfo>): (r: Domain)
    ensures r == d.(initComplete := r.initComplete, victims := r.victims)
  {
    if d.initComplete || !ShownAsMember(ids, us) then d
    else d.(initComplete := true, victims := [])
  }

  function ReceiveExternal(d: Domain, from: int, victim: int, now: nat): (r: Domain)
    ensures r == d.(history := r.history)
  {
    if victim !in d.history then d
    else d.(history := d.history[victim := d.history[victim].(externalTime := now, externalNode := from)])
  }

  // ---------- fencing

  function NewestSeq(d: Domain): nat
  {
    if d.changes == [] then 0 else d.changes[0].seqno
  }

  /** Dealing with victims touches no change, no count and no protocol flag. */
  predicate OnlyVictims(d: Domain, r: Domain)
  {
    r == d.(victims := r.victims, history := r.history, currentVictim := r.currentVictim, log := r.log)
  }

  /** recover.c victim_done: note how it was dealt with, and tell the domain. */
  function Done(d: Domain, us: int, victim: int, how: How, now: nat): (r: Domain)
    ensures OnlyVictims(d, r) && r.victims == d.victims
  {
    if victim !in d.history then d
    else d.(history := FenceHistory(d.history, victim, us, Some(how), now),
            log := d.log + [SentVictimDone(NewestSeq(d), victim, how)])
  }

  /** One reduce_victims pass from list position i on. */
  function ReduceFrom(d: Domain, us: int, poll: Poll, now: nat, i: nat): (r: Domain)
    ensures OnlyVictims(d, r)
    decreases |d.victims| - i
  {
    if i >= |d.victims| then d
    else
      var id := d.victims[i].nodeid;
      if id in poll.members && id in poll.clean then
        ReduceFrom(Done(d, us, id, ByMember, now).(victims := d.victims[..i] + d.victims[i + 1..]), us, poll, now, i)
      else ReduceFrom(d, us, poll, now, i + 1)
  }

  /** delay_fencing: poll until the delay is over or nobody is left. */
  function Delay(d: Domain, us: int, polls: seq<Poll>, now: nat): (r: Domain)
    ensures OnlyVictims(d, r)
    decreases |polls|
  {
    if polls == [] || d.victims == [] then d
    else Delay(ReduceFrom(d, us, polls[0], now, 0), us, polls[1..], now)
  }

  function LastAttempt(env: Env, id: int): Attempt
  {
    if id in env.attempts then env.attempts[id] else Attempt(false, false, true)
  }

  predicate FencedExternally(h: map<int, History>, id: int)
  {
    id in h && h[id].externalTime > h[id].addTime
  }

  function Outcome(h: map<int, History>, id: int, a: Attempt): How
  {
    if FencedExternally(h, id) then ByExternal
    else if a.clusterMember && a.clean then ByMember
    else if a.agentOk then ByAgent
    else ByOverride
  }

  function FenceFrom(d: Domain, us: int, env: Env, i: nat): (r: Domain)
    ensures OnlyVictims(d, r)
    decreases |d.victims| - i
  {
    if i >= |d.victims| then d.(currentVictim := 0)
    else if d.victims[i].localVictimDone then FenceFrom(d, us, env, i + 1)
    else
      var id := d.victims[i].nodeid;
      var how := Outcome(d.history, id, LastAttempt(env, id));
      var d1 := d.(currentVictim := id, victims := d.victims[i := d.victims[i].(localVictimDone := true)]);
      FenceFrom(Done(d1, us, id, how, env.now), us, env, i + 1)
  }

  // ---------- progress of the newest change

  /** The scan of set_master, in which zero stands for "none yet". */
  function Low(acc: int, ids: seq<int>): int
    decreases |ids|
  {
    if ids == [] then acc
    else Low(if acc == 0 || ids[0] < acc then ids[0] else acc, ids[1..])
  }

  function CompleteIds(ms: seq<Member>): seq<int>
  {
    if ms == [] then []
    else (if ms[0].complete then [ms[0].nodeid] else []) + CompleteIds(ms[1..])
  }

  function Master(ms: seq<Member>): int
  {
    var complete := Low(0, CompleteIds(ms));
    if complete != 0 then complete else Low(0, MemberIds(ms))
  }

  /** Nodes seen to fail stay flagged until cman has seen them fail too (check_quorum_done). */
  function ClearChecks(h: map<int, History>, clusterMembers: set<int>): (r: map<int, History>)
    ensures r.Keys == h.Keys
  {
    map n | n in h :: if n in clusterMembers then h[n] else h[n].(checkQuorum := false)
  }

  predicate NoChecks(h: map<int, History>)
  {
    forall n :: n in h ==> !h[n].checkQuorum
  }

  predicate AllStarted(cg: Change)
  {
    forall i :: 0 <= i < |cg.members| ==> cg.members[i].start
  }

  function NextStarted(count: nat): nat
  {
    var c := (count + 1) % TWO_32;
    if c == 0 then 1 else c
  }

  function Cleanup(d: Domain): Domain
    requires d.changes != []
  {
    d.(startedChange := Some(d.changes[0]), startedCount := NextStarted(d.startedCount), changes := [])
  }

  /** The master deals with the victims while every other member waits for it. */
  function Lead(d: Domain, us: int, env: Env): (r: Domain)
    ensures OnlyVictims(d.(localInitComplete := true), r)
  {
    var d1 := Delay(d, us, env.polls, env.now);
    var d2 := FenceFrom(d1.(log := d1.log + [Fencing(NewestSeq(d))]), us, env, 0);
    d2.(log := d2.log + [SentComplete(NewestSeq(d))], localInitComplete := true)
  }

  predicate Completes(d: Domain)
  {
    d.changes != [] && d.changes[0].state == WaitMessages && AllStarted(d.changes[0])
  }

  function Finish(d: Domain, us: int, env: Env): Domain
    requires Completes(d)
  {
    var cg := d.changes[0];
    var d1 := d.(master := Master(cg.members), changes := d.changes[0 := cg.(state := WaitFencing)]);
    var d2 := if d1.master == us then Lead(d1, us, env) else d1;
    Cleanup(d2).(joiningGroup := false)
  }

  function Apply(d: Domain, us: int, env: Env): (r: Domain)
    ensures r.freed == d.freed
  {
    if d.changes == [] then d
    else if d.changes[0].state == WaitConditions then
      var cg := d.changes[0];
      var h := ClearChecks(d.history, env.clusterMembers);
      if NoChecks(h) && env.quorate then
        d.(history := h, changes := d.changes[0 := cg.(state := WaitMessages)],
           log := d.log + [SentStart(cg.seqno, env.quorate, d.startedCount)])
      else d.(history := h)
    else if Completes(d) then Finish(d, us, env)
    else d
  }

  // ---------- configuration changes

  predicate FailedIn(left: seq<Left>, id: int)
  {
    exists i :: 0 <= i < |left| && left[i].nodeid == id && left[i].reason != Leave
  }

  function FlagFailed(h: map<int, History>, left: seq<Left>): (r: map<int, History>)
    ensures r.Keys == h.Keys
  {
    map n | n in h :: if FailedIn(left, n) then h[n].(checkQuorum := true) else h[n]
  }

  function Removed(left: seq<Left>): (ms: seq<Member>)
    ensures |ms| == |left|
    ensures forall i :: 0 <= i < |ms| ==> ms[i].nodeid == left[i].nodeid && (ms[i].failed <==> left[i].reason != Leave)
  {
    seq(|left|, i requires 0 <= i < |left| =>
        Member(left[i].nodeid, false, false, left[i].reason != Leave, false, false))
  }

  function CountFailed(left: seq<Left>): nat
  {
    if left == [] then 0 else CountFailed(left[..|left| - 1]) + (if left[|left| - 1].reason != Leave then 1 else 0)
  }

  function Kicks(left: seq<Left>): seq<Note>
  {
    if left == [] then []
    else Kicks(left[..|left| - 1]) + (if left[|left| - 1].reason == ProcDown then [Kicked(left[|left| - 1].nodeid)] else [])
  }

  function FreshMembers(ids: seq<int>): (ms: seq<Member>)
    ensures |ms| == |ids|
    ensures forall i :: 0 <= i < |ms| ==> ms[i].nodeid == ids[i] && !ms[i].start && !ms[i].added
  {
    seq(|ids|, i requires 0 <= i < |ids| => Member(ids[i], false, false, false, false, false))
  }

  datatype JoinResult = Joined(members: seq<Member>, history: map<int, History>) | Missing(history: map<int, History>)

  /** Mark the joined nodes; a joined node that is not a member aborts the change. */
  function Join(ms: seq<Member>, h: map<int, History>, joined: seq<int>, us: int): JoinResult
    decreases |joined|
  {
    if joined == [] then Joined(ms, h)
    else
      var i := FindMemb(ms, joined[0]);
      if i < 0 then Missing(h)
      else
        Join(ms[i := ms[i].(added := true)],
             if joined[0] == us then h else InitHistory(h, joined[0]),
             joined[1..], us)
  }

  /** add_change; fails, keeping what it already noted, when a joined node is not a member. */
  function AddChange(d: Domain, us: int, cfg: Config, now: nat): (r: (bool, Domain))
    ensures r.0 ==> r.1.changes != [] && r.1.changes[1..] == d.changes && r.1.changes[0].state == WaitConditions
    ensures r.1 == d.(changeSeq := r.1.changeSeq, history := r.1.history, changes := r.1.changes, log := r.1.log)
  {
    var d1 := d.(changeSeq := d.changeSeq + 1, history := FlagFailed(d.history, cfg.left),
                 log := d.log + Kicks(cfg.left));
    match Join(FreshMembers(cfg.members), d1.history, cfg.joined, us)
    case Missing(h) => (false, d1.(history := h))
    case Joined(ms, h) =>
      var weJoined := us in cfg.joined;
      var cg := Change(d1.changeSeq, WaitConditions, weJoined, now, |cfg.joined|, |cfg.left|,
                       CountFailed(cfg.left), ms, Removed(cfg.left));
      (true, d1.(history := if weJoined then InitMembers(h, ms) else h,
                 changes := [cg] + d1.changes,
                 log := d1.log + [Created(cg.seqno, cfg.members)]))
  }

  function AddVictims(victims: seq<Victim>, removed: seq<Member>): seq<Victim>
    decreases |removed|
  {
    if removed == [] then victims
    else
      var m := removed[0];
      AddVictims(if m.failed && !IsVictim(victims, m.nodeid) then [Victim(m.nodeid, false, false)] + victims else victims,
                 removed[1..])
  }

  function AddInitVictims(victims: seq<Victim>, complete: seq<int>, present: set<int>, ms: seq<Member>): seq<Victim>
    decreases |complete|
  {
    if complete == [] then victims
    else
      var id := complete[0];
      AddInitVictims(if id !in present && FindMemb(ms, id) < 0 && !IsVictim(victims, id)
                     then [Victim(id, true, false)] + victims else victims,
                     complete[1..], present, ms)
  }

  predicate WeLeft(left: seq<Left>, us: int)
  {
    exists i :: 0 <= i < |left| && left[i].nodeid == us
  }

  /** Failed nodes become victims; a joining node presumes every absent node to be one. */
  function TakeVictims(d: Domain, present: set<int>): (r: Domain)
    requires d.changes != []
    ensures r == d.(victims := r.victims, complete := r.complete)
  {
    var cg := d.changes[0];
    var d1 := d.(victims := AddVictims(d.victims, cg.removed));
    if cg.weJoined
    then d1.(victims := AddInitVictims(d1.victims, d1.complete, present, cg.members), complete := [])
    else d1
  }

  function DoConfchg(d: Domain, us: int, cfg: Config, now: nat, present: set<int>, env: Env): Domain
  {
    if d.leavingGroup && WeLeft(cfg.left, us) then d.(freed := true)
    else
      var (ok, d1) := AddChange(d, us, cfg, now);
      if ok then Apply(TakeVictims(d1, present), us, env) else d1
  }

  function Step(d: Domain, us: int, e: Event): Domain
  {
    if d.freed then d
    else
      match e
      case Confchg(cfg, now, present, env) => DoConfchg(d, us, cfg, now, present, env)
      case Start(m, now, env) => Apply(ReceiveStart(d, us, m, now), us, env)
      case VictimDone(from, id, env) => Apply(ReceiveVictimDone(d, us, from, id), us, env)
      case Complete(_, ids, env) => Apply(ReceiveComplete(d, us, ids), us, env)
      case External(from, victim, now, env) => Apply(ReceiveExternal(d, from, victim, now), us, env)
      case Tick(env) => Apply(d, us, env)
      case ClusterAdd(n, now) =>
        var h := InitHistory(d.history, n);
        d.(history := h[n := h[n].(clusterAddTime := now)])
      case LeaveRequest => d.(leavingGroup := true)
  }

  function Run(d: Domain, us: int, events: seq<Event>): Domain
    decreases |events|
  {
    if events == [] then d else Step(Run(d, us, events[..|events| - 1]), us, events[|events| - 1])
  }

  /** A domain that has just been created, with the nodes of cluster.conf (fd_join). */
  function Initial(complete: seq<int>, history: map<int, History>): Domain
  {
    Domain(false, 0, 0, None, [], history, false, false, 0, true, false, 0, [], complete, [])
  }
}
