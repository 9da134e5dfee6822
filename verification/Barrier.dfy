/**
  The two-phase barrier of the cluster manager (cman/daemon/barrier.c:63-294, 361-421): what
  every command, message and timer does to one barrier, and a cluster of nodes that run it
  over a totally ordered broadcast.
 */
module Barrier {
  import opened Basics

  const ENOENT: int := 2
  const ESRCH: int := 3
  const EWOULDBLOCK: int := 11
  const EINVAL: int := 22
  const ETIMEDOUT: int := 110

  datatype Progress = Inactive | Waiting | Complete

  /** struct cl_barrier; a count of zero means every member of the cluster. */
  datatype Bar = Bar(expected: nat, got: nat, waitSent: bool, phase: nat, state: Progress, endReason: int,
                     clientComplete: bool, timeout: nat, autoDelete: bool)

  datatype Kind = WaitMsg | CompleteMsg

  /** What a call leaves behind: the barrier, what its client is told, what is broadcast, and the status. */
  datatype Effect = Effect(bar: Option<Bar>, told: seq<int>, sends: seq<Kind>, status: int)

  function New(nodes: nat, autoDelete: bool): Bar
  {
    Bar(nodes, 0, false, 0, Inactive, 0, false, 0, autoDelete)
  }

  // ---------- one barrier

  function Tell(b: Bar): Effect
  {
    Effect(Some(b.(timeout := 0, clientComplete := true)), if b.clientComplete then [] else [b.endReason], [], 0)
  }

  function Finish(b: Bar, status: int): Effect
  {
    var b1 := b.(endReason := status);
    var e := if b.state == Waiting then Tell(b1) else Effect(Some(b1), [], [], 0);
    e.(bar := if b.autoDelete then None else Some(e.bar.value.(state := Complete)))
  }

  /** A WAIT of some node arrives. */
  function Counted(b: Bar, members: nat): Effect
  {
    if b.phase > 1 then Effect(Some(b), [], [], 0)
    else
      var b1 := b.(phase := 1, got := (b.got + 1) % 0x1_0000_0000);
      if b1.got == (if b.expected != 0 then b.expected else members)
      then Effect(Some(b1.(phase := 2)), [], [CompleteMsg], 0)
      else Effect(Some(b1), [], [], 0)
  }

  /** Enabling broadcasts our WAIT, once; sent is what the broadcast returns, negative when it fails. */
  function Enabled(b: Bar, on: bool, sent: int): Effect
  {
    if b.state == Complete then Effect(Some(b), [], [], 0)
    else if !on then Effect(Some(b), [], [], -EINVAL)
    else if b.waitSent then Effect(Some(b), [], [], 0)
    else Effect(Some(b.(waitSent := true, phase := 1)), [], if sent < 0 then [] else [WaitMsg], if sent < 0 then sent else 0)
  }

  function Awaited(b: Bar, sent: int): Effect
  {
    var e := Enabled(b, true, sent);
    var b1 := e.bar.value;
    if b1.state == Complete then Tell(b1).(sends := e.sends, status := -EWOULDBLOCK)
    else Effect(Some(b1.(state := Waiting)), [], e.sends, -EWOULDBLOCK)
  }

  /** A node left the cluster. */
  function Bereaved(b: Bar): Effect
  {
    if b.waitSent && b.state == Waiting
    then Tell(b.(endReason := if b.expected == 0 then 0 else ESRCH))
    else Effect(Some(b), [], [], 0)
  }

  datatype Action =
    | Register(nodes: nat, autoDelete: bool)
    | SetAutoDelete(on: bool)
    | SetTimeout(timeout: nat)
    | Enable(on: bool, sent: int)
    | Await(sent: int)
    | Delete
    | Expire
    | NodeLeft
    | Receive(kind: Kind, member: bool, members: nat)

  function Act(bar: Option<Bar>, a: Action): Effect
  {
    var same := Effect(bar, [], [], 0);
    match bar
    case None =>
      if a.Register? then same.(bar := Some(New(a.nodes, a.autoDelete)))
      else if a.Expire? || a.NodeLeft? || a.Receive? then same
      else same.(status := -ENOENT)
    case Some(b) =>
      match a
      case Register(nodes, _) => if nodes != b.expected then same.(status := -EINVAL) else same
      case SetAutoDelete(on) => if b.state == Complete then same else same.(bar := Some(b.(autoDelete := on)))
      case SetTimeout(timeout) =>
        if b.state == Complete then same
        else if b.state == Waiting || b.waitSent then same.(status := -EINVAL)
        else same.(bar := Some(b.(timeout := timeout)))
      case Enable(on, sent) => Enabled(b, on, sent)
      case Await(sent) => Awaited(b, sent)
      case Delete => same.(bar := None)
      case Expire => Finish(b.(phase := 0), -ETIMEDOUT)
      case NodeLeft => Bereaved(b)
      case Receive(kind, member, members) =>
        if !member then same else if kind == WaitMsg then Counted(b, members) else Finish(b, 0)
  }

  // ---------- a cluster of nodes

  datatype Message = Message(from: int, kind: Kind)

  /** One node's barrier, whether it ever registered one, how far it has read, and what its client was told. */
  datatype Local = Local(bar: Option<Bar>, registered: bool, pos: nat, told: seq<int>)

  /** Broadcasts wait in the pool until the total order takes them. */
  datatype System = System(nodes: map<int, Local>, pool: seq<Message>, log: seq<Message>)

  datatype Step =
    | Do(node: int, action: Action)
    | Deliver(node: int, member: bool, members: nat)
    | Order(k: nat)

  function Labelled(from: int, kinds: seq<Kind>): (ms: seq<Message>)
    ensures |ms| == |kinds| && forall i :: 0 <= i < |ms| ==> ms[i] == Message(from, kinds[i])
  {
    seq(|kinds|, i requires 0 <= i < |kinds| => Message(from, kinds[i]))
  }

  function Perform(s: System, n: int, a: Action): System
    requires n in s.nodes
  {
    var l := s.nodes[n];
    var e := Act(l.bar, a);
    s.(nodes := s.nodes[n := Local(e.bar, l.registered || a.Register?, l.pos, l.told + e.told)],
       pool := s.pool + Labelled(n, e.sends))
  }

  function Next(s: System, step: Step): System
    requires Allowed(s, step)
  {
    match step
    case Do(n, a) => Perform(s, n, a)
    case Deliver(n, member, members) =>
      var l := s.nodes[n];
      var s1 := s.(nodes := s.nodes[n := l.(pos := l.pos + 1)]);
      Perform(s1, n, Receive(s.log[l.pos].kind, member, members))
    case Order(k) => s.(pool := s.pool[..k] + s.pool[k + 1..], log := s.log + [s.pool[k]])
  }

  predicate Allowed(s: System, step: Step)
  {
    match step
    case Do(n, a) => n in s.nodes && !a.Receive?
    case Deliver(n, _, _) => n in s.nodes && s.nodes[n].pos < |s.log|
    case Order(k) => k < |s.pool|
  }

  /** All registrations name the same count, and no node registers again after its barrier is gone. */
  predicate Fair(s: System, step: Step, count: nat)
  {
    step.Do? && step.action.Register? && step.node in s.nodes ==>
      step.action.nodes == count && (s.nodes[step.node].registered ==> s.nodes[step.node].bar.Some?)
  }

  /** The nodes whose WAIT is in the order. */
  function Waiters(log: seq<Message>): set<int>
  {
    set i | 0 <= i < |log| && log[i].kind == WaitMsg :: log[i].from
  }

  predicate Enough(log: seq<Message>, count: nat)
  {
    |Waiters(log)| >= count
  }

  // ---------- what every step keeps

  /** No node has two WAITs under way, and a node whose WAIT is under way will send no other. */
  predicate OnceEach(ms: seq<Message>)
  {
    forall i, j :: 0 <= i < j < |ms| && ms[i].kind == WaitMsg && ms[j].kind == WaitMsg ==> ms[i].from != ms[j].from
  }

  predicate Spent(nodes: map<int, Local>, m: Message)
  {
    m.kind == WaitMsg ==>
      m.from in nodes && nodes[m.from].registered &&
      (nodes[m.from].bar.Some? ==> nodes[m.from].bar.value.waitSent)
  }

  predicate Messages(s: System, count: nat)
  {
    && OnceEach(s.log + s.pool)
    && (forall m :: m in s.log + s.pool ==> Spent(s.nodes, m))
    && forall m :: m in s.log + s.pool && m.kind == CompleteMsg ==> Enough(s.log, count)
  }

  predicate Healthy(l: Local, log: seq<Message>, count: nat)
  {
    && l.pos <= |log|
    && |l.told| <= 1
    && (0 in l.told ==> Enough(log, count))
    && (!l.registered ==> l.bar.None? && l.told == [])
    && (l.bar.Some? ==>
          var b := l.bar.value;
          && b.expected == count
          && b.got <= |Waiters(log[..l.pos])|
          && (l.told != [] <==> b.clientComplete)
          && (b.state == Complete && b.endReason == 0 ==> Enough(log, count)))
  }

  predicate Inv(s: System, count: nat)
  {
    Messages(s, count) && forall n :: n in s.nodes ==> Healthy(s.nodes[n], s.log, count)
  }

  lemma {:induction false} SmallerSet(a: set<int>, b: set<int>)
    requires a <= b
    ensures |a| <= |b|
    decreases a
  {
    if exists x :: x in a {
      var x :| x in a;
      SmallerSet(a - {x}, b - {x});
    }
  }

  lemma WaitersGrow(log: seq<Message>, m: Message)
    ensures Waiters(log + [m]) == Waiters(log) + (if m.kind == WaitMsg then {m.from} else {})
  {
    var more := log + [m];
    assert more[|log|] == m && forall i :: 0 <= i < |log| ==> more[i] == log[i];
    forall x | x in Waiters(log) ensures x in Waiters(more) {
      var i :| 0 <= i < |log| && log[i].kind == WaitMsg && log[i].from == x;
      assert more[i] == log[i];
    }
  }

  lemma PrefixWaiters(log: seq<Message>, p: nat)
    requires p <= |log|
    ensures Waiters(log[..p]) <= Waiters(log) && |Waiters(log[..p])| <= |Waiters(log)|
  {
    SmallerSet(Waiters(log[..p]), Waiters(log));
  }

  /** A node that reads one more WAIT has one more distinct waiter behind it. */
  lemma OneMoreWaiter(s: System, count: nat, p: nat)
    requires Messages(s, count) && p < |s.log| && s.log[p].kind == WaitMsg
    ensures |Waiters(s.log[..p + 1])| == |Waiters(s.log[..p])| + 1
  {
    var all := s.log + s.pool;
    assert s.log[..p + 1] == s.log[..p] + [s.log[p]];
    WaitersGrow(s.log[..p], s.log[p]);
    forall i | 0 <= i < p && s.log[..p][i].kind == WaitMsg ensures s.log[..p][i].from != s.log[p].from {
      assert all[i] == s.log[..p][i] && all[p] == s.log[p];
    }
  }

  /** What one action does to a healthy node, given what its message proves. */
  lemma ActHealthy(l: Local, log: seq<Message>, count: nat, a: Action, p: nat)
    requires Healthy(l, log, count) && count > 0 && l.pos <= p <= |log|
    requires a.Register? ==> a.nodes == count && (l.registered ==> l.bar.Some?)
    requires a.Receive? && a.kind == CompleteMsg ==> Enough(log, count)
    requires |Waiters(log[..p])| >= |Waiters(log[..l.pos])| + if a.Receive? && a.kind == WaitMsg then 1 else 0
    ensures var e := Act(l.bar, a);
            && Healthy(Local(e.bar, l.registered || a.Register?, p, l.told + e.told), log, count)
            && (CompleteMsg in e.sends ==> Enough(log, count))
            && |e.sends| <= 1
            && (WaitMsg in e.sends ==> l.bar.Some? && !l.bar.value.waitSent && e.bar.Some? && e.bar.value.waitSent)
            && (l.bar.Some? && l.bar.value.waitSent && e.bar.Some? ==> e.bar.value.waitSent)
            && (e.bar.Some? && l.bar.None? ==> a.Register?)
  {
    hide Waiters;
    PrefixWaiters(log, p);
    match a {
      case Receive(kind, member, members) =>
      case Await(sent) =>
      case Enable(on, sent) =>
      case Expire =>
      case _ =>
    }
  }

  lemma PerformKeeps(s: System, n: int, a: Action, count: nat, p: nat)
    requires Inv(s, count) && count > 0 && n in s.nodes && s.nodes[n].pos <= p <= |s.log|
    requires a.Register? ==> a.nodes == count && (s.nodes[n].registered ==> s.nodes[n].bar.Some?)
    requires a.Receive? && a.kind == CompleteMsg ==> Enough(s.log, count)
    requires |Waiters(s.log[..p])| >= |Waiters(s.log[..s.nodes[n].pos])| + if a.Receive? && a.kind == WaitMsg then 1 else 0
    ensures Inv(Perform(s.(nodes := s.nodes[n := s.nodes[n].(pos := p)]), n, a), count)
  {
    hide Act, Healthy, Waiters;
    var l := s.nodes[n];
    ActHealthy(l, s.log, count, a, p);
    var e := Act(l.bar, a);
    var t := Perform(s.(nodes := s.nodes[n := l.(pos := p)]), n, a);
    StillUnregistered(l, s.log, count);
    SendKeeps(s, t.nodes, n, e.sends, count);
  }

  lemma StillUnregistered(l: Local, log: seq<Message>, count: nat)
    requires Healthy(l, log, count)
    ensures l.bar.Some? ==> l.registered
  {
  }

  lemma SendKeeps(s: System, nodes: map<int, Local>, n: int, sends: seq<Kind>, count: nat)
    requires Messages(s, count) && n in s.nodes && n in nodes
    requires forall k :: k in s.nodes && k != n ==> k in nodes && nodes[k] == s.nodes[k]
    requires |sends| <= 1
    requires CompleteMsg in sends ==> Enough(s.log, count)
    requires WaitMsg in sends ==> s.nodes[n].bar.Some? && !s.nodes[n].bar.value.waitSent
    requires forall m :: m in s.log + s.pool && m.from == n ==> Spent(nodes, m)
    requires WaitMsg in sends ==> nodes[n].registered && nodes[n].bar.Some? && nodes[n].bar.value.waitSent
    ensures Messages(s.(nodes := nodes, pool := s.pool + Labelled(n, sends)), count)
  {
    hide Enough;
    var was, now := s.log + s.pool, s.log + (s.pool + Labelled(n, sends));
    assert now == was + Labelled(n, sends);
    forall m | m in now ensures Spent(nodes, m) {
      if m in was { assert Spent(s.nodes, m); }
    }
    forall i, j | 0 <= i < j < |now| && now[i].kind == WaitMsg && now[j].kind == WaitMsg
      ensures now[i].from != now[j].from
    {
      if j == |was| { assert Spent(s.nodes, was[i]); }
    }
  }

  /** The total order takes a message: nothing is lost and nothing is doubled. */
  lemma OrderMoves(s: System, k: nat)
    requires k < |s.pool|
    ensures var t := Next(s, Order(k));
            var was, now := s.log + s.pool, t.log + t.pool;
            && |now| == |was|
            && forall i :: 0 <= i < |now| ==> Origin(|s.log|, k, i) < |was| && now[i] == was[Origin(|s.log|, k, i)]
  {
  }

  lemma OrderKeeps(s: System, k: nat, count: nat)
    requires Inv(s, count) && k < |s.pool|
    ensures Inv(Next(s, Order(k)), count)
  {
    hide Healthy, Waiters, Enough;
    var t := Next(s, Order(k));
    var was, now := s.log + s.pool, t.log + t.pool;
    OrderMoves(s, k);
    EnoughLonger(s.log, s.pool[k], count);
    assert forall m :: m in now ==> m in was;
    forall i, j | 0 <= i < j < |now| && now[i].kind == WaitMsg && now[j].kind == WaitMsg
      ensures now[i].from != now[j].from
    {
      var x, y := Origin(|s.log|, k, i), Origin(|s.log|, k, j);
      assert now[i] == was[x] && now[j] == was[y] && x != y;
    }
    forall n | n in t.nodes ensures Healthy(t.nodes[n], t.log, count) {
      HealthyLonger(t.nodes[n], s.log, s.pool[k], count);
    }
  }

  /** Where the message at index i stood before pool message k was moved to the log. */
  function Origin(logged: nat, k: nat, i: nat): nat
  {
    if i < logged then i else if i == logged then logged + k else if i <= logged + k then i - 1 else i
  }

  lemma EnoughLonger(log: seq<Message>, m: Message, count: nat)
    ensures Enough(log, count) ==> Enough(log + [m], count)
  {
    assert (log + [m])[..|log|] == log;
    PrefixWaiters(log + [m], |log|);
  }

  lemma HealthyLonger(l: Local, log: seq<Message>, m: Message, count: nat)
    requires Healthy(l, log, count)
    ensures Healthy(l, log + [m], count)
  {
    EnoughLonger(log, m, count);
    assert (log + [m])[..l.pos] == log[..l.pos];
  }

  lemma StepKeeps(s: System, step: Step, count: nat)
    requires Inv(s, count) && count > 0 && Allowed(s, step) && Fair(s, step, count)
    ensures Inv(Next(s, step), count)
  {
    hide Healthy, Act, Waiters, Enough;
    match step
    case Order(k) => OrderKeeps(s, k, count);
    case Do(n, a) =>
      At(s, n, count);
      assert s.nodes[n := s.nodes[n].(pos := s.nodes[n].pos)] == s.nodes;
      PerformKeeps(s, n, a, count, s.nodes[n].pos);
    case Deliver(n, member, members) =>
      var p := s.nodes[n].pos;
      var m := s.log[p];
      if m.kind == WaitMsg { OneMoreWaiter(s, count, p); } else { FewerBefore(s.log, p); }
      assert m in s.log + s.pool by { assert (s.log + s.pool)[p] == m; }
      PerformKeeps(s, n, Receive(m.kind, member, members), count, p + 1);
  }

  lemma At(s: System, n: int, count: nat)
    requires Inv(s, count) && n in s.nodes
    ensures s.nodes[n].pos <= |s.log|
  {
  }

  lemma FewerBefore(log: seq<Message>, p: nat)
    requires p < |log|
    ensures |Waiters(log[..p])| <= |Waiters(log[..p + 1])|
  {
    assert log[..p + 1][..p] == log[..p];
    PrefixWaiters(log[..p + 1], p);
  }

  // ---------- runs

  function Run(s: System, steps: seq<Step>): System
    requires Legal(s, steps)
    decreases |steps|, 1
  {
    if steps == [] then s else Next(Run(s, steps[..|steps| - 1]), steps[|steps| - 1])
  }

  ghost predicate Legal(s: System, steps: seq<Step>)
    decreases |steps|, 0
  {
    steps != [] ==>
      Legal(s, steps[..|steps| - 1]) && Allowed(Run(s, steps[..|steps| - 1]), steps[|steps| - 1])
  }

  ghost predicate AllFair(s: System, steps: seq<Step>, count: nat)
    requires Legal(s, steps)
  {
    steps != [] ==>
      AllFair(s, steps[..|steps| - 1], count) && Fair(Run(s, steps[..|steps| - 1]), steps[|steps| - 1], count)
  }

  predicate Initial(s: System)
  {
    s.pool == [] && s.log == [] && forall n :: n in s.nodes ==> s.nodes[n] == Local(None, false, 0, [])
  }

  lemma {:induction false} RunKeeps(s: System, steps: seq<Step>, count: nat)
    requires Initial(s) && Legal(s, steps) && count > 0 && AllFair(s, steps, count)
    ensures Inv(Run(s, steps), count)
  {
    if steps != [] {
      hide Inv, Next, Fair, Allowed;
      RunKeeps(s, steps[..|steps| - 1], count);
      StepKeeps(Run(s, steps[..|steps| - 1]), steps[|steps| - 1], count);
    }
  }

  /**
    In every run, timeouts and departures included: a client is told 0 only when at least the
    expected number of different nodes have sent their WAIT, and a barrier tells its client at
    most once.
   */
  lemma BarrierSafe(s: System, steps: seq<Step>, count: nat, n: int)
    requires Initial(s) && Legal(s, steps) && count > 0 && AllFair(s, steps, count) && n in Run(s, steps).nodes
    ensures 0 in Run(s, steps).nodes[n].told ==> |Waiters(Run(s, steps).log)| >= count
    ensures |Run(s, steps).nodes[n].told| <= 1
  {
    hide Run, Legal, AllFair;
    RunKeeps(s, steps, count);
  }

  // ---------- what a waiting client must be told

  /** What ends the wait of a client, and what it is then told. */
  function Ending(a: Action): Option<int>
  {
    match a
    case Expire => Some(-ETIMEDOUT)
    case NodeLeft => Some(ESRCH)
    case Receive(kind, member, _) => if kind == CompleteMsg && member then Some(0) else None
    case _ => None
  }

  lemma ActEnds(l: Local, log: seq<Message>, count: nat, a: Action)
    requires Healthy(l, log, count) && count > 0 && l.told == [] && l.bar.Some? && l.bar.value.state == Waiting
    requires Ending(a).Some? && (a.NodeLeft? ==> l.bar.value.waitSent)
    ensures Act(l.bar, a).told == [Ending(a).value]
  {
  }

  /**
    In every run: a client that waits and has not been told anything is told by the first thing that
    ends its wait, and told what it was: a timeout, the loss of a node, or completion.
   */
  lemma WaiterIsTold(s: System, steps: seq<Step>, count: nat, step: Step)
    requires Initial(s) && Legal(s, steps) && count > 0 && AllFair(s, steps, count) && Allowed(Run(s, steps), step)
    requires step.Do? || step.Deliver?
    requires var l := Run(s, steps).nodes[step.node]; l.told == [] && l.bar.Some? && l.bar.value.state == Waiting && l.bar.value.waitSent
    ensures var t := Run(s, steps);
            var a := if step.Do? then step.action
                     else Receive(t.log[t.nodes[step.node].pos].kind, step.member, step.members);
            Ending(a).Some? ==> Next(t, step).nodes[step.node].told == [Ending(a).value]
  {
    hide Run, Legal, AllFair, Healthy, Act;
    RunKeeps(s, steps, count);
    var t := Run(s, steps);
    var l := t.nodes[step.node];
    var a := if step.Do? then step.action else Receive(t.log[l.pos].kind, step.member, step.members);
    if Ending(a).Some? { ActEnds(l, t.log, count, a); }
  }

  /** A client that asks only after the barrier has completed is told at once how it ended. */
  lemma LateComerIsTold(s: System, steps: seq<Step>, count: nat, n: int, sent: int)
    requires Initial(s) && Legal(s, steps) && count > 0 && AllFair(s, steps, count) && n in Run(s, steps).nodes
    requires var l := Run(s, steps).nodes[n]; l.told == [] && l.bar.Some? && l.bar.value.state == Complete
    ensures var t := Run(s, steps); Next(t, Do(n, Await(sent))).nodes[n].told == [t.nodes[n].bar.value.endReason]
  {
    hide Run, Legal, AllFair;
    RunKeeps(s, steps, count);
  }

  // ---------- when completion is broadcast

  /** Anything that leaves a barrier in place and unfinished: commands, and WAITs of other nodes. */
  predicate Ongoing(a: Action)
  {
    !a.Delete? && !a.Expire? && (a.Receive? ==> a.kind == WaitMsg && a.member)
  }

  function WaitsIn(actions: seq<Action>): nat
  {
    if actions == [] then 0 else WaitsIn(actions[..|actions| - 1]) + (if actions[|actions| - 1].Receive? then 1 else 0)
  }

  /** A new barrier after the actions, and how often it has broadcast COMPLETE. */
  function Acted(count: nat, autoDelete: bool, actions: seq<Action>): (Option<Bar>, nat)
  {
    if actions == [] then (Some(New(count, autoDelete)), 0)
    else
      var (bar, n) := Acted(count, autoDelete, actions[..|actions| - 1]);
      var e := Act(bar, actions[|actions| - 1]);
      (e.bar, n + (if CompleteMsg in e.sends then 1 else 0))
  }

  /** COMPLETE is broadcast once, with the last expected WAIT, and not before. */
  lemma {:induction false} LastWaitCompletes(count: nat, autoDelete: bool, actions: seq<Action>)
    requires 0 < count && |actions| < 0x1_0000_0000 && forall i :: 0 <= i < |actions| ==> Ongoing(actions[i])
    ensures WaitsIn(actions) <= |actions|
    ensures var (bar, n) := Acted(count, autoDelete, actions);
            && n == (if WaitsIn(actions) >= count then 1 else 0)
            && bar.Some? && bar.value.expected == count && bar.value.state != Complete
            && (if WaitsIn(actions) < count then bar.value.got == WaitsIn(actions) && bar.value.phase <= 1
                else count <= bar.value.got <= WaitsIn(actions))
  {
    if actions != [] {
      var before := actions[..|actions| - 1];
      LastWaitCompletes(count, autoDelete, before);
      ActedOnce(count, Acted(count, autoDelete, before).0.value, actions[|actions| - 1], WaitsIn(before));
      hide Act;
    }
  }

  lemma ActedOnce(count: nat, b: Bar, a: Action, waits: nat)
    requires 0 < count && waits + 1 < 0x1_0000_0000 && Ongoing(a) && b.expected == count && b.state != Complete
    requires if waits < count then b.got == waits && b.phase <= 1 else count <= b.got <= waits
    ensures var e, w := Act(Some(b), a), waits + (if a.Receive? then 1 else 0);
            && e.bar.Some? && e.bar.value.expected == count && e.bar.value.state != Complete
            && (CompleteMsg in e.sends <==> waits < count <= w)
            && (if w < count then e.bar.value.got == w && e.bar.value.phase <= 1 else count <= e.bar.value.got <= w)
  {
  }
}
