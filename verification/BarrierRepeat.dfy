/**
  Barriers that a node may register again after they are gone (cman/daemon/barrier.c:214-294,
  346-359): its client may then be told 0 too early, unless a single node is enough.
 */
module BarrierRepeat {
  import opened Basics
  import opened Barrier

  /** Every registration names the same count; nothing is said about how often a node registers. */
  predicate Named(steps: seq<Step>, count: nat)
  {
    forall i :: 0 <= i < |steps| && steps[i].Do? && steps[i].action.Register? ==> steps[i].action.nodes == count
  }

  /** In every such run, whoever is told 0 is told it after WAITs of that many different nodes. */
  ghost predicate NeverEarly(count: nat)
  {
    forall s: System, steps: seq<Step>, n: int ::
      (Initial(s) && Legal(s, steps) && Named(steps, count) && n in Run(s, steps).nodes && 0 in Run(s, steps).nodes[n].told)
      ==> |Waiters(Run(s, steps).log)| >= count
  }

  // ---------- there is always one waiter

  predicate HasWait(log: seq<Message>)
  {
    exists i :: 0 <= i < |log| && log[i].kind == WaitMsg
  }

  /** What holds of a node however often it registers. */
  predicate Sane(l: Local, log: seq<Message>, count: nat)
  {
    && l.pos <= |log|
    && (0 in l.told ==> HasWait(log))
    && (l.bar.Some? ==> l.bar.value.expected == count &&
                        (l.bar.value.state == Complete && l.bar.value.endReason == 0 ==> HasWait(log)))
  }

  predicate SaneSystem(s: System, count: nat)
  {
    && (forall m :: m in s.pool + s.log && m.kind == CompleteMsg ==> HasWait(s.log))
    && forall n :: n in s.nodes ==> Sane(s.nodes[n], s.log, count)
  }

  lemma ActSane(l: Local, log: seq<Message>, count: nat, a: Action, p: nat)
    requires Sane(l, log, count) && count > 0 && p <= |log|
    requires a.Register? ==> a.nodes == count
    requires a.Receive? ==> HasWait(log)
    ensures var e := Act(l.bar, a);
            && Sane(Local(e.bar, l.registered || a.Register?, p, l.told + e.told), log, count)
            && (CompleteMsg in e.sends ==> HasWait(log))
  {
    hide HasWait;
    match a {
      case Receive(kind, member, members) =>
      case Await(sent) =>
      case Expire =>
      case _ =>
    }
  }

  lemma PerformSane(s: System, n: int, a: Action, count: nat, p: nat)
    requires SaneSystem(s, count) && count > 0 && n in s.nodes && p <= |s.log|
    requires a.Register? ==> a.nodes == count
    requires a.Receive? ==> HasWait(s.log)
    ensures SaneSystem(Perform(s.(nodes := s.nodes[n := s.nodes[n].(pos := p)]), n, a), count)
  {
    hide Act, Sane, HasWait;
    ActSane(s.nodes[n], s.log, count, a, p);
  }

  lemma SaneLonger(l: Local, log: seq<Message>, m: Message, count: nat)
    requires Sane(l, log, count)
    ensures Sane(l, log + [m], count) && (HasWait(log) ==> HasWait(log + [m]))
  {
    if i :| 0 <= i < |log| && log[i].kind == WaitMsg { assert (log + [m])[i] == log[i]; }
  }

  lemma OrderSane(s: System, k: nat, count: nat)
    requires SaneSystem(s, count) && k < |s.pool|
    ensures SaneSystem(Next(s, Order(k)), count)
  {
    hide Sane;
    var t := Next(s, Order(k));
    assert HasWait(s.log) ==> HasWait(t.log) by {
      if i :| 0 <= i < |s.log| && s.log[i].kind == WaitMsg { assert t.log[i] == s.log[i]; }
    }
    forall n | n in t.nodes ensures Sane(t.nodes[n], t.log, count) { SaneLonger(t.nodes[n], s.log, s.pool[k], count); }
    assert forall m :: m in t.pool + t.log ==> m in s.pool + s.log;
  }

  lemma StepSane(s: System, step: Step, count: nat)
    requires SaneSystem(s, count) && count > 0 && Allowed(s, step)
    requires step.Do? && step.action.Register? ==> step.action.nodes == count
    ensures SaneSystem(Next(s, step), count)
  {
    hide Act, Perform;
    match step
    case Order(k) => OrderSane(s, k, count);
    case Do(n, a) =>
      assert s.nodes[n := s.nodes[n].(pos := s.nodes[n].pos)] == s.nodes;
      PerformSane(s, n, a, count, s.nodes[n].pos);
    case Deliver(n, member, members) =>
      var p := s.nodes[n].pos;
      assert s.log[p] in s.pool + s.log;
      PerformSane(s, n, Receive(s.log[p].kind, member, members), count, p + 1);
  }

  lemma {:induction false} RunSane(s: System, steps: seq<Step>, count: nat)
    requires Initial(s) && Legal(s, steps) && count > 0 && Named(steps, count)
    ensures SaneSystem(Run(s, steps), count)
  {
    if steps != [] {
      hide SaneSystem, Next, Allowed;
      RunSane(s, steps[..|steps| - 1], count);
      StepSane(Run(s, steps[..|steps| - 1]), steps[|steps| - 1], count);
    }
  }

  lemma OneIsEnough(s: System, steps: seq<Step>, count: nat, n: int)
    requires Initial(s) && Legal(s, steps) && count == 1 && Named(steps, count) && n in Run(s, steps).nodes
    requires 0 in Run(s, steps).nodes[n].told
    ensures |Waiters(Run(s, steps).log)| >= 1
  {
    hide Run, Legal;
    RunSane(s, steps, count);
    var log := Run(s, steps).log;
    var i :| 0 <= i < |log| && log[i].kind == WaitMsg;
    assert log[i].from in Waiters(log);
  }

  // ---------- two are too many

  const ALONE := System(map[1 := Local(None, false, 0, [])], [], [])

  /** The steps lead a lone node to this system. */
  ghost predicate Reaches(steps: seq<Step>, count: nat, t: System)
  {
    Legal(ALONE, steps) && Named(steps, count) && Run(ALONE, steps) == t
  }

  lemma Further(steps: seq<Step>, count: nat, t: System, step: Step)
    requires Reaches(steps, count, t) && Allowed(t, step)
    requires step.Do? && step.action.Register? ==> step.action.nodes == count
    ensures Reaches(steps + [step], count, Next(t, step))
  {
    hide Allowed, Next;
    var more := steps + [step];
    assert more[..|more| - 1] == steps;
  }

  function Lone(bar: Option<Bar>, pos: nat, told: seq<int>, pool: seq<Message>, log: seq<Message>): System
  {
    System(map[1 := Local(bar, true, pos, told)], pool, log)
  }

  const WAIT := Message(1, WaitMsg)
  const COMPLETE := Message(1, CompleteMsg)

  function Waits(k: nat): (log: seq<Message>)
    ensures |log| == k && forall i :: 0 <= i < k ==> log[i] == WAIT
  {
    seq(k, i => WAIT)
  }

  function Waited(count: nat, got: nat, phase: nat): Bar
  {
    New(count, false).(got := got, waitSent := true, phase := phase, state := Waiting)
  }

  lemma OrderNext(b: Bar, k: nat)
    ensures Next(Lone(Some(b), 0, [], [WAIT], Waits(k)), Order(0)) == Lone(Some(b), 0, [], [], Waits(k + 1))
  {
    assert Waits(k) + [WAIT] == Waits(k + 1);
  }

  /** A registration and a wait put one more WAIT into the order. */
  lemma WaitOnce(steps: seq<Step>, count: nat, s: System, k: nat) returns (r: seq<Step>)
    requires s.nodes.Keys == {1} && s.nodes[1].bar == None && s.nodes[1].pos == 0 && s.nodes[1].told == []
    requires s.pool == [] && s.log == Waits(k) && Reaches(steps, count, s)
    ensures Reaches(r, count, Lone(Some(Waited(count, 0, 1)), 0, [], [], Waits(k + 1)))
  {
    hide Reaches;
    var s1 := Lone(Some(New(count, false)), 0, [], [], Waits(k));
    Further(steps, count, s, Do(1, Register(count, false)));
    assert Next(s, Do(1, Register(count, false))) == s1;
    var r1 := steps + [Do(1, Register(count, false))];
    var s2 := Lone(Some(Waited(count, 0, 1)), 0, [], [WAIT], Waits(k));
    Further(r1, count, s1, Do(1, Await(0)));
    assert Next(s1, Do(1, Await(0))) == s2;
    var r2 := r1 + [Do(1, Await(0))];
    Further(r2, count, s2, Order(0));
    OrderNext(Waited(count, 0, 1), k);
    r := r2 + [Order(0)];
  }

  lemma {:induction false} WaitOften(count: nat, k: nat) returns (r: seq<Step>)
    requires k > 0
    ensures Reaches(r, count, Lone(Some(Waited(count, 0, 1)), 0, [], [], Waits(k)))
    decreases k
  {
    if k == 1 {
      assert Waits(0) == [];
      r := WaitOnce([], count, ALONE, 0);
    } else {
      hide Reaches;
      var before := WaitOften(count, k - 1);
      var s := Lone(Some(Waited(count, 0, 1)), 0, [], [], Waits(k - 1));
      Further(before, count, s, Do(1, Delete));
      r := WaitOnce(before + [Do(1, Delete)], count, Next(s, Do(1, Delete)), k - 1);
    }
  }

  lemma DeliverNext(b: Bar, pos: nat, log: seq<Message>, e: Effect)
    requires pos < |log| && e == Act(Some(b), Receive(log[pos].kind, true, 1))
    ensures Next(Lone(Some(b), pos, [], [], log), Deliver(1, true, 1)) ==
            Lone(e.bar, pos + 1, e.told, Labelled(1, e.sends), log)
  {
    hide Act;
    var next := Next(Lone(Some(b), pos, [], [], log), Deliver(1, true, 1));
    assert [] + Labelled(1, e.sends) == Labelled(1, e.sends) && [] + e.told == e.told;
    assert next.nodes == map[1 := Local(e.bar, true, pos + 1, e.told)];
  }

  lemma {:induction false} CountUp(count: nat, j: nat) returns (r: seq<Step>)
    requires 0 < count < 0x1_0000_0000 && j < count
    ensures Reaches(r, count, Lone(Some(Waited(count, j, 1)), j, [], [], Waits(count)))
    decreases j
  {
    if j == 0 {
      r := WaitOften(count, count);
    } else {
      hide Reaches, Next;
      var before := CountUp(count, j - 1);
      var b := Waited(count, j - 1, 1);
      Further(before, count, Lone(Some(b), j - 1, [], [], Waits(count)), Deliver(1, true, 1));
      DeliverNext(b, j - 1, Waits(count), Effect(Some(Waited(count, j, 1)), [], [], 0));
      assert Labelled(1, []) == [];
      r := before + [Deliver(1, true, 1)];
    }
  }

  /** One node's own WAITs complete a barrier that expects any number of nodes. */
  lemma RegisteringAgainBreaksIt(count: nat) returns (steps: seq<Step>)
    requires 0 < count < 0x1_0000_0000
    ensures Initial(ALONE) && Legal(ALONE, steps) && Named(steps, count) && 1 in Run(ALONE, steps).nodes
    ensures 0 in Run(ALONE, steps).nodes[1].told && Waiters(Run(ALONE, steps).log) == {1}
  {
    var r1 := CountUp(count, count - 1);
    var b1, b2 := Waited(count, count - 1, 1), Waited(count, count, 2);
    var log := Waits(count);
    Further(r1, count, Lone(Some(b1), count - 1, [], [], log), Deliver(1, true, 1));
    DeliverNext(b1, count - 1, log, Effect(Some(b2), [], [CompleteMsg], 0));
    assert Labelled(1, [CompleteMsg]) == [COMPLETE];
    var r2 := r1 + [Deliver(1, true, 1)];
    steps := Completed(count, r2);
  }

  /** The COMPLETE is ordered and read, and the client is told. */
  lemma Completed(count: nat, r: seq<Step>) returns (steps: seq<Step>)
    requires count > 0
    requires Reaches(r, count, Lone(Some(Waited(count, count, 2)), count, [], [COMPLETE], Waits(count)))
    ensures Legal(ALONE, steps) && Named(steps, count) && 1 in Run(ALONE, steps).nodes
    ensures 0 in Run(ALONE, steps).nodes[1].told && Waiters(Run(ALONE, steps).log) == {1}
  {
    hide Run, Legal, Named;
    var b := Waited(count, count, 2);
    var done := b.(state := Complete, clientComplete := true);
    var log := Waits(count) + [COMPLETE];
    var s := Lone(Some(b), count, [], [COMPLETE], Waits(count));
    Further(r, count, s, Order(0));
    assert Next(s, Order(0)) == Lone(Some(b), count, [], [], log);
    var r1 := r + [Order(0)];
    Further(r1, count, Lone(Some(b), count, [], [], log), Deliver(1, true, 1));
    DeliverNext(b, count, log, Effect(Some(done), [0], [], 0));
    steps := r1 + [Deliver(1, true, 1)];
    assert Waiters(log) == {1} by { assert log[0] == WAIT; }
  }

  /**
    Exactly which counts survive repeated registration: with the count that all registrations
    name, being told 0 means WAITs of that many nodes in every run, if and only if it is at most one.
   */
  lemma RepeatExactly(count: nat)
    requires count < 0x1_0000_0000
    ensures NeverEarly(count) <==> count <= 1
  {
    hide Run, Legal;
    if count > 1 {
      var steps := RegisteringAgainBreaksIt(count);
      assert |Waiters(Run(ALONE, steps).log)| == 1;
    } else if count == 1 {
      forall s: System, steps: seq<Step>, n: int |
        Initial(s) && Legal(s, steps) && Named(steps, count) && n in Run(s, steps).nodes && 0 in Run(s, steps).nodes[n].told
        ensures |Waiters(Run(s, steps).log)| >= count
      {
        OneIsEnough(s, steps, count, n);
      }
    }
  }
}
