/**
  One life of one barrier (cman/daemon/barrier.c:63-150, 175-383), from its registration on: what
  every field says about the commands, messages and timers so far, and which calls are refused.
 */
module BarrierLife {
  import opened Basics
  import opened Barrier

  function Life(nodes: nat, autoDelete: bool, actions: seq<Action>): Option<Bar>
  {
    if actions == [] then Some(New(nodes, autoDelete))
    else Act(Life(nodes, autoDelete, actions[..|actions| - 1]), actions[|actions| - 1]).bar
  }

  // ---------- the past, in terms of the actions alone

  /** The timer fires, or a member's COMPLETE arrives. */
  predicate Ends(a: Action)
  {
    a.Expire? || (a.Receive? && a.kind == CompleteMsg && a.member)
  }

  function Result(a: Action): int
    requires Ends(a)
  {
    if a.Expire? then -ETIMEDOUT else 0
  }

  predicate Over(actions: seq<Action>)
  {
    actions != [] && (Over(actions[..|actions| - 1]) || Ends(actions[|actions| - 1]))
  }

  /** How it ended last; 0 while it has not. */
  function Outcome(actions: seq<Action>): int
  {
    if actions == [] then 0
    else if Ends(actions[|actions| - 1]) then Result(actions[|actions| - 1])
    else Outcome(actions[..|actions| - 1])
  }

  /** The client has asked to enable it, or to wait for it, in time. */
  predicate Started(actions: seq<Action>)
  {
    actions != [] &&
    var before, a := actions[..|actions| - 1], actions[|actions| - 1];
    Started(before) || (!Over(before) && (a.Await? || (a.Enable? && a.on)))
  }

  /** The client waits. */
  predicate Waits(actions: seq<Action>)
  {
    actions != [] && !Over(actions) && (Waits(actions[..|actions| - 1]) || actions[|actions| - 1].Await?)
  }

  /** The last action answers the client, unless it was answered before. */
  predicate Answers(actions: seq<Action>)
  {
    actions != [] &&
    var before, a := actions[..|actions| - 1], actions[|actions| - 1];
    (Waits(before) && (Ends(a) || a.NodeLeft?)) || (Over(before) && a.Await?)
  }

  predicate Answered(actions: seq<Action>)
  {
    actions != [] && (Answered(actions[..|actions| - 1]) || Answers(actions))
  }

  /** Deletion at the end is wanted: the latest wish before the end counts. */
  predicate DeletionWanted(autoDelete: bool, actions: seq<Action>)
  {
    if actions == [] then autoDelete
    else
      var before, a := actions[..|actions| - 1], actions[|actions| - 1];
      if a.SetAutoDelete? && !Over(before) then a.on else DeletionWanted(autoDelete, before)
  }

  /** The timeout last set before the barrier was enabled; an answer drops it. */
  function Timer(actions: seq<Action>): nat
  {
    if actions == [] || Answers(actions) then 0
    else
      var before, a := actions[..|actions| - 1], actions[|actions| - 1];
      if a.SetTimeout? && !Over(before) && !Started(before) then a.timeout else Timer(before)
  }

  predicate Gone(autoDelete: bool, actions: seq<Action>)
  {
    actions != [] &&
    var before, a := actions[..|actions| - 1], actions[|actions| - 1];
    Gone(autoDelete, before) || a.Delete? || (Ends(a) && DeletionWanted(autoDelete, before))
  }

  // ---------- what the fields say

  /** How far it has come. */
  predicate TellsState(b: Bar, actions: seq<Action>)
  {
    && b.state == (if Over(actions) then Complete else if Waits(actions) then Waiting else Inactive)
    && b.waitSent == Started(actions) && (Waits(actions) ==> Started(actions))
    && (Over(actions) ==> b.endReason == Outcome(actions))
  }

  /** What the client wants and knows. */
  predicate TellsClient(b: Bar, nodes: nat, autoDelete: bool, actions: seq<Action>)
  {
    && b.expected == nodes && b.autoDelete == DeletionWanted(autoDelete, actions)
    && b.clientComplete == Answered(actions) && b.timeout == Timer(actions)
  }

  lemma ActState(b: Bar, actions: seq<Action>)
    requires actions != [] && !actions[|actions| - 1].Register? && TellsState(b, actions[..|actions| - 1])
    ensures var r := Act(Some(b), actions[|actions| - 1]).bar; r.Some? ==> TellsState(r.value, actions)
  {
  }

  lemma ActClient(b: Bar, nodes: nat, autoDelete: bool, actions: seq<Action>)
    requires actions != [] && !actions[|actions| - 1].Register?
    requires TellsState(b, actions[..|actions| - 1]) && TellsClient(b, nodes, autoDelete, actions[..|actions| - 1])
    ensures var r := Act(Some(b), actions[|actions| - 1]).bar; r.Some? ==> TellsClient(r.value, nodes, autoDelete, actions)
  {
    hide Outcome;
  }

  lemma ActGone(b: Bar, nodes: nat, autoDelete: bool, actions: seq<Action>)
    requires actions != [] && TellsClient(b, nodes, autoDelete, actions[..|actions| - 1])
    requires !Gone(autoDelete, actions[..|actions| - 1])
    ensures Act(Some(b), actions[|actions| - 1]).bar.None? <==> Gone(autoDelete, actions)
  {
    hide Timer, Answered;
  }

  predicate Tells(b: Bar, nodes: nat, autoDelete: bool, actions: seq<Action>)
  {
    TellsState(b, actions) && TellsClient(b, nodes, autoDelete, actions)
  }

  /**
    After every sequence of actions, registration apart: the barrier is gone exactly when it was
    deleted or ended while deletion was wanted, and otherwise every field is the past it stands for.
   */
  lemma {:induction false} LifeExactly(nodes: nat, autoDelete: bool, actions: seq<Action>)
    requires forall i :: 0 <= i < |actions| ==> !actions[i].Register?
    ensures var bar := Life(nodes, autoDelete, actions);
            if Gone(autoDelete, actions) then bar.None? else bar.Some? && Tells(bar.value, nodes, autoDelete, actions)
  {
    if actions != [] {
      var before := actions[..|actions| - 1];
      LifeExactly(nodes, autoDelete, before);
      if !Gone(autoDelete, before) {
        hide Act, Gone, TellsState, TellsClient;
        var b := Life(nodes, autoDelete, before).value;
        ActState(b, actions);
        ActClient(b, nodes, autoDelete, actions);
        ActGone(b, nodes, autoDelete, actions);
      }
    }
  }

  /**
    The client is told something exactly once, when it is first answered: how the barrier ended, or,
    when a node left, that one is missing, unless the barrier is for whoever is there.
   */
  lemma ToldExactly(nodes: nat, autoDelete: bool, actions: seq<Action>)
    requires actions != [] && forall i :: 0 <= i < |actions| ==> !actions[i].Register?
    requires !Gone(autoDelete, actions[..|actions| - 1])
    ensures var before, a := actions[..|actions| - 1], actions[|actions| - 1];
            Act(Life(nodes, autoDelete, before), a).told ==
            if Answered(before) || !Answers(actions) then []
            else if a.NodeLeft? then [if nodes == 0 then 0 else ESRCH]
            else [Outcome(actions)]
  {
    hide Life, Timer, DeletionWanted;
    LifeExactly(nodes, autoDelete, actions[..|actions| - 1]);
  }

  /** Our WAIT is broadcast exactly when the barrier is first enabled or waited for, if the broadcast works. */
  lemma WaitSentExactly(nodes: nat, autoDelete: bool, actions: seq<Action>)
    requires actions != [] && forall i :: 0 <= i < |actions| ==> !actions[i].Register?
    requires !Gone(autoDelete, actions[..|actions| - 1])
    ensures var before, a := actions[..|actions| - 1], actions[|actions| - 1];
            WaitMsg in Act(Life(nodes, autoDelete, before), a).sends <==>
            Started(actions) && !Started(before) && a.sent >= 0
  {
    hide Life, TellsClient;
    LifeExactly(nodes, autoDelete, actions[..|actions| - 1]);
  }

  // ---------- refusals

  /** The call names a barrier that is not there, contradicts what is there, or comes too late. */
  predicate Refused(bar: Option<Bar>, a: Action)
  {
    if bar.None? then !a.Register? && !a.Expire? && !a.NodeLeft? && !a.Receive?
    else
      || (a.Register? && a.nodes != bar.value.expected)
      || (a.SetTimeout? && bar.value.state != Complete && (bar.value.state == Waiting || bar.value.waitSent))
      || (a.Enable? && bar.value.state != Complete && !a.on)
  }

  /** Nothing the call asks for concerns a finished barrier, or the message is from a stranger. */
  predicate Ignored(b: Bar, a: Action)
  {
    || (b.state == Complete && (a.SetAutoDelete? || a.SetTimeout? || a.Enable? || a.NodeLeft?))
    || (a.Receive? && !a.member) || a.Register?
  }

  /** A refused call says why, and neither it nor an ignored one changes, tells or broadcasts anything. */
  lemma RefusedKeeps(bar: Option<Bar>, a: Action)
    ensures Refused(bar, a) ==> Act(bar, a) == Effect(bar, [], [], if bar.None? then -ENOENT else -EINVAL)
    ensures bar.Some? && Ignored(bar.value, a) && !Refused(bar, a) ==> Act(bar, a) == Effect(bar, [], [], 0)
    ensures bar.Some? && a.Await? ==> Act(bar, a).status == -EWOULDBLOCK
    ensures !Refused(bar, a) && !a.Await? && !(a.Enable? && a.sent < 0) ==> Act(bar, a).status == 0
  {
  }

  /** A barrier that has timed out counts the next WAIT of a member nevertheless, even if it had all of them. */
  lemma LateWaitCounts(b: Bar, members: nat)
    requires !b.autoDelete
    ensures var late := Act(Act(Some(b), Expire).bar, Receive(WaitMsg, true, members)).bar;
            late.Some? && late.value.got == (b.got + 1) % 0x1_0000_0000
  {
  }
}
