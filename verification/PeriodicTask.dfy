/**
 The periodic task as a concurrent protocol: callers that start and close it, and runner loops
 that wait on the stop channel they found when the wait began.

 A channel is a number; `current` is the one in the `stop` field. A step is one critical section
 of a caller, or one move of a loop. A loop reads the `stop` field anew in every round, so a
 restart while it executes moves it to the new channel.
 */
module PeriodicTask {

  datatype Loop =
    | Executing             // inside the callback
    | AtSelect              // about to evaluate the channels of the select
    | Waiting(channel: nat) // blocked on the timer and on this channel
    | Returned

  datatype Task = Task(running: bool, current: nat, closed: set<nat>, loops: seq<Loop>)

  datatype Outcome = Next(task: Task) | PanicClosedTwice

  /** A task that was never started has no channel: channel 0 stands for none. */
  const FRESH := Task(false, 0, {}, [])

  datatype Action =
    | Start(first: bool)
    | Close
    | Return(loop: nat)      // the callback returns nil
    | Fail(loop: nat)        // the callback returns an error
    | Select(loop: nat)
    | Tick(loop: nat)
    | Stop(loop: nat)

  predicate Enabled(t: Task, a: Action) {
    match a
    case Start(_) => true
    case Close => true
    case Return(l) => l < |t.loops| && t.loops[l].Executing?
    case Fail(l) => l < |t.loops| && t.loops[l].Executing?
    case Select(l) => l < |t.loops| && t.loops[l].AtSelect?
    case Tick(l) => l < |t.loops| && t.loops[l].Waiting?
    case Stop(l) => l < |t.loops| && t.loops[l].Waiting? && t.loops[l].channel in t.closed
  }

  function Started(t: Task, first: bool): Task {
    if t.running then t
    else Task(true, t.current + 1, t.closed, t.loops + [if first then Executing else AtSelect])
  }

  /** Closing the current channel; closing a closed channel panics. */
  function CloseChannel(t: Task): Outcome {
    if t.current in t.closed then PanicClosedTwice
    else Next(t.(running := false, closed := t.closed + {t.current}))
  }

  function Do(t: Task, a: Action): Outcome
    requires Enabled(t, a)
  {
    match a
    case Start(first) => Next(Started(t, first))
    case Close => if t.running then CloseChannel(t) else Next(t)
    case Return(l) => Next(t.(loops := t.loops[l := AtSelect]))
    case Fail(l) => CloseChannel(t.(loops := t.loops[l := Returned]))
    case Select(l) => Next(t.(loops := t.loops[l := Waiting(t.current)]))
    case Tick(l) => Next(t.(loops := t.loops[l := Executing]))
    case Stop(l) => Next(t.(loops := t.loops[l := Returned]))
  }

  /** The task object, with the state of the channels it made. The loops spawned are ghost. */
  class PeriodicTask {
    var running: bool
    var stop: nat
    var closed: set<nat>
    ghost var loops: seq<Loop>

    ghost function Value(): Task
      reads this
    {
      Task(running, stop, closed, loops)
    }

    constructor ()
      ensures Value() == FRESH
    {
      running, stop, closed, loops := false, 0, {}, [];
    }

    method Start(first: bool)
      requires Safe(Value())
      modifies this
      ensures Next(Value()) == Do(old(Value()), Action.Start(first)) && Safe(Value())
    {
      StepSafe(Value(), Action.Start(first));
      if running {
        return;
      }
      running := true;
      stop := stop + 1;
      loops := loops + [if first then Executing else AtSelect];
    }

    method Close()
      requires Safe(Value())
      modifies this
      ensures Next(Value()) == Do(old(Value()), Action.Close) && Safe(Value())
    {
      PanicsIff(Value(), Action.Close);
      StepSafe(Value(), Action.Close);
      if running {
        running := false;
        assert stop !in closed;
        closed := closed + {stop};
      }
    }

    /** The error branch of a loop: it closes the channel whether or not the task still runs. */
    method ExecuteFailed(ghost loop: nat) returns (panics: bool)
      requires Safe(Value()) && Enabled(Value(), Fail(loop))
      modifies this
      ensures panics <==> !old(running)
      ensures panics ==> Do(old(Value()), Fail(loop)) == PanicClosedTwice
      ensures !panics ==> Next(Value()) == Do(old(Value()), Fail(loop)) && Safe(Value())
    {
      PanicsIff(Value(), Fail(loop));
      if running { StepSafe(Value(), Fail(loop)); }
      running := false;
      if stop in closed {
        return true;
      }
      closed := closed + {stop};
      loops := loops[loop := Returned];
      return false;
    }
  }

  ghost predicate Run(states: seq<Task>, actions: seq<Action>) {
    && |states| == |actions| + 1
    && forall i :: 0 <= i < |actions| ==>
         Enabled(states[i], actions[i]) && Do(states[i], actions[i]) == Next(states[i + 1])
  }

  // ---------------------------------------------------------------------
  // Safety
  // ---------------------------------------------------------------------

  /** The channels ever made are 1 to `current`. All earlier ones are closed, and the current one
      is open exactly while the task runs. A loop waits on a channel that was made. */
  ghost predicate Safe(t: Task) {
    && (forall c :: 1 <= c < t.current ==> c in t.closed)
    && (forall c :: c in t.closed ==> 1 <= c <= t.current)
    && (t.running ==> t.current >= 1)
    && (t.current >= 1 ==> (t.current in t.closed <==> !t.running))
    && (forall l :: 0 <= l < |t.loops| && t.loops[l].Waiting? ==> 1 <= t.loops[l].channel <= t.current)
    && (t.loops != [] ==> t.current >= 1)
  }

  /** No step closes a closed channel, except a callback that fails after the task was closed: a
      step panics exactly when a callback fails while the task is not running. */
  lemma PanicsIff(t: Task, a: Action)
    requires Safe(t) && Enabled(t, a)
    ensures Do(t, a) == PanicClosedTwice <==> a.Fail? && !t.running
  {
  }

  lemma StepSafe(t: Task, a: Action)
    requires Safe(t) && Enabled(t, a) && Do(t, a).Next?
    ensures Safe(Do(t, a).task)
  {
    var u := Do(t, a).task;
    match a
    case Select(l) => assert forall k :: 0 <= k < |t.loops| && k != l ==> u.loops[k] == t.loops[k];
    case Start(first) =>
      assert forall k :: 0 <= k < |t.loops| ==> u.loops[k] == t.loops[k];
    case _ =>
  }

  /** A step closes at most the channel that is current, and only one that was open. */
  lemma ClosesOpenOnly(t: Task, a: Action)
    requires Safe(t) && Enabled(t, a) && Do(t, a).Next?
    ensures
      var u := Do(t, a).task;
      t.closed <= u.closed && forall c :: c in u.closed && c !in t.closed ==> c == t.current && t.running
  {
  }

  /** In every interleaving of callers and loops, restarts from inside the callback included. */
  lemma {:induction false} RunSafe(states: seq<Task>, actions: seq<Action>, i: nat)
    requires Run(states, actions) && states[0] == FRESH && i < |states|
    ensures Safe(states[i])
  {
    if i > 0 {
      RunSafe(states, actions, i - 1);
      StepSafe(states[i - 1], actions[i - 1]);
      assert Do(states[i - 1], actions[i - 1]) == Next(states[i]);
    }
  }

  /** With callbacks that never fail no interleaving panics. */
  lemma NoPanic(states: seq<Task>, actions: seq<Action>, i: nat, a: Action)
    requires Run(states, actions) && states[0] == FRESH && i < |states|
    requires Enabled(states[i], a) && !a.Fail?
    ensures Do(states[i], a).Next?
  {
    RunSafe(states, actions, i);
    PanicsIff(states[i], a);
  }

  // ---------------------------------------------------------------------
  // After the last close
  // ---------------------------------------------------------------------

  ghost predicate NoStart(actions: seq<Action>, i: nat) {
    forall j :: i <= j < |actions| ==> !actions[j].Start?
  }

  lemma {:induction false} StaysClosed(states: seq<Task>, actions: seq<Action>, i: nat, j: nat)
    requires Run(states, actions) && states[0] == FRESH && i <= j < |states|
    requires !states[i].running && NoStart(actions, i)
    ensures !states[j].running && states[j].current == states[i].current
    decreases j
  {
    if i < j {
      StaysClosed(states, actions, i, j - 1);
      RunSafe(states, actions, j - 1);
      assert Do(states[j - 1], actions[j - 1]) == Next(states[j]);
      assert !actions[j - 1].Start?;
    }
  }

  /** After a close with no later start every loop waits only on a closed channel: whatever it
      waits on now, and whatever it will wait on next. */
  lemma ClosedForGood(states: seq<Task>, actions: seq<Action>, i: nat, j: nat, l: nat)
    requires Run(states, actions) && states[0] == FRESH && i < |actions| && i < j < |states|
    requires actions[i] == Close && NoStart(actions, i + 1)
    requires l < |states[j].loops|
    ensures states[j].loops[l].Waiting? ==>
      states[j].loops[l].channel in states[j].closed && Enabled(states[j], Stop(l))
    ensures states[j].loops[l].AtSelect? ==> states[j].current in states[j].closed
  {
    assert Do(states[i], actions[i]) == Next(states[i + 1]);
    assert !states[i + 1].running;
    StaysClosed(states, actions, i + 1, j);
    RunSafe(states, actions, j);
    var t := states[j];
    if t.loops[l].Waiting? {
      var c := t.loops[l].channel;
      assert 1 <= c <= t.current;
      assert c < t.current ==> c in t.closed;
    }
  }

  // ---------------------------------------------------------------------
  // The life of a loop
  // ---------------------------------------------------------------------

  /** The step that made this loop: a start of a task that was not running. */
  ghost predicate BornAt(states: seq<Task>, actions: seq<Action>, l: nat, i: nat)
    requires |states| == |actions| + 1
  {
    i < |actions| && actions[i].Start? && !states[i].running && |states[i].loops| == l
  }

  ghost predicate Between(actions: seq<Action>, i: nat, k: nat, a: Action) {
    exists m :: i < m < k && m < |actions| && actions[m] == a
  }

  /** What the steps since its start say about a loop. */
  ghost predicate Lives(states: seq<Task>, actions: seq<Action>, l: nat, i: nat, k: nat)
    requires |states| == |actions| + 1 && k < |states| && l < |states[k].loops|
  {
    && i < k && BornAt(states, actions, l, i)
    && (states[k].loops[l].Executing? ==> actions[i].first || Between(actions, i, k, Tick(l)))
    && (states[k].loops[l].Returned? <==> Between(actions, i, k, Stop(l)) || Between(actions, i, k, Fail(l)))
  }

  lemma BetweenMore(actions: seq<Action>, i: nat, k: nat, a: Action)
    requires i < k < |actions|
    ensures Between(actions, i, k + 1, a) <==> Between(actions, i, k, a) || actions[k] == a
  {
  }

  lemma BornStep(states: seq<Task>, actions: seq<Action>, l: nat, k: nat)
    requires Run(states, actions) && k < |actions| && |states[k].loops| <= l < |states[k + 1].loops|
    ensures Lives(states, actions, l, k, k + 1)
    ensures states[k + 1].loops[l] == if actions[k].first then Executing else AtSelect
  {
    assert Do(states[k], actions[k]) == Next(states[k + 1]);
  }

  lemma LivesStep(states: seq<Task>, actions: seq<Action>, l: nat, i: nat, k: nat)
    requires Run(states, actions) && k < |actions| && l < |states[k].loops| && Lives(states, actions, l, i, k)
    ensures l < |states[k + 1].loops| && Lives(states, actions, l, i, k + 1)
  {
    assert Enabled(states[k], actions[k]) && Do(states[k], actions[k]) == Next(states[k + 1]);
    BetweenMore(actions, i, k, Tick(l));
    BetweenMore(actions, i, k, Stop(l));
    BetweenMore(actions, i, k, Fail(l));
    hide Between;
  }

  /** In every run: a loop was made by a start of a stopped task. It executes before its first tick only
      if that start asked for it, and it has returned exactly if it was stopped or its callback failed. */
  lemma {:induction false} LoopLives(states: seq<Task>, actions: seq<Action>, l: nat, k: nat) returns (i: nat)
    requires Run(states, actions) && states[0] == FRESH && k < |states| && l < |states[k].loops|
    ensures Lives(states, actions, l, i, k)
  {
    hide Lives;
    if l < |states[k - 1].loops| {
      i := LoopLives(states, actions, l, k - 1);
      LivesStep(states, actions, l, i, k - 1);
    } else {
      BornStep(states, actions, l, k - 1);
      i := k - 1;
    }
  }

  /** A start of a stopped task that asks for it executes at once. */
  lemma FirstExecutes(states: seq<Task>, actions: seq<Action>, k: nat)
    requires Run(states, actions) && k < |actions| && actions[k] == Start(true) && !states[k].running
    ensures states[k + 1].loops == states[k].loops + [Executing]
  {
    assert Do(states[k], actions[k]) == Next(states[k + 1]);
  }

  /** Step `m` closed this channel: the task ran on it, and was closed or its callback failed. */
  ghost predicate ClosedAt(states: seq<Task>, actions: seq<Action>, c: nat, m: nat)
    requires |states| == |actions| + 1
  {
    m < |actions| && (actions[m].Close? || actions[m].Fail?) && states[m].running && states[m].current == c
  }

  lemma {:induction false} ClosedSince(states: seq<Task>, actions: seq<Action>, c: nat, k: nat)
    requires Run(states, actions) && states[0] == FRESH && k < |states|
    ensures c in states[k].closed <==> exists m: nat :: m < k && ClosedAt(states, actions, c, m)
  {
    if k > 0 {
      ClosedSince(states, actions, c, k - 1);
      RunSafe(states, actions, k - 1);
      assert Enabled(states[k - 1], actions[k - 1]) && Do(states[k - 1], actions[k - 1]) == Next(states[k]);
      ClosesCurrent(states[k - 1], actions[k - 1], c);
      assert ClosedAt(states, actions, c, k - 1) <==> c in states[k].closed && c !in states[k - 1].closed;
    }
  }

  lemma ClosesCurrent(t: Task, a: Action, c: nat)
    requires Safe(t) && Enabled(t, a) && Do(t, a).Next?
    ensures c in Do(t, a).task.closed && c !in t.closed <==> (a.Close? || a.Fail?) && t.running && t.current == c
    ensures c in t.closed ==> c in Do(t, a).task.closed
  {
  }

  /** In every run a loop is stopped only on a channel that a close or a failing callback has closed
      while the task ran on it. */
  lemma StoppedOnClosed(states: seq<Task>, actions: seq<Action>, l: nat, k: nat)
    requires Run(states, actions) && states[0] == FRESH && k < |actions| && actions[k] == Stop(l)
    ensures l < |states[k].loops| && states[k].loops[l].Waiting?
    ensures exists m: nat :: m < k && ClosedAt(states, actions, states[k].loops[l].channel, m)
  {
    assert Enabled(states[k], actions[k]);
    ClosedSince(states, actions, states[k].loops[l].channel, k);
  }

  // ---------------------------------------------------------------------
  // What the protocol does not promise
  // ---------------------------------------------------------------------

  /** Closing and starting again while a loop executes leaves two loops waiting on one channel. */
  lemma RestartKeepsOldLoop() returns (states: seq<Task>, actions: seq<Action>)
    ensures Run(states, actions) && states[0] == FRESH
    ensures
      var t := states[|actions|];
      t.running && t.loops == [Waiting(t.current), Waiting(t.current)]
    ensures forall a :: a in actions ==> !a.Fail?
  {
    actions := [Start(true), Close, Start(false), Return(0), Select(0), Select(1)];
    states := [
      FRESH,
      Task(true, 1, {}, [Executing]),
      Task(false, 1, {1}, [Executing]),
      Task(true, 2, {1}, [Executing, AtSelect]),
      Task(true, 2, {1}, [AtSelect, AtSelect]),
      Task(true, 2, {1}, [Waiting(2), AtSelect]),
      Task(true, 2, {1}, [Waiting(2), Waiting(2)])];
  }

  /** A callback that fails after the task was closed closes the channel a second time. */
  lemma FailAfterClosePanics() returns (states: seq<Task>, actions: seq<Action>)
    ensures Run(states, actions) && states[0] == FRESH
    ensures Enabled(states[|actions|], Fail(0)) && Do(states[|actions|], Fail(0)) == PanicClosedTwice
  {
    actions := [Start(true), Close];
    states := [FRESH, Task(true, 1, {}, [Executing]), Task(false, 1, {1}, [Executing])];
  }

  /** Loops that may still execute. */
  function Live(loops: seq<Loop>): nat {
    if loops == [] then 0
    else Live(loops[..|loops| - 1]) + if loops[|loops| - 1].Returned? then 0 else 1
  }

  lemma {:induction false} LiveUpdate(loops: seq<Loop>, l: nat, x: Loop)
    requires l < |loops|
    ensures Live(loops[l := x]) + (if loops[l].Returned? then 0 else 1) == Live(loops) + if x.Returned? then 0 else 1
  {
    var n := |loops| - 1;
    if l < n {
      LiveUpdate(loops[..n], l, x);
      assert loops[l := x][..n] == loops[..n][l := x];
    } else {
      assert loops[l := x][..n] == loops[..n];
    }
  }

  lemma LiveMore(loops: seq<Loop>, x: Loop)
    ensures Live(loops + [x]) == Live(loops) + if x.Returned? then 0 else 1
  {
    assert (loops + [x])[..|loops|] == loops;
  }

  /** A step makes a second loop live exactly when it starts a stopped task while a loop has not
      returned yet. */
  lemma SecondLoopIff(t: Task, a: Action)
    requires Safe(t) && Enabled(t, a) && Do(t, a).Next? && Live(t.loops) <= 1
    ensures Live(Do(t, a).task.loops) > 1 <==> a.Start? && !t.running && Live(t.loops) == 1
  {
    match a
    case Start(first) => LiveMore(t.loops, if first then Executing else AtSelect);
    case Close =>
    case Return(l) => LiveUpdate(t.loops, l, AtSelect);
    case Fail(l) => LiveUpdate(t.loops, l, Returned);
    case Select(l) => LiveUpdate(t.loops, l, Waiting(t.current));
    case Tick(l) => LiveUpdate(t.loops, l, Executing);
    case Stop(l) => LiveUpdate(t.loops, l, Returned);
  }
}
