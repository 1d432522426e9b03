/**
 What the passes of a collector hand over: the slices against the books, over whole runs.
 */
module TrafficSlices {
  import opened Basics
  import opened Panel
  import opened Traffic

  /** The books count every byte a connection adds, in its own direction, and nothing else. */
  lemma CountsAdds(s: State, a: Action, t: State, slot: Slot)
    requires Steps(s, a, t)
    ensures Get(t.added, slot) == Get(s.added, slot) +
      if (a.Add? || a.AddDetached?) && a.user == slot.0 && a.dir == slot.1 then a.n else 0
  {
    hide Credit, AddTo;
    match a
    case DelUser(user) => DropFrame(s, user);
    case Emit => DropFrame(s.(phase := Ranging), s.phase.user);
    case _ =>
  }

  /** Ids come and go with their users only, and a counter changes only by an add to it, by the collector
      at its user, or with its user. */
  lemma UsersStep(s: State, a: Action, t: State, u: string)
    requires Steps(s, a, t)
    ensures u in t.uids <==> a == AddUser(u, if a.AddUser? then a.uid else 0) || (u in s.uids && a != DelUser(u))
    ensures u in t.uids ==> t.uids[u] == if a.AddUser? && a.user == u then a.uid else s.uids[u]
    ensures a == DelUser(u) ==> u !in t.counters
    ensures ((a.Add? || a.DelUser?) && a.user == u) || (!s.phase.Idle? && !s.phase.Ranging? && s.phase.user == u) ||
      ((u in t.counters <==> u in s.counters) && (u in s.counters ==> t.counters[u] == s.counters[u]))
  {
    hide Credit, AddTo, Drop;
    match a
    case DelUser(user) => DropFrame(s, user);
    case Emit => DropFrame(s.(phase := Ranging), s.phase.user);
    case Add(v, dir, n) => if v != u { AddOther(s.counters, v, dir, n, u); }
    case _ =>
  }

  /** The user that a step appends a row for, if it does. */
  function RowUser(s: State, a: Action): Option<string> {
    if a.Emit? && s.phase.Cleared? && s.phase.user in s.uids && s.uids[s.phase.user] != 0 then Some(s.phase.user)
    else None
  }

  /** The users that got a row since the last pass began, in order. */
  ghost function RowUsers(states: seq<State>, actions: seq<Action>, n: nat): seq<string>
    requires n <= |actions| < |states|
  {
    if n == 0 || actions[n - 1].Begin? then []
    else
      var u := RowUser(states[n - 1], actions[n - 1]);
      RowUsers(states, actions, n - 1) + if u.Some? then [u.value] else []
  }

  /** What the rows of these users carry for a user and a direction. */
  function Carried(rows: seq<UserTraffic>, users: seq<string>, slot: Slot): int
    requires |rows| == |users|
  {
    if rows == [] then 0
    else
      var last := |rows| - 1;
      Carried(rows[..last], users[..last], slot) +
      if users[last] != slot.0 then 0 else if slot.1.Up? then rows[last].upload else rows[last].download
  }

  /** What the passes that ended have handed over for a user and a direction. */
  ghost function Handed(states: seq<State>, actions: seq<Action>, n: nat, slot: Slot): int
    requires n <= |actions| < |states|
  {
    if n == 0 then 0
    else
      var users := RowUsers(states, actions, n - 1);
      Handed(states, actions, n - 1, slot) +
      if actions[n - 1].End? && |states[n - 1].slice| == |users| then Carried(states[n - 1].slice, users, slot) else 0
  }

  /** During a pass the slice has one row for each user billed in it, under the user's id, over the
      threshold, and no other row. */
  ghost predicate RowsFit(s: State, users: seq<string>) {
    && |s.slice| == |users|
    && (forall i, j :: 0 <= i < j < |users| ==> users[i] != users[j])
    && (forall i :: 0 <= i < |users| ==>
          && users[i] in s.visited
          && users[i] in s.uids && s.slice[i].uid == s.uids[users[i]] != 0
          && s.slice[i].upload + s.slice[i].download > s.threshold)
  }

  /** The user at hand was not billed in this pass yet, and is cleared only over the threshold. */
  ghost predicate AtHand(s: State, users: seq<string>) {
    match s.phase
    case Idle => true
    case Ranging => true
    case GotUp(u, _) => u in s.visited && u !in users
    case GotBoth(u, _, _) => u in s.visited && u !in users
    case ClearedUp(u, up, down) => u in s.visited && u !in users && up + down > s.threshold
    case Cleared(u, up, down) => u in s.visited && u !in users && up + down > s.threshold
  }

  /** The slice at hand and the slices handed over are what was billed. */
  ghost predicate SlicesBilled(states: seq<State>, actions: seq<Action>, n: nat, slot: Slot)
    requires n <= |actions| < |states|
  {
    var s, users := states[n], RowUsers(states, actions, n);
    if s.phase.Idle? then Get(s.billed, slot) == Handed(states, actions, n, slot)
    else
      && RowsFit(s, users) && AtHand(s, users)
      && Get(s.billed, slot) == Handed(states, actions, n, slot) + Carried(s.slice, users, slot)
  }

  lemma CarriedMore(rows: seq<UserTraffic>, users: seq<string>, row: UserTraffic, user: string, slot: Slot)
    requires |rows| == |users|
    ensures Carried(rows + [row], users + [user], slot) == Carried(rows, users, slot) +
      if user != slot.0 then 0 else if slot.1.Up? then row.upload else row.download
  {
    assert (rows + [row])[..|rows|] == rows && (users + [user])[..|users|] == users;
  }

  /** A step within a pass that appends no row. */
  lemma QuietStep(s: State, a: Action, t: State, users: seq<string>)
    requires Steps(s, a, t) && !s.phase.Idle? && !t.phase.Idle? && RowUser(s, a).None?
    requires RowsFit(s, users) && AtHand(s, users)
    ensures RowsFit(t, users) && AtHand(t, users) && t.slice == s.slice && t.billed == s.billed
  {
    hide Credit, AddTo;
    match a
    case Emit => DropFrame(s.(phase := Ranging), s.phase.user);
    case _ =>
  }

  lemma RowStep(s: State, a: Action, t: State, users: seq<string>, slot: Slot)
    requires Steps(s, a, t) && RowUser(s, a).Some?
    requires RowsFit(s, users) && AtHand(s, users)
    ensures !t.phase.Idle? && |s.slice| == |users|
    ensures
      var more := users + [RowUser(s, a).value];
      && RowsFit(t, more) && AtHand(t, more)
      && Get(t.billed, slot) - Get(s.billed, slot) == Carried(t.slice, more, slot) - Carried(s.slice, users, slot)
  {
    hide Credit, AddTo, Get, Carried;
    CreditAt(s.billed, s.phase.user, Pair(s.phase.up, s.phase.down), slot);
    CarriedMore(s.slice, users, UserTraffic(s.uids[s.phase.user], s.phase.up, s.phase.down), s.phase.user, slot);
  }

  /** Outside a pass nothing is billed. */
  lemma IdleStep(s: State, a: Action, t: State)
    requires Steps(s, a, t) && (s.phase.Idle? || t.phase.Idle?)
    ensures t.billed == s.billed
    ensures s.phase.Idle? && !t.phase.Idle? <==> a.Begin?
    ensures !s.phase.Idle? && t.phase.Idle? <==> a.End?
    ensures a.Begin? ==> t.slice == [] && t.phase.Ranging?
    ensures RowUser(s, a).None?
  {
    hide Credit, AddTo;
    match a
    case DelUser(user) => DropFrame(s, user);
    case _ =>
  }

  lemma SlicesStep(states: seq<State>, actions: seq<Action>, n: nat, slot: Slot)
    requires Run(states, actions) && n < |actions| && SlicesBilled(states, actions, n, slot)
    ensures SlicesBilled(states, actions, n + 1, slot)
  {
    hide Steps, Get, RowsFit, AtHand, RowUser, Carried;
    var s, a, t := states[n], actions[n], states[n + 1];
    var users := RowUsers(states, actions, n);
    assert Steps(s, a, t);
    if s.phase.Idle? || t.phase.Idle? {
      IdleStep(s, a, t);
      NoRows(t);
      if !s.phase.Idle? { FitLength(s, users); }
    } else {
      NoEdge(s, a, t);
      if RowUser(s, a).None? {
        QuietStep(s, a, t, users);
        assert users + [] == users;
      } else {
        RowStep(s, a, t, users, slot);
      }
    }
  }

  lemma NoRows(t: State)
    ensures t.slice == [] && t.phase.Ranging? ==> RowsFit(t, []) && AtHand(t, [])
    ensures forall slot :: Carried([], [], slot) == 0
  {
  }

  lemma FitLength(s: State, users: seq<string>)
    requires RowsFit(s, users)
    ensures |s.slice| == |users|
  {
  }

  lemma NoEdge(s: State, a: Action, t: State)
    requires Steps(s, a, t) && !s.phase.Idle? && !t.phase.Idle?
    ensures !a.Begin? && !a.End?
  {
  }

  /** In every run: between passes, what the passes handed over is exactly what was billed, for each
      user and direction; during a pass the difference is in the rows of its slice, one for each user
      billed in it. */
  lemma {:induction false} RunSlices(states: seq<State>, actions: seq<Action>, n: nat, slot: Slot)
    requires Run(states, actions) && Initial(states[0]) && n < |states|
    ensures SlicesBilled(states, actions, n, slot)
  {
    hide Steps, SlicesBilled;
    if n == 0 {
      SlicesStart(states, actions, slot);
    } else {
      RunSlices(states, actions, n - 1, slot);
      SlicesStep(states, actions, n - 1, slot);
    }
  }

  lemma SlicesStart(states: seq<State>, actions: seq<Action>, slot: Slot)
    requires |actions| < |states| && Initial(states[0])
    ensures SlicesBilled(states, actions, 0, slot)
  {
  }

  /** Within one pass: the slice at hand carries what was billed since the pass began. */
  lemma {:induction false} PassBilled(states: seq<State>, actions: seq<Action>, b: nat, n: nat, slot: Slot)
    requires Run(states, actions) && Initial(states[0]) && b < n < |states|
    requires actions[b].Begin? && forall m :: b < m < n ==> !actions[m].Begin? && !actions[m].End?
    ensures
      var s, users := states[n], RowUsers(states, actions, n);
      RowsFit(s, users) && Get(s.billed, slot) - Get(states[b].billed, slot) == Carried(s.slice, users, slot)
  {
    hide Steps, Get, RowsFit, AtHand, RowUser, Carried;
    RunSlices(states, actions, b, slot);
    RunSlices(states, actions, n, slot);
    assert Steps(states[b], actions[b], states[b + 1]);
    BeginsIdle(states[b], actions[b], states[b + 1]);
    HandedSame(states, actions, b, n, slot);
    StaysBusy(states, actions, b, n);
  }

  lemma BeginsIdle(s: State, a: Action, t: State)
    requires Steps(s, a, t) && a.Begin?
    ensures s.phase.Idle? && !t.phase.Idle?
  {
  }

  lemma {:induction false} HandedSame(states: seq<State>, actions: seq<Action>, b: nat, n: nat, slot: Slot)
    requires b <= n <= |actions| < |states| && forall m :: b <= m < n ==> !actions[m].End?
    ensures Handed(states, actions, n, slot) == Handed(states, actions, b, slot)
    decreases n
  {
    if b < n { HandedSame(states, actions, b, n - 1, slot); }
  }

  lemma {:induction false} StaysBusy(states: seq<State>, actions: seq<Action>, b: nat, n: nat)
    requires Run(states, actions) && b < n < |states|
    requires actions[b].Begin? && forall m :: b < m < n ==> !actions[m].Begin? && !actions[m].End?
    ensures !states[n].phase.Idle?
    decreases n
  {
    hide Steps;
    var s, a, t := states[n - 1], actions[n - 1], states[n];
    assert Steps(s, a, t);
    if b == n - 1 {
      BeginsIdle(s, a, t);
    } else {
      StaysBusy(states, actions, b, n - 1);
      if t.phase.Idle? { IdleStep(s, a, t); }
    }
  }

  // ---------------------------------------------------------------------
  // A user that nobody adds to during a pass
  // ---------------------------------------------------------------------

  /** The counter of the user still holds what it held when the pass began. */
  ghost predicate Holds(s: State, u: string, up: int, down: int) {
    u in s.counters && s.counters[u].up == up && s.counters[u].down == down
  }

  /** The pass is done with the user: at or below the threshold nothing changed; above it a known
      user has its row and a cleared counter, and an unknown user has no counter left. */
  ghost predicate Settled(s: State, users: seq<string>, u: string, up: int, down: int) {
    if up + down <= s.threshold then Holds(s, u, up, down) && u !in users
    else if u in s.uids && s.uids[u] != 0 then
      && Holds(s, u, 0, 0)
      && exists i ::
        0 <= i < |users| && i < |s.slice| && users[i] == u && s.slice[i] == UserTraffic(s.uids[u], up, down)
    else u !in s.counters && u !in users
  }

  /** How far the pass is with the user. */
  ghost predicate Visit(s: State, users: seq<string>, u: string, up: int, down: int) {
    if u !in s.visited then Holds(s, u, up, down) && u !in users
    else
      match s.phase
      case GotUp(v, x) => if v == u then Holds(s, u, up, down) && x == up else Settled(s, users, u, up, down)
      case GotBoth(v, x, y) =>
        if v == u then Holds(s, u, up, down) && x == up && y == down else Settled(s, users, u, up, down)
      case ClearedUp(v, x, y) =>
        if v == u then Holds(s, u, 0, down) && x == up && y == down else Settled(s, users, u, up, down)
      case Cleared(v, x, y) =>
        if v == u then Holds(s, u, 0, 0) && x == up && y == down else Settled(s, users, u, up, down)
      case _ => Settled(s, users, u, up, down)
  }

  lemma VisitQuiet(s: State, a: Action, t: State, users: seq<string>, u: string, up: int, down: int)
    requires Steps(s, a, t) && !s.phase.Idle? && !t.phase.Idle? && RowUser(s, a).None?
    requires RowsFit(s, users) && AtHand(s, users) && Visit(s, users, u, up, down)
    requires !(a.Add? && a.user == u)
    ensures Visit(t, users, u, up, down)
  {
    hide Credit, AddTo, Drop, Visit, Settled;
    match a
    case Emit => VisitDropped(s, t, users, u, up, down);
    case Add(v, dir, n) => VisitAdded(s, a, t, users, u, up, down);
    case _ => VisitMoved(s, a, t, users, u, up, down);
  }

  lemma VisitDropped(s: State, t: State, users: seq<string>, u: string, up: int, down: int)
    requires Steps(s, Emit, t) && RowUser(s, Emit).None?
    requires RowsFit(s, users) && AtHand(s, users) && Visit(s, users, u, up, down)
    ensures Visit(t, users, u, up, down)
  {
    hide Credit;
    DropFrame(s.(phase := Ranging), s.phase.user);
  }

  lemma VisitAdded(s: State, a: Action, t: State, users: seq<string>, u: string, up: int, down: int)
    requires Steps(s, a, t) && a.Add? && a.user != u && Visit(s, users, u, up, down)
    ensures Visit(t, users, u, up, down)
  {
    hide AddTo;
    AddOther(s.counters, a.user, a.dir, a.n, u);
  }

  lemma VisitMoved(s: State, a: Action, t: State, users: seq<string>, u: string, up: int, down: int)
    requires Steps(s, a, t) && !s.phase.Idle? && !t.phase.Idle? && !a.Emit? && !a.Add?
    requires AtHand(s, users) && Visit(s, users, u, up, down)
    ensures Visit(t, users, u, up, down)
  {
    hide Credit, AddTo;
  }

  lemma AddOther(counters: map<string, Pair>, v: string, dir: Dir, n: int, u: string)
    requires v != u
    ensures u in AddTo(counters, v, dir, n) <==> u in counters
    ensures u in counters ==> AddTo(counters, v, dir, n)[u] == counters[u]
  {
  }

  lemma VisitRow(s: State, a: Action, t: State, users: seq<string>, u: string, up: int, down: int)
    requires Steps(s, a, t) && RowUser(s, a).Some?
    requires RowsFit(s, users) && AtHand(s, users) && Visit(s, users, u, up, down)
    ensures Visit(t, users + [RowUser(s, a).value], u, up, down)
  {
    hide Credit, AddTo, Get;
    var v := RowUser(s, a).value;
    assert t.slice[..|s.slice|] == s.slice && t.slice[|s.slice|].uid == s.uids[v];
    assert (users + [v])[|users|] == v;
  }

  lemma VisitStep(states: seq<State>, actions: seq<Action>, n: nat, u: string, up: int, down: int)
    requires Run(states, actions) && Initial(states[0]) && n < |actions|
    requires !states[n].phase.Idle? && !actions[n].Begin? && !actions[n].End?
    requires !(actions[n].Add? && actions[n].user == u)
    requires Visit(states[n], RowUsers(states, actions, n), u, up, down)
    ensures !states[n + 1].phase.Idle?
    ensures Visit(states[n + 1], RowUsers(states, actions, n + 1), u, up, down)
  {
    hide Steps, Get, RowsFit, AtHand, RowUser, Carried, Visit;
    var s, a, t := states[n], actions[n], states[n + 1];
    var users := RowUsers(states, actions, n);
    assert Steps(s, a, t);
    RunSlices(states, actions, n, ("", Up));
    if t.phase.Idle? { IdleStep(s, a, t); }
    if RowUser(s, a).None? {
      VisitQuiet(s, a, t, users, u, up, down);
      assert users + [] == users;
    } else {
      VisitRow(s, a, t, users, u, up, down);
    }
  }

  lemma VisitStart(s: State, a: Action, t: State, u: string)
    requires Steps(s, a, t) && a.Begin? && u in s.counters
    ensures Visit(t, [], u, s.counters[u].up, s.counters[u].down) && !t.phase.Idle?
  {
  }

  lemma {:induction false} VisitRun(states: seq<State>, actions: seq<Action>, b: nat, n: nat, u: string)
    requires Run(states, actions) && Initial(states[0]) && b < n < |states|
    requires actions[b].Begin? && u in states[b].counters
    requires forall m :: b < m < n ==> !actions[m].Begin? && !actions[m].End?
    requires forall m :: b < m < n ==> !(actions[m].Add? && actions[m].user == u)
    ensures !states[n].phase.Idle?
    ensures Visit(states[n], RowUsers(states, actions, n), u, states[b].counters[u].up, states[b].counters[u].down)
    decreases n
  {
    hide Steps, Visit;
    if b == n - 1 {
      assert Steps(states[b], actions[b], states[n]);
      VisitStart(states[b], actions[b], states[n], u);
    } else {
      VisitRun(states, actions, b, n - 1, u);
      VisitStep(states, actions, n - 1, u, states[b].counters[u].up, states[b].counters[u].down);
    }
  }

  /** In every run, a user that was visited in a pass during which nobody added to its counter was
      treated as in one atomic step: a row over the threshold and no other, with what its counter
      held when the pass began. */
  lemma QuietVisit(states: seq<State>, actions: seq<Action>, b: nat, n: nat, u: string)
    requires Run(states, actions) && Initial(states[0]) && b < n < |states|
    requires actions[b].Begin? && u in states[b].counters
    requires forall m :: b < m < n ==> !actions[m].Begin? && !actions[m].End?
    requires forall m :: b < m < n ==> !(actions[m].Add? && actions[m].user == u)
    requires u in states[n].visited && states[n].phase.Ranging?
    ensures
      var p, t, users := states[b].counters[u], states[n], RowUsers(states, actions, n);
      if p.up + p.down <= t.threshold then u in t.counters && t.counters[u] == p && u !in users
      else if u in t.uids && t.uids[u] != 0 then
        && u in t.counters && t.counters[u].up == 0 && t.counters[u].down == 0
        && exists i ::
          0 <= i < |users| && i < |t.slice| && users[i] == u && t.slice[i] == UserTraffic(t.uids[u], p.up, p.down)
      else u !in t.counters && u !in users
  {
    hide RowUsers;
    VisitRun(states, actions, b, n, u);
  }
}
