/**
 Traffic counters under concurrency: any number of connections add bytes while one collector
 reads and clears the counters, one atomic operation at a time.

 Every load, store, delete and append is a step of its own, so an add can fall between the load
 and the store of a counter. `Collectors` treats several collectors at once. The ghost
 totals keep the books for each user and direction.
 */
module Traffic {
  import opened Basics
  import opened Panel

  type Slot = (string, Dir)

  /** Totals by user and direction; what has no entry is zero. */
  type Totals = map<Slot, int>

  function Get(t: Totals, s: Slot): int {
    if s in t then t[s] else 0
  }

  function Plus(t: Totals, s: Slot, n: int): Totals {
    t[s := Get(t, s) + n]
  }

  /** Where the collector is: between passes, between users of a pass, or at one user, with the
      values it loaded. */
  datatype Phase =
    | Idle
    | Ranging
    | GotUp(user: string, up: int)
    | GotBoth(user: string, up: int, down: int)
    | ClearedUp(user: string, up: int, down: int)
    | Cleared(user: string, up: int, down: int)

  datatype State = State(
    counters: map<string, Pair>,
    uids: map<string, int>,
    threshold: int,
    phase: Phase,
    visited: set<string>,
    slice: seq<UserTraffic>,
    added: Totals,
    billed: Totals,
    dropped: Totals,
    late: Totals,
    lost: Totals)

  datatype Action =
    | Add(user: string, dir: Dir, n: nat)
    | AddDetached(user: string, dir: Dir, n: nat)
    | Begin
    | LoadUp(user: string)
    | LoadDown
    | Skip
    | StoreUp
    | StoreDown
    | Emit
    | End
    | AddUser(user: string, uid: int)
    | DelUser(user: string)

  function UidOf(s: State, user: string): int {
    if user in s.uids then s.uids[user] else 0
  }

  function Pending(s: State, slot: Slot): int {
    if slot.0 in s.counters then s.counters[slot.0].At(slot.1) else 0
  }

  /** The counter of this slot was loaded and is not cleared yet. */
  predicate InWindow(s: State, slot: Slot) {
    match s.phase
    case GotUp(u, _) => slot == (u, Up)
    case GotBoth(u, _, _) => slot.0 == u
    case ClearedUp(u, _, _) => slot == (u, Down)
    case _ => false
  }

  /** Loaded and cleared, but not in the slice yet. */
  function Held(s: State, slot: Slot): int {
    match s.phase
    case ClearedUp(u, up, _) => if slot == (u, Up) then up else 0
    case Cleared(u, up, down) => if slot.0 == u then Pair(up, down).At(slot.1) else 0
    case _ => 0
  }

  /** Both directions of a user at once. */
  function Credit(t: Totals, user: string, p: Pair): Totals {
    Plus(Plus(t, (user, Up), p.up), (user, Down), p.down)
  }

  /** Removing a counter: what it still holds is dropped. */
  function Drop(s: State, user: string): State {
    if user in s.counters then
      s.(counters := s.counters - {user}, dropped := Credit(s.dropped, user, s.counters[user]))
    else s
  }

  /** Adding to one counter of a user, made on first use. */
  function AddTo(counters: map<string, Pair>, user: string, dir: Dir, n: int): map<string, Pair> {
    var c := if user in counters then counters[user] else Pair(0, 0);
    counters[user := c.Set(dir, c.At(dir) + n)]
  }

  /** May the action happen here? The collector holds the read lock for a whole pass, so users
      come and go only between passes; each pass visits a user at most once. */
  predicate Enabled(s: State, a: Action) {
    match a
    case Add(_, _, _) => true
    case AddDetached(_, _, _) => true
    case Begin => s.phase.Idle?
    case LoadUp(user) => s.phase.Ranging? && user in s.counters && user !in s.visited
    case LoadDown => s.phase.GotUp? && s.phase.user in s.counters
    case Skip => s.phase.GotBoth? && s.phase.up + s.phase.down <= s.threshold
    case StoreUp => s.phase.GotBoth? && s.phase.up + s.phase.down > s.threshold && s.phase.user in s.counters
    case StoreDown => s.phase.ClearedUp? && s.phase.user in s.counters
    case Emit => s.phase.Cleared?
    case End => s.phase.Ranging?
    case AddUser(_, _) => s.phase.Idle?
    case DelUser(_) => s.phase.Idle?
  }

  function Next(s: State, a: Action): State
    requires Enabled(s, a)
  {
    match a
    case Add(user, dir, n) =>
      s.(counters := AddTo(s.counters, user, dir, n),
         added := Plus(s.added, (user, dir), n),
         late := if InWindow(s, (user, dir)) then Plus(s.late, (user, dir), n) else s.late)
    case AddDetached(user, dir, n) =>
      s.(added := Plus(s.added, (user, dir), n), dropped := Plus(s.dropped, (user, dir), n))
    case Begin => s.(phase := Ranging, visited := {}, slice := [])
    case LoadUp(user) =>
      s.(phase := GotUp(user, s.counters[user].up), visited := s.visited + {user}, late := s.late[(user, Up) := 0])
    case LoadDown =>
      s.(phase := GotBoth(s.phase.user, s.phase.up, s.counters[s.phase.user].down),
         late := s.late[(s.phase.user, Down) := 0])
    case Skip => s.(phase := Ranging)
    case StoreUp => StoreZero(s, Up).(phase := ClearedUp(s.phase.user, s.phase.up, s.phase.down))
    case StoreDown => StoreZero(s, Down).(phase := Cleared(s.phase.user, s.phase.up, s.phase.down))
    case Emit =>
      var user, up, down := s.phase.user, s.phase.up, s.phase.down;
      var t := s.(phase := Ranging);
      if UidOf(s, user) == 0 then
        var d := Drop(t, user);
        d.(dropped := Credit(d.dropped, user, Pair(up, down)))
      else
        t.(slice := t.slice + [UserTraffic(UidOf(s, user), up, down)],
           billed := Credit(t.billed, user, Pair(up, down)))
    case End => s.(phase := Idle)
    case AddUser(user, uid) => s.(uids := s.uids[user := uid])
    case DelUser(user) => Drop(s, user).(uids := s.uids - {user})
  }

  /** Clearing one counter of the user at hand: what came since the load is lost. */
  function StoreZero(s: State, dir: Dir): State
    requires (s.phase.GotBoth? || s.phase.ClearedUp?) && s.phase.user in s.counters
  {
    var user := s.phase.user;
    s.(counters := s.counters[user := s.counters[user].Set(dir, 0)],
       lost := Plus(s.lost, (user, dir), Get(s.late, (user, dir))))
  }

  // ---------------------------------------------------------------------
  // The books
  // ---------------------------------------------------------------------

  ghost predicate Balanced(s: State, slot: Slot) {
    Get(s.added, slot)
      == Get(s.billed, slot) + Get(s.dropped, slot) + Get(s.lost, slot) + Pending(s, slot) + Held(s, slot)
  }

  ghost predicate NonNegative(s: State, slot: Slot) {
    && Get(s.billed, slot) >= 0 && Get(s.dropped, slot) >= 0 && Get(s.lost, slot) >= 0
    && Get(s.late, slot) >= 0 && Pending(s, slot) >= 0 && Held(s, slot) >= 0
  }

  /** What the collector loaded, in terms of what is in the counter now. */
  ghost predicate LoadedIs(s: State) {
    match s.phase
    case Idle => true
    case Ranging => true
    case GotUp(u, up) => u in s.counters && up >= 0 && s.counters[u].up == up + Get(s.late, (u, Up))
    case GotBoth(u, up, down) =>
      && u in s.counters && up >= 0 && down >= 0
      && s.counters[u].up == up + Get(s.late, (u, Up)) && s.counters[u].down == down + Get(s.late, (u, Down))
    case ClearedUp(u, up, down) =>
      u in s.counters && up >= 0 && down >= 0 && s.counters[u].down == down + Get(s.late, (u, Down))
    case Cleared(u, up, down) => u in s.counters && up >= 0 && down >= 0
  }

  ghost predicate Books(s: State) {
    LoadedIs(s) && forall slot: Slot :: Balanced(s, slot) && NonNegative(s, slot)
  }

  ghost predicate Initial(s: State) {
    && s.counters == map[] && s.phase.Idle?
    && s.added == map[] && s.billed == map[] && s.dropped == map[] && s.late == map[] && s.lost == map[]
  }

  lemma AddKeeps(s: State, user: string, dir: Dir, n: nat, slot: Slot)
    requires Books(s)
    ensures Balanced(Next(s, Add(user, dir, n)), slot) && NonNegative(Next(s, Add(user, dir, n)), slot)
  {
    assert Balanced(s, slot) && NonNegative(s, slot);
  }

  lemma StoreUpKeeps(s: State, slot: Slot)
    requires Books(s) && Enabled(s, StoreUp)
    ensures Balanced(Next(s, StoreUp), slot) && NonNegative(Next(s, StoreUp), slot)
  {
    assert Balanced(s, slot) && NonNegative(s, slot);
  }

  lemma StoreDownKeeps(s: State, slot: Slot)
    requires Books(s) && Enabled(s, StoreDown)
    ensures Balanced(Next(s, StoreDown), slot) && NonNegative(Next(s, StoreDown), slot)
  {
    assert Balanced(s, slot) && NonNegative(s, slot);
  }

  lemma CreditAt(t: Totals, user: string, p: Pair, slot: Slot)
    ensures Get(Credit(t, user, p), slot) == Get(t, slot) + if slot.0 == user then p.At(slot.1) else 0
  {
  }

  lemma DropKeeps(s: State, user: string, slot: Slot)
    ensures
      var t := Drop(s, user);
      && Pending(t, slot) + Get(t.dropped, slot) == Pending(s, slot) + Get(s.dropped, slot)
      && (t.dropped == s.dropped
          || Get(t.dropped, slot) == Get(s.dropped, slot) + if slot.0 == user then Pending(s, slot) else 0)
      && (Pending(t, slot) == 0 || Pending(t, slot) == Pending(s, slot))
  {
    hide Credit;
    if user in s.counters { CreditAt(s.dropped, user, s.counters[user], slot); }
  }

  lemma DropFrame(s: State, user: string)
    ensures Drop(s, user) == s.(counters := s.counters - {user}, dropped := Drop(s, user).dropped)
  {
    if user !in s.counters { assert s.counters - {user} == s.counters; }
  }

  lemma EmitDrops(s: State, slot: Slot)
    requires Books(s) && Enabled(s, Emit) && UidOf(s, s.phase.user) == 0
    ensures Balanced(Next(s, Emit), slot) && NonNegative(Next(s, Emit), slot)
  {
    hide Credit, Drop, Get, UidOf;
    var user, p := s.phase.user, Pair(s.phase.up, s.phase.down);
    var t := s.(phase := Ranging);
    DropKeeps(t, user, slot);
    DropFrame(t, user);
    CreditAt(Drop(t, user).dropped, user, p, slot);
    assert Balanced(s, slot) && NonNegative(s, slot);
  }

  lemma EmitBills(s: State, slot: Slot)
    requires Books(s) && Enabled(s, Emit) && UidOf(s, s.phase.user) != 0
    ensures Balanced(Next(s, Emit), slot) && NonNegative(Next(s, Emit), slot)
  {
    hide Credit, Drop, Get, UidOf;
    CreditAt(s.billed, s.phase.user, Pair(s.phase.up, s.phase.down), slot);
    assert Balanced(s, slot) && NonNegative(s, slot);
  }

  /** The row that a step appends to the slice carries what the collector held for the user, each
      direction in its column, and that is what the books count as billed. */
  lemma EmitReportsHeld(s: State)
    requires Enabled(s, Emit) && UidOf(s, s.phase.user) != 0
    ensures
      var t, user := Next(s, Emit), s.phase.user;
      var row := UserTraffic(s.uids[user], Held(s, (user, Up)), Held(s, (user, Down)));
      && t.slice == s.slice + [row]
      && Get(t.billed, (user, Up)) == Get(s.billed, (user, Up)) + row.upload
      && Get(t.billed, (user, Down)) == Get(s.billed, (user, Down)) + row.download
      && Held(t, (user, Up)) == 0 && Held(t, (user, Down)) == 0
  {
  }

  lemma OtherKeeps(s: State, a: Action, slot: Slot)
    requires Books(s) && Enabled(s, a) && !a.Add? && !a.StoreUp? && !a.StoreDown? && !a.Emit?
    ensures Balanced(Next(s, a), slot) && NonNegative(Next(s, a), slot)
  {
    hide Credit, Drop;
    if a.DelUser? { DropKeeps(s, a.user, slot); DropFrame(s, a.user); }
    assert Balanced(s, slot) && NonNegative(s, slot);
  }

  lemma LoadedKeeps(s: State, a: Action)
    requires Books(s) && Enabled(s, a)
    ensures LoadedIs(Next(s, a))
  {
    hide Credit;
    match a
    case Add(user, dir, n) =>
    case LoadUp(user) => assert NonNegative(s, (user, Up));
    case LoadDown => assert NonNegative(s, (s.phase.user, Down));
    case _ =>
  }

  /** Every step keeps the books. */
  lemma StepKeepsBooks(s: State, a: Action)
    requires Books(s) && Enabled(s, a)
    ensures Books(Next(s, a))
  {
    hide Books, LoadedIs, Next, Balanced, NonNegative;
    LoadedKeeps(s, a);
    forall slot: Slot ensures Balanced(Next(s, a), slot) && NonNegative(Next(s, a), slot) {
      match a
      case Add(user, dir, n) => AddKeeps(s, user, dir, n, slot);
      case StoreUp => StoreUpKeeps(s, slot);
      case StoreDown => StoreDownKeeps(s, slot);
      case Emit => if UidOf(s, s.phase.user) == 0 { EmitDrops(s, slot); } else { EmitBills(s, slot); }
      case _ => OtherKeeps(s, a, slot);
    }
    BooksOf(Next(s, a));
  }

  lemma BooksOf(s: State)
    requires LoadedIs(s) && forall slot: Slot :: Balanced(s, slot) && NonNegative(s, slot)
    ensures Books(s)
  {
  }

  // ---------------------------------------------------------------------
  // Runs
  // ---------------------------------------------------------------------

  predicate Steps(s: State, a: Action, t: State) {
    Enabled(s, a) && t == Next(s, a)
  }

  ghost predicate Run(states: seq<State>, actions: seq<Action>) {
    && |states| == |actions| + 1
    && forall i :: 0 <= i < |actions| ==> Steps(states[i], actions[i], states[i + 1])
  }

  lemma {:induction false} RunKeepsBooks(states: seq<State>, actions: seq<Action>, i: nat)
    requires Run(states, actions) && Initial(states[0]) && i < |states|
    ensures Books(states[i])
  {
    if i > 0 {
      hide Next;
      RunKeepsBooks(states, actions, i - 1);
      StepKeepsBooks(states[i - 1], actions[i - 1]);
      assert states[i] == Next(states[i - 1], actions[i - 1]);
    }
  }

  /** With one collector no bytes are billed twice: under every interleaving with the adders, what was
      reported for a user and a direction and what is still pending never exceed what was added; the
      difference is exactly what was dropped with removed users, what the collector holds, and what
      came between the load and the store of a counter. */
  lemma NoDoubleBilling(states: seq<State>, actions: seq<Action>, i: nat, slot: Slot)
    requires Run(states, actions) && Initial(states[0]) && i < |states|
    ensures
      var s := states[i];
      && Get(s.billed, slot) + Pending(s, slot) <= Get(s.added, slot)
      && Get(s.added, slot) - Get(s.billed, slot) - Pending(s, slot)
         == Get(s.dropped, slot) + Held(s, slot) + Get(s.lost, slot)
  {
    hide Next;
    RunKeepsBooks(states, actions, i);
    assert Balanced(states[i], slot) && NonNegative(states[i], slot);
  }

  /** A step that adds bytes to this counter. */
  predicate AddsTo(a: Action, slot: Slot) {
    a.Add? && (a.user, a.dir) == slot && a.n > 0
  }

  /** A step that clears this counter. */
  predicate Stores(s: State, a: Action, slot: Slot) {
    || (a.StoreUp? && s.phase.GotBoth? && slot == (s.phase.user, Up))
    || (a.StoreDown? && s.phase.ClearedUp? && slot == (s.phase.user, Down))
  }

  /** From step `i` to the state `k` the collector has the counter loaded and not cleared. */
  ghost predicate Open(states: seq<State>, slot: Slot, i: nat, k: nat) {
    k < |states| && forall m :: i <= m <= k ==> InWindow(states[m], slot)
  }

  /** Step `i` adds bytes while the counter is loaded, and it has stayed so up to the state `k`. */
  ghost predicate LateAt(states: seq<State>, actions: seq<Action>, slot: Slot, i: nat, k: nat)
    requires |states| == |actions| + 1
  {
    i < k <= |actions| && AddsTo(actions[i], slot) && Open(states, slot, i, k)
  }

  ghost predicate Late(states: seq<State>, actions: seq<Action>, slot: Slot, k: nat)
    requires |states| == |actions| + 1
  {
    exists i: nat :: LateAt(states, actions, slot, i, k)
  }

  /** Step `j` clears a counter to which bytes were added since it was loaded. */
  ghost predicate ClearsLate(states: seq<State>, actions: seq<Action>, slot: Slot, j: nat)
    requires |states| == |actions| + 1 && j < |actions|
  {
    Stores(states[j], actions[j], slot) && Late(states, actions, slot, j)
  }

  /** Before the state `k` some step cleared bytes that came late. */
  ghost predicate Lossy(states: seq<State>, actions: seq<Action>, slot: Slot, k: nat)
    requires |states| == |actions| + 1
  {
    exists j: nat :: j < k && j < |actions| && ClearsLate(states, actions, slot, j)
  }

  /** What one step does to the late and the lost bytes of a counter. */
  lemma StepLate(s: State, a: Action, slot: Slot)
    requires Enabled(s, a)
    ensures
      var t := Next(s, a);
      && Get(t.lost, slot) == Get(s.lost, slot) + (if Stores(s, a, slot) then Get(s.late, slot) else 0)
      && (InWindow(t, slot) && !InWindow(s, slot) ==> Get(t.late, slot) == 0)
      && (InWindow(t, slot) && InWindow(s, slot) ==>
            Get(t.late, slot) == Get(s.late, slot) + (if AddsTo(a, slot) then a.n else 0))
  {
    hide Next, Enabled, InWindow, Get, Stores, AddsTo;
    if a.StoreUp? || a.StoreDown? { ClearLate(s, a, slot); } else { OtherLate(s, a, slot); }
  }

  lemma ClearLate(s: State, a: Action, slot: Slot)
    requires Enabled(s, a) && (a.StoreUp? || a.StoreDown?)
    ensures
      var t := Next(s, a);
      && Get(t.lost, slot) == Get(s.lost, slot) + (if Stores(s, a, slot) then Get(s.late, slot) else 0)
      && (InWindow(t, slot) && !InWindow(s, slot) ==> Get(t.late, slot) == 0)
      && (InWindow(t, slot) && InWindow(s, slot) ==>
            Get(t.late, slot) == Get(s.late, slot) + (if AddsTo(a, slot) then a.n else 0))
  {
  }

  lemma OtherLate(s: State, a: Action, slot: Slot)
    requires Enabled(s, a) && !a.StoreUp? && !a.StoreDown?
    ensures
      var t := Next(s, a);
      && Get(t.lost, slot) == Get(s.lost, slot) + (if Stores(s, a, slot) then Get(s.late, slot) else 0)
      && (InWindow(t, slot) && !InWindow(s, slot) ==> Get(t.late, slot) == 0)
      && (InWindow(t, slot) && InWindow(s, slot) ==>
            Get(t.late, slot) == Get(s.late, slot) + (if AddsTo(a, slot) then a.n else 0))
  {
    hide Credit, Drop, AddTo;
    match a
    case Emit => DropFrame(s.(phase := Ranging), s.phase.user);
    case DelUser(user) => DropFrame(s, user);
    case LoadDown =>
      match slot {
        case (u, Up) => assert slot == (u, Up);
        case (u, Down) => assert slot == (u, Down);
      }
    case _ =>
  }

  lemma StoresInWindow(s: State, a: Action, slot: Slot)
    requires Stores(s, a, slot)
    ensures InWindow(s, slot)
  {
  }

  lemma LateStep(states: seq<State>, actions: seq<Action>, slot: Slot, k: nat)
    requires |states| == |actions| + 1 && k < |actions|
    ensures Late(states, actions, slot, k + 1)
       <==> (&& InWindow(states[k + 1], slot) && InWindow(states[k], slot)
             && (AddsTo(actions[k], slot) || Late(states, actions, slot, k)))
  {
    hide InWindow, AddsTo;
    if Late(states, actions, slot, k + 1) {
      var i: nat :| LateAt(states, actions, slot, i, k + 1);
      if i < k { assert LateAt(states, actions, slot, i, k); }
    }
    if InWindow(states[k + 1], slot) && InWindow(states[k], slot) {
      if AddsTo(actions[k], slot) { assert LateAt(states, actions, slot, k, k + 1); }
      if Late(states, actions, slot, k) {
        var i: nat :| LateAt(states, actions, slot, i, k);
        assert LateAt(states, actions, slot, i, k + 1);
      }
    }
  }

  lemma LossyStep(states: seq<State>, actions: seq<Action>, slot: Slot, k: nat)
    requires |states| == |actions| + 1 && k < |actions|
    ensures Lossy(states, actions, slot, k + 1)
       <==> Lossy(states, actions, slot, k) || ClearsLate(states, actions, slot, k)
  {
    hide ClearsLate;
    if Lossy(states, actions, slot, k) {
      var j: nat :| j < k && j < |actions| && ClearsLate(states, actions, slot, j);
      assert j < k + 1;
    }
  }

  /** The late and the lost bytes of a counter say what happened to it. */
  ghost predicate Matches(states: seq<State>, actions: seq<Action>, slot: Slot, k: nat)
    requires |states| == |actions| + 1 && k < |states|
  {
    && (InWindow(states[k], slot) ==> (Get(states[k].late, slot) > 0 <==> Late(states, actions, slot, k)))
    && (Get(states[k].lost, slot) > 0 <==> Lossy(states, actions, slot, k))
  }

  lemma MatchStep(states: seq<State>, actions: seq<Action>, slot: Slot, k: nat)
    requires |states| == |actions| + 1 && k < |actions|
    requires Steps(states[k], actions[k], states[k + 1])
    requires Books(states[k]) && Matches(states, actions, slot, k)
    ensures Matches(states, actions, slot, k + 1)
  {
    hide Next, Enabled, Late, Lossy, Stores, AddsTo, InWindow, Get, Books;
    var s, a := states[k], actions[k];
    BooksSigns(s, slot);
    StepLate(s, a, slot);
    LateStep(states, actions, slot, k);
    LossyStep(states, actions, slot, k);
    if Stores(s, a, slot) { StoresInWindow(s, a, slot); }
    if AddsTo(a, slot) { AddsMore(a, slot); }
  }

  lemma {:induction false} LateAndLost(states: seq<State>, actions: seq<Action>, slot: Slot, k: nat)
    requires Run(states, actions) && Initial(states[0]) && k < |states|
    ensures Matches(states, actions, slot, k)
  {
    hide Steps, Matches, Books, Initial;
    if k == 0 {
      MatchStart(states, actions, slot);
    } else {
      LateAndLost(states, actions, slot, k - 1);
      RunKeepsBooks(states, actions, k - 1);
      MatchStep(states, actions, slot, k - 1);
    }
  }

  lemma MatchStart(states: seq<State>, actions: seq<Action>, slot: Slot)
    requires |states| == |actions| + 1 && Initial(states[0])
    ensures Matches(states, actions, slot, 0)
  {
  }

  lemma BooksSigns(s: State, slot: Slot)
    requires Books(s)
    ensures Get(s.late, slot) >= 0 && Get(s.lost, slot) >= 0
  {
    assert NonNegative(s, slot);
  }

  lemma AddsMore(a: Action, slot: Slot)
    requires AddsTo(a, slot)
    ensures a.Add? && a.n > 0
  {
  }

  /** Bytes of a counter are lost exactly when bytes are added to it while the collector has it
      loaded, and the collector then clears it in the same visit. */
  lemma LostIff(states: seq<State>, actions: seq<Action>, slot: Slot, k: nat)
    requires Run(states, actions) && Initial(states[0]) && k < |states|
    ensures Get(states[k].lost, slot) > 0 <==>
      exists i: nat, j: nat ::
        i < j < k && AddsTo(actions[i], slot) && Stores(states[j], actions[j], slot) && Open(states, slot, i, j)
  {
    hide AddsTo, Stores, Open, Get, Initial, Run;
    assert |states| == |actions| + 1 by { RunLength(states, actions); }
    LateAndLost(states, actions, slot, k);
    if Lossy(states, actions, slot, k) {
      var j: nat :| j < k && j < |actions| && ClearsLate(states, actions, slot, j);
      var i: nat :| LateAt(states, actions, slot, i, j);
      assert AddsTo(actions[i], slot) && Open(states, slot, i, j);
    }
    if i: nat, j: nat :|
      i < j < k && AddsTo(actions[i], slot) && Stores(states[j], actions[j], slot) && Open(states, slot, i, j) {
      assert LateAt(states, actions, slot, i, j);
      assert ClearsLate(states, actions, slot, j);
    }
  }

  lemma RunLength(states: seq<State>, actions: seq<Action>)
    requires Run(states, actions)
    ensures |states| == |actions| + 1
  {
  }

  /** Every byte of a counter is accounted for, as reported, pending, with the collector, or dropped
      with a removed user, exactly when no visit of the collector loads the counter, has bytes added
      to it and then clears it. */
  lemma ConservedIff(states: seq<State>, actions: seq<Action>, k: nat, slot: Slot)
    requires Run(states, actions) && Initial(states[0]) && k < |states|
    ensures
      var s := states[k];
      (Get(s.added, slot) == Get(s.billed, slot) + Pending(s, slot) + Held(s, slot) + Get(s.dropped, slot))
      <==> !exists i: nat, j: nat ::
        i < j < k && AddsTo(actions[i], slot) && Stores(states[j], actions[j], slot) && Open(states, slot, i, j)
  {
    hide Get, Pending, Held, AddsTo, Stores, Open, Initial, Run;
    NoDoubleBilling(states, actions, k, slot);
    LostIff(states, actions, slot, k);
    RunKeepsBooks(states, actions, k);
    BooksSigns(states[k], slot);
  }

  /** An add while the counter is loaded does no harm if the collector then passes the user over. */
  lemma LateAddSkipped() returns (states: seq<State>, actions: seq<Action>)
    ensures Run(states, actions) && Initial(states[0])
    ensures |actions| > 4 && actions[4] == Add("u", Up, 5) && InWindow(states[4], ("u", Up))
    ensures
      var s := states[|actions|];
      Get(s.added, ("u", Up)) == 12 && Pending(s, ("u", Up)) == 12 && Get(s.lost, ("u", Up)) == 0
  {
    hide Steps;
    var t: Totals := map[];
    var s0 := State(map[], map[], 100, Idle, {}, [], t, t, t, t, t);
    var s1 := s0.(uids := map["u" := 1]);
    var s2 := s1.(counters := map["u" := Pair(7, 0)], added := map[("u", Up) := 7]);
    var s3 := s2.(phase := Ranging);
    var s4 := s3.(phase := GotUp("u", 7), visited := {"u"}, late := map[("u", Up) := 0]);
    var s5 := s4.(counters := map["u" := Pair(12, 0)], added := map[("u", Up) := 12], late := map[("u", Up) := 5]);
    var s6 := s5.(phase := GotBoth("u", 7, 0), late := map[("u", Up) := 5, ("u", Down) := 0]);
    var s7 := s6.(phase := Ranging);
    var s8 := s7.(phase := Idle);
    actions := [AddUser("u", 1), Add("u", Up, 7), Begin, LoadUp("u"), Add("u", Up, 5), LoadDown, Skip, End];
    states := [s0, s1, s2, s3, s4, s5, s6, s7, s8];
    SkipStart(s0, s1, s2, s3, s4);
    SkipAdd(s4, s5);
    SkipEnd(s5, s6, s7, s8);
  }

  lemma SkipStart(s0: State, s1: State, s2: State, s3: State, s4: State)
    requires s0 == State(map[], map[], 100, Idle, {}, [], map[], map[], map[], map[], map[])
    requires s1 == s0.(uids := map["u" := 1])
    requires s2 == s1.(counters := map["u" := Pair(7, 0)], added := map[("u", Up) := 7])
    requires s3 == s2.(phase := Ranging)
    requires s4 == s3.(phase := GotUp("u", 7), visited := {"u"}, late := map[("u", Up) := 0])
    ensures Steps(s0, AddUser("u", 1), s1) && Steps(s1, Add("u", Up, 7), s2)
    ensures Steps(s2, Begin, s3) && Steps(s3, LoadUp("u"), s4)
  {
  }

  /** Five bytes on top of seven. */
  lemma FiveMore()
    ensures AddTo(map["u" := Pair(7, 0)], "u", Up, 5) == map["u" := Pair(12, 0)]
    ensures var seven: Totals := map[("u", Up) := 7]; Plus(seven, ("u", Up), 5) == map[("u", Up) := 12]
    ensures var zero: Totals := map[("u", Up) := 0]; Plus(zero, ("u", Up), 5) == map[("u", Up) := 5]
    ensures
      var zeros: Totals := map[("u", Up) := 0, ("u", Down) := 0];
      Plus(zeros, ("u", Up), 5) == map[("u", Up) := 5, ("u", Down) := 0]
  {
  }

  lemma SkipAdd(s4: State, s5: State)
    requires s4.phase == GotUp("u", 7) && s4.counters == map["u" := Pair(7, 0)]
    requires s4.late == map[("u", Up) := 0] && s4.added == map[("u", Up) := 7]
    requires s5 == s4.(counters := map["u" := Pair(12, 0)], added := map[("u", Up) := 12], late := map[("u", Up) := 5])
    ensures Steps(s4, Add("u", Up, 5), s5)
  {
    hide AddTo, Plus;
    FiveMore();
  }

  lemma SkipEnd(s5: State, s6: State, s7: State, s8: State)
    requires s5.phase == GotUp("u", 7) && s5.counters == map["u" := Pair(12, 0)] && s5.threshold == 100
    requires s5.late == map[("u", Up) := 5]
    requires s6 == s5.(phase := GotBoth("u", 7, 0), late := map[("u", Up) := 5, ("u", Down) := 0])
    requires s7 == s6.(phase := Ranging) && s8 == s7.(phase := Idle)
    ensures Steps(s5, LoadDown, s6) && Steps(s6, Skip, s7) && Steps(s7, End, s8)
  {
  }

  /** An add in the window is lost: five bytes come after the collector loaded seven, and
      neither a report nor the counter has them afterwards. */
  lemma LateAddIsLost() returns (states: seq<State>, actions: seq<Action>)
    ensures Run(states, actions) && Initial(states[0])
    ensures
      var s := states[|actions|];
      && s.phase.Idle? && s.slice == [UserTraffic(1, 7, 0)]
      && Get(s.added, ("u", Up)) == 12 && Get(s.billed, ("u", Up)) == 7
      && Pending(s, ("u", Up)) == 0 && Get(s.dropped, ("u", Up)) == 0
  {
    hide Steps, Get, Pending, Initial;
    var t: Totals := map[];
    var z: Totals := map[("u", Up) := 0];
    var zz: Totals := map[("u", Up) := 0, ("u", Down) := 0];
    var a7: Totals := map[("u", Up) := 7];
    var a12: Totals := map[("u", Up) := 12];
    var l5: Totals := map[("u", Up) := 5, ("u", Down) := 0];
    var s0 := State(map[], map[], 0, Idle, {}, [], t, t, t, t, t);
    var s1 := s0.(uids := map["u" := 1]);
    var s2 := s1.(counters := map["u" := Pair(7, 0)], added := a7);
    var s3 := s2.(phase := Ranging);
    var s4 := s3.(phase := GotUp("u", 7), visited := {"u"}, late := z);
    var s5 := s4.(phase := GotBoth("u", 7, 0), late := zz);
    var s6 := s5.(counters := map["u" := Pair(12, 0)], added := a12, late := l5);
    var s7 := s6.(counters := map["u" := Pair(0, 0)], phase := ClearedUp("u", 7, 0), lost := map[("u", Up) := 5]);
    var s8 := s7.(phase := Cleared("u", 7, 0), lost := l5);
    var s9 := s8.(phase := Ranging, slice := [UserTraffic(1, 7, 0)], billed := map[("u", Up) := 7, ("u", Down) := 0]);
    var s10 := s9.(phase := Idle);
    actions := [AddUser("u", 1), Add("u", Up, 7), Begin, LoadUp("u"), LoadDown, Add("u", Up, 5),
                StoreUp, StoreDown, Emit, End];
    states := [s0, s1, s2, s3, s4, s5, s6, s7, s8, s9, s10];
    LateInitial(s0);
    LateStart(s0, s1, s2, s3);
    LateLoads(s3, s4, s5);
    LateAdd(s5, s6);
    LateStoreUp(s6, s7);
    LateStoreDown(s7, s8);
    LateEmit(s8, s9, s10);
    LateBooks(s10);
  }

  lemma LateInitial(s0: State)
    requires s0 == State(map[], map[], 0, Idle, {}, [], map[], map[], map[], map[], map[])
    ensures Initial(s0)
  {
  }

  lemma LateBooks(s: State)
    requires s.counters == map["u" := Pair(0, 0)] && s.added == map[("u", Up) := 12]
    requires s.billed == map[("u", Up) := 7, ("u", Down) := 0] && s.dropped == map[]
    ensures Get(s.added, ("u", Up)) == 12 && Get(s.billed, ("u", Up)) == 7
    ensures Pending(s, ("u", Up)) == 0 && Get(s.dropped, ("u", Up)) == 0
  {
  }

  lemma LateStart(s0: State, s1: State, s2: State, s3: State)
    requires s0 == State(map[], map[], 0, Idle, {}, [], map[], map[], map[], map[], map[])
    requires s1 == s0.(uids := map["u" := 1])
    requires s2 == s1.(counters := map["u" := Pair(7, 0)], added := map[("u", Up) := 7])
    requires s3 == s2.(phase := Ranging)
    ensures Steps(s0, AddUser("u", 1), s1) && Steps(s1, Add("u", Up, 7), s2) && Steps(s2, Begin, s3)
  {
  }

  lemma LateLoads(s3: State, s4: State, s5: State)
    requires s3.phase.Ranging? && s3.counters == map["u" := Pair(7, 0)] && s3.visited == {} && s3.late == map[]
    requires s4 == s3.(phase := GotUp("u", 7), visited := {"u"}, late := map[("u", Up) := 0])
    requires s5 == s4.(phase := GotBoth("u", 7, 0), late := map[("u", Up) := 0, ("u", Down) := 0])
    ensures Steps(s3, LoadUp("u"), s4) && Steps(s4, LoadDown, s5)
  {
  }

  lemma LateAdd(s5: State, s6: State)
    requires s5.phase == GotBoth("u", 7, 0) && s5.counters == map["u" := Pair(7, 0)]
    requires s5.late == map[("u", Up) := 0, ("u", Down) := 0] && s5.added == map[("u", Up) := 7]
    requires
      s6 == s5.(counters := map["u" := Pair(12, 0)], added := map[("u", Up) := 12],
                late := map[("u", Up) := 5, ("u", Down) := 0])
    ensures Steps(s5, Add("u", Up, 5), s6)
  {
    hide AddTo, Plus;
    FiveMore();
  }

  lemma LateStoreUp(s6: State, s7: State)
    requires s6.phase == GotBoth("u", 7, 0) && s6.threshold == 0
    requires s6.counters == map["u" := Pair(12, 0)] && s6.late == map[("u", Up) := 5, ("u", Down) := 0]
    requires s6.lost == map[]
    requires
      s7 == s6.(counters := map["u" := Pair(0, 0)], phase := ClearedUp("u", 7, 0), lost := map[("u", Up) := 5])
    ensures Steps(s6, StoreUp, s7)
  {
  }

  lemma LateStoreDown(s7: State, s8: State)
    requires s7.phase == ClearedUp("u", 7, 0) && s7.counters == map["u" := Pair(0, 0)]
    requires s7.late == map[("u", Up) := 5, ("u", Down) := 0] && s7.lost == map[("u", Up) := 5]
    requires s8 == s7.(phase := Cleared("u", 7, 0), lost := map[("u", Up) := 5, ("u", Down) := 0])
    ensures Steps(s7, StoreDown, s8)
  {
  }

  lemma LateEmit(s8: State, s9: State, s10: State)
    requires s8.phase == Cleared("u", 7, 0) && s8.uids == map["u" := 1] && s8.slice == [] && s8.billed == map[]
    requires
      s9 == s8.(phase := Ranging, slice := [UserTraffic(1, 7, 0)], billed := map[("u", Up) := 7, ("u", Down) := 0])
    requires s10 == s9.(phase := Idle)
    ensures Steps(s8, Emit, s9) && Steps(s9, End, s10)
  {
  }
}
