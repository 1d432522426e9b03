/**
 Several collectors on one table of counters, one atomic operation at a time.

 The collector holds only a read lock, so two passes can run at once, as they do after a report task
 was restarted while it executed. `Traffic` keeps the books of one collector in amounts; here every
 byte counts for itself. The bytes ever added to a counter are numbered, the counter holds those that
 were not cleared yet, and a load sees a stretch of them.
 */
module Collectors {
  import opened Basics

  /** The bytes `from` up to `from + count`, as seen by the load at step `at`. */
  datatype Loaded = Loaded(from: int, count: int, at: nat)

  /** A storage: its counters, how many bytes were ever added, and how many of them were cleared. */
  datatype Storage = Storage(value: Pair, added: Pair, cleared: Pair)

  /** Where one collector is: between passes, between users, or at one user, with what it loaded. */
  datatype Phase =
    | Idle
    | Ranging
    | GotUp(user: string, sid: nat, up: Loaded)
    | GotBoth(user: string, sid: nat, up: Loaded, down: Loaded)
    | ClearedUp(user: string, sid: nat, up: Loaded, down: Loaded)
    | Cleared(user: string, sid: nat, up: Loaded, down: Loaded)

  /** One direction of a row: the bytes billed, and the storage they were counted in. */
  datatype Bill = Bill(sid: nat, dir: Dir, bytes: Loaded)

  /** `table` maps users to storages; a storage that left the table lives on with its connections. */
  datatype Machine = Machine(
    table: map<string, nat>,
    storages: seq<Storage>,
    uids: map<string, int>,
    threshold: int,
    phases: map<nat, Phase>,
    bills: seq<Bill>,
    now: nat)

  datatype Move =
    | Connect(user: string)
    | Add(sid: nat, dir: Dir, n: nat)
    | Begin(k: nat)
    | LoadUp(k: nat, user: string)
    | LoadDown(k: nat)
    | Skip(k: nat)
    | StoreUp(k: nat)
    | StoreDown(k: nat)
    | Emit(k: nat)
    | End(k: nat)
    | AddUser(user: string, uid: int)
    | DelUser(user: string)

  function PhaseOf(s: Machine, k: nat): Phase {
    if k in s.phases then s.phases[k] else Idle
  }

  predicate AllIdle(s: Machine) {
    forall k :: k in s.phases ==> s.phases[k].Idle?
  }

  /** The collector is at a user whose storage exists. */
  predicate AtStorage(s: Machine, k: nat) {
    var p := PhaseOf(s, k);
    !p.Idle? && !p.Ranging? && p.sid < |s.storages|
  }

  predicate Enabled(s: Machine, a: Move) {
    match a
    case Connect(_) => true
    case Add(sid, _, _) => sid < |s.storages|
    case Begin(k) => PhaseOf(s, k).Idle?
    case LoadUp(k, user) => PhaseOf(s, k).Ranging? && user in s.table && s.table[user] < |s.storages|
    case LoadDown(k) => AtStorage(s, k) && PhaseOf(s, k).GotUp?
    case Skip(k) => PhaseOf(s, k).GotBoth? && PhaseOf(s, k).up.count + PhaseOf(s, k).down.count <= s.threshold
    case StoreUp(k) =>
      && AtStorage(s, k) && PhaseOf(s, k).GotBoth?
      && PhaseOf(s, k).up.count + PhaseOf(s, k).down.count > s.threshold
    case StoreDown(k) => AtStorage(s, k) && PhaseOf(s, k).ClearedUp?
    case Emit(k) => PhaseOf(s, k).Cleared?
    case End(k) => PhaseOf(s, k).Ranging?
    case AddUser(_, _) => AllIdle(s)
    case DelUser(_) => AllIdle(s)
  }

  function Load(s: Machine, sid: nat, dir: Dir): Loaded
    requires sid < |s.storages|
  {
    Loaded(s.storages[sid].cleared.At(dir), s.storages[sid].value.At(dir), s.now)
  }

  /** Setting one counter of a storage to zero clears every byte added so far. */
  function Zeroed(t: Storage, dir: Dir): Storage {
    Storage(t.value.Set(dir, 0), t.added, t.cleared.Set(dir, t.added.At(dir)))
  }

  function Grown(t: Storage, dir: Dir, n: int): Storage {
    Storage(t.value.Set(dir, t.value.At(dir) + n), t.added.Set(dir, t.added.At(dir) + n), t.cleared)
  }

  function SetPhase(s: Machine, k: nat, p: Phase): Machine {
    s.(phases := s.phases[k := p])
  }

  /** What a move does, except for the step count. */
  function Effect(s: Machine, a: Move): Machine
    requires Enabled(s, a)
  {
    match a
    case Connect(user) =>
      if user in s.table then s
      else s.(table := s.table[user := |s.storages|],
              storages := s.storages + [Storage(Pair(0, 0), Pair(0, 0), Pair(0, 0))])
    case Add(sid, dir, n) => s.(storages := s.storages[sid := Grown(s.storages[sid], dir, n)])
    case Begin(k) => SetPhase(s, k, Ranging)
    case LoadUp(k, user) => SetPhase(s, k, GotUp(user, s.table[user], Load(s, s.table[user], Up)))
    case LoadDown(k) =>
      var p := PhaseOf(s, k);
      SetPhase(s, k, GotBoth(p.user, p.sid, p.up, Load(s, p.sid, Down)))
    case Skip(k) => SetPhase(s, k, Ranging)
    case StoreUp(k) =>
      var p := PhaseOf(s, k);
      SetPhase(s, k, ClearedUp(p.user, p.sid, p.up, p.down)).(
        storages := s.storages[p.sid := Zeroed(s.storages[p.sid], Up)])
    case StoreDown(k) =>
      var p := PhaseOf(s, k);
      SetPhase(s, k, Cleared(p.user, p.sid, p.up, p.down)).(
        storages := s.storages[p.sid := Zeroed(s.storages[p.sid], Down)])
    case Emit(k) =>
      var p := PhaseOf(s, k);
      if p.user !in s.uids || s.uids[p.user] == 0 then SetPhase(s, k, Ranging).(table := s.table - {p.user})
      else SetPhase(s, k, Ranging).(bills := s.bills + [Bill(p.sid, Up, p.up), Bill(p.sid, Down, p.down)])
    case End(k) => SetPhase(s, k, Idle)
    case AddUser(user, uid) => s.(uids := s.uids[user := uid])
    case DelUser(user) => s.(uids := s.uids - {user}, table := s.table - {user})
  }

  predicate Steps(s: Machine, a: Move, t: Machine) {
    Enabled(s, a) && t == Effect(s, a).(now := s.now + 1)
  }

  ghost predicate Run(states: seq<Machine>, moves: seq<Move>) {
    && |states| == |moves| + 1
    && forall i :: 0 <= i < |moves| ==> Steps(states[i], moves[i], states[i + 1])
  }

  ghost predicate Initial(s: Machine) {
    s.table == map[] && s.storages == [] && s.phases == map[] && s.bills == [] && s.now == 0
  }

  // ---------------------------------------------------------------------
  // One counter
  // ---------------------------------------------------------------------

  predicate HasStorage(s: Machine, sid: nat) {
    sid < |s.storages|
  }

  function AddedTo(s: Machine, sid: nat, dir: Dir): int {
    if HasStorage(s, sid) then s.storages[sid].added.At(dir) else 0
  }

  function ClearedOf(s: Machine, sid: nat, dir: Dir): int {
    if HasStorage(s, sid) then s.storages[sid].cleared.At(dir) else 0
  }

  function ValueOf(s: Machine, sid: nat, dir: Dir): int {
    if HasStorage(s, sid) then s.storages[sid].value.At(dir) else 0
  }

  /** The move loads this counter. */
  predicate Loads(s: Machine, a: Move, sid: nat, dir: Dir) {
    || (a.LoadUp? && a.user in s.table && s.table[a.user] == sid && dir.Up?)
    || (a.LoadDown? && PhaseOf(s, a.k).GotUp? && PhaseOf(s, a.k).sid == sid && dir.Down?)
  }

  /** The move sets this counter to zero. */
  predicate Stores(s: Machine, a: Move, sid: nat, dir: Dir) {
    || (a.StoreUp? && PhaseOf(s, a.k).GotBoth? && PhaseOf(s, a.k).sid == sid && dir.Up?)
    || (a.StoreDown? && PhaseOf(s, a.k).ClearedUp? && PhaseOf(s, a.k).sid == sid && dir.Down?)
  }

  /** The counter holds the bytes that were not cleared yet. */
  ghost predicate Holds(s: Machine, sid: nat, dir: Dir) {
    && ValueOf(s, sid, dir) == AddedTo(s, sid, dir) - ClearedOf(s, sid, dir)
    && 0 <= ClearedOf(s, sid, dir) <= AddedTo(s, sid, dir)
  }

  /** What one step does to one counter: bytes are only ever added and cleared, and only a store
      clears, and then all of them. */
  lemma StepCounter(s: Machine, a: Move, t: Machine, sid: nat, dir: Dir)
    requires Steps(s, a, t) && Holds(s, sid, dir)
    ensures Holds(t, sid, dir)
    ensures AddedTo(t, sid, dir) ==
      AddedTo(s, sid, dir) + if a.Add? && a.sid == sid && a.dir == dir then a.n else 0
    ensures ClearedOf(t, sid, dir) == if Stores(s, a, sid, dir) then AddedTo(s, sid, dir) else ClearedOf(s, sid, dir)
  {
    match a
    case Connect(user) =>
    case Add(x, d, n) =>
    case StoreUp(k) =>
    case StoreDown(k) =>
    case Emit(k) =>
    case _ =>
  }

  lemma {:induction false} RunHolds(states: seq<Machine>, moves: seq<Move>, n: nat, sid: nat, dir: Dir)
    requires Run(states, moves) && Initial(states[0]) && n < |states|
    ensures Holds(states[n], sid, dir)
  {
    hide Steps, Holds;
    if n == 0 {
      StartHolds(states[0], sid, dir);
    } else {
      RunHolds(states, moves, n - 1, sid, dir);
      StepCounter(states[n - 1], moves[n - 1], states[n], sid, dir);
    }
  }

  lemma StartHolds(s: Machine, sid: nat, dir: Dir)
    requires Initial(s)
    ensures Holds(s, sid, dir)
  {
  }

  /** Between two steps: without a store the cleared bytes stay; with one, all bytes added before it
      are cleared. */
  lemma {:induction false} Between(states: seq<Machine>, moves: seq<Move>, i: nat, j: nat, sid: nat, dir: Dir)
    requires Run(states, moves) && Initial(states[0]) && i <= j < |states|
    ensures AddedTo(states[j], sid, dir) >= AddedTo(states[i], sid, dir)
    ensures if NoStore(states, moves, i, j, sid, dir)
      then ClearedOf(states[j], sid, dir) == ClearedOf(states[i], sid, dir)
      else ClearedOf(states[j], sid, dir) >= AddedTo(states[i], sid, dir)
    decreases j - i
  {
    hide Steps, Holds, Stores, AddedTo, ClearedOf;
    if i < j {
      Between(states, moves, i, j - 1, sid, dir);
      RunHolds(states, moves, j - 1, sid, dir);
      StepCounter(states[j - 1], moves[j - 1], states[j], sid, dir);
      RunHolds(states, moves, j, sid, dir);
      HoldsMeans(states[j - 1], sid, dir);
      NoStoreMore(states, moves, i, j, sid, dir);
    }
  }

  ghost predicate NoStore(states: seq<Machine>, moves: seq<Move>, i: nat, j: nat, sid: nat, dir: Dir)
    requires |states| == |moves| + 1 && j < |states|
  {
    forall m :: i <= m < j ==> !Stores(states[m], moves[m], sid, dir)
  }

  lemma NoStoreMore(states: seq<Machine>, moves: seq<Move>, i: nat, j: nat, sid: nat, dir: Dir)
    requires |states| == |moves| + 1 && i < j < |states|
    ensures NoStore(states, moves, i, j, sid, dir)
       <==> NoStore(states, moves, i, j - 1, sid, dir) && !Stores(states[j - 1], moves[j - 1], sid, dir)
  {
    hide Stores;
  }

  lemma HoldsMeans(s: Machine, sid: nat, dir: Dir)
    requires Holds(s, sid, dir)
    ensures ValueOf(s, sid, dir) == AddedTo(s, sid, dir) - ClearedOf(s, sid, dir)
    ensures 0 <= ClearedOf(s, sid, dir) <= AddedTo(s, sid, dir)
  {
  }

  // ---------------------------------------------------------------------
  // Where bills come from
  // ---------------------------------------------------------------------

  /** These bytes are what the collector `k` loaded from the counter at step `b.at`. */
  ghost predicate Stamped(states: seq<Machine>, moves: seq<Move>, n: nat, b: Loaded, k: nat, sid: nat, dir: Dir)
    requires |states| == |moves| + 1
  {
    && b.at < n <= |moves|
    && Loads(states[b.at], moves[b.at], sid, dir) && Who(moves[b.at]) == k
    && b.from == ClearedOf(states[b.at], sid, dir) && b.count == ValueOf(states[b.at], sid, dir)
  }

  ghost predicate SomeoneLoaded(states: seq<Machine>, moves: seq<Move>, n: nat, b: Loaded, sid: nat, dir: Dir)
    requires |states| == |moves| + 1
  {
    exists k :: Stamped(states, moves, n, b, k, sid, dir)
  }

  function Who(a: Move): nat {
    match a
    case LoadUp(k, _) => k
    case LoadDown(k) => k
    case _ => 0
  }

  /** What the collector `k` holds of this counter, if anything. */
  function HeldOf(p: Phase, sid: nat, dir: Dir): Option<Loaded> {
    if p.Idle? || p.Ranging? || p.sid != sid then None
    else if dir.Up? then Some(p.up)
    else if p.GotUp? then None
    else Some(p.down)
  }

  /** Every bill and everything held goes back to a load; a counter has one bill for a load at most,
      and none for what is still held. */
  ghost predicate Traced(states: seq<Machine>, moves: seq<Move>, n: nat, sid: nat, dir: Dir)
    requires |states| == |moves| + 1 && n < |states|
  {
    var s := states[n];
    && s.now == n
    && (forall i :: 0 <= i < |s.bills| && IsOf(s.bills[i], sid, dir) ==>
          SomeoneLoaded(states, moves, n, s.bills[i].bytes, sid, dir))
    && (forall i, j :: 0 <= i < j < |s.bills| && IsOf(s.bills[i], sid, dir) && IsOf(s.bills[j], sid, dir) ==>
          s.bills[i].bytes.at != s.bills[j].bytes.at)
    && (forall k :: HeldOf(PhaseOf(s, k), sid, dir).Some? ==>
          Stamped(states, moves, n, HeldOf(PhaseOf(s, k), sid, dir).value, k, sid, dir))
    && (forall k, i :: 0 <= i < |s.bills| && IsOf(s.bills[i], sid, dir) && HeldOf(PhaseOf(s, k), sid, dir).Some? ==>
          s.bills[i].bytes.at != HeldOf(PhaseOf(s, k), sid, dir).value.at)
  }

  predicate IsOf(b: Bill, sid: nat, dir: Dir) {
    b.sid == sid && b.dir == dir
  }

  /** What one step does to what the collectors hold: a load takes hold, other moves keep or drop. */
  lemma StepHeld(s: Machine, a: Move, t: Machine, sid: nat, dir: Dir, k: nat)
    requires Steps(s, a, t)
    ensures
      var before, after := HeldOf(PhaseOf(s, k), sid, dir), HeldOf(PhaseOf(t, k), sid, dir);
      && (after.Some? && after != before ==>
            && Loads(s, a, sid, dir) && Who(a) == k
            && after.value == Loaded(ClearedOf(s, sid, dir), ValueOf(s, sid, dir), s.now))
  {
    match a
    case LoadUp(c, user) =>
    case LoadDown(c) =>
    case StoreUp(c) =>
    case StoreDown(c) =>
    case Emit(c) =>
    case _ =>
  }

  /** What one step does to the bills of a counter: at most one is added, for what its collector
      held and holds no more. */
  lemma StepBills(s: Machine, a: Move, t: Machine, sid: nat, dir: Dir)
    requires Steps(s, a, t)
    ensures s.bills <= t.bills
    ensures forall i, j :: |s.bills| <= i < j < |t.bills| ==>
      !(IsOf(t.bills[i], sid, dir) && IsOf(t.bills[j], sid, dir))
    ensures forall i :: |s.bills| <= i < |t.bills| && IsOf(t.bills[i], sid, dir) ==>
      && a.Emit? && HeldOf(PhaseOf(s, a.k), sid, dir) == Some(t.bills[i].bytes)
      && HeldOf(PhaseOf(t, a.k), sid, dir).None?
  {
    match a
    case Emit(c) =>
    case _ =>
  }

  lemma StampedLater(states: seq<Machine>, moves: seq<Move>, n: nat, b: Loaded, k: nat, sid: nat, dir: Dir)
    requires |states| == |moves| + 1 && n < |moves| && Stamped(states, moves, n, b, k, sid, dir)
    ensures Stamped(states, moves, n + 1, b, k, sid, dir)
  {
    hide Loads, ClearedOf, ValueOf;
  }

  /** What different collectors hold was loaded at different steps. */
  lemma StampsDiffer(states: seq<Machine>, moves: seq<Move>, n: nat, b: Loaded, k: nat, c: Loaded, l: nat, sid: nat,
                     dir: Dir)
    requires |states| == |moves| + 1 && k != l
    requires Stamped(states, moves, n, b, k, sid, dir) && Stamped(states, moves, n, c, l, sid, dir)
    ensures b.at != c.at
  {
    hide Loads, ClearedOf, ValueOf;
  }

  lemma HeldTraced(states: seq<Machine>, moves: seq<Move>, n: nat, sid: nat, dir: Dir, k: nat)
    requires Run(states, moves) && n < |moves| && Traced(states, moves, n, sid, dir)
    requires HeldOf(PhaseOf(states[n + 1], k), sid, dir).Some?
    ensures
      var b := HeldOf(PhaseOf(states[n + 1], k), sid, dir).value;
      Stamped(states, moves, n + 1, b, k, sid, dir) && (b.at == n || HeldOf(PhaseOf(states[n], k), sid, dir) == Some(b))
  {
    hide Loads, ClearedOf, ValueOf, HeldOf, Steps, PhaseOf;
    assert Steps(states[n], moves[n], states[n + 1]);
    StepHeld(states[n], moves[n], states[n + 1], sid, dir, k);
  }

  lemma BillTraced(states: seq<Machine>, moves: seq<Move>, n: nat, sid: nat, dir: Dir, i: nat)
    requires Run(states, moves) && n < |moves| && Traced(states, moves, n, sid, dir)
    requires i < |states[n + 1].bills| && IsOf(states[n + 1].bills[i], sid, dir)
    ensures
      var s, b := states[n], states[n + 1].bills[i].bytes;
      && SomeoneLoaded(states, moves, n + 1, b, sid, dir)
      && if i < |s.bills| then s.bills[i] == states[n + 1].bills[i]
         else moves[n].Emit? && HeldOf(PhaseOf(s, moves[n].k), sid, dir) == Some(b)
  {
    hide Loads, ClearedOf, ValueOf, HeldOf, Steps, PhaseOf, Stamped;
    assert Steps(states[n], moves[n], states[n + 1]);
    StepBills(states[n], moves[n], states[n + 1], sid, dir);
    if i < |states[n].bills| {
      var k :| Stamped(states, moves, n, states[n].bills[i].bytes, k, sid, dir);
      StampedLater(states, moves, n, states[n].bills[i].bytes, k, sid, dir);
    } else {
      StampedLater(states, moves, n, states[n + 1].bills[i].bytes, moves[n].k, sid, dir);
    }
  }

  lemma BillsApart(states: seq<Machine>, moves: seq<Move>, n: nat, sid: nat, dir: Dir, i: nat, j: nat)
    requires Run(states, moves) && n < |moves| && Traced(states, moves, n, sid, dir)
    requires i < j < |states[n + 1].bills|
    requires IsOf(states[n + 1].bills[i], sid, dir) && IsOf(states[n + 1].bills[j], sid, dir)
    ensures states[n + 1].bills[i].bytes.at != states[n + 1].bills[j].bytes.at
  {
    hide HeldOf, Steps, PhaseOf, Stamped;
    assert Steps(states[n], moves[n], states[n + 1]);
    StepBills(states[n], moves[n], states[n + 1], sid, dir);
    BillTraced(states, moves, n, sid, dir, i);
    BillTraced(states, moves, n, sid, dir, j);
  }

  lemma HeldNotBilled(states: seq<Machine>, moves: seq<Move>, n: nat, sid: nat, dir: Dir, k: nat, i: nat)
    requires Run(states, moves) && n < |moves| && Traced(states, moves, n, sid, dir)
    requires i < |states[n + 1].bills| && IsOf(states[n + 1].bills[i], sid, dir)
    requires HeldOf(PhaseOf(states[n + 1], k), sid, dir).Some?
    ensures states[n + 1].bills[i].bytes.at != HeldOf(PhaseOf(states[n + 1], k), sid, dir).value.at
  {
    hide HeldOf, Steps, PhaseOf, Loads, ClearedOf, ValueOf;
    assert Steps(states[n], moves[n], states[n + 1]);
    StepBills(states[n], moves[n], states[n + 1], sid, dir);
    HeldTraced(states, moves, n, sid, dir, k);
    BillTraced(states, moves, n, sid, dir, i);
    var b, held := states[n + 1].bills[i].bytes, HeldOf(PhaseOf(states[n + 1], k), sid, dir).value;
    if i >= |states[n].bills| && held.at != n {
      StampsDiffer(states, moves, n, b, moves[n].k, held, k, sid, dir);
    }
  }

  lemma TracedStep(states: seq<Machine>, moves: seq<Move>, n: nat, sid: nat, dir: Dir)
    requires Run(states, moves) && n < |moves| && Traced(states, moves, n, sid, dir)
    ensures Traced(states, moves, n + 1, sid, dir)
  {
    hide Stamped, HeldOf, PhaseOf, IsOf, Enabled, Effect;
    var t := states[n + 1];
    assert Steps(states[n], moves[n], t);
    forall i | 0 <= i < |t.bills| && IsOf(t.bills[i], sid, dir)
      ensures SomeoneLoaded(states, moves, n + 1, t.bills[i].bytes, sid, dir)
    {
      BillTraced(states, moves, n, sid, dir, i);
    }
    forall i, j | 0 <= i < j < |t.bills| && IsOf(t.bills[i], sid, dir) && IsOf(t.bills[j], sid, dir)
      ensures t.bills[i].bytes.at != t.bills[j].bytes.at
    {
      BillsApart(states, moves, n, sid, dir, i, j);
    }
    forall k | HeldOf(PhaseOf(t, k), sid, dir).Some?
      ensures Stamped(states, moves, n + 1, HeldOf(PhaseOf(t, k), sid, dir).value, k, sid, dir)
    {
      HeldTraced(states, moves, n, sid, dir, k);
    }
    forall k, i | 0 <= i < |t.bills| && IsOf(t.bills[i], sid, dir) && HeldOf(PhaseOf(t, k), sid, dir).Some?
      ensures t.bills[i].bytes.at != HeldOf(PhaseOf(t, k), sid, dir).value.at
    {
      HeldNotBilled(states, moves, n, sid, dir, k, i);
    }
  }

  lemma {:induction false} RunTraced(states: seq<Machine>, moves: seq<Move>, n: nat, sid: nat, dir: Dir)
    requires Run(states, moves) && Initial(states[0]) && n < |states|
    ensures Traced(states, moves, n, sid, dir)
  {
    hide Traced, Steps;
    if n == 0 {
      StartTraced(states, moves, sid, dir);
    } else {
      RunTraced(states, moves, n - 1, sid, dir);
      TracedStep(states, moves, n - 1, sid, dir);
    }
  }

  lemma StartTraced(states: seq<Machine>, moves: seq<Move>, sid: nat, dir: Dir)
    requires |states| == |moves| + 1 && Initial(states[0])
    ensures Traced(states, moves, 0, sid, dir)
  {
  }

  // ---------------------------------------------------------------------
  // Bytes billed twice
  // ---------------------------------------------------------------------

  predicate Covers(b: Loaded, x: int) {
    b.from <= x < b.from + b.count
  }

  /** Some byte of the counter is in two bills. */
  ghost predicate BilledTwice(s: Machine, sid: nat, dir: Dir) {
    exists i, j, x :: 0 <= i < j < |s.bills| && TwiceAt(s, sid, dir, i, j, x)
  }

  ghost predicate TwiceAt(s: Machine, sid: nat, dir: Dir, i: int, j: int, x: int)
    requires 0 <= i < |s.bills| && 0 <= j < |s.bills|
  {
    && IsOf(s.bills[i], sid, dir) && IsOf(s.bills[j], sid, dir)
    && Covers(s.bills[i].bytes, x) && Covers(s.bills[j].bytes, x)
  }

  /** What was loaded from the counter at step `i` has been billed. */
  ghost predicate Billed(s: Machine, sid: nat, dir: Dir, i: nat) {
    exists b :: 0 <= b < |s.bills| && IsOf(s.bills[b], sid, dir) && s.bills[b].bytes.at == i
  }

  /** Two loads of the counter: it was not empty at the first, nobody cleared it before the second,
      and both were billed. */
  ghost predicate LoadedTwice(states: seq<Machine>, moves: seq<Move>, n: nat, sid: nat, dir: Dir, i: nat, j: nat)
    requires |states| == |moves| + 1 && n < |states|
  {
    && i < j < n
    && Loads(states[i], moves[i], sid, dir) && Loads(states[j], moves[j], sid, dir)
    && ValueOf(states[i], sid, dir) > 0 && NoStore(states, moves, i, j, sid, dir)
    && Billed(states[n], sid, dir, i) && Billed(states[n], sid, dir, j)
  }

  /** The stretch that a bill covers, from the load it goes back to. */
  lemma BillBytes(states: seq<Machine>, moves: seq<Move>, n: nat, sid: nat, dir: Dir, i: nat)
    requires Run(states, moves) && Initial(states[0]) && n < |states|
    requires i < |states[n].bills| && IsOf(states[n].bills[i], sid, dir)
    ensures
      var b := states[n].bills[i].bytes;
      && b.at < n && Loads(states[b.at], moves[b.at], sid, dir)
      && b.from == ClearedOf(states[b.at], sid, dir) && b.from + b.count == AddedTo(states[b.at], sid, dir)
      && b.count == ValueOf(states[b.at], sid, dir) >= 0
  {
    hide Steps, Loads, ClearedOf, ValueOf, AddedTo;
    RunTraced(states, moves, n, sid, dir);
    var b := states[n].bills[i].bytes;
    RunHolds(states, moves, b.at, sid, dir);
  }

  /** Two bills for loads at the steps `a` and `b` share a byte exactly if the counter was not empty at
      the first load and not cleared before the second. */
  lemma SharedIff(states: seq<Machine>, moves: seq<Move>, n: nat, sid: nat, dir: Dir, i: nat, j: nat)
    requires Run(states, moves) && Initial(states[0]) && n < |states|
    requires i < |states[n].bills| && IsOf(states[n].bills[i], sid, dir)
    requires j < |states[n].bills| && IsOf(states[n].bills[j], sid, dir)
    requires states[n].bills[i].bytes.at < states[n].bills[j].bytes.at
    ensures
      var b, c := states[n].bills[i].bytes, states[n].bills[j].bytes;
      && b.at < n && c.at < n
      && ((exists x :: Covers(b, x) && Covers(c, x)) <==>
            (ValueOf(states[b.at], sid, dir) > 0 && NoStore(states, moves, b.at, c.at, sid, dir)))
  {
    hide Steps, Loads, ClearedOf, ValueOf, AddedTo, NoStore, IsOf;
    var b, c := states[n].bills[i].bytes, states[n].bills[j].bytes;
    BillBytes(states, moves, n, sid, dir, i);
    BillBytes(states, moves, n, sid, dir, j);
    Between(states, moves, b.at, c.at, sid, dir);
    if ValueOf(states[b.at], sid, dir) > 0 && NoStore(states, moves, b.at, c.at, sid, dir) {
      assert Covers(b, b.from) && Covers(c, b.from);
    }
  }

  /** In every run with any number of collectors some byte of a counter is billed twice, exactly if
      two loads of the counter, not empty at the first and not cleared between them, were both
      billed. */
  lemma BilledTwiceIff(states: seq<Machine>, moves: seq<Move>, n: nat, sid: nat, dir: Dir)
    requires Run(states, moves) && Initial(states[0]) && n < |states|
    ensures BilledTwice(states[n], sid, dir) <==> exists i, j :: LoadedTwice(states, moves, n, sid, dir, i, j)
  {
    hide Steps, Loads, ClearedOf, ValueOf, AddedTo, NoStore, IsOf, Covers, Initial;
    var s := states[n];
    if BilledTwice(s, sid, dir) {
      var i, j, x :| 0 <= i < j < |s.bills| && TwiceAt(s, sid, dir, i, j, x);
      TwiceLoaded(states, moves, n, sid, dir, i, j, x);
    }
    if i, j :| LoadedTwice(states, moves, n, sid, dir, i, j) {
      var b :| 0 <= b < |s.bills| && IsOf(s.bills[b], sid, dir) && s.bills[b].bytes.at == i;
      var c :| 0 <= c < |s.bills| && IsOf(s.bills[c], sid, dir) && s.bills[c].bytes.at == j;
      SharedIff(states, moves, n, sid, dir, b, c);
      var x :| Covers(s.bills[b].bytes, x) && Covers(s.bills[c].bytes, x);
      assert if b < c then TwiceAt(s, sid, dir, b, c, x) else TwiceAt(s, sid, dir, c, b, x);
    }
  }

  lemma TwiceLoaded(states: seq<Machine>, moves: seq<Move>, n: nat, sid: nat, dir: Dir, i: nat, j: nat, x: int)
    requires Run(states, moves) && Initial(states[0]) && n < |states|
    requires i < j < |states[n].bills| && TwiceAt(states[n], sid, dir, i, j, x)
    ensures exists a, b :: LoadedTwice(states, moves, n, sid, dir, a, b)
  {
    hide Steps, Loads, ClearedOf, ValueOf, AddedTo, NoStore, IsOf, Covers, Initial, Stamped, HeldOf, PhaseOf;
    var s := states[n];
    RunTraced(states, moves, n, sid, dir);
    assert s.bills[i].bytes.at != s.bills[j].bytes.at;
    var first := s.bills[i].bytes.at < s.bills[j].bytes.at;
    var p, q := if first then i else j, if first then j else i;
    SharedIff(states, moves, n, sid, dir, p, q);
    BillBytes(states, moves, n, sid, dir, p);
    BillBytes(states, moves, n, sid, dir, q);
    assert Covers(s.bills[p].bytes, x) && Covers(s.bills[q].bytes, x);
    assert LoadedTwice(states, moves, n, sid, dir, s.bills[p].bytes.at, s.bills[q].bytes.at);
  }

  // ---------------------------------------------------------------------
  // One pass at a time
  // ---------------------------------------------------------------------

  ghost predicate OneBusy(s: Machine) {
    forall k, l :: k in s.phases && l in s.phases && k != l ==> s.phases[k].Idle? || s.phases[l].Idle?
  }

  predicate PastStore(p: Phase, dir: Dir) {
    p.Cleared? || (p.ClearedUp? && dir.Up?)
  }

  /** The bills of the counter follow one another, all before what is loaded or still pending. */
  ghost predicate InOrder(s: Machine, sid: nat, dir: Dir) {
    && (forall i, j :: 0 <= i < j < |s.bills| && IsOf(s.bills[i], sid, dir) && IsOf(s.bills[j], sid, dir) ==>
          s.bills[i].bytes.from + s.bills[i].bytes.count <= s.bills[j].bytes.from)
    && (forall i :: 0 <= i < |s.bills| && IsOf(s.bills[i], sid, dir) ==>
          s.bills[i].bytes.from + s.bills[i].bytes.count <= ClearedOf(s, sid, dir))
    && (forall k, i :: 0 <= i < |s.bills| && IsOf(s.bills[i], sid, dir) && HeldOf(PhaseOf(s, k), sid, dir).Some? ==>
          s.bills[i].bytes.from + s.bills[i].bytes.count <= HeldOf(PhaseOf(s, k), sid, dir).value.from)
    && (forall k :: HeldOf(PhaseOf(s, k), sid, dir).Some? ==>
          var b := HeldOf(PhaseOf(s, k), sid, dir).value;
          b.from + b.count <= if PastStore(PhaseOf(s, k), dir) then ClearedOf(s, sid, dir) else AddedTo(s, sid, dir))
  }

  /** The same for one collector: what it holds afterwards, and how far the counter was cleared. */
  lemma StepOrder(s: Machine, a: Move, t: Machine, sid: nat, dir: Dir, k: nat)
    requires Steps(s, a, t) && OneBusy(s) && Holds(s, sid, dir) && InOrder(s, sid, dir)
    requires HeldOf(PhaseOf(t, k), sid, dir).Some?
    ensures
      var b := HeldOf(PhaseOf(t, k), sid, dir).value;
      && b.from + b.count <= (if PastStore(PhaseOf(t, k), dir) then ClearedOf(t, sid, dir) else AddedTo(t, sid, dir))
      && (b.from == ClearedOf(s, sid, dir) || HeldOf(PhaseOf(s, k), sid, dir) == Some(b))
      && !a.Emit?
  {
    hide InOrder, OneBusy;
    BusyAlone(s, a, k);
    StepCounter(s, a, t, sid, dir);
    HeldOrder(s, sid, dir, k);
    match a
    case LoadUp(c, user) =>
    case LoadDown(c) =>
    case StoreUp(c) =>
    case StoreDown(c) =>
    case Add(x, d, m) =>
    case Emit(c) =>
    case _ =>
  }

  /** While one collector emits, no other holds anything. */
  lemma BusyAlone(s: Machine, a: Move, k: nat)
    requires Enabled(s, a) && OneBusy(s)
    ensures a.Emit? && k != a.k ==> PhaseOf(s, k).Idle?
  {
  }

  lemma HeldOrder(s: Machine, sid: nat, dir: Dir, k: nat)
    requires InOrder(s, sid, dir)
    ensures HeldOf(PhaseOf(s, k), sid, dir).Some? ==>
      var b := HeldOf(PhaseOf(s, k), sid, dir).value;
      b.from + b.count <= if PastStore(PhaseOf(s, k), dir) then ClearedOf(s, sid, dir) else AddedTo(s, sid, dir)
  {
    hide HeldOf, PhaseOf, ClearedOf, AddedTo;
  }

  /** The bill that a step adds follows those before it and ends at what is cleared. */
  lemma StepNewBill(s: Machine, a: Move, t: Machine, sid: nat, dir: Dir, i: nat)
    requires Steps(s, a, t) && InOrder(s, sid, dir)
    requires |s.bills| <= i < |t.bills| && IsOf(t.bills[i], sid, dir)
    ensures
      var b := t.bills[i].bytes;
      && b.from + b.count <= ClearedOf(s, sid, dir)
      && forall j :: 0 <= j < |s.bills| && IsOf(s.bills[j], sid, dir) ==>
           s.bills[j].bytes.from + s.bills[j].bytes.count <= b.from
  {
    hide ClearedOf, AddedTo, InOrder;
    StepBills(s, a, t, sid, dir);
    HeldOrder(s, sid, dir, a.k);
    BillsOrder(s, sid, dir, a.k);
  }

  lemma BillsOrder(s: Machine, sid: nat, dir: Dir, k: nat)
    requires InOrder(s, sid, dir) && HeldOf(PhaseOf(s, k), sid, dir).Some?
    ensures forall j :: 0 <= j < |s.bills| && IsOf(s.bills[j], sid, dir) ==>
      s.bills[j].bytes.from + s.bills[j].bytes.count <= HeldOf(PhaseOf(s, k), sid, dir).value.from
  {
    hide HeldOf, PhaseOf, ClearedOf, AddedTo;
  }

  lemma OrderStep(s: Machine, a: Move, t: Machine, sid: nat, dir: Dir)
    requires Steps(s, a, t) && OneBusy(s) && Holds(s, sid, dir) && InOrder(s, sid, dir)
    ensures InOrder(t, sid, dir)
  {
    hide Steps, Stores, HeldOf, PhaseOf, ClearedOf, AddedTo, ValueOf, Holds, IsOf, OneBusy, PastStore;
    StepCounter(s, a, t, sid, dir);
    HoldsMeans(s, sid, dir);
    StepBills(s, a, t, sid, dir);
    forall i | 0 <= i < |t.bills| && IsOf(t.bills[i], sid, dir)
      ensures t.bills[i].bytes.from + t.bills[i].bytes.count <= ClearedOf(t, sid, dir)
    {
      if i >= |s.bills| { StepNewBill(s, a, t, sid, dir, i); } else { assert t.bills[i] == s.bills[i]; }
    }
    forall i, j | 0 <= i < j < |t.bills| && IsOf(t.bills[i], sid, dir) && IsOf(t.bills[j], sid, dir)
      ensures t.bills[i].bytes.from + t.bills[i].bytes.count <= t.bills[j].bytes.from
    {
      assert i < |s.bills| && t.bills[i] == s.bills[i];
      if j >= |s.bills| { StepNewBill(s, a, t, sid, dir, j); } else { assert t.bills[j] == s.bills[j]; }
    }
    forall k | HeldOf(PhaseOf(t, k), sid, dir).Some?
      ensures
        var b := HeldOf(PhaseOf(t, k), sid, dir).value;
        && b.from + b.count <= (if PastStore(PhaseOf(t, k), dir) then ClearedOf(t, sid, dir) else AddedTo(t, sid, dir))
        && forall i :: 0 <= i < |t.bills| && IsOf(t.bills[i], sid, dir) ==>
             t.bills[i].bytes.from + t.bills[i].bytes.count <= b.from
    {
      StepOrder(s, a, t, sid, dir, k);
      forall i | 0 <= i < |t.bills| && IsOf(t.bills[i], sid, dir)
        ensures t.bills[i].bytes.from + t.bills[i].bytes.count <= HeldOf(PhaseOf(t, k), sid, dir).value.from
      {
        assert i < |s.bills| && t.bills[i] == s.bills[i];
      }
    }
  }

  lemma {:induction false} RunInOrder(states: seq<Machine>, moves: seq<Move>, n: nat, sid: nat, dir: Dir)
    requires Run(states, moves) && Initial(states[0]) && n < |states|
    requires forall m :: 0 <= m < n ==> OneBusy(states[m])
    ensures InOrder(states[n], sid, dir)
  {
    hide Steps, InOrder, OneBusy, Holds;
    if n == 0 {
      StartInOrder(states[0], sid, dir);
    } else {
      RunInOrder(states, moves, n - 1, sid, dir);
      RunHolds(states, moves, n - 1, sid, dir);
      OrderStep(states[n - 1], moves[n - 1], states[n], sid, dir);
    }
  }

  lemma StartInOrder(s: Machine, sid: nat, dir: Dir)
    requires Initial(s)
    ensures InOrder(s, sid, dir)
  {
  }

  /** As long as no two passes overlap no byte is billed twice, whoever makes them. */
  lemma OnePassNeverTwice(states: seq<Machine>, moves: seq<Move>, n: nat, sid: nat, dir: Dir)
    requires Run(states, moves) && Initial(states[0]) && n < |states|
    requires forall m :: 0 <= m < n ==> OneBusy(states[m])
    ensures !BilledTwice(states[n], sid, dir)
  {
    hide OneBusy;
    RunInOrder(states, moves, n, sid, dir);
    hide Run, HeldOf, PhaseOf, ClearedOf, AddedTo, PastStore;
  }

  // ---------------------------------------------------------------------
  // Which visits are billed
  // ---------------------------------------------------------------------

  /** A collector that has cleared a counter loaded more than the threshold. */
  ghost predicate ClearsOver(s: Machine) {
    forall k :: k in s.phases ==>
      match s.phases[k]
      case ClearedUp(_, _, up, down) => up.count + down.count > s.threshold
      case Cleared(_, _, up, down) => up.count + down.count > s.threshold
      case _ => true
  }

  /** Bills come in pairs, upload before download of one storage, over the threshold together. */
  ghost predicate Paired(s: Machine) {
    && |s.bills| % 2 == 0
    && forall i :: 0 <= i && 2 * i + 1 < |s.bills| ==>
      && s.bills[2 * i].sid == s.bills[2 * i + 1].sid
      && s.bills[2 * i].dir.Up? && s.bills[2 * i + 1].dir.Down?
      && s.bills[2 * i].bytes.count + s.bills[2 * i + 1].bytes.count > s.threshold
  }

  lemma PairedStep(s: Machine, a: Move, t: Machine)
    requires Steps(s, a, t) && ClearsOver(s) && Paired(s)
    ensures ClearsOver(t) && Paired(t) && t.threshold == s.threshold
  {
  }

  /** In every run, whatever the collectors do at the same time, only visits that loaded more than the
      threshold are billed, both directions together. */
  lemma {:induction false} RunPaired(states: seq<Machine>, moves: seq<Move>, n: nat)
    requires Run(states, moves) && Initial(states[0]) && n < |states|
    ensures ClearsOver(states[n]) && Paired(states[n])
  {
    hide Steps, ClearsOver, Paired;
    if n == 0 {
      PairedStart(states[0]);
    } else {
      RunPaired(states, moves, n - 1);
      PairedStep(states[n - 1], moves[n - 1], states[n]);
    }
  }

  lemma PairedStart(s: Machine)
    requires Initial(s)
    ensures ClearsOver(s) && Paired(s)
  {
  }

  /** Ids come and go with their users only. A table entry is made by a connection, and goes with its
      user, or when a collector finds no id for it. */
  lemma UsersStep(s: Machine, a: Move, t: Machine, u: string)
    requires Steps(s, a, t)
    ensures u in t.uids <==> (a.AddUser? && a.user == u) || (u in s.uids && a != DelUser(u))
    ensures u in t.uids ==> t.uids[u] == if a.AddUser? && a.user == u then a.uid else s.uids[u]
    ensures u in t.table <==>
      || a == Connect(u)
      || (&& u in s.table && a != DelUser(u)
          && !(a.Emit? && PhaseOf(s, a.k).user == u && (u in s.uids ==> s.uids[u] == 0)))
    ensures u in t.table ==> t.table[u] == if u in s.table then s.table[u] else |s.storages|
  {
  }

  /** A collector leaves a user over the threshold only by clearing the upload counter. */
  lemma OverIsCleared(s: Machine, a: Move, t: Machine, k: nat)
    requires Steps(s, a, t) && PhaseOf(s, k).GotBoth? && PhaseOf(t, k) != PhaseOf(s, k)
    ensures a == StoreUp(k) <==> PhaseOf(s, k).up.count + PhaseOf(s, k).down.count > s.threshold
  {
  }

  // ---------------------------------------------------------------------
  // Two passes at once
  // ---------------------------------------------------------------------

  /** Two collectors both load seven bytes before either clears them, and both bill them: fourteen
      bytes are billed for seven that were added. */
  lemma TwoPassesBillTwice() returns (states: seq<Machine>, moves: seq<Move>)
    ensures Run(states, moves) && Initial(states[0])
    ensures
      var s := states[|moves|];
      && s.storages == [Storage(Pair(0, 0), Pair(7, 0), Pair(7, 0))]
      && s.bills == [Bill(0, Up, Loaded(0, 7, 5)), Bill(0, Down, Loaded(0, 0, 7)),
                     Bill(0, Up, Loaded(0, 7, 6)), Bill(0, Down, Loaded(0, 0, 8))]
      && BilledTwice(s, 0, Up)
  {
    hide Steps;
    var a, b, x, y := Loaded(0, 7, 5), Loaded(0, 7, 6), Loaded(0, 0, 7), Loaded(0, 0, 8);
    var full, empty := Storage(Pair(7, 0), Pair(7, 0), Pair(0, 0)), Storage(Pair(0, 0), Pair(7, 0), Pair(7, 0));
    var table, uids := map["u" := 0], map["u" := 1];
    var none: map<nat, Phase> := map[];
    var s0 := Machine(map[], [], map[], 0, none, [], 0);
    var s1 := s0.(uids := uids, now := 1);
    var s2 := s1.(table := table, storages := [Storage(Pair(0, 0), Pair(0, 0), Pair(0, 0))], now := 2);
    var s3 := s2.(storages := [full], now := 3);
    var s4 := s3.(phases := map[0 := Ranging], now := 4);
    var s5 := s4.(phases := map[0 := Ranging, 1 := Ranging], now := 5);
    var s6 := s5.(phases := map[0 := GotUp("u", 0, a), 1 := Ranging], now := 6);
    var s7 := s6.(phases := map[0 := GotUp("u", 0, a), 1 := GotUp("u", 0, b)], now := 7);
    var s8 := s7.(phases := map[0 := GotBoth("u", 0, a, x), 1 := GotUp("u", 0, b)], now := 8);
    var s9 := s8.(phases := map[0 := GotBoth("u", 0, a, x), 1 := GotBoth("u", 0, b, y)], now := 9);
    var s10 := s9.(phases := map[0 := ClearedUp("u", 0, a, x), 1 := GotBoth("u", 0, b, y)],
                   storages := [empty], now := 10);
    var s11 := s10.(phases := map[0 := ClearedUp("u", 0, a, x), 1 := ClearedUp("u", 0, b, y)], now := 11);
    var s12 := s11.(phases := map[0 := Cleared("u", 0, a, x), 1 := ClearedUp("u", 0, b, y)], now := 12);
    var s13 := s12.(phases := map[0 := Cleared("u", 0, a, x), 1 := Cleared("u", 0, b, y)], now := 13);
    var s14 := s13.(phases := map[0 := Ranging, 1 := Cleared("u", 0, b, y)],
                    bills := [Bill(0, Up, a), Bill(0, Down, x)], now := 14);
    var s15 := s14.(phases := map[0 := Ranging, 1 := Ranging],
                    bills := [Bill(0, Up, a), Bill(0, Down, x), Bill(0, Up, b), Bill(0, Down, y)], now := 15);
    moves := [AddUser("u", 1), Connect("u"), Add(0, Up, 7), Begin(0), Begin(1),
              LoadUp(0, "u"), LoadUp(1, "u"), LoadDown(0), LoadDown(1),
              StoreUp(0), StoreUp(1), StoreDown(0), StoreDown(1), Emit(0), Emit(1)];
    states := [s0, s1, s2, s3, s4, s5, s6, s7, s8, s9, s10, s11, s12, s13, s14, s15];
    BothStart(s0, s1, s2, s3, s4, s5);
    BothLoadUp(s5, s6, s7, a, b);
    BothLoadDown(s7, s8, s9, a, b, x, y);
    BothStoreUp(s9, s10, s11, a, b, x, y);
    BothStoreDown(s11, s12, s13, a, b, x, y);
    BothEmit(s13, s14, s15, a, b, x, y);
    BothCovered(s15, a, b, x, y);
  }

  lemma BothStart(s0: Machine, s1: Machine, s2: Machine, s3: Machine, s4: Machine, s5: Machine)
    requires s0 == Machine(map[], [], map[], 0, map[], [], 0)
    requires s1 == s0.(uids := map["u" := 1], now := 1)
    requires
      s2 == s1.(table := map["u" := 0], storages := [Storage(Pair(0, 0), Pair(0, 0), Pair(0, 0))], now := 2)
    requires s3 == s2.(storages := [Storage(Pair(7, 0), Pair(7, 0), Pair(0, 0))], now := 3)
    requires s4 == s3.(phases := map[0 := Ranging], now := 4)
    requires s5 == s4.(phases := map[0 := Ranging, 1 := Ranging], now := 5)
    ensures Steps(s0, AddUser("u", 1), s1) && Steps(s1, Connect("u"), s2) && Steps(s2, Add(0, Up, 7), s3)
    ensures Steps(s3, Begin(0), s4) && Steps(s4, Begin(1), s5)
  {
  }

  lemma BothLoadUp(s5: Machine, s6: Machine, s7: Machine, a: Loaded, b: Loaded)
    requires s5.table == map["u" := 0] && s5.storages == [Storage(Pair(7, 0), Pair(7, 0), Pair(0, 0))] && s5.now == 5
    requires s5.phases == map[0 := Ranging, 1 := Ranging] && a == Loaded(0, 7, 5) && b == Loaded(0, 7, 6)
    requires s6 == s5.(phases := map[0 := GotUp("u", 0, a), 1 := Ranging], now := 6)
    requires s7 == s6.(phases := map[0 := GotUp("u", 0, a), 1 := GotUp("u", 0, b)], now := 7)
    ensures Steps(s5, LoadUp(0, "u"), s6) && Steps(s6, LoadUp(1, "u"), s7)
  {
  }

  lemma BothLoadDown(s7: Machine, s8: Machine, s9: Machine, a: Loaded, b: Loaded, x: Loaded, y: Loaded)
    requires s7.storages == [Storage(Pair(7, 0), Pair(7, 0), Pair(0, 0))] && s7.now == 7
    requires s7.phases == map[0 := GotUp("u", 0, a), 1 := GotUp("u", 0, b)]
    requires x == Loaded(0, 0, 7) && y == Loaded(0, 0, 8)
    requires s8 == s7.(phases := map[0 := GotBoth("u", 0, a, x), 1 := GotUp("u", 0, b)], now := 8)
    requires s9 == s8.(phases := map[0 := GotBoth("u", 0, a, x), 1 := GotBoth("u", 0, b, y)], now := 9)
    ensures Steps(s7, LoadDown(0), s8) && Steps(s8, LoadDown(1), s9)
  {
  }

  lemma BothStoreUp(s9: Machine, s10: Machine, s11: Machine, a: Loaded, b: Loaded, x: Loaded, y: Loaded)
    requires s9.storages == [Storage(Pair(7, 0), Pair(7, 0), Pair(0, 0))] && s9.now == 9 && s9.threshold == 0
    requires s9.phases == map[0 := GotBoth("u", 0, a, x), 1 := GotBoth("u", 0, b, y)]
    requires a.count == 7 && b.count == 7 && x.count == 0 && y.count == 0
    requires
      s10 == s9.(phases := map[0 := ClearedUp("u", 0, a, x), 1 := GotBoth("u", 0, b, y)],
                 storages := [Storage(Pair(0, 0), Pair(7, 0), Pair(7, 0))], now := 10)
    requires s11 == s10.(phases := map[0 := ClearedUp("u", 0, a, x), 1 := ClearedUp("u", 0, b, y)], now := 11)
    ensures Steps(s9, StoreUp(0), s10) && Steps(s10, StoreUp(1), s11)
  {
  }

  lemma BothStoreDown(s11: Machine, s12: Machine, s13: Machine, a: Loaded, b: Loaded, x: Loaded, y: Loaded)
    requires s11.storages == [Storage(Pair(0, 0), Pair(7, 0), Pair(7, 0))] && s11.now == 11
    requires s11.phases == map[0 := ClearedUp("u", 0, a, x), 1 := ClearedUp("u", 0, b, y)]
    requires s12 == s11.(phases := map[0 := Cleared("u", 0, a, x), 1 := ClearedUp("u", 0, b, y)], now := 12)
    requires s13 == s12.(phases := map[0 := Cleared("u", 0, a, x), 1 := Cleared("u", 0, b, y)], now := 13)
    ensures Steps(s11, StoreDown(0), s12) && Steps(s12, StoreDown(1), s13)
  {
  }

  lemma BothEmit(s13: Machine, s14: Machine, s15: Machine, a: Loaded, b: Loaded, x: Loaded, y: Loaded)
    requires s13.uids == map["u" := 1] && s13.bills == [] && s13.now == 13
    requires s13.phases == map[0 := Cleared("u", 0, a, x), 1 := Cleared("u", 0, b, y)]
    requires
      s14 == s13.(phases := map[0 := Ranging, 1 := Cleared("u", 0, b, y)],
                  bills := [Bill(0, Up, a), Bill(0, Down, x)], now := 14)
    requires
      s15 == s14.(phases := map[0 := Ranging, 1 := Ranging],
                  bills := [Bill(0, Up, a), Bill(0, Down, x), Bill(0, Up, b), Bill(0, Down, y)], now := 15)
    ensures Steps(s13, Emit(0), s14) && Steps(s14, Emit(1), s15)
  {
  }

  lemma BothCovered(s: Machine, a: Loaded, b: Loaded, x: Loaded, y: Loaded)
    requires s.bills == [Bill(0, Up, a), Bill(0, Down, x), Bill(0, Up, b), Bill(0, Down, y)]
    requires Covers(a, 0) && Covers(b, 0)
    ensures BilledTwice(s, 0, Up)
  {
    assert TwiceAt(s, 0, Up, 0, 2, 0);
  }
}
