/**
 Users, counters and links of the proxy core: registering links on dispatch, closing them, and
 removing users from every table.

 `Reg` is the value of the tables. It keeps every link manager ever made: a connection closes its
 writer through the manager it was registered with, also after that manager was given up.
 */
module Registry {
  import opened Basics
  import opened Links

  /** `current` is the position of each user's manager among all managers made so far. */
  datatype Reg = Reg(
    uids: map<string, int>,
    counters: map<string, Pair>,
    current: map<string, nat>,
    managers: seq<Manager>)

  /** Every user with a manager has one of its own. */
  ghost predicate Sound(s: Reg) {
    && (forall u :: u in s.current ==> s.current[u] < |s.managers|)
    && (forall u, v :: u in s.current && v in s.current && u != v ==> s.current[u] != s.current[v])
  }

  predicate HasManager(s: Reg, user: string) {
    user in s.current && s.current[user] < |s.managers|
  }

  /** The user's manager, made on first use. */
  function WithManager(s: Reg, user: string): (r: Reg)
    ensures HasManager(r, user)
  {
    if HasManager(s, user) then s
    else s.(current := s.current[user := |s.managers|], managers := s.managers + [NO_LINKS])
  }

  /** Registering a link for a connection of `user`. */
  function Dispatch(s: Reg, user: string, w: Writer, r: Reader): Reg {
    var t := WithManager(s, user);
    var m := t.current[user];
    t.(managers := t.managers[m := Linked(t.managers[m], w, r)],
       counters := if user in s.counters then s.counters else s.counters[user := Pair(0, 0)])
  }

  /** A connection closes its writer, which was registered with the manager at position `m`. */
  function CloseOne(s: Reg, m: nat, w: Writer): Reg
    requires m < |s.managers|
  {
    s.(managers := s.managers[m := WriterClosed(s.managers[m], w)])
  }

  function Store(uids: map<string, int>, users: seq<(string, int)>): map<string, int>
    decreases |users|
  {
    if users == [] then uids else Store(uids[users[0].0 := users[0].1], users[1..])
  }

  /** Removing one user from every table, with all its links closed. */
  ghost function Drop(s: Reg, user: string): Reg {
    var managers :=
      if HasManager(s, user) then s.managers[s.current[user] := AllClosed(s.managers[s.current[user]])] else s.managers;
    Reg(s.uids - {user}, s.counters - {user}, s.current - {user}, managers)
  }

  /** Removing users one after the other, up to the first that the proxy refuses to remove. */
  ghost function Del(s: Reg, users: seq<string>, refused: set<string>): (r: (Reg, bool))
    decreases |users|
  {
    if users == [] then (s, true)
    else if users[0] in refused then (s, false)
    else Del(Drop(s, users[0]), users[1..], refused)
  }

  /** It does not matter for the links that the counter was made first. */
  lemma DispatchParts(s: Reg, t: Reg, user: string, w: Writer, r: Reader)
    requires t == s.(counters := if user in s.counters then s.counters else s.counters[user := Pair(0, 0)])
    ensures
      var p := WithManager(t, user);
      var m := p.current[user];
      Dispatch(s, user, w, r) == p.(managers := p.managers[m := Linked(p.managers[m], w, r)])
  {
    hide Linked;
  }

  /** It does not matter for the links that ids and counters went first. */
  lemma DropLast(s: Reg, t: Reg, user: string)
    requires t == s.(uids := s.uids - {user}, counters := s.counters - {user})
    ensures Drop(s, user) == Drop(t, user).(uids := t.uids, counters := t.counters)
  {
    hide AllClosed;
  }

  /** The managers are different objects, and these are their values. */
  ghost predicate Mirrors(managers: seq<LinkManager>, values: seq<Manager>)
    reads managers
  {
    && |values| == |managers|
    && (forall i, j :: 0 <= i < j < |managers| ==> managers[i] != managers[j])
    && (forall i :: 0 <= i < |managers| ==> values[i] == managers[i].Value())
  }

  /** The position of each user's manager; no two users have one position. */
  ghost predicate Indexes(index: map<string, nat>, managers: seq<LinkManager>, byUser: map<string, LinkManager>) {
    && index.Keys == byUser.Keys
    && (forall u :: u in index ==> index[u] < |managers| && managers[index[u]] == byUser[u])
    && (forall u, v :: u in index && v in index && u != v ==> index[u] != index[v])
  }

  lemma MirrorsMore(managers: seq<LinkManager>, values: seq<Manager>, lm: LinkManager)
    requires Mirrors(managers, values) && lm !in managers
    ensures Mirrors(managers + [lm], values + [lm.Value()])
  {
  }

  lemma IndexesMore(index: map<string, nat>, managers: seq<LinkManager>, byUser: map<string, LinkManager>,
                    user: string, lm: LinkManager)
    requires Indexes(index, managers, byUser) && user !in byUser
    ensures Indexes(index[user := |managers|], managers + [lm], byUser[user := lm])
  {
  }

  lemma HasIndex(index: map<string, nat>, managers: seq<LinkManager>, byUser: map<string, LinkManager>,
                 values: seq<Manager>, user: string)
    requires Mirrors(managers, values) && Indexes(index, managers, byUser)
    ensures |values| == |managers|
    ensures user in index <==> user in byUser
    ensures user in index ==> index[user] < |managers| && managers[index[user]] == byUser[user]
  {
  }

  lemma IndexesLess(index: map<string, nat>, managers: seq<LinkManager>, byUser: map<string, LinkManager>, user: string)
    requires Indexes(index, managers, byUser)
    ensures Indexes(index - {user}, managers, byUser - {user})
  {
  }

  lemma ValueAt(managers: seq<LinkManager>, values: seq<Manager>, m: nat)
    requires Mirrors(managers, values) && m < |managers|
    ensures values[m] == managers[m].Value() && MirrorsBut(managers, values, m)
  {
  }

  /** The same for all managers but one. */
  ghost predicate MirrorsBut(managers: seq<LinkManager>, values: seq<Manager>, m: nat)
    requires m < |managers|
    reads set lm | lm in managers && lm != managers[m]
    ensures MirrorsBut(managers, values, m) ==> |values| == |managers|
  {
    && |values| == |managers|
    && (forall i, j :: 0 <= i < j < |managers| ==> managers[i] != managers[j])
    && (forall i :: 0 <= i < |managers| && managers[i] != managers[m] ==> values[i] == managers[i].Value())
  }

  lemma MirrorsOne(managers: seq<LinkManager>, values: seq<Manager>, m: nat)
    requires m < |managers| && MirrorsBut(managers, values, m)
    ensures Mirrors(managers, values[m := managers[m].Value()])
  {
    forall i | 0 <= i < |managers| ensures values[m := managers[m].Value()][i] == managers[i].Value() {
      assert i != m ==> managers[i] != managers[m];
    }
  }

  class Core {
    var uidMap: map<string, int>
    var counters: map<string, Pair>
    var linkManagers: map<string, LinkManager>
    /** All managers ever made, what has happened to each, and the position of each user's. */
    ghost var made: seq<LinkManager>
    ghost var values: seq<Manager>
    ghost var index: map<string, nat>

    ghost predicate Valid()
      reads this, made
    {
      Mirrors(made, values) && Indexes(index, made, linkManagers)
    }

    ghost function Value(): Reg
      reads this
    {
      Reg(uidMap, counters, index, values)
    }

    constructor ()
      ensures Valid() && Value() == Reg(map[], map[], map[], []) && made == []
    {
      uidMap, counters, linkManagers := map[], map[], map[];
      made, values, index := [], [], map[];
    }

    /** The registration part of a dispatch that was admitted. The writer keeps the manager. */
    method RegisterLink(user: string, w: Writer, r: Reader) returns (lm: LinkManager)
      requires Valid()
      modifies this`linkManagers, this`counters, this`made, this`values, this`index, made
      ensures Valid() && Value() == Dispatch(old(Value()), user, w, r)
      ensures lm == made[index[user]]
    {
      hide WithManager, HasManager, Linked, Dispatch;
      ghost var was := Value();
      if user !in counters {
        counters := counters[user := Pair(0, 0)];
      }
      DispatchParts(was, Value(), user, w, r);
      lm := ManagerOf(user);
      AddThrough(lm, index[user], w, r);
    }

    /** The link manager of a user, made on first use. */
    method ManagerOf(user: string) returns (lm: LinkManager)
      requires Valid()
      modifies this`linkManagers, this`made, this`values, this`index
      ensures Valid() && user in linkManagers && linkManagers[user] == lm
      ensures Value() == WithManager(old(Value()), user)
      ensures if user in old(linkManagers) then made == old(made) else fresh(lm) && made == old(made) + [lm]
    {
      if user !in linkManagers {
        lm := new LinkManager();
        Enrol(user, lm);
      } else {
        lm := linkManagers[user];
      }
    }

    /** A new manager becomes the user's. */
    method Enrol(user: string, lm: LinkManager)
      requires Valid() && user !in linkManagers && lm !in made && lm.Value() == NO_LINKS
      modifies this`linkManagers, this`made, this`values, this`index
      ensures Valid() && made == old(made) + [lm] && linkManagers == old(linkManagers)[user := lm]
      ensures Value() == WithManager(old(Value()), user)
    {
      hide Mirrors, Indexes;
      MirrorsMore(made, values, lm);
      IndexesMore(index, made, linkManagers, user, lm);
      HasIndex(index, made, linkManagers, values, user);
      linkManagers := linkManagers[user := lm];
      index := index[user := |made|];
      made, values := made + [lm], values + [NO_LINKS];
    }

    /** `AddLink` on one of the managers. */
    method AddThrough(lm: LinkManager, ghost m: nat, w: Writer, r: Reader)
      requires Valid() && m < |made| && made[m] == lm
      modifies this`values, lm
      ensures Valid() && made == old(made)
      ensures Value() == old(Value()).(managers := old(Value()).managers[m := Linked(old(lm.Value()), w, r)])
    {
      hide Mirrors, MirrorsBut, Indexes;
      ValueAt(made, values, m);
      lm.AddLink(w, r);
      MirrorsOne(made, values, m);
      values := values[m := lm.Value()];
    }

    /** A connection closes its writer, through the manager that the writer was registered with. */
    method CloseLink(lm: LinkManager, ghost m: nat, w: Writer)
      requires Valid() && m < |made| && made[m] == lm
      modifies this`values, lm
      ensures Valid() && made == old(made) && Value() == CloseOne(old(Value()), m, w)
    {
      hide Mirrors, MirrorsBut, Indexes;
      ValueAt(made, values, m);
      lm.CloseWriter(w);
      MirrorsOne(made, values, m);
      values := values[m := lm.Value()];
    }

    /** `CloseAll` on one of the managers. */
    method CloseThrough(lm: LinkManager, ghost m: nat)
      requires Valid() && m < |made| && made[m] == lm
      modifies this`values, lm
      ensures Valid() && made == old(made)
      ensures Value() == old(Value()).(managers := old(Value()).managers[m := AllClosed(old(lm.Value()))])
    {
      hide AllClosed, Mirrors, MirrorsBut, Indexes;
      ValueAt(made, values, m);
      ghost var order := lm.CloseAll();
      MirrorsOne(made, values, m);
      values := values[m := lm.Value()];
    }

    /** The first loop of `AddUsers`: the ids of the users. */
    method StoreUids(users: seq<(string, int)>)
      requires Valid()
      modifies this`uidMap
      ensures Valid() && Value() == old(Value()).(uids := Store(old(uidMap), users))
    {
      ghost var was := uidMap;
      assert users[0..] == users;
      for i := 0 to |users|
        invariant Store(was, users) == Store(uidMap, users[i..])
      {
        assert users[i..][0] == users[i] && users[i..][1..] == users[i + 1..];
        uidMap := uidMap[users[i].0 := users[i].1];
      }
      assert users[|users|..] == [];
    }

    /** Removes users until the proxy refuses one; without the user manager of the node nothing
        is removed. */
    method DelUsers(users: seq<string>, hasManager: bool, refused: set<string>) returns (ok: bool)
      requires Valid()
      modifies this, made
      ensures Valid() && made == old(made)
      ensures !hasManager ==> !ok && Value() == old(Value())
      ensures hasManager ==> (Value(), ok) == Del(old(Value()), users, refused)
    {
      if !hasManager {
        return false;
      }
      ghost var was := Value();
      assert users[0..] == users;
      for i := 0 to |users|
        invariant Valid() && made == old(made)
        invariant Del(was, users, refused) == Del(Value(), users[i..], refused)
      {
        hide Drop;
        assert users[i..][0] == users[i] && users[i..][1..] == users[i + 1..];
        if users[i] in refused {
          return false;
        }
        RemoveUser(users[i]);
      }
      assert users[|users|..] == [];
      return true;
    }

    /** The loop body of `DelUsers`. */
    method RemoveUser(user: string)
      requires Valid()
      modifies this`uidMap, this`counters, this`linkManagers, this`values, this`index, made
      ensures Valid() && made == old(made)
      ensures Value() == Drop(old(Value()), user)
    {
      hide Drop, Valid;
      ghost var was := Value();
      Erase(user);
      DropLast(was, Value(), user);
      CloseLinks(user);
    }

    /** The id and the counter of a user go. */
    method Erase(user: string)
      requires Valid()
      modifies this`uidMap, this`counters
      ensures Valid()
      ensures Value() == old(Value()).(uids := old(uidMap) - {user}, counters := old(counters) - {user})
    {
      uidMap := uidMap - {user};
      counters := counters - {user};
    }

    /** The links of a user: all closed, and the manager given up. */
    method CloseLinks(user: string)
      requires Valid()
      modifies this`linkManagers, this`values, this`index, made
      ensures Valid() && made == old(made)
      ensures Value() == Drop(old(Value()), user).(uids := uidMap, counters := counters)
    {
      hide AllClosed;
      if user in linkManagers {
        CloseThrough(linkManagers[user], index[user]);
        Forget(user);
      } else {
        assert index - {user} == index;
      }
    }

    method Forget(user: string)
      requires Valid()
      modifies this`linkManagers, this`index
      ensures Valid() && Value() == old(Value()).(current := old(Value()).current - {user})
    {
      hide Mirrors, Indexes;
      IndexesLess(index, made, linkManagers, user);
      linkManagers := linkManagers - {user};
      index := index - {user};
    }
  }

  // ---------------------------------------------------------------------
  // Runs
  // ---------------------------------------------------------------------

  datatype Event =
    | Dispatched(user: string, w: Writer, r: Reader)
    | Closed(w: Writer)
    | UsersAdded(ids: seq<(string, int)>)
    | UsersDeleted(users: seq<string>, refused: set<string>, ok: bool)

  /** What a registered writer knows of itself. */
  datatype Link = Link(user: string, manager: nat, reader: Reader)

  /** The tables together with every writer ever registered. */
  datatype State = State(reg: Reg, owner: map<Writer, Link>)

  /** A dispatch brings a writer and a reader that were never seen; a connection may close its
      writer at any time and more than once. */
  ghost predicate Step(s: State, e: Event, t: State) {
    match e
    case Dispatched(user, w, r) =>
      && w !in s.owner && (forall v :: v in s.owner ==> s.owner[v].reader != r)
      && t == State(Dispatch(s.reg, user, w, r), s.owner[w := Link(user, WithManager(s.reg, user).current[user], r)])
    case Closed(w) =>
      && w in s.owner && s.owner[w].manager < |s.reg.managers|
      && t == State(CloseOne(s.reg, s.owner[w].manager, w), s.owner)
    case UsersAdded(users) => t == State(s.reg.(uids := Store(s.reg.uids, users)), s.owner)
    case UsersDeleted(users, refused, ok) => t == State(t.reg, s.owner) && (t.reg, ok) == Del(s.reg, users, refused)
  }

  ghost predicate Run(states: seq<State>, events: seq<Event>) {
    && |states| == |events| + 1
    && forall i :: 0 <= i < |events| ==> Step(states[i], events[i], states[i + 1])
  }

  ghost predicate Initial(s: State) {
    s == State(Reg(map[], map[], map[], []), map[])
  }

  /** How often the connection of a writer closed it. */
  function Closes(log: seq<Event>, w: Writer): nat {
    multiset(log)[Closed(w)]
  }

  /** The account of one writer: it is registered, with its own user's manager, exactly as long as
      nobody closed it. It was closed once for each time its connection did so, and once more if
      its user was removed before; in that case, and only then, its reader was interrupted, once. */
  ghost predicate Accounted(s: State, log: seq<Event>, w: Writer)
    requires w in s.owner
  {
    var l := s.owner[w];
    && l.manager < |s.reg.managers|
    && var m := s.reg.managers[l.manager];
       && (w in m.links <==> m.closes[w] == 0)
       && (w in m.links ==> m.links[w] == l.reader && l.user in s.reg.current && s.reg.current[l.user] == l.manager)
       && m.closes[w] == Closes(log, w) + m.interrupts[l.reader]
       && m.interrupts[l.reader] <= 1
  }

  /** A manager has to do with its own writers and their readers only. */
  ghost predicate OwnOnly(s: State, i: nat)
    requires i < |s.reg.managers|
  {
    var m := s.reg.managers[i];
    && (forall w :: w in m.links || m.closes[w] > 0 ==> w in s.owner && s.owner[w].manager == i)
    && (forall r :: m.interrupts[r] > 0 ==> ReaderOf(s, i, r))
  }

  ghost predicate ReaderOf(s: State, i: nat, r: Reader) {
    exists w :: w in s.owner && s.owner[w].manager == i && s.owner[w].reader == r
  }

  ghost predicate Exact(s: State, log: seq<Event>) {
    && Sound(s.reg)
    && (forall w :: w in s.owner ==> Accounted(s, log, w))
    && (forall i :: 0 <= i < |s.reg.managers| ==> OwnOnly(s, i))
    && (forall v, w :: v in s.owner && w in s.owner && v != w ==> s.owner[v].reader != s.owner[w].reader)
    && (forall w :: Closes(log, w) > 0 ==> w in s.owner)
  }

  lemma ClosesMore(log: seq<Event>, e: Event, w: Writer)
    ensures Closes(log + [e], w) == Closes(log, w) + if e == Closed(w) then 1 else 0
  {
  }

  /** The state before a dispatch, with the manager made that the dispatch needs. */
  ghost function Prepared(s: State, user: string): State {
    s.(reg := WithManager(s.reg, user))
  }

  lemma PreparedExact(s: State, log: seq<Event>, user: string)
    requires Exact(s, log)
    ensures Exact(Prepared(s, user), log)
  {
    hide Closes;
    var t := Prepared(s, user);
    forall w | w in t.owner ensures Accounted(t, log, w) { assert Accounted(s, log, w); }
    forall j | 0 <= j < |t.reg.managers| ensures OwnOnly(t, j) {
      if j < |s.reg.managers| { SameOwnOnly(s, t, j); }
    }
  }

  /** A manager that did not change has to do with the same writers and readers. */
  lemma SameOwnOnly(s: State, t: State, j: nat)
    requires j < |s.reg.managers| && j < |t.reg.managers| && OwnOnly(s, j)
    requires t.reg.managers[j].interrupts == s.reg.managers[j].interrupts
    requires forall w :: w in t.reg.managers[j].links || t.reg.managers[j].closes[w] > 0 ==>
      w in t.owner && t.owner[w].manager == j
    requires forall w :: w in s.owner ==> w in t.owner && t.owner[w] == s.owner[w]
    ensures OwnOnly(t, j)
  {
    forall r | t.reg.managers[j].interrupts[r] > 0 ensures ReaderOf(t, j, r) {
      assert ReaderOf(s, j, r);
      var w :| w in s.owner && s.owner[w].manager == j && s.owner[w].reader == r;
      assert w in t.owner;
    }
  }

  lemma DispatchExact(s: State, log: seq<Event>, e: Event, t: State)
    requires Exact(s, log) && e.Dispatched? && Step(s, e, t)
    ensures Exact(t, log + [e])
  {
    PreparedExact(s, log, e.user);
    LogMore(Prepared(s, e.user), log, e);
    hide WithManager, Closes, Exact, OwnOnly;
    LinkExact(Prepared(s, e.user), log + [e], e.user, e.w, e.r, t);
  }

  /** Registering a new writer with its user's manager. */
  lemma LinkExact(s: State, log: seq<Event>, user: string, w: Writer, r: Reader, t: State)
    requires Exact(s, log) && user in s.reg.current && w !in s.owner
    requires forall v :: v in s.owner ==> s.owner[v].reader != r
    requires
      var i := s.reg.current[user];
      && i < |s.reg.managers|
      && t.owner == s.owner[w := Link(user, i, r)]
      && t.reg.current == s.reg.current && t.reg.managers == s.reg.managers[i := Linked(s.reg.managers[i], w, r)]
    ensures Exact(t, log)
  {
    hide Closes, OwnOnly, Accounted;
    var i := s.reg.current[user];
    forall v | v in t.owner ensures Accounted(t, log, v) {
      LinkAccounted(s, log, user, w, r, t, v);
    }
    forall j | 0 <= j < |t.reg.managers| ensures OwnOnly(t, j) {
      LinkOwnOnly(s, i, w, r, t, j);
    }
  }

  lemma LinkAccounted(s: State, log: seq<Event>, user: string, w: Writer, r: Reader, t: State, v: Writer)
    requires user in s.reg.current && s.reg.current[user] < |s.reg.managers| && w !in s.owner
    requires forall x :: x in s.owner ==> s.owner[x].reader != r
    requires
      var i := s.reg.current[user];
      && OwnOnly(s, i) && t.owner == s.owner[w := Link(user, i, r)]
      && t.reg.current == s.reg.current && t.reg.managers == s.reg.managers[i := Linked(s.reg.managers[i], w, r)]
    requires v in t.owner && (v in s.owner ==> Accounted(s, log, v))
    requires Closes(log, w) == 0
    ensures Accounted(t, log, v)
  {
    hide Closes;
    assert !ReaderOf(s, s.reg.current[user], r);
  }

  lemma LinkOwnOnly(s: State, i: nat, w: Writer, r: Reader, t: State, j: nat)
    requires i < |s.reg.managers| && w !in s.owner && j < |s.reg.managers| && OwnOnly(s, j)
    requires w in t.owner && t.owner == s.owner[w := t.owner[w]] && t.owner[w].manager == i
    requires t.reg.managers == s.reg.managers[i := Linked(s.reg.managers[i], w, r)]
    ensures OwnOnly(t, j)
  {
    SameOwnOnly(s, t, j);
  }

  lemma CloseExact(s: State, log: seq<Event>, e: Event, t: State)
    requires Exact(s, log) && e.Closed? && Step(s, e, t)
    ensures Exact(t, log + [e])
  {
    forall w ensures Closes(log + [e], w) == Closes(log, w) + if w == e.w then 1 else 0 { ClosesMore(log, e, w); }
    hide Closes, OwnOnly, Accounted;
    forall w | w in t.owner ensures Accounted(t, log + [e], w) {
      CloseAccounted(s, log, e, t, w);
    }
    forall j | 0 <= j < |t.reg.managers| ensures OwnOnly(t, j) {
      CloseOwnOnly(s, e.w, t, j);
    }
  }

  lemma CloseAccounted(s: State, log: seq<Event>, e: Event, t: State, w: Writer)
    requires e.Closed? && Step(s, e, t) && w in s.owner && Accounted(s, log, w) && Accounted(s, log, e.w)
    requires Closes(log + [e], w) == Closes(log, w) + if w == e.w then 1 else 0
    ensures Accounted(t, log + [e], w)
  {
    hide Closes;
  }

  lemma CloseOwnOnly(s: State, w: Writer, t: State, j: nat)
    requires w in s.owner && s.owner[w].manager < |s.reg.managers| && Sound(s.reg)
    requires t == State(CloseOne(s.reg, s.owner[w].manager, w), s.owner)
    requires j < |s.reg.managers| && OwnOnly(s, j)
    ensures OwnOnly(t, j)
  {
    SameOwnOnly(s, t, j);
  }

  /** What emptying a manager does to one writer and its reader. */
  lemma ManagerEmptied(s: State, log: seq<Event>, i: nat, w: Writer)
    requires Exact(s, log) && i < |s.reg.managers| && w in s.owner && s.owner[w].manager == i
    ensures
      var m, r := s.reg.managers[i], s.owner[w].reader;
      var n := AllClosed(m);
      && n.closes[w] == m.closes[w] + (if w in m.links then 1 else 0)
      && n.interrupts[r] == m.interrupts[r] + (if w in m.links then 1 else 0)
  {
    hide ReaderBag, Closes;
    var m, r := s.reg.managers[i], s.owner[w].reader;
    assert OwnOnly(s, i);
    forall v | v in m.links ensures v in s.owner && m.links[v] == s.owner[v].reader {
      assert Accounted(s, log, v);
    }
    BagCount(m.links, r);
  }

  lemma EmptiedOwnOnly(s: State, log: seq<Event>, i: nat)
    requires Exact(s, log) && i < |s.reg.managers|
    ensures var n := AllClosed(s.reg.managers[i]);
      && (forall w :: n.closes[w] > 0 ==> w in s.owner && s.owner[w].manager == i)
      && (forall r :: n.interrupts[r] > 0 ==> ReaderOf(s, i, r))
  {
    hide ReaderBag, Closes;
    var m := s.reg.managers[i];
    assert OwnOnly(s, i);
    forall v | v in m.links ensures v in s.owner && m.links[v] == s.owner[v].reader {
      assert Accounted(s, log, v);
    }
    forall r | AllClosed(m).interrupts[r] > 0 ensures ReaderOf(s, i, r) {
      BagCount(m.links, r);
      if m.interrupts[r] == 0 {
        var w :| w in m.links && m.links[w] == r;
        assert w in s.owner && s.owner[w].manager == i;
      }
    }
  }

  lemma DropExact(s: State, log: seq<Event>, user: string)
    requires Exact(s, log)
    ensures Exact(s.(reg := Drop(s.reg, user)), log)
  {
    hide Closes, AllClosed, OwnOnly, Accounted;
    var t := s.(reg := Drop(s.reg, user));
    forall w | w in t.owner ensures Accounted(t, log, w) {
      DropAccounted(s, log, user, w);
    }
    forall j | 0 <= j < |t.reg.managers| ensures OwnOnly(t, j) {
      DropOwnOnly(s, log, user, j);
    }
  }

  lemma DropAccounted(s: State, log: seq<Event>, user: string, w: Writer)
    requires Exact(s, log) && w in s.owner
    ensures Accounted(s.(reg := Drop(s.reg, user)), log, w)
  {
    hide Closes, AllClosed, OwnOnly;
    assert Accounted(s, log, w);
    var i := s.owner[w].manager;
    if user in s.reg.current && s.reg.current[user] == i {
      ManagerEmptied(s, log, i, w);
      NothingLinked(s.reg.managers[i]);
    }
  }

  lemma DropOwnOnly(s: State, log: seq<Event>, user: string, j: nat)
    requires Exact(s, log) && j < |s.reg.managers|
    ensures OwnOnly(s.(reg := Drop(s.reg, user)), j)
  {
    hide Closes, AllClosed, Accounted;
    var t := s.(reg := Drop(s.reg, user));
    assert OwnOnly(s, j);
    if user in s.reg.current && s.reg.current[user] == j {
      EmptiedOwnOnly(s, log, j);
      NothingLinked(s.reg.managers[j]);
    }
    forall r | t.reg.managers[j].interrupts[r] > 0 ensures ReaderOf(t, j, r) {
      assert ReaderOf(s, j, r);
    }
  }

  lemma NothingLinked(m: Manager)
    ensures AllClosed(m).links == map[]
  {
  }

  lemma {:induction false} DelExact(s: State, log: seq<Event>, users: seq<string>, refused: set<string>)
    requires Exact(s, log)
    ensures Exact(s.(reg := Del(s.reg, users, refused).0), log)
    decreases |users|
  {
    hide Exact, Drop;
    if users != [] && users[0] !in refused {
      DropExact(s, log, users[0]);
      DelExact(s.(reg := Drop(s.reg, users[0])), log, users[1..], refused);
    }
  }

  /** An event that is no close leaves the accounts as they are. */
  lemma LogMore(s: State, log: seq<Event>, e: Event)
    requires Exact(s, log) && !e.Closed?
    ensures Exact(s, log + [e])
  {
    forall w ensures Closes(log + [e], w) == Closes(log, w) { ClosesMore(log, e, w); }
    hide Closes;
    forall w | w in s.owner ensures Accounted(s, log + [e], w) {
      assert Accounted(s, log, w);
    }
  }

  lemma StepExact(s: State, log: seq<Event>, e: Event, t: State)
    requires Exact(s, log) && Step(s, e, t)
    ensures Exact(t, log + [e])
  {
    match e
    case Dispatched(user, w, r) => DispatchExact(s, log, e, t);
    case Closed(w) => CloseExact(s, log, e, t);
    case UsersAdded(users) =>
      LogMore(s, log, e);
      UidsExact(s, log + [e], t.reg.uids);
    case UsersDeleted(users, refused, ok) =>
      DelExact(s, log, users, refused);
      LogMore(t, log, e);
  }

  lemma UidsExact(s: State, log: seq<Event>, uids: map<string, int>)
    requires Exact(s, log)
    ensures Exact(s.(reg := s.reg.(uids := uids)), log)
  {
    hide Closes;
    var t := s.(reg := s.reg.(uids := uids));
    forall w | w in t.owner ensures Accounted(t, log, w) { assert Accounted(s, log, w); }
    forall j | 0 <= j < |t.reg.managers| ensures OwnOnly(t, j) {
      assert OwnOnly(s, j);
      forall r | t.reg.managers[j].interrupts[r] > 0 ensures ReaderOf(t, j, r) { assert ReaderOf(s, j, r); }
    }
  }

  /** Over any sequence of dispatches, closes and user changes every writer's account is exact. */
  lemma {:induction false} RunExact(states: seq<State>, events: seq<Event>, i: nat)
    requires Run(states, events) && Initial(states[0]) && i < |states|
    ensures Exact(states[i], events[..i])
  {
    if i > 0 {
      hide Exact, Step;
      RunExact(states, events, i - 1);
      assert Step(states[i - 1], events[i - 1], states[i]);
      assert events[..i - 1] + [events[i - 1]] == events[..i];
      StepExact(states[i - 1], events[..i - 1], events[i - 1], states[i]);
    }
  }

  /** What a successful removal leaves of a removed user in the tables: nothing. */
  lemma {:induction false} DelRemoves(s: Reg, users: seq<string>, refused: set<string>, user: string)
    requires Del(s, users, refused).1
    requires user in users || (user !in s.uids && user !in s.counters && user !in s.current)
    ensures
      var t := Del(s, users, refused).0;
      user !in t.uids && user !in t.counters && user !in t.current
    decreases |users|
  {
    if users != [] {
      assert user in users ==> user == users[0] || user in users[1..];
      DelRemoves(Drop(s, users[0]), users[1..], refused, user);
    }
  }

  /** After a removal that succeeded, a removed user has no id, no counter and no registered link.
      Every writer it ever had is closed; one that its connection never closed was closed exactly
      once, and its reader interrupted exactly once. */
  lemma RemovalIsComplete(states: seq<State>, events: seq<Event>, i: nat, user: string)
    requires Run(states, events) && Initial(states[0]) && i < |events|
    requires events[i].UsersDeleted? && events[i].ok && user in events[i].users
    ensures
      var t := states[i + 1];
      && user !in t.reg.uids && user !in t.reg.counters && user !in t.reg.current
      && forall w :: w in t.owner && t.owner[w].user == user ==>
           && t.owner[w].manager < |t.reg.managers|
           && var m := t.reg.managers[t.owner[w].manager];
              && w !in m.links && m.closes[w] >= 1
              && (Closes(events[..i + 1], w) == 0 ==> m.closes[w] == 1 && m.interrupts[t.owner[w].reader] == 1)
  {
    hide Del, Closes, OwnOnly;
    RunExact(states, events, i);
    assert Step(states[i], events[i], states[i + 1]);
    DelRemoves(states[i].reg, events[i].users, events[i].refused, user);
    RunExact(states, events, i + 1);
    var t := states[i + 1];
    forall w | w in t.owner && t.owner[w].user == user ensures Accounted(t, events[..i + 1], w) {
    }
  }

  /** A removal that stops at a refused user has removed exactly the users before it. */
  lemma {:induction false} RefusedPartway(s: Reg, users: seq<string>, refused: set<string>, k: nat)
    requires k < |users| && users[k] in refused && forall j :: 0 <= j < k ==> users[j] !in refused
    ensures Del(s, users, refused) == (Del(s, users[..k], refused).0, false)
    ensures Del(s, users[..k], refused).1
    decreases |users|
  {
    if k > 0 {
      assert users[..k][1..] == users[1..][..k - 1] && users[..k][0] == users[0];
      assert forall j :: 0 <= j < k - 1 ==> users[1..][j] == users[j + 1];
      RefusedPartway(Drop(s, users[0]), users[1..], refused, k - 1);
    }
  }
}
