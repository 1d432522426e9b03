/**
 Ids and counters of users over runs of the core: who has one, since when, and which.
 */
module RegistryLaws {
  import opened Basics
  import opened Links
  import opened Registry

  // ---------------------------------------------------------------------
  // One call
  // ---------------------------------------------------------------------

  /** The list gives the user this id: it does so at its last mention of the user. */
  ghost predicate Gives(users: seq<(string, int)>, user: string, id: int) {
    exists k :: 0 <= k < |users| && users[k] == (user, id) && !Mentions(users[k + 1..], user)
  }

  /** The list mentions the user. */
  ghost predicate Mentions(users: seq<(string, int)>, user: string) {
    exists k :: 0 <= k < |users| && users[k].0 == user
  }

  lemma MentionsMore(users: seq<(string, int)>, user: string)
    requires users != []
    ensures Mentions(users, user) <==> users[0].0 == user || Mentions(users[1..], user)
  {
    var rest := users[1..];
    assert forall k :: 1 <= k < |users| ==> users[k] == rest[k - 1];
    if Mentions(rest, user) {
      var k :| 0 <= k < |rest| && rest[k].0 == user;
      assert users[k + 1].0 == user;
    }
  }

  lemma GivesMore(users: seq<(string, int)>, user: string, id: int)
    requires users != []
    ensures Gives(users, user, id) <==>
      Gives(users[1..], user, id) || (users[0] == (user, id) && !Mentions(users[1..], user))
  {
    hide Mentions;
    var rest := users[1..];
    if Gives(users, user, id) {
      var k :| 0 <= k < |users| && users[k] == (user, id) && !Mentions(users[k + 1..], user);
      if k > 0 { assert rest[k - 1] == users[k] && rest[k..] == users[k + 1..]; }
    }
    if Gives(rest, user, id) {
      var k :| 0 <= k < |rest| && rest[k] == (user, id) && !Mentions(rest[k + 1..], user);
      assert users[k + 1] == rest[k] && users[k + 2..] == rest[k + 1..];
    }
  }

  /** A user that the list mentions gets the id of its last mention; every other id stays. */
  lemma {:induction false} StoreIs(uids: map<string, int>, users: seq<(string, int)>, user: string)
    ensures Mentions(users, user) ==> user in Store(uids, users) && Gives(users, user, Store(uids, users)[user])
    ensures !Mentions(users, user) ==> (user in Store(uids, users) <==> user in uids)
    ensures !Mentions(users, user) && user in uids ==> Store(uids, users)[user] == uids[user]
    decreases |users|
  {
    hide Mentions, Gives;
    if users == [] {
      assert !Mentions([], user) by { NobodyMentioned(user); }
    } else {
      MentionsMore(users, user);
      var more := uids[users[0].0 := users[0].1];
      StoreIs(more, users[1..], user);
      if Mentions(users, user) { GivesMore(users, user, Store(uids, users)[user]); }
    }
  }

  lemma NobodyMentioned(user: string)
    ensures !Mentions([], user)
  {
  }

  /** The removal gets to this user: it is listed, and nobody up to it is refused. */
  ghost predicate Reaches(users: seq<string>, refused: set<string>, user: string) {
    exists k :: 0 <= k < |users| && users[k] == user && forall j :: 0 <= j <= k ==> users[j] !in refused
  }

  lemma ReachesMore(users: seq<string>, refused: set<string>, user: string)
    requires users != []
    ensures Reaches(users, refused, user) <==>
      users[0] !in refused && (users[0] == user || Reaches(users[1..], refused, user))
  {
    var rest := users[1..];
    assert forall j :: 1 <= j < |users| ==> users[j] == rest[j - 1];
    if Reaches(rest, refused, user) && users[0] !in refused {
      var k :| 0 <= k < |rest| && rest[k] == user && forall j :: 0 <= j <= k ==> rest[j] !in refused;
      assert users[k + 1] == user;
    }
    if Reaches(users, refused, user) {
      var k :| 0 <= k < |users| && users[k] == user && forall j :: 0 <= j <= k ==> users[j] !in refused;
      if k > 0 { assert rest[k - 1] == user; }
    }
  }

  /** A removal takes id, counter and manager from exactly the users it reaches, and nothing from any
      other; it succeeds if and only if no listed user is refused. */
  lemma {:induction false} DelIs(s: Reg, users: seq<string>, refused: set<string>, user: string)
    ensures
      var (t, ok) := Del(s, users, refused);
      var gone := Reaches(users, refused, user);
      && (ok <==> forall u :: u in users ==> u !in refused)
      && (user in t.uids <==> user in s.uids && !gone) && (user in t.uids ==> t.uids[user] == s.uids[user])
      && (user in t.counters <==> user in s.counters && !gone)
      && (user in t.counters ==> t.counters[user] == s.counters[user])
      && (user in t.current <==> user in s.current && !gone)
      && (user in t.current ==> t.current[user] == s.current[user])
    decreases |users|
  {
    hide Reaches, AllClosed;
    if users == [] {
      assert !Reaches(users, refused, user) by { NobodyReached(refused, user); }
    } else {
      ReachesMore(users, refused, user);
      DelIs(Drop(s, users[0]), users[1..], refused, user);
      assert forall u :: u in users <==> u == users[0] || u in users[1..];
    }
  }

  lemma NobodyReached(refused: set<string>, user: string)
    ensures !Reaches([], refused, user)
  {
  }

  /** A dispatch makes a counter of zero for its user if there is none, and touches no other entry. */
  lemma DispatchIs(s: Reg, user: string, w: Writer, r: Reader)
    ensures
      var t := Dispatch(s, user, w, r);
      && t.uids == s.uids
      && (forall u :: u in t.counters <==> u in s.counters || u == user)
      && (forall u :: u in t.counters ==> t.counters[u] == if u in s.counters then s.counters[u] else Pair(0, 0))
  {
    hide Linked;
  }

  // ---------------------------------------------------------------------
  // Runs
  // ---------------------------------------------------------------------

  ghost predicate GivesId(e: Event, user: string, id: int) {
    e.UsersAdded? && Gives(e.ids, user, id)
  }

  ghost predicate Touches(e: Event, user: string) {
    (e.UsersAdded? && Mentions(e.ids, user)) || Removes(e, user)
  }

  ghost predicate Removes(e: Event, user: string) {
    e.UsersDeleted? && Reaches(e.users, e.refused, user)
  }

  lemma StepIds(s: State, e: Event, t: State, user: string)
    requires Step(s, e, t)
    ensures user in t.reg.uids ==>
      || GivesId(e, user, t.reg.uids[user])
      || (!Touches(e, user) && user in s.reg.uids && s.reg.uids[user] == t.reg.uids[user])
    ensures !Touches(e, user) && user in s.reg.uids ==> user in t.reg.uids && t.reg.uids[user] == s.reg.uids[user]
    ensures e.UsersAdded? && Mentions(e.ids, user) ==> user in t.reg.uids
  {
    hide Gives, Mentions, Reaches, Store, Del, Linked, WriterClosed;
    match e
    case Dispatched(u, w, r) => DispatchIs(s.reg, u, w, r);
    case Closed(w) =>
    case UsersAdded(users) => StoreIs(s.reg.uids, users, user);
    case UsersDeleted(users, refused, ok) => DelIs(s.reg, users, refused, user);
  }

  lemma StepCounters(s: State, e: Event, t: State, user: string)
    requires Step(s, e, t)
    ensures user in t.reg.counters <==>
      (e.Dispatched? && e.user == user) || (user in s.reg.counters && !Removes(e, user))
    ensures user in t.reg.counters ==>
      t.reg.counters[user] == if user in s.reg.counters then s.reg.counters[user] else Pair(0, 0)
  {
    hide Reaches, Store, Del, Linked, WriterClosed;
    match e
    case Dispatched(u, w, r) => DispatchIs(s.reg, u, w, r);
    case Closed(w) =>
    case UsersAdded(users) =>
    case UsersDeleted(users, refused, ok) => DelIs(s.reg, users, refused, user);
  }

  /** Event `i` gave the user this id, and no event since then mentioned or removed the user. */
  ghost predicate GivenAt(events: seq<Event>, i: int, n: nat, user: string, id: int)
    requires n <= |events|
  {
    0 <= i < n && GivesId(events[i], user, id) && forall m :: i < m < n ==> !Touches(events[m], user)
  }

  /** In every run the id of a user is the one it was given last, unless it was removed since. */
  lemma {:induction false} IdSince(states: seq<State>, events: seq<Event>, n: nat, user: string, id: int)
    requires Run(states, events) && Initial(states[0]) && n < |states|
    ensures user in states[n].reg.uids && states[n].reg.uids[user] == id <==>
      exists i :: GivenAt(events, i, n, user, id)
  {
    hide Step, GivesId, Touches;
    if n > 0 {
      var s, e, t := states[n - 1], events[n - 1], states[n];
      IdSince(states, events, n - 1, user, id);
      StepIds(s, e, t, user);
      GivenTouches(e, user);
      if user in t.reg.uids && t.reg.uids[user] == id {
        if GivesId(e, user, id) {
          assert GivenAt(events, n - 1, n, user, id);
        } else {
          var i :| GivenAt(events, i, n - 1, user, id);
          assert GivenAt(events, i, n, user, id);
        }
      }
      if i :| GivenAt(events, i, n, user, id) {
        if i < n - 1 { assert GivenAt(events, i, n - 1, user, id); }
      }
    }
  }

  lemma GivenTouches(e: Event, user: string)
    ensures forall id :: GivesId(e, user, id) ==> e.UsersAdded? && Mentions(e.ids, user) && Touches(e, user)
    ensures forall id, other :: GivesId(e, user, id) && GivesId(e, user, other) ==> id == other
  {
    hide Reaches;
    forall id, other | GivesId(e, user, id) && GivesId(e, user, other) ensures id == other {
      GivenOnce(e.ids, user, id, other);
    }
  }

  lemma GivenOnce(users: seq<(string, int)>, user: string, id: int, other: int)
    requires Gives(users, user, id) && Gives(users, user, other)
    ensures id == other
  {
    var k :| 0 <= k < |users| && users[k] == (user, id) && !Mentions(users[k + 1..], user);
    var l :| 0 <= l < |users| && users[l] == (user, other) && !Mentions(users[l + 1..], user);
    NoneAfter(users, user, k);
    NoneAfter(users, user, l);
  }

  lemma NoneAfter(users: seq<(string, int)>, user: string, k: nat)
    requires k < |users| && !Mentions(users[k + 1..], user)
    ensures forall j :: k < j < |users| ==> users[j].0 != user
  {
    forall j | k < j < |users| ensures users[j].0 != user {
      assert users[j] == users[k + 1..][j - k - 1];
    }
  }

  /** In every run a user has a counter exactly if it was dispatched and not removed since. */
  lemma {:induction false} CounterSince(states: seq<State>, events: seq<Event>, n: nat, user: string)
    requires Run(states, events) && Initial(states[0]) && n < |states|
    ensures user in states[n].reg.counters <==>
      exists i ::
        0 <= i < n && events[i].Dispatched? && events[i].user == user &&
        forall m :: i < m < n ==> !Removes(events[m], user)
  {
    hide Step, Removes;
    if n > 0 {
      CounterSince(states, events, n - 1, user);
      StepCounters(states[n - 1], events[n - 1], states[n], user);
      DispatchRemoves(events[n - 1], user);
    }
  }

  lemma DispatchRemoves(e: Event, user: string)
    ensures e.Dispatched? ==> !Removes(e, user)
  {
  }
}
