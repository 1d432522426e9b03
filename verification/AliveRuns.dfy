/**
 The panel's counts of alive addresses, by user id: which tick sets them and which takes ids out.
 */
module AliveRuns {
  import opened Basics
  import opened Panel
  import opened L = Limiter
  import opened UserList
  import opened NodeSync
  import opened NodeRuns
  import LimiterLaws

  /** All three requests of the tick went well. */
  predicate Replied(i: Input) {
    i.node.Got? && i.users.Got? && i.alive.Got?
  }

  /** The tick deletes users from the limiter: the node is unchanged, the list is not empty, and every
      core call that the comparison needs succeeds. */
  ghost predicate Deletes(c: Node, i: Input, list: seq<UserInfo>) {
    && Replied(i) && i.node == Got(None) && i.users == Got(Some(list)) && list != []
    && (Deleted(c.users, list) != {} ==> i.core.delUsers)
    && (Added(Keys(c.users), list) != [] ==> i.core.addUsers)
  }

  /** The tick deletes a user with this id. */
  ghost predicate DeletesId(c: Node, i: Input, id: int) {
    exists list :: Deletes(c, i, list) && exists u :: u in Deleted(c.users, list) && u.id == id
  }

  /** The tick gives an unnamed node a new limiter. */
  predicate Rebuilt(c: Node, i: Input) {
    Replied(i) && i.node.value.Some? && c.name == ""
  }

  /** The counts after a tick. A failed request leaves them alone; a list that came with the tick
      replaces them, with a new limiter and no list there are none; and the ids of deleted users are
      taken out. */
  lemma CountsAfterTick(c: Node, i: Input, d: Node)
    requires Tick(c, i) == Alive(d)
    ensures
      var base :=
        if !Replied(i) then c.limiter.alive
        else if i.alive.value.Some? then i.alive.value.value
        else if Rebuilt(c, i) then map[]
        else c.limiter.alive;
      && (forall id :: id in d.limiter.alive <==> id in base && !DeletesId(c, i, id))
      && (forall id :: id in d.limiter.alive ==> d.limiter.alive[id] == base[id])
  {
    hide L.StoreLimits, L.StoreUids, Added, Deleted, Keys, BuildNodeTag;
    if Replied(i) && i.node == Got(None) && i.users.value.Some? {
      var list := i.users.value.value;
      assert forall id :: DeletesId(c, i, id) <==>
        Deletes(c, i, list) && exists u :: u in Deleted(c.users, list) && u.id == id;
    }
  }

  /** A step that is no tick leaves the counts alone. */
  lemma CountsOtherwise(c: Node, e: Event, d: Node)
    requires Step(c, e, d) && !e.Ticked?
    ensures d.limiter.alive == c.limiter.alive
  {
    hide L.Check, L.Lists;
    match e
    case Checked(key, ip, tracked, now, verdict) => LimiterLaws.LimitsAfterCheck(c.limiter, key, ip, tracked, now);
    case Reported(out) =>
  }

  /** Event `m` is a tick that deletes a user with this id. */
  ghost predicate DeletedAt(states: seq<Node>, events: seq<Event>, m: nat, id: int)
    requires |states| == |events| + 1 && m < |events|
  {
    events[m].Ticked? && DeletesId(states[m], events[m].input, id)
  }

  /** No tick from event `i` on and before event `n` deletes a user with this id. */
  ghost predicate NeverDeleted(states: seq<Node>, events: seq<Event>, i: nat, n: nat, id: int)
    requires |states| == |events| + 1 && n <= |events|
  {
    forall m :: i <= m < n ==> !DeletedAt(states, events, m, id)
  }

  lemma NeverDeletedMore(states: seq<Node>, events: seq<Event>, i: nat, n: nat, id: int)
    requires |states| == |events| + 1 && i < n <= |events|
    ensures NeverDeleted(states, events, i, n, id) <==>
      NeverDeleted(states, events, i, n - 1, id) && !DeletedAt(states, events, n - 1, id)
    ensures NeverDeleted(states, events, i, i, id)
  {
    hide DeletedAt;
  }

  /** Event `m` is a tick that brings other counts, or a new limiter. */
  ghost predicate ResetsAt(states: seq<Node>, events: seq<Event>, m: nat)
    requires |states| == |events| + 1 && m < |events|
  {
    events[m].Ticked? && Replied(events[m].input) &&
      (events[m].input.alive.value.Some? || Rebuilt(states[m], events[m].input))
  }

  /** In every run: from a tick that brought counts on, as long as no later tick brings others or a new
      limiter, the limiter has the count of an id exactly as that tick brought it, unless a tick
      deleted a user with the id. */
  lemma {:induction false} CountsSince(states: seq<Node>, events: seq<Event>, i: nat, n: nat, a: map<int, int>, id: int)
    requires Run(states, events) && i < n < |states|
    requires events[i].Ticked? && Replied(events[i].input) && events[i].input.alive == Got(Some(a))
    requires forall m :: i < m < n ==> !ResetsAt(states, events, m)
    ensures id in states[n].limiter.alive <==> id in a && NeverDeleted(states, events, i, n, id)
    ensures id in states[n].limiter.alive ==> states[n].limiter.alive[id] == a[id]
    decreases n
  {
    hide Step, Tick, DeletesId, Rebuilt, NeverDeleted;
    NeverDeletedMore(states, events, i, n, id);
    var c, e, d := states[n - 1], events[n - 1], states[n];
    assert Step(c, e, d);
    if i < n - 1 {
      CountsSince(states, events, i, n - 1, a, id);
      assert !ResetsAt(states, events, n - 1);
    }
    CountsStep(c, e, d);
  }

  lemma CountsStep(c: Node, e: Event, d: Node)
    requires Step(c, e, d)
    ensures !e.Ticked? ==> d.limiter.alive == c.limiter.alive
    ensures e.Ticked? ==>
      var i := e.input;
      var base :=
        if !Replied(i) then c.limiter.alive
        else if i.alive.value.Some? then i.alive.value.value
        else if Rebuilt(c, i) then map[]
        else c.limiter.alive;
      && (forall id :: id in d.limiter.alive <==> id in base && !DeletesId(c, i, id))
      && (forall id :: id in d.limiter.alive ==> d.limiter.alive[id] == base[id])
  {
    hide Tick, DeletesId, Rebuilt, L.Check, L.Reports;
    if e.Ticked? { CountsAfterTick(c, e.input, d); } else { CountsOtherwise(c, e, d); }
  }
}
