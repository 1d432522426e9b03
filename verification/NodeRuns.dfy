/**
 Whole runs of a node: connection checks, online reports and ticks in any order, and what they
 keep, from the start of the controller on.
 */
module NodeRuns {
  import opened Basics
  import opened Panel
  import opened L = Limiter
  import opened UserList
  import opened NodeSync

  datatype Event =
    | Checked(key: string, ip: string, tracked: bool, now: int, verdict: Verdict)
    | Reported(out: seq<OnlineUser>)
    | Ticked(input: Input)

  ghost predicate Step(c: Node, e: Event, d: Node) {
    match e
    case Checked(key, ip, tracked, now, verdict) =>
      && d == c.(limiter := d.limiter)
      && (d.limiter, verdict) == L.Check(c.limiter, key, ip, tracked, now)
    case Reported(out) => d == c.(limiter := d.limiter) && L.Reports(c.limiter, d.limiter, out)
    case Ticked(input) => Tick(c, input) == Alive(d)
  }

  /** `states[i]` is the node before `events[i]`. A tick that ends the process ends the run. */
  ghost predicate Run(states: seq<Node>, events: seq<Event>) {
    && |states| == |events| + 1
    && forall i :: 0 <= i < |events| ==> Step(states[i], events[i], states[i + 1])
  }

  // ---------------------------------------------------------------------
  // The invariant
  // ---------------------------------------------------------------------

  /** The limiter's users are exactly those of the user list, with the same speed limits. */
  ghost predicate Synced(c: Node) {
    && (forall u :: u in c.users ==> InForce(c, u))
    && (forall k :: k in c.limiter.limits ==> exists u :: u in c.users && k == UserTag(c.tag, u.uuid))
  }

  ghost predicate InForce(c: Node, u: UserInfo) {
    var k := UserTag(c.tag, u.uuid);
    k in c.limiter.limits && c.limiter.limits[k].speedLimit == u.speedLimit
  }

  /** Every bucket handed out belongs to a user and has the rate of that user's current limit. */
  ghost predicate BucketsAgree(s: State) {
    forall k :: k in s.buckets ==>
      && k in s.limits
      && s.buckets[k] == Rate(s.nodeLimit, DetermineSpeedLimit(s.limits[k].speedLimit, s.limits[k].dynamicSpeedLimit))
      && s.buckets[k] > 0
  }

  /** Every address online belongs to a user and carries that user's id. */
  ghost predicate OnlineKnown(s: State) {
    forall k :: k in s.online ==>
      k in s.limits && forall ip :: ip in s.online[k] ==> s.online[k][ip] == s.limits[k].uid
  }

  /** No user has a temporary speed limit. */
  ghost predicate Permanent(limits: map<string, UserLimit>) {
    forall k :: k in limits ==> limits[k].dynamicSpeedLimit == 0 && limits[k].expireTime == 0
  }

  ghost predicate GoodList(users: seq<UserInfo>, n: nat) {
    UniqueUuids(users) && UuidLength(users, n)
  }

  ghost predicate Inv(c: Node, n: nat) {
    && GoodList(c.users, n)
    && Synced(c)
    && BucketsAgree(c.limiter) && OnlineKnown(c.limiter) && Permanent(c.limiter.limits)
  }

  /** The panel sends lists without repeated uuids, all uuids of one length, and a node that has
      a name of its own is never changed. */
  ghost predicate GoodInput(c: Node, i: Input, n: nat) {
    && (i.users.Got? && i.users.value.Some? ==> GoodList(i.users.value.value, n))
    && (i.node.Got? && i.node.value.Some? ==> c.name == "")
  }

  ghost predicate GoodRun(states: seq<Node>, events: seq<Event>, n: nat) {
    && Run(states, events)
    && forall i :: 0 <= i < |events| && events[i].Ticked? ==> GoodInput(states[i], events[i].input, n)
  }

  // ---------------------------------------------------------------------
  // Storing and removing users
  // ---------------------------------------------------------------------

  ghost predicate Named(tag: string, users: seq<UserInfo>, k: string) {
    exists u :: u in users && k == UserTag(tag, u.uuid)
  }

  /** A stored user is there with its limits. */
  lemma {:induction false} StoredEntry(limits: map<string, UserLimit>, tag: string, users: seq<UserInfo>, u: UserInfo)
    requires UniqueUuids(users) && u in users
    ensures
      var k, r := UserTag(tag, u.uuid), L.StoreLimits(limits, tag, users);
      && k in r
      && r[k].uid == u.id && r[k].speedLimit == u.speedLimit && r[k].deviceLimit == u.deviceLimit
      && r[k].dynamicSpeedLimit == 0 && r[k].expireTime == 0
  {
    hide UserTag;
    var m := |users| - 1;
    var front, last := users[..m], users[m];
    assert users == front + [last];
    if u != last {
      StoredEntry(limits, tag, front, u);
      SameUuidIn(users, u, last);
      UserTagInjective(tag, u.uuid, last.uuid);
    }
  }

  /** Storing users leaves the other entries as they were. */
  lemma {:induction false} OtherEntry(limits: map<string, UserLimit>, tag: string, users: seq<UserInfo>, k: string)
    requires !Named(tag, users, k)
    ensures
      var r := L.StoreLimits(limits, tag, users);
      (k in r <==> k in limits) && (k in r ==> r[k] == limits[k])
  {
    hide UserTag;
    if users != [] {
      var m := |users| - 1;
      assert users[m] in users;
      OtherEntry(limits, tag, users[..m], k);
    }
  }

  /** An entry after users were stored: the stored user's, or the one from before. */
  lemma StoreLimitsAt(limits: map<string, UserLimit>, tag: string, users: seq<UserInfo>, k: string)
    requires UniqueUuids(users)
    ensures var r := L.StoreLimits(limits, tag, users);
      && (forall u :: u in users && k == UserTag(tag, u.uuid) ==> k in r && r[k] == L.NewLimit(u))
      && (!Named(tag, users, k) ==> (k in r <==> k in limits) && (k in r ==> r[k] == limits[k]))
  {
    hide UserTag, L.StoreLimits;
    var r := L.StoreLimits(limits, tag, users);
    forall u | u in users && k == UserTag(tag, u.uuid) ensures k in r && r[k] == L.NewLimit(u) {
      StoredEntry(limits, tag, users, u);
    }
    if !Named(tag, users, k) { OtherEntry(limits, tag, users, k); }
  }

  lemma {:induction false} StorePermanent(limits: map<string, UserLimit>, tag: string, users: seq<UserInfo>)
    requires Permanent(limits)
    ensures Permanent(L.StoreLimits(limits, tag, users))
  {
    if users != [] {
      var m := |users| - 1;
      StorePermanent(limits, tag, users[..m]);
      assert L.StoreLimits(limits, tag, users)
          == L.StoreLimits(limits, tag, users[..m])[UserTag(tag, users[m].uuid) := L.NewLimit(users[m])];
    }
  }

  /** A fresh limiter is in step with the list it was made from. */
  lemma FreshInv(c: Node, nodeLimit: int, alive: map<int, int>, n: nat)
    requires GoodList(c.users, n)
    requires c.limiter == L.Fresh(nodeLimit, c.tag, c.users, alive)
    ensures Inv(c, n)
  {
    hide L.StoreLimits, L.StoreUids, UserTag;
    StorePermanent(map[], c.tag, c.users);
    forall u | u in c.users ensures InForce(c, u) {
      StoreLimitsAt(map[], c.tag, c.users, UserTag(c.tag, u.uuid));
    }
    forall k | k in c.limiter.limits ensures Named(c.tag, c.users, k) {
      StoreLimitsAt(map[], c.tag, c.users, k);
    }
  }

  /** What the tick knows when it applies a comparison. */
  ghost predicate Compared(c: Node, list: seq<UserInfo>, n: nat) {
    Inv(c, n) && GoodList(list, n)
  }

  lemma Comparable(c: Node, list: seq<UserInfo>, n: nat)
    requires Compared(c, list, n)
    ensures DistinctKeys(c.users) && DistinctKeys(list) && NoClash(c.users, list)
    ensures UniqueUuids(c.users) && UniqueUuids(list)
  {
    hide DistinctKeys, NoClash, Synced, BucketsAgree, OnlineKnown, Permanent, UuidLength;
    OneLengthNoClash(c.users, list, n);
  }

  ghost function Applied(c: Node, list: seq<UserInfo>): Node {
    c.(limiter := L.Update(c.limiter, c.tag, Added(Keys(c.users), list), Deleted(c.users, list)), users := list)
  }

  /** An entry that was not deleted is still the same after the update. */
  lemma KeptEntry(c: Node, list: seq<UserInfo>, n: nat, k: string)
    requires Compared(c, list, n)
    requires k in c.limiter.limits && k !in L.KeysOf(c.tag, Deleted(c.users, list))
    ensures var r := Applied(c, list).limiter.limits; k in r && r[k] == c.limiter.limits[k]
  {
    hide UserTag, Added, Deleted, L.StoreLimits, L.StoreUids, Inv, GoodList, DistinctKeys, NoClash;
    var added, deleted := Added(Keys(c.users), list), Deleted(c.users, list);
    InvSynced(c, n);
    Comparable(c, list, n);
    AddedUnique(Keys(c.users), list);
    var o :| o in c.users && k == UserTag(c.tag, o.uuid);
    assert o !in deleted;
    KeptStays(c.users, list, o);
    StoreLimitsAt(c.limiter.limits - L.KeysOf(c.tag, deleted), c.tag, added, k);
    forall a | a in added ensures k != UserTag(c.tag, a.uuid) {
      UserTagInjective(c.tag, a.uuid, o.uuid);
    }
  }

  /** A user whose uuid and speed the new list repeats keeps the old entry: a new id or device
      limit sent with it does not reach the limiter. */
  lemma DeviceLimitNotRefreshed(c: Node, list: seq<UserInfo>, n: nat, o: UserInfo, u: UserInfo)
    requires Compared(c, list, n)
    requires o in c.users && u in list && o.uuid == u.uuid && o.speedLimit == u.speedLimit
    ensures
      var k := UserTag(c.tag, u.uuid);
      var r := Applied(c, list).limiter.limits;
      k in c.limiter.limits && k in r && r[k] == c.limiter.limits[k]
  {
    hide UserTag, Added, Deleted, L.StoreLimits, L.StoreUids, DistinctKeys, NoClash;
    var k := UserTag(c.tag, u.uuid);
    Comparable(c, list, n);
    assert InForce(c, o);
    UnchangedUntouched(c.users, list, o, u);
    forall d | d in Deleted(c.users, list) ensures k != UserTag(c.tag, d.uuid) {
      UserTagInjective(c.tag, d.uuid, u.uuid);
    }
    KeptEntry(c, list, n, k);
  }

  /** After the update the entry of a user of the new list is the one that the list asks for, exactly
      if the user was not there at that speed, or had that very entry before. */
  lemma RefreshedIff(c: Node, list: seq<UserInfo>, n: nat, u: UserInfo)
    requires Compared(c, list, n) && u in list
    ensures
      var k := UserTag(c.tag, u.uuid);
      var r := Applied(c, list).limiter.limits;
      && k in r
      && (r[k] == L.NewLimit(u) <==>
            || !Has(c.users, u.uuid, u.speedLimit)
            || (k in c.limiter.limits && c.limiter.limits[k] == L.NewLimit(u)))
  {
    hide UserTag, Added, Deleted, L.StoreLimits, L.StoreUids, Inv, GoodList, DistinctKeys, NoClash, Key;
    var k := UserTag(c.tag, u.uuid);
    if Has(c.users, u.uuid, u.speedLimit) {
      var o :| o in c.users && o.uuid == u.uuid && o.speedLimit == u.speedLimit;
      DeviceLimitNotRefreshed(c, list, n, o, u);
    } else {
      Comparable(c, list, n);
      var added := Added(Keys(c.users), list);
      AddedIs(Keys(c.users), list);
      AddedUnique(Keys(c.users), list);
      assert Key(u) !in Keys(c.users) by { NotHasNotKeyed(c.users, list, u); }
      StoreLimitsAt(c.limiter.limits - L.KeysOf(c.tag, Deleted(c.users, list)), c.tag, added, k);
    }
  }

  lemma NotHasNotKeyed(users: seq<UserInfo>, list: seq<UserInfo>, u: UserInfo)
    requires NoClash(users, list) && u in list && !Has(users, u.uuid, u.speedLimit)
    ensures Key(u) !in Keys(users)
  {
    hide Key;
  }

  lemma AppliedSynced(c: Node, list: seq<UserInfo>, n: nat)
    requires Compared(c, list, n)
    ensures Synced(Applied(c, list))
  {
    hide UserTag, Added, Deleted, Key, L.StoreLimits, L.StoreUids, Inv;
    var d := Applied(c, list);
    var added, deleted := Added(Keys(c.users), list), Deleted(c.users, list);
    InvSynced(c, n);
    Comparable(c, list, n);
    AddedIs(Keys(c.users), list);
    AddedUnique(Keys(c.users), list);
    DeletedIs(c.users, list);
    forall u | u in list ensures InForce(d, u) {
      var k := UserTag(c.tag, u.uuid);
      if Key(u) in Keys(c.users) {
        var o :| o in c.users && Key(o) == Key(u);
        assert Key(u) in Keys(list);
        assert o.uuid == u.uuid && InForce(c, o);
        if k in L.KeysOf(c.tag, deleted) {
          var x :| x in deleted && k == UserTag(c.tag, x.uuid);
          UserTagInjective(c.tag, x.uuid, o.uuid);
          SameUuid(c.users, x, o);
        }
        KeptEntry(c, list, n, k);
      } else {
        StoreLimitsAt(c.limiter.limits - L.KeysOf(c.tag, deleted), c.tag, added, k);
      }
    }
    forall k | k in d.limiter.limits ensures Named(d.tag, d.users, k) {
      StoreLimitsAt(c.limiter.limits - L.KeysOf(c.tag, deleted), c.tag, added, k);
      if Named(c.tag, added, k) {
        var a :| a in added && k == UserTag(c.tag, a.uuid);
        assert a in list;
      } else {
        var o :| o in c.users && k == UserTag(c.tag, o.uuid);
        assert o !in deleted;
        var u :| u in list && Key(u) == Key(o);
        assert u.uuid == o.uuid;
      }
    }
  }

  lemma InvSynced(c: Node, n: nat)
    requires Inv(c, n)
    ensures Synced(c) && GoodList(c.users, n)
  {
  }

  lemma AppliedInv(c: Node, list: seq<UserInfo>, n: nat)
    requires Compared(c, list, n)
    ensures Inv(Applied(c, list), n)
  {
    hide UserTag, Added, Deleted, Key, L.StoreLimits, L.StoreUids;
    var d := Applied(c, list);
    AppliedSynced(c, list, n);
    StorePermanent(c.limiter.limits - L.KeysOf(c.tag, Deleted(c.users, list)), c.tag, Added(Keys(c.users), list));
    forall k | k in d.limiter.buckets
      ensures k in d.limiter.limits && d.limiter.limits[k] == c.limiter.limits[k]
    {
      KeptEntry(c, list, n, k);
    }
    forall k | k in d.limiter.online
      ensures k in d.limiter.limits && d.limiter.limits[k] == c.limiter.limits[k]
    {
      KeptEntry(c, list, n, k);
    }
  }

  // ---------------------------------------------------------------------
  // Every step keeps the invariant
  // ---------------------------------------------------------------------

  lemma CheckInv(c: Node, d: Node, n: nat, key: string, ip: string, tracked: bool, now: int)
    requires Inv(c, n) && d == c.(limiter := L.Check(c.limiter, key, ip, tracked, now).0)
    ensures Inv(d, n)
  {
    hide OnlineKnown, BucketsAgree, GoodList, L.Check;
    CheckKeeps(c.limiter, key, ip, tracked, now);
    assert forall u :: u in c.users ==> (InForce(c, u) <==> InForce(d, u));
  }

  lemma CheckKeeps(s: State, key: string, ip: string, tracked: bool, now: int)
    requires OnlineKnown(s) && BucketsAgree(s) && Permanent(s.limits)
    ensures
      var t := L.Check(s, key, ip, tracked, now).0;
      t.limits == s.limits && OnlineKnown(t) && BucketsAgree(t)
  {
    hide TrimMapped, OverDeviceLimit, OnlineKnown, BucketsAgree, Track, GiveBucket, Rate;
    if key in s.limits {
      var u := s.limits[key];
      assert AfterExpiry(s.limits, key, now) == s.limits && s.(limits := s.limits) == s;
      var tracking := Track(s, key, TrimMapped(ip), u.uid);
      TrackKeeps(s, key, TrimMapped(ip));
      BucketKeeps(if tracked then tracking else s, key, UserSpeed(u, now));
    }
  }

  lemma TrackKeeps(s: State, key: string, ip: string)
    requires OnlineKnown(s) && BucketsAgree(s) && key in s.limits
    ensures
      var t := Track(s, key, ip, s.limits[key].uid);
      t.limits == s.limits && t.nodeLimit == s.nodeLimit && OnlineKnown(t) && BucketsAgree(t)
  {
  }

  lemma BucketKeeps(s: State, key: string, speed: int)
    requires OnlineKnown(s) && BucketsAgree(s) && key in s.limits
    requires speed == DetermineSpeedLimit(s.limits[key].speedLimit, s.limits[key].dynamicSpeedLimit)
    ensures
      var t := GiveBucket(s, key, Rate(s.nodeLimit, speed)).0;
      t.limits == s.limits && OnlineKnown(t) && BucketsAgree(t)
  {
    hide DetermineSpeedLimit;
  }

  /** A tick with an unchanged node. */
  lemma UnchangedInv(c: Node, users: Option<seq<UserInfo>>, alive: Option<map<int, int>>, core: CoreOutcome, n: nat)
    requires Inv(c, n) && (users.Some? ==> GoodList(users.value, n))
    ensures Inv(Unchanged(c, users, alive, core), n)
  {
    hide L.Update, Added, Deleted, Keys;
    var e := c.(limiter := AliveOr(c.limiter, alive));
    assert forall u :: u in c.users ==> (InForce(c, u) <==> InForce(e, u));
    assert Inv(e, n);
    var list := UsersOf(users);
    if list != [] {
      AppliedInv(e, list, n);
    }
  }

  /** A tick with a changed node whose limiter is rebuilt. */
  lemma ChangedInv(c: Node, node: NodeInfo, users: Option<seq<UserInfo>>, alive: Option<map<int, int>>,
                   core: CoreOutcome, n: nat)
    requires Inv(c, n) && (users.Some? ==> GoodList(users.value, n)) && c.name == ""
    requires Changed(c, node, users, alive, core).Alive?
    ensures Inv(Changed(c, node, users, alive, core).node, n)
  {
    hide L.Fresh, BuildNodeTag, Inv, GoodList;
    InvSynced(c, n);
    var d := Changed(c, node, users, alive, core).node;
    var a := if alive.Some? then alive.value else map[];
    FreshAlive(c.nodeLimit, d.tag, d.users, AliveMap(alive), a);
    FreshInv(d, c.nodeLimit, a, n);
  }

  lemma FreshAlive(nodeLimit: int, tag: string, users: seq<UserInfo>, a: map<int, int>, b: map<int, int>)
    ensures L.Fresh(nodeLimit, tag, users, a).(alive := b) == L.Fresh(nodeLimit, tag, users, b)
  {
  }

  lemma StepInv(c: Node, e: Event, d: Node, n: nat)
    requires Inv(c, n) && Step(c, e, d)
    requires e.Ticked? ==> GoodInput(c, e.input, n)
    ensures Inv(d, n)
  {
    hide Changed, Unchanged, L.Check, GoodList;
    match e
    case Checked(key, ip, tracked, now, verdict) =>
      CheckInv(c, d, n, key, ip, tracked, now);
    case Reported(out) =>
      assert forall u :: u in c.users ==> (InForce(c, u) <==> InForce(d, u));
    case Ticked(i) =>
      if i.node.Got? && i.users.Got? && i.alive.Got? {
        match i.node.value
        case Some(node) => ChangedInv(c, node, i.users.value, i.alive.value, i.core, n);
        case None => UnchangedInv(c, i.users.value, i.alive.value, i.core, n);
      }
  }

  /** In every run, from a state that satisfies it, the invariant holds throughout: the limiter
      has exactly the users of the list with their speeds, every bucket has the rate of its
      user's current limit, and every address online carries its user's id. */
  lemma {:induction false} RunKeepsInvariant(states: seq<Node>, events: seq<Event>, n: nat, i: nat)
    requires GoodRun(states, events, n) && Inv(states[0], n) && i < |states|
    ensures Inv(states[i], n)
  {
    if i > 0 {
      hide Inv, GoodInput, Step;
      RunKeepsInvariant(states, events, n, i - 1);
      assert Step(states[i - 1], events[i - 1], states[i]);
      assert events[i - 1].Ticked? ==> GoodInput(states[i - 1], events[i - 1].input, n);
      StepInv(states[i - 1], events[i - 1], states[i], n);
    }
  }

  /** The same for every run from the start of a controller, with whatever the panel sent first. */
  lemma RunFromStart(states: seq<Node>, events: seq<Event>, n: nat, i: nat, alive: map<int, int>)
    requires GoodRun(states, events, n) && i < |states|
    requires GoodList(states[0].users, n)
    requires states[0].limiter == L.Fresh(states[0].nodeLimit, states[0].tag, states[0].users, alive)
    ensures Inv(states[i], n)
  {
    hide Inv, GoodList, L.Fresh;
    FreshInv(states[0], states[0].nodeLimit, alive, n);
    RunKeepsInvariant(states, events, n, i);
  }

  /** A bucket's rate in terms of the limits: the smaller of the non-zero ones, in bytes. */
  lemma BucketRate(c: Node, n: nat, u: UserInfo)
    requires Inv(c, n) && u in c.users && UserTag(c.tag, u.uuid) in c.limiter.buckets
    requires u.speedLimit >= 0 && c.limiter.nodeLimit >= 0
    ensures
      var rate, node, user := c.limiter.buckets[UserTag(c.tag, u.uuid)], c.limiter.nodeLimit, u.speedLimit;
      rate == 125000 * (if node == 0 then user else if user == 0 then node else if node < user then node else user)
  {
    assert InForce(c, u);
  }

  /** The node with a name of its own keeps its limiter when the panel changes it. The limiter is
      in step with the new list exactly when that list has the old users at the old speeds. */
  lemma NamedNodeSyncIff(c: Node, node: NodeInfo, users: seq<UserInfo>, alive: Option<map<int, int>>,
                         core: CoreOutcome, n: nat)
    requires Inv(c, n) && GoodList(users, n) && c.name != ""
    requires Changed(c, node, Some(users), alive, core).Alive?
    ensures Synced(Changed(c, node, Some(users), alive, core).node)
       <==> (forall uuid, speed :: Has(users, uuid, speed) <==> Has(c.users, uuid, speed))
  {
    hide UserTag;
    var d := Changed(c, node, Some(users), alive, core).node;
    assert d.limiter.limits == c.limiter.limits && d.tag == c.tag && d.users == users;
    if Synced(d) {
      forall uuid, speed ensures Has(users, uuid, speed) <==> Has(c.users, uuid, speed) {
        SyncedHas(c, uuid, speed);
        SyncedHas(d, uuid, speed);
      }
    } else if forall uuid, speed :: Has(users, uuid, speed) <==> Has(c.users, uuid, speed) {
      SameHasSynced(c, d);
    }
  }

  lemma SyncedHas(c: Node, uuid: string, speed: int)
    requires Synced(c) && UniqueUuids(c.users)
    ensures
      var k := UserTag(c.tag, uuid);
      Has(c.users, uuid, speed) <==> k in c.limiter.limits && c.limiter.limits[k].speedLimit == speed
  {
    hide UserTag;
    var k := UserTag(c.tag, uuid);
    if Has(c.users, uuid, speed) {
      var u :| u in c.users && u.uuid == uuid && u.speedLimit == speed;
      assert InForce(c, u);
    }
    if k in c.limiter.limits {
      var u :| u in c.users && k == UserTag(c.tag, u.uuid);
      UserTagInjective(c.tag, u.uuid, uuid);
      assert InForce(c, u);
    }
  }

  lemma SameHasSynced(c: Node, d: Node)
    requires Synced(c) && d.limiter.limits == c.limiter.limits && d.tag == c.tag
    requires forall uuid, speed :: Has(d.users, uuid, speed) <==> Has(c.users, uuid, speed)
    ensures Synced(d)
  {
    hide UserTag;
    forall u | u in d.users ensures InForce(d, u) {
      assert Has(d.users, u.uuid, u.speedLimit) && Has(c.users, u.uuid, u.speedLimit);
      var v :| v in c.users && v.uuid == u.uuid && v.speedLimit == u.speedLimit;
      assert InForce(c, v);
    }
    forall k | k in d.limiter.limits ensures Named(d.tag, d.users, k) {
      var v :| v in c.users && k == UserTag(c.tag, v.uuid);
      assert Has(c.users, v.uuid, v.speedLimit) && Has(d.users, v.uuid, v.speedLimit);
    }
  }

  /** A tick that replaces the limiter under a new tag leaves the old tag in the program's table. */
  lemma OldTagStays(c: Node, node: NodeInfo, users: Option<seq<UserInfo>>, alive: Option<map<int, int>>,
                    core: CoreOutcome)
    requires c.tag in c.registry && Changed(c, node, users, alive, core).Alive?
    ensures
      var d := Changed(c, node, users, alive, core).node;
      && d.tag in d.registry && c.tag in d.registry
      && (c.name == "" && BuildNodeTag(c.host, node) !in c.registry ==> |d.registry| == |c.registry| + 1)
  {
    hide L.Fresh, BuildNodeTag;
  }

  // ---------------------------------------------------------------------
  // Device limits: full means closed
  // ---------------------------------------------------------------------

  /** The addresses online now or reported for the previous period. */
  ghost predicate Seen(s: State, ip: string) {
    ip in s.previous || exists key :: IsOnline(s, key, ip)
  }

  /** The user, if known, has a device limit that the panel already counts as reached. */
  ghost predicate Full(s: State, key: string) {
    key in s.limits ==> 0 < s.limits[key].deviceLimit <= AliveOf(s, s.limits[key].uid)
  }

  lemma CheckSeen(s: State, key: string, rawIp: string, tracked: bool, now: int, ip: string)
    requires tracked ==> Full(s, key)
    requires Seen(L.Check(s, key, rawIp, tracked, now).0, ip)
    ensures Seen(s, ip)
  {
    hide DetermineSpeedLimit, TrimMapped;
    var t := L.Check(s, key, rawIp, tracked, now).0;
    if ip !in t.previous {
      var k :| IsOnline(t, k, ip);
      assert IsOnline(s, k, ip) || ip in s.previous;
    }
  }

  lemma ReportSeen(s: State, t: State, out: seq<OnlineUser>, ip: string, order: seq<(string, string)>)
    requires L.Lists(s.online, order, out) && L.Remembers(t.previous, out) && ip in t.previous
    ensures exists key :: IsOnline(s, key, ip)
  {
    var j :| 0 <= j < |out| && out[j] == OnlineUser(t.previous[ip], ip);
    assert IsOnline(s, order[j].0, ip);
  }

  lemma TickSeen(c: Node, i: Input, d: Node, ip: string)
    requires Tick(c, i) == Alive(d) && Seen(d.limiter, ip)
    ensures Seen(c.limiter, ip)
  {
    hide L.StoreLimits, L.StoreUids, Added, Deleted, Keys, L.KeysOf, BuildNodeTag;
    if ip !in d.limiter.previous {
      var k :| IsOnline(d.limiter, k, ip);
      assert IsOnline(c.limiter, k, ip);
    }
  }

  ghost predicate FullRun(states: seq<Node>, events: seq<Event>) {
    && Run(states, events)
    && forall i :: 0 <= i < |events| && events[i].Checked? && events[i].tracked ==>
         Full(states[i].limiter, events[i].key)
  }

  /** While every user that is checked is full, no address that was not seen before gets in, over
      any number of periods, users and ticks. */
  lemma {:induction false} FullMeansClosed(states: seq<Node>, events: seq<Event>, i: nat, j: nat, ip: string)
    requires FullRun(states, events) && i <= j < |states|
    requires Seen(states[j].limiter, ip)
    ensures Seen(states[i].limiter, ip)
    decreases j
  {
    if i < j {
      var c, e, d := states[j - 1], events[j - 1], states[j];
      assert Step(c, e, d);
      match e {
        case Checked(key, rawIp, tracked, now, verdict) => CheckSeen(c.limiter, key, rawIp, tracked, now, ip);
        case Reported(out) =>
          var order: seq<(string, string)> :| L.Lists(c.limiter.online, order, out);
          ReportSeen(c.limiter, d.limiter, out, ip, order);
        case Ticked(input) => TickSeen(c, input, d, ip);
      }
      FullMeansClosed(states, events, i, j - 1, ip);
    }
  }

  // ---------------------------------------------------------------------
  // Rejected checks
  // ---------------------------------------------------------------------

  /** A rejected check leaves every table as it was, exactly when it did not run into an expired
      temporary limit of the user. */
  lemma RejectedUnchangedIff(s: State, key: string, ip: string, tracked: bool, now: int)
    requires L.Check(s, key, ip, tracked, now).1 == Rejected
    ensures L.Check(s, key, ip, tracked, now).0 == s <==>
      !(key in s.limits && s.limits[key].expireTime != 0 && s.limits[key].expireTime < now)
  {
    hide DetermineSpeedLimit, TrimMapped;
    if key in s.limits {
      var t := L.Check(s, key, ip, tracked, now).0;
      assert t.limits == AfterExpiry(s.limits, key, now);
    }
  }

  // ---------------------------------------------------------------------
  // Online reports against a log of admissions
  // ---------------------------------------------------------------------

  /** The tick rebuilds the limiter. */
  ghost predicate Rebuilds(c: Node, i: Input) {
    i.node.Got? && i.users.Got? && i.alive.Got? && i.node.value.Some? && c.name == ""
  }

  /** The users that the tick removes from the limiter. */
  ghost function RemovedKeys(c: Node, i: Input): set<string> {
    if i.node.Got? && i.users.Got? && i.alive.Got? && i.node.value.None? && UsersOf(i.users.value) != []
      && Applies(c, UsersOf(i.users.value), i.core)
    then L.KeysOf(c.tag, Deleted(c.users, UsersOf(i.users.value)))
    else {}
  }

  /** The log of a run: what was admitted with tracking since the last report and not removed since. */
  ghost function Log(states: seq<Node>, events: seq<Event>, i: nat): set<(string, string)>
    requires i <= |events| && |states| == |events| + 1
  {
    if i == 0 then {}
    else
      var before := Log(states, events, i - 1);
      match events[i - 1]
      case Checked(key, ip, tracked, now, verdict) =>
        if tracked && verdict.Admitted? then before + {(key, TrimMapped(ip))} else before
      case Reported(out) => {}
      case Ticked(input) =>
        if Rebuilds(states[i - 1], input) then {}
        else set p | p in before && p.0 !in RemovedKeys(states[i - 1], input)
  }

  lemma CheckPairs(s: State, key: string, ip: string, tracked: bool, now: int, p: (string, string))
    ensures
      var (t, v) := L.Check(s, key, ip, tracked, now);
      L.Pairs(t.online, p) <==> L.Pairs(s.online, p) || (tracked && v.Admitted? && p == (key, TrimMapped(ip)))
  {
    hide DetermineSpeedLimit, TrimMapped;
  }

  lemma TickPairs(c: Node, i: Input, d: Node, p: (string, string))
    requires Tick(c, i) == Alive(d)
    ensures L.Pairs(d.limiter.online, p)
       <==> (L.Pairs(c.limiter.online, p) && !Rebuilds(c, i) && p.0 !in RemovedKeys(c, i))
  {
    hide L.StoreLimits, L.StoreUids, Added, Deleted, Keys, L.KeysOf, BuildNodeTag;
  }

  /** In every run that starts with nobody online, the online table holds exactly the log. */
  lemma {:induction false} OnlineIsLog(states: seq<Node>, events: seq<Event>, i: nat, p: (string, string))
    requires Run(states, events) && i < |states| && states[0].limiter.online == map[]
    ensures p in Log(states, events, i) <==> L.Pairs(states[i].limiter.online, p)
  {
    if i > 0 {
      hide Rebuilds, RemovedKeys, L.Check, Tick;
      var c, e, d := states[i - 1], events[i - 1], states[i];
      assert Step(c, e, d);
      OnlineIsLog(states, events, i - 1, p);
      match e {
        case Checked(key, ip, tracked, now, verdict) => CheckPairs(c.limiter, key, ip, tracked, now, p);
        case Reported(out) =>
        case Ticked(input) => TickPairs(c, input, d, p);
      }
    }
  }

  /** A report has exactly one entry for each pair of the log, under the user's id, and leaves
      the online table empty and the previous-period table with the addresses of the log. */
  lemma ReportRefinesLog(states: seq<Node>, events: seq<Event>, n: nat, i: nat) returns (order: seq<(string, string)>)
    requires GoodRun(states, events, n) && Inv(states[0], n) && states[0].limiter.online == map[]
    requires i < |events| && events[i].Reported?
    ensures forall j, k :: 0 <= j < k < |order| ==> order[j] != order[k]
    ensures forall p :: p in order <==> p in Log(states, events, i)
    ensures |events[i].out| == |order|
    ensures forall j :: 0 <= j < |order| ==> IsEntry(states[i].limiter, order[j], events[i].out[j])
    ensures states[i + 1].limiter.online == map[]
    ensures states[i + 1].limiter.previous.Keys == Addresses(Log(states, events, i))
  {
    hide Log;
    var s, t, out := states[i].limiter, states[i + 1].limiter, events[i].out;
    assert Step(states[i], events[i], states[i + 1]);
    order :| L.Lists(s.online, order, out);
    RunKeepsInvariant(states, events, n, i);
    forall p ensures p in order <==> p in Log(states, events, i) {
      OnlineIsLog(states, events, i, p);
    }
    ReportOrder(s, t, out, order);
    assert Elements(order) == Log(states, events, i);
  }

  function Addresses(pairs: set<(string, string)>): set<string> {
    set p | p in pairs :: p.1
  }

  /** The report entry for a user and an address: under the id that the limiter has for the user. */
  ghost predicate IsEntry(s: State, p: (string, string), o: OnlineUser) {
    p.0 in s.limits && o == OnlineUser(s.limits[p.0].uid, p.1)
  }

  lemma ReportOrder(s: State, t: State, out: seq<OnlineUser>, order: seq<(string, string)>)
    requires L.Lists(s.online, order, out) && L.Remembers(t.previous, out) && OnlineKnown(s)
    ensures forall j :: 0 <= j < |order| ==> IsEntry(s, order[j], out[j])
    ensures t.previous.Keys == Addresses(Elements(order))
  {
    forall ip | ip in t.previous ensures ip in Addresses(Elements(order)) {
      var j :| 0 <= j < |out| && out[j] == OnlineUser(t.previous[ip], ip);
      assert order[j] in Elements(order) && order[j].1 == ip;
    }
    forall p | p in order ensures p.1 in t.previous {
      var j :| 0 <= j < |order| && order[j] == p;
      assert out[j] in out;
    }
  }

  /** Right after a report, every address it lists is admitted again, whoever comes with it and
      whatever that user's device limit: the previous-period table knows the address, not its user. */
  lemma ReportedComesBack(t: State, out: seq<OnlineUser>, o: OnlineUser, key: string, ip: string, tracked: bool,
                          now: int)
    requires L.Remembers(t.previous, out) && o in out
    requires key in t.limits && TrimMapped(ip) == o.ip
    ensures L.Check(t, key, ip, tracked, now).1.Admitted?
  {
    hide TrimMapped, DetermineSpeedLimit;
    assert o.ip in t.previous;
  }

  // ---------------------------------------------------------------------
  // Sticky admission
  // ---------------------------------------------------------------------

  /** Nothing between the events `i` and `j` reports, rebuilds the limiter or removes the user. */
  ghost predicate Undisturbed(states: seq<Node>, events: seq<Event>, i: nat, j: nat, key: string)
    requires |states| == |events| + 1
  {
    forall m :: i < m < j && m < |events| ==>
      && !events[m].Reported?
      && (events[m].Ticked? ==>
            !Rebuilds(states[m], events[m].input) && key !in RemovedKeys(states[m], events[m].input))
  }

  lemma {:induction false} OnlinePersists(states: seq<Node>, events: seq<Event>, i: nat, j: nat, key: string,
                                          ip: string)
    requires Run(states, events) && i < j < |states|
    requires events[i].Checked? && events[i].tracked && events[i].verdict.Admitted?
    requires events[i].key == key && TrimMapped(events[i].ip) == ip
    requires Undisturbed(states, events, i, j, key)
    ensures L.Pairs(states[j].limiter.online, (key, ip))
    decreases j
  {
    hide Rebuilds, RemovedKeys, L.Check, Tick, TrimMapped, L.Reports;
    var c, e, d := states[j - 1], events[j - 1], states[j];
    assert Step(c, e, d);
    if i + 1 < j { OnlinePersists(states, events, i, j - 1, key, ip); }
    match e {
      case Checked(k, a, tracked, now, verdict) => CheckPairs(c.limiter, k, a, tracked, now, (key, ip));
      case Reported(out) =>
      case Ticked(input) => TickPairs(c, input, d, (key, ip));
    }
  }

  /** Once an address is admitted for a user, every later tracked check of it is admitted, until
      the next report or the removal of that user, whatever else is checked or ticks in between. */
  lemma AdmissionSticks(states: seq<Node>, events: seq<Event>, n: nat, i: nat, j: nat)
    requires GoodRun(states, events, n) && Inv(states[0], n) && i < j < |events|
    requires events[i].Checked? && events[i].tracked && events[i].verdict.Admitted?
    requires events[j].Checked? && events[j].tracked && events[j].key == events[i].key
    requires TrimMapped(events[j].ip) == TrimMapped(events[i].ip)
    requires Undisturbed(states, events, i, j, events[i].key)
    ensures events[j].verdict.Admitted?
  {
    hide TrimMapped, DetermineSpeedLimit;
    OnlinePersists(states, events, i, j, events[i].key, TrimMapped(events[i].ip));
    RunKeepsInvariant(states, events, n, j);
    assert Step(states[j], events[j], states[j + 1]);
    OnlineAdmits(states[j].limiter, events[j].key, events[j].ip, events[j].tracked, events[j].now);
  }

  lemma OnlineAdmits(s: State, key: string, ip: string, tracked: bool, now: int)
    requires OnlineKnown(s) && L.Pairs(s.online, (key, TrimMapped(ip)))
    ensures L.Check(s, key, ip, tracked, now).1.Admitted?
  {
    hide TrimMapped, DetermineSpeedLimit;
  }
}
