/**
 What a connection check, a new limiter and an update do, table by table and in terms of the tables
 alone: the limits, counts and addresses that a caller sees.
 */
module LimiterLaws {
  import opened Basics
  import opened Panel
  import opened L = Limiter
  import opened UserList
  import opened NodeRuns

  // ---------------------------------------------------------------------
  // Checks
  // ---------------------------------------------------------------------

  /** The address that counts for a connection from `rawIp`. */
  predicate CountsAs(rawIp: string, ip: string) {
    rawIp == "::ffff:" + ip || (rawIp == ip && !("::ffff:" <= rawIp))
  }

  lemma CountsAsTrimmed(rawIp: string, ip: string)
    ensures CountsAs(rawIp, ip) <==> TrimMapped(rawIp) == ip
  {
    if rawIp == "::ffff:" + ip { assert rawIp[7..] == ip; }
    if "::ffff:" <= rawIp { assert rawIp == "::ffff:" + rawIp[7..]; }
  }

  predicate OnlineAt(s: State, key: string, ip: string) {
    key in s.online && ip in s.online[key]
  }

  /** A check is rejected exactly if the user is unknown, or the check is tracked, the address is
      neither online for the user nor remembered for anyone, and the user's device limit is
      positive and not above the panel's count. */
  lemma RejectedIff(s: State, key: string, rawIp: string, ip: string, tracked: bool, now: int)
    requires CountsAs(rawIp, ip)
    ensures L.Check(s, key, rawIp, tracked, now).1 == Rejected <==>
      || key !in s.limits
      || (&& tracked
          && !(key in s.online && ip in s.online[key])
          && ip !in s.previous
          && s.limits[key].deviceLimit > 0
          && s.limits[key].deviceLimit <= (if s.limits[key].uid in s.alive then s.alive[s.limits[key].uid] else 0))
  {
    hide TrimMapped, DetermineSpeedLimit;
    CountsAsTrimmed(rawIp, ip);
  }

  /** The address is put online under the id, and taken from the remembered addresses if it was not
      online yet and is remembered for that id. Nothing else happens to these two tables. */
  ghost predicate PutOnline(s: State, t: State, key: string, ip: string, uid: int) {
    && (forall k, a :: OnlineAt(t, k, a) <==> OnlineAt(s, k, a) || (k == key && a == ip))
    && (forall k, a :: OnlineAt(s, k, a) ==> t.online[k][a] == s.online[k][a])
    && (!OnlineAt(s, key, ip) ==> t.online[key][ip] == uid)
    && (if !OnlineAt(s, key, ip) && ip in s.previous && s.previous[ip] == uid
        then t.previous == s.previous - {ip} else t.previous == s.previous)
  }

  /** A tracked check that is admitted puts its address online under the user's id; every other check
      leaves the addresses online and the remembered ones as they were. */
  lemma AddressesAfterCheck(s: State, key: string, rawIp: string, ip: string, tracked: bool, now: int)
    requires CountsAs(rawIp, ip)
    ensures
      var (t, v) := L.Check(s, key, rawIp, tracked, now);
      if v == Rejected || !tracked then t.online == s.online && t.previous == s.previous
      else key in s.limits && PutOnline(s, t, key, ip, s.limits[key].uid)
  {
    hide TrimMapped, DetermineSpeedLimit, Track, OverDeviceLimit, PutOnline, OnlineAt;
    CountsAsTrimmed(rawIp, ip);
    if key in s.limits {
      var u := s.limits[key];
      var p := s.(limits := AfterExpiry(s.limits, key, now));
      var q := Track(p, key, ip, u.uid);
      TrackIs(p, key, ip, u.uid);
      SameAddresses(p, q, s, L.Check(s, key, rawIp, tracked, now).0, key, ip, u.uid);
    }
  }

  lemma SameAddresses(p: State, q: State, s: State, t: State, key: string, ip: string, uid: int)
    requires PutOnline(p, q, key, ip, uid)
    ensures s.online == p.online && s.previous == p.previous && t.online == q.online && t.previous == q.previous ==>
      PutOnline(s, t, key, ip, uid)
  {
    assert s.online == p.online && t.online == q.online ==>
      forall k, a :: (OnlineAt(s, k, a) <==> OnlineAt(p, k, a)) && (OnlineAt(t, k, a) <==> OnlineAt(q, k, a));
  }

  lemma TrackIs(s: State, key: string, ip: string, uid: int)
    ensures PutOnline(s, Track(s, key, ip, uid), key, ip, uid)
  {
  }

  /** The limits after a check: a temporary limit whose time has passed goes, and with it the user if
      there is no limit of its own; nobody else's limits change. The ids, the panel's counts and the
      limit of the node never change. */
  lemma LimitsAfterCheck(s: State, key: string, rawIp: string, tracked: bool, now: int)
    ensures
      var t := L.Check(s, key, rawIp, tracked, now).0;
      && t.uids == s.uids && t.alive == s.alive && t.nodeLimit == s.nodeLimit
      && LimitsExpired(s.limits, t.limits, key, now)
  {
    hide TrimMapped, DetermineSpeedLimit, Track, OverDeviceLimit, AfterExpiry, LimitsExpired;
    ExpiryIs(s.limits, key, now);
    TrackOnlyAddresses(s.(limits := if key in s.limits then AfterExpiry(s.limits, key, now) else s.limits), key,
                       TrimMapped(rawIp), if key in s.limits then s.limits[key].uid else 0);
  }

  /** The limits `after` are those of `before` after a check of `key` at the time `now`. */
  ghost predicate LimitsExpired(before: map<string, UserLimit>, after: map<string, UserLimit>, key: string, now: int) {
    && (forall k :: k in after ==> k in before)
    && (forall k :: k in before ==>
          var u := before[k];
          if k == key && u.expireTime != 0 && u.expireTime < now
          then
            && (k in after <==> u.speedLimit != 0)
            && (k in after ==> after[k].uid == u.uid && after[k].speedLimit == u.speedLimit)
            && (k in after ==> after[k].deviceLimit == u.deviceLimit)
            && (k in after ==> after[k].dynamicSpeedLimit == 0 && after[k].expireTime == 0)
          else k in after && after[k] == u)
  }

  lemma ExpiryIs(limits: map<string, UserLimit>, key: string, now: int)
    ensures LimitsExpired(limits, if key in limits then AfterExpiry(limits, key, now) else limits, key, now)
  {
  }

  lemma TrackOnlyAddresses(s: State, key: string, ip: string, uid: int)
    ensures
      var t := Track(s, key, ip, uid);
      && t.limits == s.limits && t.buckets == s.buckets
      && t.uids == s.uids && t.alive == s.alive && t.nodeLimit == s.nodeLimit
  {
  }

  /** The smaller of two limits that are not negative, where zero is none. */
  function Tighter(a: int, b: int): int {
    if a == 0 then b else if b == 0 then a else if a < b then a else b
  }

  lemma TighterIs(a: int, b: int)
    requires a >= 0 && b >= 0
    ensures DetermineSpeedLimit(a, b) == Tighter(a, b)
  {
  }

  /** The rate that a check grants: 125000 bytes a second for each unit of the tightest limit in
      force, of the node, the user, and the temporary one unless its time has passed. */
  function GrantedRate(s: State, u: UserLimit, now: int): int {
    125000 * Tighter(s.nodeLimit,
                     if u.expireTime != 0 && u.expireTime < now then u.speedLimit
                     else Tighter(u.speedLimit, u.dynamicSpeedLimit))
  }

  /** What an admitted check hands out: the bucket that the user has, else one at the granted rate,
      which the user has from then on; and none if no limit is in force. */
  lemma BucketAfterCheck(s: State, key: string, rawIp: string, tracked: bool, now: int)
    requires s.nodeLimit >= 0
    requires key in s.limits ==> s.limits[key].speedLimit >= 0 && s.limits[key].dynamicSpeedLimit >= 0
    ensures
      var (t, v) := L.Check(s, key, rawIp, tracked, now);
      && (v == Rejected ==> t.buckets == s.buckets)
      && (v.Admitted? ==>
            && key in s.limits
            && var rate := GrantedRate(s, s.limits[key], now);
               if rate == 0 then v.bucket == None && t.buckets == s.buckets
               else
                 && v.bucket == Some(if key in s.buckets then s.buckets[key] else rate)
                 && t.buckets == s.buckets[key := v.bucket.value])
  {
    hide TrimMapped, DetermineSpeedLimit, Track, OverDeviceLimit;
    if key in s.limits {
      var u := s.limits[key];
      TighterIs(u.speedLimit, u.dynamicSpeedLimit);
      TighterIs(s.nodeLimit, UserSpeed(u, now));
      TrackOnlyAddresses(s.(limits := AfterExpiry(s.limits, key, now)), key, TrimMapped(rawIp), u.uid);
    }
  }

  // ---------------------------------------------------------------------
  // Reports
  // ---------------------------------------------------------------------

  /** A report says of every address online under which id it is, remembers exactly these addresses,
      each under an id it was online with, and empties the table; nothing else changes. */
  lemma ReportIs(s: State, t: State, out: seq<OnlineUser>)
    requires L.Reports(s, t, out)
    ensures forall uid, ip :: OnlineUser(uid, ip) in out <==> UsedBy(s, uid, ip)
    ensures forall ip :: ip in t.previous <==> exists k :: OnlineAt(s, k, ip)
    ensures forall ip :: ip in t.previous ==> UsedBy(s, t.previous[ip], ip)
    ensures t.online == map[] && t.limits == s.limits && t.buckets == s.buckets
    ensures t.uids == s.uids && t.alive == s.alive && t.nodeLimit == s.nodeLimit
  {
    hide L.Lists, UsedBy, OnlineAt;
    var order: seq<(string, string)> :| L.Lists(s.online, order, out);
    forall uid, ip ensures OnlineUser(uid, ip) in out <==> UsedBy(s, uid, ip) {
      EntryIs(s, order, out, uid, ip);
    }
    forall ip ensures ip in t.previous <==> exists k :: OnlineAt(s, k, ip) {
      if k :| OnlineAt(s, k, ip) {
        var uid := IdAt(s, k, ip);
        assert OnlineUser(uid, ip) in out;
      }
      if ip in t.previous { UsedSomewhere(s, t.previous[ip], ip); }
    }
  }

  lemma EntryIs(s: State, order: seq<(string, string)>, out: seq<OnlineUser>, uid: int, ip: string)
    requires L.Lists(s.online, order, out)
    ensures OnlineUser(uid, ip) in out <==> UsedBy(s, uid, ip)
  {
    if OnlineUser(uid, ip) in out {
      var j :| 0 <= j < |out| && out[j] == OnlineUser(uid, ip);
      assert OnlineAt(s, order[j].0, ip) && s.online[order[j].0][ip] == uid;
    }
    if UsedBy(s, uid, ip) {
      var k :| OnlineAt(s, k, ip) && s.online[k][ip] == uid;
      assert L.Pairs(s.online, (k, ip));
      var j :| 0 <= j < |order| && order[j] == (k, ip);
      assert out[j] in out;
    }
  }

  lemma IdAt(s: State, k: string, ip: string) returns (uid: int)
    requires OnlineAt(s, k, ip)
    ensures UsedBy(s, uid, ip)
  {
    uid := s.online[k][ip];
  }

  lemma UsedSomewhere(s: State, uid: int, ip: string)
    requires UsedBy(s, uid, ip)
    ensures exists k :: OnlineAt(s, k, ip)
  {
  }

  /** The address is online for a user under this id. */
  ghost predicate UsedBy(s: State, uid: int, ip: string) {
    exists k :: OnlineAt(s, k, ip) && s.online[k][ip] == uid
  }

  // ---------------------------------------------------------------------
  // Users
  // ---------------------------------------------------------------------

  /** What the tables hold of a stored user. */
  ghost predicate Stored(s: State, tag: string, u: UserInfo) {
    var k := UserTag(tag, u.uuid);
    && k in s.limits
    && s.limits[k].uid == u.id && s.limits[k].speedLimit == u.speedLimit && s.limits[k].deviceLimit == u.deviceLimit
    && s.limits[k].dynamicSpeedLimit == 0 && s.limits[k].expireTime == 0
    && u.uuid in s.uids && s.uids[u.uuid] == u.id
  }

  lemma {:induction false} StoredUid(uids: map<string, int>, users: seq<UserInfo>, x: string)
    requires UniqueUuids(users)
    ensures forall u :: u in users && u.uuid == x ==> x in StoreUids(uids, users) && StoreUids(uids, users)[x] == u.id
    ensures !HasUuid(users, x) ==>
      && (x in StoreUids(uids, users) <==> x in uids)
      && (x in uids ==> StoreUids(uids, users)[x] == uids[x])
  {
    if users != [] {
      var m := |users| - 1;
      var front, last := users[..m], users[m];
      StoredUid(uids, front, x);
      assert users == front + [last];
      assert last in users;
      if HasUuid(front, x) { var u :| u in front && u.uuid == x; assert u in users; }
      forall u | u in users && u.uuid == x ensures x in StoreUids(uids, users) && StoreUids(uids, users)[x] == u.id {
        assert u in front || u == last;
        if u != last { SameUuidIn(users, u, last); }
      }
    }
  }

  /** A new limiter holds every user of the list, as the list has it, and nobody else; nobody is
      online, remembered or has a bucket; the node's limit and the panel's counts are those given. */
  lemma FreshIs(nodeLimit: int, tag: string, users: seq<UserInfo>, alive: map<int, int>)
    requires UniqueUuids(users)
    ensures
      var s := L.Fresh(nodeLimit, tag, users, alive);
      && s.nodeLimit == nodeLimit && s.alive == alive
      && s.online == map[] && s.previous == map[] && s.buckets == map[]
      && (forall u :: u in users ==> Stored(s, tag, u))
      && (forall k :: k in s.limits ==> Named(tag, users, k))
      && (forall x :: x in s.uids ==> HasUuid(users, x))
  {
    hide StoreUids, L.StoreLimits, UserTag;
    forall u | u in users ensures Stored(L.Fresh(nodeLimit, tag, users, alive), tag, u) {
      StoredEntry(map[], tag, users, u);
      StoredUid(map[], users, u.uuid);
    }
    forall k | k in L.StoreLimits(map[], tag, users) ensures Named(tag, users, k) {
      if !Named(tag, users, k) { OtherEntry(map[], tag, users, k); }
    }
    forall x | x in StoreUids(map[], users) ensures HasUuid(users, x) {
      StoredUid(map[], users, x);
    }
  }

  /** An update stores the added users, takes the deleted ones out of every table, unless their name or
      uuid is added again, and leaves everybody else alone. */
  lemma UpdateIs(s: State, tag: string, added: seq<UserInfo>, deleted: set<UserInfo>)
    requires UniqueUuids(added)
    ensures
      var t := L.Update(s, tag, added, deleted);
      && t.nodeLimit == s.nodeLimit && t.previous == s.previous
      && (forall u :: u in added ==> Stored(t, tag, u))
      && (forall k :: Dropped(tag, deleted, k) ==>
            k !in t.online && k !in t.buckets && (k in t.limits ==> Named(tag, added, k)))
      && (forall k :: !Dropped(tag, deleted, k) ==>
            && (k in t.online <==> k in s.online) && (k in s.online ==> t.online[k] == s.online[k])
            && (k in t.buckets <==> k in s.buckets) && (k in s.buckets ==> t.buckets[k] == s.buckets[k]))
      && (forall k :: !Dropped(tag, deleted, k) && !Named(tag, added, k) ==>
            (k in t.limits <==> k in s.limits) && (k in s.limits ==> t.limits[k] == s.limits[k]))
      && (forall id :: id in t.alive <==> id in s.alive && forall u :: u in deleted ==> u.id != id)
      && (forall id :: id in t.alive ==> t.alive[id] == s.alive[id])
      && (forall x :: !HasUuid(added, x) ==>
            && (x in t.uids <==> x in s.uids && forall u :: u in deleted ==> u.uuid != x)
            && (x in t.uids ==> t.uids[x] == s.uids[x]))
  {
    hide StoreUids, L.StoreLimits, UserTag;
    var r, t := L.Remove(s, tag, deleted), L.Update(s, tag, added, deleted);
    forall u | u in added ensures Stored(t, tag, u) {
      StoredEntry(r.limits, tag, added, u);
      StoredUid(r.uids, added, u.uuid);
    }
    forall k | !Named(tag, added, k)
      ensures (k in t.limits <==> k in r.limits) && (k in r.limits ==> t.limits[k] == r.limits[k])
    {
      OtherEntry(r.limits, tag, added, k);
    }
    forall x | !HasUuid(added, x)
      ensures (x in t.uids <==> x in r.uids) && (x in r.uids ==> t.uids[x] == r.uids[x])
    {
      StoredUid(r.uids, added, x);
    }
    assert forall k :: Dropped(tag, deleted, k) <==> k in L.KeysOf(tag, deleted);
  }

  /** The name of a deleted user. */
  ghost predicate Dropped(tag: string, deleted: set<UserInfo>, k: string) {
    exists u :: u in deleted && k == UserTag(tag, u.uuid)
  }
}
