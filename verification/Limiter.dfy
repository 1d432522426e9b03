/**
 The per-node limiter: speed limits, the addresses online for each user in the current period,
 the addresses reported for the previous one, and the rate buckets handed out.

 `State` is the value of all tables; `Check`, `Update` and `Reports` say what each call means on
 it. The class `Limiter` holds the tables and works on them the way the program does.
 */
module Limiter {
  import opened Basics
  import opened Panel

  datatype UserLimit = UserLimit(uid: int, speedLimit: int, deviceLimit: int, dynamicSpeedLimit: int, expireTime: int)

  /** All tables of a limiter. Users are keyed by their name on the node. */
  datatype State = State(
    nodeLimit: int,
    online: map<string, map<string, int>>,
    previous: map<string, int>,
    uids: map<string, int>,
    limits: map<string, UserLimit>,
    buckets: map<string, int>,
    alive: map<int, int>)

  datatype Verdict = Rejected | Admitted(bucket: Option<int>)

  // ---------------------------------------------------------------------
  // Speed limits
  // ---------------------------------------------------------------------

  /** The smaller of two limits, where zero stands for no limit. */
  function DetermineSpeedLimit(limit1: int, limit2: int): (limit: int)
    ensures limit == limit1 || limit == limit2
    ensures limit1 >= 0 && limit2 >= 0 ==> (limit == 0 <==> limit1 == 0 && limit2 == 0)
    ensures limit1 > 0 && limit2 >= 0 ==> 0 < limit <= limit1
    ensures limit2 > 0 && limit1 >= 0 ==> 0 < limit <= limit2
  {
    if limit1 == 0 || limit2 == 0 then
      if limit1 > limit2 then limit1
      else if limit1 < limit2 then limit2
      else 0
    else
      if limit1 > limit2 then limit2
      else if limit1 < limit2 then limit1
      else limit1
  }

  /** Bytes a second granted to a user under the limit of the node; none if it is not positive. */
  function Rate(nodeLimit: int, userLimit: int): int {
    DetermineSpeedLimit(nodeLimit, userLimit) * 1000000 / 8
  }

  // ---------------------------------------------------------------------
  // Connection checks
  // ---------------------------------------------------------------------

  const MAPPED_PREFIX := "::ffff:"

  /** An IPv4 address written as an IPv6 address counts as the IPv4 address. */
  function TrimMapped(ip: string): string {
    if MAPPED_PREFIX <= ip then ip[|MAPPED_PREFIX|..] else ip
  }

  function AliveOf(s: State, uid: int): int {
    if uid in s.alive then s.alive[uid] else 0
  }

  predicate IsOnline(s: State, key: string, ip: string) {
    key in s.online && ip in s.online[key]
  }

  /** A temporary speed limit whose time has passed. */
  predicate Expired(u: UserLimit, now: int) {
    u.expireTime != 0 && u.expireTime < now
  }

  /** The limits after the expiry of the temporary limit of `key`, if it is due. */
  function AfterExpiry(limits: map<string, UserLimit>, key: string, now: int): map<string, UserLimit>
    requires key in limits
  {
    var u := limits[key];
    if !Expired(u, now) then limits
    else if u.speedLimit != 0 then limits[key := u.(dynamicSpeedLimit := 0, expireTime := 0)]
    else limits - {key}
  }

  /** A user at the device limit gets no new address; an address is not new if it is online for
      the user, or was reported for anyone in the previous period. */
  predicate OverDeviceLimit(s: State, key: string, ip: string)
    requires key in s.limits
  {
    && !IsOnline(s, key, ip) && ip !in s.previous
    && 0 < s.limits[key].deviceLimit <= AliveOf(s, s.limits[key].uid)
  }

  /** The tables after the address `ip` was counted for the user `key`. */
  function Track(s: State, key: string, ip: string, uid: int): State {
    if IsOnline(s, key, ip) then s
    else
      s.(online := s.online[key := (if key in s.online then s.online[key] else map[])[ip := uid]],
         previous := if ip in s.previous && s.previous[ip] == uid then s.previous - {ip} else s.previous)
  }

  /** The speed limit in force for a user: a due expiry drops the temporary limit. */
  function UserSpeed(u: UserLimit, now: int): int {
    if Expired(u, now) then u.speedLimit else DetermineSpeedLimit(u.speedLimit, u.dynamicSpeedLimit)
  }

  /** The bucket of a user: the one handed out before, or a new one at rate `rate`. */
  function GiveBucket(s: State, key: string, rate: int): (State, Verdict) {
    if rate <= 0 then (s, Admitted(None))
    else
      var bucket := if key in s.buckets then s.buckets[key] else rate;
      (s.(buckets := s.buckets[key := bucket]), Admitted(Some(bucket)))
  }

  /** One check of a connection of the user `key` from `rawIp`. */
  function Check(s: State, key: string, rawIp: string, tracked: bool, now: int): (r: (State, Verdict)) {
    if key !in s.limits then (s, Rejected)
    else
      var ip, u := TrimMapped(rawIp), s.limits[key];
      var t := s.(limits := AfterExpiry(s.limits, key, now));
      if tracked && OverDeviceLimit(s, key, ip) then (t, Rejected)
      else GiveBucket(if tracked then Track(t, key, ip, u.uid) else t, key, Rate(s.nodeLimit, UserSpeed(u, now)))
  }

  // ---------------------------------------------------------------------
  // Users
  // ---------------------------------------------------------------------

  function NewLimit(u: UserInfo): UserLimit {
    UserLimit(u.id, u.speedLimit, u.deviceLimit, 0, 0)
  }

  /** The limits after the users are stored one after the other. */
  function StoreLimits(limits: map<string, UserLimit>, tag: string, users: seq<UserInfo>): map<string, UserLimit> {
    if users == [] then limits
    else
      var n := |users| - 1;
      StoreLimits(limits, tag, users[..n])[UserTag(tag, users[n].uuid) := NewLimit(users[n])]
  }

  function StoreUids(uids: map<string, int>, users: seq<UserInfo>): map<string, int> {
    if users == [] then uids
    else
      var n := |users| - 1;
      StoreUids(uids, users[..n])[users[n].uuid := users[n].id]
  }

  function KeysOf(tag: string, users: set<UserInfo>): set<string> {
    set u | u in users :: UserTag(tag, u.uuid)
  }

  /** A new limiter for a list of users. */
  function Fresh(nodeLimit: int, tag: string, users: seq<UserInfo>, alive: map<int, int>): State {
    State(nodeLimit, map[], map[], StoreUids(map[], users), StoreLimits(map[], tag, users), map[], alive)
  }

  /** Removing users, in whatever order. */
  function Remove(s: State, tag: string, users: set<UserInfo>): State {
    s.(limits := s.limits - KeysOf(tag, users),
       online := s.online - KeysOf(tag, users),
       buckets := s.buckets - KeysOf(tag, users),
       uids := s.uids - (set u | u in users :: u.uuid),
       alive := s.alive - (set u | u in users :: u.id))
  }

  /** Removing one user. */
  function Without(s: State, tag: string, u: UserInfo): State {
    s.(limits := s.limits - {UserTag(tag, u.uuid)},
       online := s.online - {UserTag(tag, u.uuid)},
       buckets := s.buckets - {UserTag(tag, u.uuid)},
       uids := s.uids - {u.uuid},
       alive := s.alive - {u.id})
  }

  function Update(s: State, tag: string, added: seq<UserInfo>, deleted: set<UserInfo>): State {
    var r := Remove(s, tag, deleted);
    r.(limits := StoreLimits(r.limits, tag, added), uids := StoreUids(r.uids, added))
  }

  // ---------------------------------------------------------------------
  // Online report
  // ---------------------------------------------------------------------

  /** The (user, address) pairs online in this period. */
  ghost predicate Pairs(online: map<string, map<string, int>>, p: (string, string)) {
    p.0 in online && p.1 in online[p.0]
  }

  /** `out` has one entry for each pair online, in the order of `order`. */
  ghost predicate Lists(online: map<string, map<string, int>>, order: seq<(string, string)>, out: seq<OnlineUser>) {
    && |order| == |out|
    && (forall i, j :: 0 <= i < j < |order| ==> order[i] != order[j])
    && (forall p :: Pairs(online, p) <==> p in order)
    && (forall i :: 0 <= i < |out| ==>
          Pairs(online, order[i]) && out[i] == OnlineUser(online[order[i].0][order[i].1], order[i].1))
  }

  /** The previous-period table holds exactly the addresses of the report, each for a user that
      was reported with it. */
  ghost predicate Remembers(previous: map<string, int>, out: seq<OnlineUser>) {
    && (forall o :: o in out ==> o.ip in previous)
    && (forall ip :: ip in previous ==> OnlineUser(previous[ip], ip) in out)
  }

  /** One online report, whatever the iteration order of the tables. */
  ghost predicate Reports(s: State, t: State, out: seq<OnlineUser>) {
    && (exists order :: Lists(s.online, order, out))
    && Remembers(t.previous, out)
    && t == s.(online := map[], previous := t.previous)
  }

  // ---------------------------------------------------------------------
  // The limiter as an object
  // ---------------------------------------------------------------------

  class Limiter {
    const speedLimit: int
    var userOnlineIP: map<string, map<string, int>>
    var oldUserOnline: map<string, int>
    var uuidToUid: map<string, int>
    var userLimitInfo: map<string, UserLimit>
    var speedLimiter: map<string, int>
    var aliveList: map<int, int>

    ghost function Tables(): State
      reads this
    {
      State(speedLimit, userOnlineIP, oldUserOnline, uuidToUid, userLimitInfo, speedLimiter, aliveList)
    }

    /** `AddLimiter`: a limiter for the users of a node. */
    constructor (speedLimit: int, tag: string, users: seq<UserInfo>, alive: map<int, int>)
      ensures Tables() == Fresh(speedLimit, tag, users, alive)
    {
      this.speedLimit := speedLimit;
      userOnlineIP, oldUserOnline, speedLimiter := map[], map[], map[];
      uuidToUid, userLimitInfo := map[], map[];
      aliveList := alive;
      new;
      for i := 0 to |users|
        invariant userLimitInfo == StoreLimits(map[], tag, users[..i])
        invariant uuidToUid == StoreUids(map[], users[..i])
        invariant userOnlineIP == map[] && oldUserOnline == map[] && speedLimiter == map[] && aliveList == alive
      {
        assert users[..i + 1][..i] == users[..i];
        uuidToUid := uuidToUid[users[i].uuid := users[i].id];
        var uid, speed, device := users[i].id, 0, 0;
        if users[i].speedLimit != 0 {
          speed := users[i].speedLimit;
        }
        if users[i].deviceLimit != 0 {
          device := users[i].deviceLimit;
        }
        userLimitInfo := userLimitInfo[UserTag(tag, users[i].uuid) := UserLimit(uid, speed, device, 0, 0)];
      }
      assert users[..|users|] == users;
    }

    method UpdateUser(tag: string, added: seq<UserInfo>, deleted: seq<UserInfo>)
      modifies this`userLimitInfo, this`userOnlineIP, this`speedLimiter, this`uuidToUid, this`aliveList
      ensures Tables() == Update(old(Tables()), tag, added, Elements(deleted))
    {
      DropUsers(tag, deleted);
      StoreUsers(tag, added);
    }

    /** The deleting loop of `UpdateUser`. */
    method DropUsers(tag: string, deleted: seq<UserInfo>)
      modifies this`userLimitInfo, this`userOnlineIP, this`speedLimiter, this`uuidToUid, this`aliveList
      ensures Tables() == Remove(old(Tables()), tag, Elements(deleted))
    {
      hide Remove, Elements, UserTag;
      ghost var was := Tables();
      RemoveNothing(was, tag);
      assert deleted[..0] == [] && deleted[..|deleted|] == deleted;
      for i := 0 to |deleted|
        invariant Tables() == Remove(was, tag, Elements(deleted[..i]))
      {
        var u := deleted[i];
        RemoveOne(was, tag, deleted, i);
        userLimitInfo := userLimitInfo - {UserTag(tag, u.uuid)};
        userOnlineIP := userOnlineIP - {UserTag(tag, u.uuid)};
        speedLimiter := speedLimiter - {UserTag(tag, u.uuid)};
        uuidToUid := uuidToUid - {u.uuid};
        aliveList := aliveList - {u.id};
      }
    }

    /** The adding loop of `UpdateUser`. */
    method StoreUsers(tag: string, added: seq<UserInfo>)
      modifies this`userLimitInfo, this`uuidToUid
      ensures Tables() == old(Tables()).(
        limits := StoreLimits(old(userLimitInfo), tag, added),
        uids := StoreUids(old(uuidToUid), added))
    {
      for i := 0 to |added|
        invariant Tables() == old(Tables()).(
          limits := StoreLimits(old(userLimitInfo), tag, added[..i]),
          uids := StoreUids(old(uuidToUid), added[..i]))
      {
        assert added[..i + 1][..i] == added[..i];
        var uid, speed, device := added[i].id, 0, 0;
        if added[i].speedLimit != 0 {
          speed := added[i].speedLimit;
        }
        if added[i].deviceLimit != 0 {
          device := added[i].deviceLimit;
        }
        userLimitInfo := userLimitInfo[UserTag(tag, added[i].uuid) := UserLimit(uid, speed, device, 0, 0)];
        uuidToUid := uuidToUid[added[i].uuid := added[i].id];
      }
      assert added[..|added|] == added;
    }

    method UpdateAlive(alive: map<int, int>)
      modifies this`aliveList
      ensures Tables() == old(Tables()).(alive := alive)
    {
      aliveList := alive;
    }

    method CheckLimit(key: string, rawIp: string, tracked: bool, now: int) returns (v: Verdict)
      modifies this`userOnlineIP, this`oldUserOnline, this`userLimitInfo, this`speedLimiter
      ensures (Tables(), v) == Check(old(Tables()), key, rawIp, tracked, now)
    {
      hide Track, GiveBucket, AfterExpiry, UserSpeed;
      var ip := TrimMapped(rawIp);
      if key !in userLimitInfo {
        return Rejected;
      }
      var u := userLimitInfo[key];
      var userLimit := ExpireUser(key, now);
      if tracked {
        var reject := CountAddress(key, ip, u.uid, u.deviceLimit);
        if reject {
          return Rejected;
        }
      }
      v := TakeBucket(key, userLimit);
    }

    /** The expiry part of `CheckLimit`: the speed limit in force for the user. */
    method ExpireUser(key: string, now: int) returns (userLimit: int)
      requires key in userLimitInfo
      modifies this`userLimitInfo
      ensures userLimitInfo == AfterExpiry(old(userLimitInfo), key, now)
      ensures userLimit == UserSpeed(old(userLimitInfo)[key], now)
    {
      userLimit := 0;
      var u := userLimitInfo[key];
      if u.expireTime < now && u.expireTime != 0 {
        if u.speedLimit != 0 {
          userLimit := u.speedLimit;
          userLimitInfo := userLimitInfo[key := u.(dynamicSpeedLimit := 0, expireTime := 0)];
        } else {
          userLimitInfo := userLimitInfo - {key};
        }
      } else {
        userLimit := DetermineSpeedLimit(u.speedLimit, u.dynamicSpeedLimit);
      }
    }

    /** The device part of `CheckLimit`: counts the address first and takes it back if the user
        turns out to be over the limit. */
    method CountAddress(key: string, ip: string, uid: int, deviceLimit: int) returns (reject: bool)
      modifies this`userOnlineIP, this`oldUserOnline
      ensures reject <==>
        && !IsOnline(old(Tables()), key, ip) && ip !in old(oldUserOnline)
        && 0 < deviceLimit <= AliveOf(old(Tables()), uid)
      ensures Tables() == if reject then old(Tables()) else Track(old(Tables()), key, ip, uid)
    {
      ghost var was := userOnlineIP;
      var aliveIp := if uid in aliveList then aliveList[uid] else 0;
      if key in userOnlineIP {
        if ip !in userOnlineIP[key] {
          userOnlineIP := userOnlineIP[key := userOnlineIP[key][ip := uid]];
          if ip in oldUserOnline {
            if oldUserOnline[ip] == uid {
              oldUserOnline := oldUserOnline - {ip};
            }
          } else if deviceLimit > 0 {
            if deviceLimit <= aliveIp {
              userOnlineIP := userOnlineIP[key := userOnlineIP[key] - {ip}];
              assert userOnlineIP[key] == was[key];
              assert userOnlineIP == was;
              return true;
            }
          }
        }
      } else {
        userOnlineIP := userOnlineIP[key := map[ip := uid]];
        if ip in oldUserOnline {
          if oldUserOnline[ip] == uid {
            oldUserOnline := oldUserOnline - {ip};
          }
        } else {
          if deviceLimit > 0 {
            if deviceLimit <= aliveIp {
              userOnlineIP := userOnlineIP - {key};
              assert userOnlineIP == was;
              return true;
            }
          }
        }
      }
      return false;
    }

    /** The speed part of `CheckLimit`. */
    method TakeBucket(key: string, userLimit: int) returns (v: Verdict)
      modifies this`speedLimiter
      ensures (Tables(), v) == GiveBucket(old(Tables()), key, Rate(speedLimit, userLimit))
    {
      var limit := DetermineSpeedLimit(speedLimit, userLimit) * 1000000 / 8;
      if limit > 0 {
        if key in speedLimiter {
          assert speedLimiter[key := speedLimiter[key]] == speedLimiter;
          return Admitted(Some(speedLimiter[key]));
        } else {
          speedLimiter := speedLimiter[key := limit];
          return Admitted(Some(limit));
        }
      } else {
        return Admitted(None);
      }
    }

    /** Empties the online table into a report, in whatever order its entries come. */
    method GetOnlineDevice() returns (out: seq<OnlineUser>, ghost order: seq<(string, string)>)
      modifies this`userOnlineIP, this`oldUserOnline
      ensures Lists(old(userOnlineIP), order, out)
      ensures Reports(old(Tables()), Tables(), out)
    {
      hide Lists, Remembers, Reports;
      out, order := [], [];
      ghost var was, done := Tables(), map[];
      oldUserOnline := map[];
      NothingListed();
      while userOnlineIP != map[]
        invariant done.Keys !! userOnlineIP.Keys && done + userOnlineIP == was.online
        invariant Lists(done, order, out)
        invariant Remembers(oldUserOnline, out)
        decreases |userOnlineIP|
      {
        assert userOnlineIP.Keys != {};
        var key :| key in userOnlineIP.Keys;
        out, order := ReportUser(key, done, out, order);
        MoveEntry(done, userOnlineIP, key);
        done := done[key := userOnlineIP[key]];
        userOnlineIP := userOnlineIP - {key};
      }
      assert done + map[] == done;
      ReportsIs(was, Tables(), out, order);
    }

    /** The inner loop of `GetOnlineDevice`: the addresses of one user. */
    method ReportUser(key: string, ghost done: map<string, map<string, int>>,
                      out0: seq<OnlineUser>, ghost order0: seq<(string, string)>)
      returns (out: seq<OnlineUser>, ghost order: seq<(string, string)>)
      requires key in userOnlineIP && key !in done
      requires Lists(done, order0, out0) && Remembers(oldUserOnline, out0)
      modifies this`oldUserOnline
      ensures Lists(done[key := userOnlineIP[key]], order, out) && Remembers(oldUserOnline, out)
    {
      hide Lists, Remembers;
      out, order := out0, order0;
      var ipMap := userOnlineIP[key];
      var ips := ipMap.Keys;
      ListsEmptyUser(done, key, order, out);
      assert ipMap - ips == map[];
      while ips != {}
        invariant ips <= ipMap.Keys
        invariant Lists(done[key := ipMap - ips], order, out)
        invariant Remembers(oldUserOnline, out)
        decreases |ips|
      {
        var ip :| ip in ips;
        var uid := ipMap[ip];
        ListsMore(done, key, ipMap - ips, ip, uid, order, out);
        RemembersMore(oldUserOnline, ip, uid, out);
        assert (ipMap - ips)[ip := uid] == ipMap - (ips - {ip});
        oldUserOnline := oldUserOnline[ip := uid];
        out := out + [OnlineUser(uid, ip)];
        order := order + [(key, ip)];
        ips := ips - {ip};
      }
      assert ipMap - ips == ipMap;
    }
  }

  lemma MoveEntry<K, V>(done: map<K, V>, rest: map<K, V>, key: K)
    requires done.Keys !! rest.Keys && key in rest
    ensures done[key := rest[key]].Keys !! (rest - {key}).Keys
    ensures done[key := rest[key]] + (rest - {key}) == done + rest
    ensures |rest - {key}| < |rest|
  {
    assert rest == (rest - {key})[key := rest[key]];
  }

  lemma ReportsIs(s: State, t: State, out: seq<OnlineUser>, order: seq<(string, string)>)
    requires Lists(s.online, order, out) && Remembers(t.previous, out)
    requires t == s.(online := map[], previous := t.previous)
    ensures Reports(s, t, out)
  {
  }

  lemma NothingListed()
    ensures Lists(map[], [], []) && Remembers(map[], [])
  {
  }

  lemma ListsEmptyUser(online: map<string, map<string, int>>, key: string, order: seq<(string, string)>,
                       out: seq<OnlineUser>)
    requires Lists(online, order, out) && key !in online
    ensures Lists(online[key := map[]], order, out)
  {
    var more := online[key := map[]];
    assert forall p :: Pairs(more, p) <==> Pairs(online, p);
    assert forall i :: 0 <= i < |order| ==> order[i] in order;
  }

  lemma ListsMore(online: map<string, map<string, int>>, key: string, ips: map<string, int>, ip: string, uid: int,
                  order: seq<(string, string)>, out: seq<OnlineUser>)
    requires Lists(online[key := ips], order, out) && ip !in ips
    ensures Lists(online[key := ips[ip := uid]], order + [(key, ip)], out + [OnlineUser(uid, ip)])
  {
    var before, more := online[key := ips], online[key := ips[ip := uid]];
    var order', out' := order + [(key, ip)], out + [OnlineUser(uid, ip)];
    forall p ensures Pairs(more, p) <==> p in order' {
      assert Pairs(more, p) <==> Pairs(before, p) || p == (key, ip);
    }
    assert (key, ip) !in order by { assert !Pairs(before, (key, ip)); }
    forall i | 0 <= i < |out'|
      ensures Pairs(more, order'[i]) && out'[i] == OnlineUser(more[order'[i].0][order'[i].1], order'[i].1)
    {
      if i < |out| {
        assert Pairs(before, order[i]);
        assert order[i] in order && order[i] != (key, ip);
      }
    }
  }

  lemma RemembersMore(previous: map<string, int>, ip: string, uid: int, out: seq<OnlineUser>)
    requires Remembers(previous, out)
    ensures Remembers(previous[ip := uid], out + [OnlineUser(uid, ip)])
  {
    var more, after := out + [OnlineUser(uid, ip)], previous[ip := uid];
    assert more[|out|] == OnlineUser(uid, ip);
    forall x | x in after ensures OnlineUser(after[x], x) in more {
      if x != ip { assert OnlineUser(previous[x], x) in out; }
    }
  }

  lemma RemoveNothing(s: State, tag: string)
    ensures Remove(s, tag, {}) == s && Elements<UserInfo>([]) == {}
  {
    assert KeysOf(tag, {}) == {};
  }

  lemma RemoveOne(s: State, tag: string, users: seq<UserInfo>, i: nat)
    requires i < |users|
    ensures Remove(s, tag, Elements(users[..i + 1])) == Without(Remove(s, tag, Elements(users[..i])), tag, users[i])
  {
    var u := users[i];
    var before, after := Elements(users[..i]), Elements(users[..i + 1]);
    assert after == before + {u};
    assert KeysOf(tag, after) == KeysOf(tag, before) + {UserTag(tag, u.uuid)};
    assert (set x | x in after :: x.uuid) == (set x | x in before :: x.uuid) + {u.uuid};
    assert (set x | x in after :: x.id) == (set x | x in before :: x.id) + {u.id};
    WithoutMore(s.limits, KeysOf(tag, before), UserTag(tag, u.uuid));
    WithoutMore(s.online, KeysOf(tag, before), UserTag(tag, u.uuid));
    WithoutMore(s.buckets, KeysOf(tag, before), UserTag(tag, u.uuid));
    WithoutMore(s.uids, set x | x in before :: x.uuid, u.uuid);
    WithoutMore(s.alive, set x | x in before :: x.id, u.id);
  }

  lemma WithoutMore<K, V>(m: map<K, V>, s: set<K>, k: K)
    ensures m - (s + {k}) == m - s - {k}
  {
  }
}
