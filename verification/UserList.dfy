/**
 The difference between two user lists: `compareUserList` and what applying its result does.
 */
module UserList {
  import opened Basics
  import opened Panel

  // ---------------------------------------------------------------------
  // Keys: uuid followed by the decimal speed limit
  // ---------------------------------------------------------------------

  function Digit(d: nat): char
    requires d < 10
  {
    "0123456789"[d]
  }

  /** Decimal digits, as `strconv.Itoa` prints them. */
  function Digits(n: nat): (s: string)
    ensures s != [] && s[0] != '-'
  {
    if n < 10 then [Digit(n)] else Digits(n / 10) + [Digit(n % 10)]
  }

  function Itoa(n: int): string {
    if n < 0 then "-" + Digits(-n) else Digits(n)
  }

  function Key(u: UserInfo): string {
    u.uuid + Itoa(u.speedLimit)
  }

  lemma {:induction false} DigitsInjective(m: nat, n: nat)
    requires Digits(m) == Digits(n)
    ensures m == n
  {
    var a, b := Digits(m), Digits(n);
    assert a[|a| - 1] == b[|b| - 1];
    assert a[|a| - 1] == Digit(m % 10) && b[|b| - 1] == Digit(n % 10);
    assert m % 10 == n % 10;
    if m >= 10 && n >= 10 {
      assert a[..|a| - 1] == Digits(m / 10) && b[..|b| - 1] == Digits(n / 10);
      DigitsInjective(m / 10, n / 10);
    }
  }

  lemma ItoaInjective(m: int, n: int)
    requires Itoa(m) == Itoa(n)
    ensures m == n
  {
    if m < 0 && n < 0 {
      assert Itoa(m)[1..] == Digits(-m) && Itoa(n)[1..] == Digits(-n);
      DigitsInjective(-m, -n);
    } else if m >= 0 && n >= 0 {
      DigitsInjective(m, n);
    }
  }

  /** Users with uuids of one length have the same key only if they agree on uuid and speed. */
  lemma KeyInjective(u: UserInfo, v: UserInfo)
    requires |u.uuid| == |v.uuid|
    ensures Key(u) == Key(v) <==> u.uuid == v.uuid && u.speedLimit == v.speedLimit
  {
    if Key(u) == Key(v) {
      assert Key(u)[..|u.uuid|] == u.uuid && Key(v)[..|v.uuid|] == v.uuid;
      assert Key(u)[|u.uuid|..] == Itoa(u.speedLimit) && Key(v)[|v.uuid|..] == Itoa(v.speedLimit);
      ItoaInjective(u.speedLimit, v.speedLimit);
    }
  }

  // ---------------------------------------------------------------------
  // The two results
  // ---------------------------------------------------------------------

  function Keys(users: seq<UserInfo>): set<string> {
    set u | u in users :: Key(u)
  }

  /** The new users whose key is not left in `known`; each key is used up by its first user. */
  function Added(known: set<string>, new_: seq<UserInfo>): (r: seq<UserInfo>) {
    if new_ == [] then []
    else
      var k := Key(new_[0]);
      if k in known then Added(known - {k}, new_[1..]) else [new_[0]] + Added(known, new_[1..])
  }

  /** The last user of the list with a given key. */
  ghost predicate LastOf(users: seq<UserInfo>, i: int) {
    0 <= i < |users| && forall j :: i < j < |users| ==> Key(users[j]) != Key(users[i])
  }

  /** The old users whose key no new user has; of old users with one key, the last. */
  ghost function Deleted(old_: seq<UserInfo>, new_: seq<UserInfo>): set<UserInfo> {
    set i | 0 <= i < |old_| && Gone(old_, new_, i) :: old_[i]
  }

  ghost predicate Gone(old_: seq<UserInfo>, new_: seq<UserInfo>, i: int) {
    LastOf(old_, i) && Key(old_[i]) !in Keys(new_)
  }

  /** `index` maps each key of `users` to the position of its last user. */
  ghost predicate Indexes(index: map<string, int>, users: seq<UserInfo>) {
    && index.Keys == Keys(users)
    && forall k :: k in index ==> LastOf(users, index[k]) && Key(users[index[k]]) == k
  }

  lemma IndexesMore(index: map<string, int>, users: seq<UserInfo>, i: nat)
    requires i < |users| && Indexes(index, users[..i])
    ensures Indexes(index[Key(users[i]) := i], users[..i + 1])
  {
    hide Key, Keys;
    var now, more := users[..i + 1], index[Key(users[i]) := i];
    KeysMore(users, i);
    assert forall j :: 0 <= j < i ==> now[j] == users[..i][j];
    forall k | k in more ensures LastOf(now, more[k]) && Key(now[more[k]]) == k {
      if k != Key(users[i]) {
        assert LastOf(users[..i], index[k]);
      }
    }
  }

  /** Every position of the map is a position in `users` with that key. */
  ghost predicate Points(index: map<string, int>, users: seq<UserInfo>) {
    forall k :: k in index ==> 0 <= index[k] < |users| && Key(users[index[k]]) == k
  }

  /** The users that the map points to. */
  ghost function Pointed(index: map<string, int>, users: seq<UserInfo>): set<UserInfo>
    requires Points(index, users)
  {
    set k | k in index :: users[index[k]]
  }

  lemma PointedWithout(index: map<string, int>, users: seq<UserInfo>, k: string)
    requires Points(index, users) && k in index
    ensures Points(index - {k}, users)
    ensures Pointed(index, users) == Pointed(index - {k}, users) + {users[index[k]]}
  {
    var less := index - {k};
    forall u | u in Pointed(index, users) ensures u in Pointed(less, users) + {users[index[k]]} {
      var x :| x in index && users[index[x]] == u;
      assert x == k || x in less;
    }
    forall u | u in Pointed(less, users) ensures u in Pointed(index, users) {
      var x :| x in less && users[less[x]] == u;
      assert x in index;
    }
  }

  /** After the keys of the new users are gone, the map points to the deleted users. */
  lemma LeftOver(index: map<string, int>, old_: seq<UserInfo>, new_: seq<UserInfo>)
    requires Indexes(index, old_)
    ensures Points(index - Keys(new_), old_)
    ensures Pointed(index - Keys(new_), old_) == Deleted(old_, new_)
  {
    var left := index - Keys(new_);
    forall i | 0 <= i < |old_| && Gone(old_, new_, i) ensures old_[i] in Pointed(left, old_) {
      var k := Key(old_[i]);
      assert old_[i] in old_ && k in Keys(old_);
      assert LastOf(old_, index[k]) && Key(old_[index[k]]) == k;
      assert index[k] == i;
      assert k in left;
    }
    forall k | k in left ensures old_[left[k]] in Deleted(old_, new_) {
      assert Gone(old_, new_, left[k]);
    }
  }

  /** The comparison, with `oldMap` ranged over in any order at the end. */
  method CompareUserList(old_: seq<UserInfo>, new_: seq<UserInfo>)
    returns (deleted: seq<UserInfo>, added: seq<UserInfo>)
    ensures added == Added(Keys(old_), new_)
    ensures Elements(deleted) == Deleted(old_, new_)
    ensures forall i, j :: 0 <= i < j < |deleted| ==> Key(deleted[i]) != Key(deleted[j])
  {
    hide Keys, Key, Indexes, Pointed, Points, Deleted, Elements;
    var oldMap := map[];
    IndexesNothing();
    assert old_[..0] == [] && new_[..0] == [];
    for i := 0 to |old_|
      invariant Indexes(oldMap, old_[..i])
    {
      IndexesMore(oldMap, old_, i);
      oldMap := oldMap[Key(old_[i]) := i];
    }
    assert old_[..|old_|] == old_ && new_[..|new_|] == new_;
    IndexesKeys(oldMap, old_);
    ghost var index := oldMap;
    added := [];
    assert new_[0..] == new_;
    assert oldMap == index - Keys([]);
    for i := 0 to |new_|
      invariant oldMap == index - Keys(new_[..i])
      invariant added + Added(oldMap.Keys, new_[i..]) == Added(Keys(old_), new_)
    {
      var user := new_[i];
      AddedStep(added, oldMap, new_, i);
      KeysMore(new_, i);
      if Key(user) !in oldMap {
        added := added + [user];
      } else {
        oldMap := oldMap - {Key(user)};
      }
    }
    assert new_[|new_|..] == [];
    LeftOver(index, old_, new_);
    deleted := CollectDeleted(oldMap, old_);
  }

  lemma IndexesNothing()
    ensures Indexes(map[], []) && Keys([]) == {}
  {
  }

  lemma IndexesKeys(index: map<string, int>, users: seq<UserInfo>)
    requires Indexes(index, users)
    ensures index.Keys == Keys(users)
  {
  }

  lemma KeysMore(users: seq<UserInfo>, i: nat)
    requires i < |users|
    ensures Keys(users[..i + 1]) == Keys(users[..i]) + {Key(users[i])}
  {
    assert users[..i + 1] == users[..i] + [users[i]];
  }

  lemma AddedStep(added: seq<UserInfo>, known: map<string, int>, new_: seq<UserInfo>, i: nat)
    requires i < |new_|
    ensures added + Added(known.Keys, new_[i..]) ==
      if Key(new_[i]) in known then added + Added((known - {Key(new_[i])}).Keys, new_[i + 1..])
      else added + [new_[i]] + Added(known.Keys, new_[i + 1..])
  {
    hide Key;
    assert new_[i..][1..] == new_[i + 1..];
    assert (known - {Key(new_[i])}).Keys == known.Keys - {Key(new_[i])};
    var rest := Added(known.Keys, new_[i + 1..]);
    assert added + ([new_[i]] + rest) == added + [new_[i]] + rest;
  }

  /** The last loop of the comparison. */
  method CollectDeleted(index: map<string, int>, old_: seq<UserInfo>) returns (deleted: seq<UserInfo>)
    requires Points(index, old_)
    ensures Elements(deleted) == Pointed(index, old_)
    ensures forall i, j :: 0 <= i < j < |deleted| ==> Key(deleted[i]) != Key(deleted[j])
  {
    hide Key, Pointed, Elements;
    deleted := [];
    var rest := index;
    NoElements();
    while rest != map[]
      invariant Points(rest, old_)
      invariant Elements(deleted) + Pointed(rest, old_) == Pointed(index, old_)
      invariant forall i :: 0 <= i < |deleted| ==> Key(deleted[i]) !in rest
      invariant forall i, j :: 0 <= i < j < |deleted| ==> Key(deleted[i]) != Key(deleted[j])
      decreases |rest|
    {
      assert rest.Keys != {};
      var k :| k in rest.Keys;
      PointedWithout(rest, old_, k);
      ElementsMore(deleted, old_[rest[k]]);
      Shrinks(rest, k);
      deleted := deleted + [old_[rest[k]]];
      rest := rest - {k};
    }
    PointedNothing(old_);
  }

  lemma NoElements()
    ensures Elements<UserInfo>([]) == {}
  {
  }

  lemma PointedNothing(users: seq<UserInfo>)
    ensures Points(map[], users) && Pointed(map[], users) == {}
  {
  }

  lemma ElementsMore(s: seq<UserInfo>, u: UserInfo)
    ensures Elements(s + [u]) == Elements(s) + {u}
  {
  }

  // ---------------------------------------------------------------------
  // What applying the comparison does
  // ---------------------------------------------------------------------

  ghost predicate UniqueUuids(users: seq<UserInfo>) {
    forall i, j :: 0 <= i < j < |users| ==> users[i].uuid != users[j].uuid
  }

  ghost predicate DistinctKeys(users: seq<UserInfo>) {
    forall i, j :: 0 <= i < j < |users| ==> Key(users[i]) != Key(users[j])
  }

  /** All uuids of a list have length `n`. */
  ghost predicate UuidLength(users: seq<UserInfo>, n: nat) {
    forall u :: u in users ==> |u.uuid| == n
  }

  /** A list has a user with this uuid and this speed limit. */
  ghost predicate Has(users: seq<UserInfo>, uuid: string, speed: int) {
    exists u :: u in users && u.uuid == uuid && u.speedLimit == speed
  }

  ghost predicate HasUuid(users: seq<UserInfo>, uuid: string) {
    exists u :: u in users && u.uuid == uuid
  }

  /** Speed limits by uuid, as a table of users holds them. */
  ghost predicate IsSpeeds(m: map<string, int>, users: seq<UserInfo>) {
    && (forall u :: u in users ==> u.uuid in m && m[u.uuid] == u.speedLimit)
    && (forall x :: x in m ==> HasUuid(users, x))
  }

  /** Deleting users by uuid and then inserting users. */
  ghost function Apply(m: map<string, int>, deleted: set<UserInfo>, added: seq<UserInfo>): map<string, int> {
    if added == [] then m - (set u | u in deleted :: u.uuid)
    else
      var n := |added| - 1;
      Apply(m, deleted, added[..n])[added[n].uuid := added[n].speedLimit]
  }

  /** An old and a new user have one key only if they agree on uuid and speed. */
  ghost predicate NoClash(old_: seq<UserInfo>, new_: seq<UserInfo>) {
    forall o, n :: o in old_ && n in new_ && Key(o) == Key(n) ==> o.uuid == n.uuid && o.speedLimit == n.speedLimit
  }

  /** An earlier user of the list has the key of `u`. */
  ghost predicate Earlier(users: seq<UserInfo>, u: UserInfo) {
    exists i, j :: 0 <= i < j < |users| && users[j] == u && Key(users[i]) == Key(u)
  }

  /** A later user of the list has the key of `u`. */
  ghost predicate Later(users: seq<UserInfo>, u: UserInfo) {
    exists i, j :: 0 <= i < j < |users| && users[i] == u && Key(users[j]) == Key(u)
  }

  /** Nobody is mistaken for somebody else: a new user that takes up an old key is an old user, at
      the same speed; and an old user that left has a key that no later old user and no new user has. */
  ghost predicate NoMixup(old_: seq<UserInfo>, new_: seq<UserInfo>) {
    && (forall n :: n in new_ && Key(n) in Keys(old_) && !Earlier(new_, n) ==> Has(old_, n.uuid, n.speedLimit))
    && (forall o :: o in old_ && !HasUuid(new_, o.uuid) ==> !Later(old_, o) && Key(o) !in Keys(new_))
  }

  /** Which users are added, for every list without repeated uuids. */
  lemma {:induction false} AddedExact(known: set<string>, new_: seq<UserInfo>)
    requires UniqueUuids(new_)
    ensures forall u :: u in Added(known, new_) <==> u in new_ && (Key(u) !in known || Earlier(new_, u))
  {
    hide Key, Earlier;
    if new_ != [] {
      var h, rest := new_[0], new_[1..];
      assert forall i :: 0 <= i < |rest| ==> rest[i] == new_[i + 1];
      AddedExact(if Key(h) in known then known - {Key(h)} else known, rest);
      NoneEarlier(new_);
      forall u ensures u in Added(known, new_) <==> u in new_ && (Key(u) !in known || Earlier(new_, u)) {
        assert u in new_ <==> u == h || u in rest by { InTail(new_, u); }
        if u in rest { EarlierTail(new_, u); }
      }
    }
  }

  lemma InTail(users: seq<UserInfo>, u: UserInfo)
    requires users != []
    ensures u in users <==> u == users[0] || u in users[1..]
  {
    assert users == [users[0]] + users[1..];
  }

  lemma NoneEarlier(users: seq<UserInfo>)
    requires users != [] && UniqueUuids(users)
    ensures !Earlier(users, users[0])
    ensures users[0] !in users[1..]
  {
    hide Key;
  }

  lemma EarlierTail(users: seq<UserInfo>, u: UserInfo)
    requires users != [] && UniqueUuids(users) && u in users[1..]
    ensures Earlier(users, u) <==> Earlier(users[1..], u) || Key(u) == Key(users[0])
  {
    hide Key;
    var rest := users[1..];
    assert forall i :: 0 <= i < |rest| ==> rest[i] == users[i + 1];
    var at :| 0 <= at < |rest| && rest[at] == u;
    assert users[at + 1] == u;
    if Earlier(users, u) {
      var i, j :| 0 <= i < j < |users| && users[j] == u && Key(users[i]) == Key(u);
      if i > 0 { assert rest[i - 1] == users[i] && rest[j - 1] == u; }
    }
    if Earlier(rest, u) {
      var i, j :| 0 <= i < j < |rest| && rest[j] == u && Key(rest[i]) == Key(u);
      assert users[i + 1] == rest[i] && users[j + 1] == u;
    }
  }

  /** Which users are deleted, for every list without repeated uuids. */
  lemma DeletedExact(old_: seq<UserInfo>, new_: seq<UserInfo>)
    requires UniqueUuids(old_)
    ensures forall u :: u in Deleted(old_, new_) <==> u in old_ && !Later(old_, u) && Key(u) !in Keys(new_)
  {
    hide Key, Keys;
    forall i | 0 <= i < |old_| ensures LastOf(old_, i) <==> !Later(old_, old_[i]) {
      if Later(old_, old_[i]) {
        var a, b :| 0 <= a < b < |old_| && old_[a] == old_[i] && Key(old_[b]) == Key(old_[i]);
        assert a == i;
      }
    }
    forall u | u in old_ && !Later(old_, u) && Key(u) !in Keys(new_) ensures u in Deleted(old_, new_) {
      var i :| 0 <= i < |old_| && old_[i] == u;
      assert Gone(old_, new_, i);
    }
  }

  lemma {:induction false} AddedIs(known: set<string>, new_: seq<UserInfo>)
    requires DistinctKeys(new_)
    ensures forall u :: u in Added(known, new_) <==> u in new_ && Key(u) !in known
  {
    hide Key;
    if new_ != [] {
      var rest, k := new_[1..], Key(new_[0]);
      DistinctTail(new_);
      AddedIs(if k in known then known - {k} else known, rest);
      forall u ensures u in new_ <==> u == new_[0] || u in rest {
        if u in new_ { var i :| 0 <= i < |new_| && new_[i] == u; assert i == 0 || rest[i - 1] == u; }
      }
    }
  }

  lemma DistinctTail(users: seq<UserInfo>)
    requires users != [] && DistinctKeys(users)
    ensures DistinctKeys(users[1..])
    ensures forall u :: u in users[1..] ==> Key(u) != Key(users[0])
  {
    hide Key;
    forall i, j | 0 <= i < j < |users| - 1 ensures Key(users[1..][i]) != Key(users[1..][j]) {
      assert users[1..][i] == users[i + 1] && users[1..][j] == users[j + 1];
    }
    forall u | u in users[1..] ensures Key(u) != Key(users[0]) {
      var i :| 0 <= i < |users| - 1 && users[1..][i] == u;
      assert users[i + 1] == u;
    }
  }

  lemma {:induction false} AddedUnique(known: set<string>, new_: seq<UserInfo>)
    requires UniqueUuids(new_)
    ensures UniqueUuids(Added(known, new_))
    ensures forall u :: u in Added(known, new_) ==> u in new_
  {
    hide Key;
    if new_ != [] {
      var rest, k := new_[1..], Key(new_[0]);
      assert forall i :: 0 <= i < |rest| ==> rest[i] == new_[i + 1];
      AddedUnique(if k in known then known - {k} else known, rest);
      if k !in known {
        var a := Added(known, rest);
        assert Added(known, new_) == [new_[0]] + a;
        forall i | 0 <= i < |a| ensures a[i].uuid != new_[0].uuid {
          assert a[i] in rest;
        }
      }
    }
  }

  lemma DeletedIs(old_: seq<UserInfo>, new_: seq<UserInfo>)
    requires DistinctKeys(old_)
    ensures forall u :: u in Deleted(old_, new_) <==> u in old_ && Key(u) !in Keys(new_)
  {
    hide Key, Keys;
    forall i | 0 <= i < |old_| ensures Gone(old_, new_, i) <==> Key(old_[i]) !in Keys(new_) {
      assert LastOf(old_, i);
    }
    forall u | u in old_ && Key(u) !in Keys(new_) ensures u in Deleted(old_, new_) {
      var i :| 0 <= i < |old_| && old_[i] == u;
      assert Gone(old_, new_, i);
    }
  }

  lemma SameUuid(users: seq<UserInfo>, u: UserInfo, v: UserInfo)
    requires UniqueUuids(users) && u in users && v in users && u.uuid == v.uuid
    ensures u == v
  {
  }

  lemma SameKey(users: seq<UserInfo>, u: UserInfo, v: UserInfo)
    requires DistinctKeys(users) && u in users && v in users && Key(u) == Key(v)
    ensures u == v
  {
    hide Key;
  }

  /** A table entry after `Apply`: the added user's limit, or the old entry if it was not deleted. */
  lemma {:induction false} ApplyAt(m: map<string, int>, deleted: set<UserInfo>, added: seq<UserInfo>, x: string)
    requires UniqueUuids(added)
    ensures forall u :: u in added && u.uuid == x ==>
      x in Apply(m, deleted, added) && Apply(m, deleted, added)[x] == u.speedLimit
    ensures !HasUuid(added, x) ==>
      && (x in Apply(m, deleted, added) <==> x in m && forall u :: u in deleted ==> u.uuid != x)
      && (x in Apply(m, deleted, added) ==> Apply(m, deleted, added)[x] == m[x])
  {
    if added != [] {
      var n := |added| - 1;
      var front, last := added[..n], added[n];
      ApplyAt(m, deleted, front, x);
      assert added == front + [last];
      if HasUuid(front, x) { var u :| u in front && u.uuid == x; assert u in added; }
      assert last in added;
      forall u | u in added && u.uuid == x
        ensures x in Apply(m, deleted, added) && Apply(m, deleted, added)[x] == u.speedLimit
      {
        assert u in front || u == last;
        if u != last { SameUuidIn(added, u, last); }
      }
    }
  }

  lemma SameUuidIn(users: seq<UserInfo>, u: UserInfo, v: UserInfo)
    requires UniqueUuids(users) && u in users && v in users && u != v
    ensures u.uuid != v.uuid
  {
  }

  /** The comparison is right, exactly when nobody is mistaken for somebody else: applying it then
      turns the speeds of the old list into those of the new one. */
  lemma CompareCorrectIff(old_: seq<UserInfo>, new_: seq<UserInfo>, m: map<string, int>)
    requires UniqueUuids(old_) && UniqueUuids(new_) && IsSpeeds(m, old_)
    ensures IsSpeeds(Apply(m, Deleted(old_, new_), Added(Keys(old_), new_)), new_) <==> NoMixup(old_, new_)
  {
    hide Apply, Added, Deleted, Keys, Key, UniqueUuids, IsSpeeds, NoMixup;
    if NoMixup(old_, new_) {
      CompareCorrect(old_, new_, m);
    } else if IsSpeeds(Apply(m, Deleted(old_, new_), Added(Keys(old_), new_)), new_) {
      CompareNeeds(old_, new_, m);
    }
  }

  lemma CompareCorrect(old_: seq<UserInfo>, new_: seq<UserInfo>, m: map<string, int>)
    requires UniqueUuids(old_) && UniqueUuids(new_) && IsSpeeds(m, old_) && NoMixup(old_, new_)
    ensures IsSpeeds(Apply(m, Deleted(old_, new_), Added(Keys(old_), new_)), new_)
  {
    hide Key, Apply, Deleted, Added, Earlier, Later;
    var added, deleted := Added(Keys(old_), new_), Deleted(old_, new_);
    AddedExact(Keys(old_), new_);
    AddedUnique(Keys(old_), new_);
    DeletedExact(old_, new_);
    var r := Apply(m, deleted, added);
    forall n | n in new_ ensures n.uuid in r && r[n.uuid] == n.speedLimit {
      ApplyAt(m, deleted, added, n.uuid);
      if n !in added {
        var o :| o in old_ && o.uuid == n.uuid && o.speedLimit == n.speedLimit;
        SameSpeedKey(o, n);
        if HasUuid(added, n.uuid) { var a :| a in added && a.uuid == n.uuid; SameUuid(new_, a, n); }
        assert Key(n) in Keys(new_);
        forall d | d in deleted ensures d.uuid != n.uuid {
          if d.uuid == n.uuid { SameUuid(old_, d, o); }
        }
      }
    }
    forall x | x in r ensures HasUuid(new_, x) {
      ApplyAt(m, deleted, added, x);
      if HasUuid(added, x) {
        var a :| a in added && a.uuid == x;
        assert a in new_;
      } else {
        var o :| o in old_ && o.uuid == x;
        assert o !in deleted;
      }
    }
  }

  lemma CompareNeeds(old_: seq<UserInfo>, new_: seq<UserInfo>, m: map<string, int>)
    requires UniqueUuids(old_) && UniqueUuids(new_) && IsSpeeds(m, old_)
    requires IsSpeeds(Apply(m, Deleted(old_, new_), Added(Keys(old_), new_)), new_)
    ensures NoMixup(old_, new_)
  {
    hide Key, Apply, Deleted, Added, Earlier, Later;
    var added, deleted := Added(Keys(old_), new_), Deleted(old_, new_);
    AddedExact(Keys(old_), new_);
    AddedUnique(Keys(old_), new_);
    DeletedExact(old_, new_);
    forall n | n in new_ && Key(n) in Keys(old_) && !Earlier(new_, n) ensures Has(old_, n.uuid, n.speedLimit) {
      ApplyAt(m, deleted, added, n.uuid);
      if HasUuid(added, n.uuid) { var a :| a in added && a.uuid == n.uuid; SameUuid(new_, a, n); }
      var o :| o in old_ && o.uuid == n.uuid;
      assert o.speedLimit == n.speedLimit;
    }
    forall o | o in old_ && !HasUuid(new_, o.uuid) ensures o in deleted {
      ApplyAt(m, deleted, added, o.uuid);
      var d :| d in deleted && d.uuid == o.uuid;
      SameUuid(old_, d, o);
    }
  }

  lemma SameSpeedKey(u: UserInfo, v: UserInfo)
    requires u.uuid == v.uuid && u.speedLimit == v.speedLimit
    ensures Key(u) == Key(v)
  {
  }

  /** When no list repeats a key, all that can go wrong is a clash of an old and a new user. */
  lemma NoMixupIffNoClash(old_: seq<UserInfo>, new_: seq<UserInfo>)
    requires UniqueUuids(old_) && UniqueUuids(new_) && DistinctKeys(old_) && DistinctKeys(new_)
    ensures NoMixup(old_, new_) <==> NoClash(old_, new_)
  {
    DistinctAlone(old_);
    DistinctAlone(new_);
    hide DistinctKeys, UniqueUuids, Earlier, Later;
    if NoMixup(old_, new_) {
      forall o, n | o in old_ && n in new_ && Key(o) == Key(n)
        ensures o.uuid == n.uuid && o.speedLimit == n.speedLimit
      {
        assert Key(n) in Keys(old_);
        var p :| p in old_ && p.uuid == n.uuid && p.speedLimit == n.speedLimit;
        SameSpeedKey(p, n);
        SameKey(old_, o, p);
      }
    }
    if NoClash(old_, new_) {
      forall n | n in new_ && Key(n) in Keys(old_) ensures Has(old_, n.uuid, n.speedLimit) {
        var o :| o in old_ && Key(o) == Key(n);
        assert o.uuid == n.uuid && o.speedLimit == n.speedLimit;
      }
      forall o | o in old_ && Key(o) in Keys(new_) ensures HasUuid(new_, o.uuid) {
        var n :| n in new_ && Key(n) == Key(o);
        assert n.uuid == o.uuid;
      }
    }
  }

  lemma DistinctAlone(users: seq<UserInfo>)
    requires DistinctKeys(users)
    ensures forall u :: !Earlier(users, u) && !Later(users, u)
  {
    hide Key;
  }

  /** Uuids of one length rule all clashes out. */
  lemma OneLengthNoClash(old_: seq<UserInfo>, new_: seq<UserInfo>, n: nat)
    requires UuidLength(old_, n) && UuidLength(new_, n)
    ensures NoClash(old_, new_)
    ensures UniqueUuids(old_) ==> DistinctKeys(old_)
    ensures UniqueUuids(new_) ==> DistinctKeys(new_)
  {
    forall o, u | o in old_ && u in new_ ensures Key(o) == Key(u) ==> o.uuid == u.uuid && o.speedLimit == u.speedLimit {
      KeyInjective(o, u);
    }
    OneLengthDistinct(old_, n);
    OneLengthDistinct(new_, n);
  }

  lemma OneLengthDistinct(users: seq<UserInfo>, n: nat)
    requires UuidLength(users, n)
    ensures UniqueUuids(users) ==> DistinctKeys(users)
  {
    if UniqueUuids(users) {
      forall i, j | 0 <= i < j < |users| ensures Key(users[i]) != Key(users[j]) {
        assert users[i] in users && users[j] in users;
        KeyInjective(users[i], users[j]);
      }
    }
  }

  /** A user whose uuid and speed are unchanged is never deleted, and is added exactly if an earlier
      new user has the same key. */
  lemma UnchangedUntouched(old_: seq<UserInfo>, new_: seq<UserInfo>, o: UserInfo, n: UserInfo)
    requires UniqueUuids(old_) && UniqueUuids(new_)
    requires o in old_ && n in new_ && o.uuid == n.uuid && o.speedLimit == n.speedLimit
    ensures forall d :: d in Deleted(old_, new_) ==> d.uuid != o.uuid
    ensures (forall a :: a in Added(Keys(old_), new_) ==> a.uuid != o.uuid) <==> !Earlier(new_, n)
  {
    hide Deleted, Added, Earlier, Later;
    AddedExact(Keys(old_), new_);
    DeletedExact(old_, new_);
    assert Key(o) == Key(n) && Key(n) in Keys(new_) && Key(o) in Keys(old_);
    forall d | d in Deleted(old_, new_) ensures d.uuid != o.uuid {
      if d.uuid == o.uuid { SameUuid(old_, d, o); }
    }
    forall a | a in Added(Keys(old_), new_) && a.uuid == o.uuid ensures Earlier(new_, n) {
      SameUuid(new_, a, n);
    }
  }

  /** No user is added under a uuid, exactly if the new list has it at most under a key that an old
      user has and that no earlier new user used up. */
  lemma KeptNotAdded(old_: seq<UserInfo>, new_: seq<UserInfo>, uuid: string)
    requires UniqueUuids(new_)
    ensures (forall a :: a in Added(Keys(old_), new_) ==> a.uuid != uuid)
       <==> (forall n :: n in new_ && n.uuid == uuid ==> Key(n) in Keys(old_) && !Earlier(new_, n))
  {
    hide Key, Added, Earlier;
    AddedExact(Keys(old_), new_);
  }

  /** Without repeated keys and clashes an old user that is not deleted is not replaced either. */
  lemma KeptStays(old_: seq<UserInfo>, new_: seq<UserInfo>, o: UserInfo)
    requires UniqueUuids(new_) && DistinctKeys(old_) && DistinctKeys(new_) && NoClash(old_, new_)
    requires o in old_ && o !in Deleted(old_, new_)
    ensures forall a :: a in Added(Keys(old_), new_) ==> a.uuid != o.uuid
  {
    hide Key, Deleted, Added;
    AddedIs(Keys(old_), new_);
    DeletedIs(old_, new_);
    var n :| n in new_ && Key(n) == Key(o);
    assert Key(n) in Keys(old_);
    forall a | a in Added(Keys(old_), new_) ensures a.uuid != o.uuid {
      if a.uuid == o.uuid { SameUuid(new_, a, n); }
    }
  }

  /** A user with a changed speed is both deleted and added, exactly if its old key is nobody's in
      the new list and nobody's later in the old one, and its new key is nobody's in the old list
      or an earlier new user's. */
  lemma ChangedReplaced(old_: seq<UserInfo>, new_: seq<UserInfo>, o: UserInfo, n: UserInfo)
    requires UniqueUuids(old_) && UniqueUuids(new_)
    requires o in old_ && n in new_ && o.uuid == n.uuid && o.speedLimit != n.speedLimit
    ensures o in Deleted(old_, new_) && n in Added(Keys(old_), new_) <==>
      && Key(o) !in Keys(new_) && !Later(old_, o)
      && (Key(n) !in Keys(old_) || Earlier(new_, n))
    ensures DistinctKeys(old_) && DistinctKeys(new_) && NoClash(old_, new_) ==>
      o in Deleted(old_, new_) && n in Added(Keys(old_), new_)
  {
    hide Key, Deleted, Added, Earlier, Later;
    AddedExact(Keys(old_), new_);
    DeletedExact(old_, new_);
    if DistinctKeys(old_) && DistinctKeys(new_) && NoClash(old_, new_) {
      DistinctAlone(old_);
      if Key(o) in Keys(new_) {
        var u :| u in new_ && Key(u) == Key(o);
        SameUuid(new_, u, n);
      }
      if Key(n) in Keys(old_) {
        var u :| u in old_ && Key(u) == Key(n);
        SameUuid(old_, u, o);
      }
    }
  }

  /** With uuids of different lengths a new user can be taken for an old one: the old user `a1`
      with speed 2 hides the new user `a` with speed 12, which is never added. */
  lemma ClashingKeys()
    ensures
      var old_, new_ := [UserInfo(1, "a1", 2, 0)], [UserInfo(2, "a", 12, 0)];
      && UniqueUuids(old_) && UniqueUuids(new_) && DistinctKeys(old_) && DistinctKeys(new_)
      && Deleted(old_, new_) == {} && Added(Keys(old_), new_) == []
  {
    var o, n := UserInfo(1, "a1", 2, 0), UserInfo(2, "a", 12, 0);
    assert Digits(12) == Digits(1) + [Digit(2)];
    assert Key(o) == "a12" && Key(n) == "a12";
    assert n in [n] && Key(n) in Keys([n]);
    assert o in [o] && Key(o) in Keys([o]);
    assert [n][1..] == [];
  }

  /** Two old users with one key: both leave, but only the later one is deleted. There is no new
      user to clash with. */
  lemma SharedKey()
    ensures
      var a, b := UserInfo(1, "a1", 2, 0), UserInfo(2, "a", 12, 0);
      && UniqueUuids([a, b]) && NoClash([a, b], []) && !NoMixup([a, b], [])
      && Deleted([a, b], []) == {b} && Added(Keys([a, b]), []) == []
  {
    var a, b := UserInfo(1, "a1", 2, 0), UserInfo(2, "a", 12, 0);
    var old_: seq<UserInfo> := [a, b];
    assert Digits(12) == Digits(1) + [Digit(2)];
    assert Key(a) == "a12" && Key(b) == "a12";
    hide Key;
    assert old_[0] == a && old_[1] == b && Later(old_, a);
    assert a in old_ && b in old_ && !HasUuid([], "a1");
    DeletedExact(old_, []);
    assert !Later(old_, b);
  }
}
