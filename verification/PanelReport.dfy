/**
 What is sent to the panel: traffic summed by user id, and the online addresses grouped by user
 id with the users of little traffic left out.
 */
module PanelReport {
  import opened Basics
  import opened Panel
  import opened Traffic
  import opened XrayUsers
  import L = Limiter

  /** The aggregation loop of `ReportUserTraffic`: each user id gets the sums of its rows, and the
      sums over all users stay those of the slice. */
  method AggregateTraffic(rows: seq<UserTraffic>) returns (data: map<int, Pair>)
    ensures forall uid :: uid in data <==> exists row :: row in rows && row.uid == uid
    ensures forall uid :: uid in data ==> data[uid] == UidTotal(rows, uid)
    ensures Total(data) == SliceTotal(rows)
  {
    hide Total, SliceTotal, UidTotal;
    data := map[];
    SumsOfNothing();
    for i := 0 to |rows|
      invariant Aggregated(data, rows[..i])
    {
      var row := rows[i];
      AggregatedMore(data, rows[..i], row);
      assert rows[..i + 1] == rows[..i] + [row];
      if row.uid in data {
        var current := data[row.uid];
        data := data[row.uid := Pair(current.up + row.upload, current.down + row.download)];
      } else {
        data := data[row.uid := Pair(row.upload, row.download)];
      }
    }
    assert rows[..|rows|] == rows;
  }

  ghost predicate Aggregated(data: map<int, Pair>, rows: seq<UserTraffic>) {
    && (forall uid :: uid in data <==> exists row :: row in rows && row.uid == uid)
    && (forall uid :: uid in data ==> data[uid] == UidTotal(rows, uid))
    && Total(data) == SliceTotal(rows)
  }

  lemma SumsOfNothing()
    ensures Aggregated(map[], [])
  {
  }

  lemma {:induction false} NoRows(rows: seq<UserTraffic>, uid: int)
    requires forall row :: row in rows ==> row.uid != uid
    ensures UidTotal(rows, uid) == Pair(0, 0)
  {
    if rows != [] {
      var front, last := rows[..|rows| - 1], rows[|rows| - 1];
      assert last in rows;
      assert forall row :: row in front ==> row in rows;
      NoRows(front, uid);
    }
  }

  lemma AggregatedMore(data: map<int, Pair>, rows: seq<UserTraffic>, row: UserTraffic)
    requires Aggregated(data, rows)
    ensures
      var p := Pair(row.upload, row.download);
      Aggregated(data[row.uid := if row.uid in data then Add2(data[row.uid], p) else p], rows + [row])
  {
    hide Total, SliceTotal, UidTotal;
    var p := Pair(row.upload, row.download);
    var more := data[row.uid := if row.uid in data then Add2(data[row.uid], p) else p];
    if row.uid in data {
      TotalUpdate(data, row.uid, Add2(data[row.uid], p));
    } else {
      TotalNew(data, row.uid, p);
      NoRows(rows, row.uid);
    }
    forall uid ensures uid in more <==> exists r :: r in rows + [row] && r.uid == uid {
      assert row in rows + [row];
      if uid in data { var r :| r in rows && r.uid == uid; assert r in rows + [row]; }
    }
    forall uid | uid in more ensures more[uid] == UidTotal(rows + [row], uid) {
      TotalsMore(rows, row, uid);
    }
    TotalsMore(rows, row, row.uid);
  }

  // ---------------------------------------------------------------------
  // Online addresses
  // ---------------------------------------------------------------------

  predicate IsLittle(row: UserTraffic, minTraffic: int, uid: int) {
    row.uid == uid && row.upload + row.download < minTraffic * 1000
  }

  /** A row of the slice says that the user moved less than `minTraffic` thousand bytes. */
  ghost predicate LittleTraffic(traffic: seq<UserTraffic>, minTraffic: int, uid: int) {
    exists row :: row in traffic && IsLittle(row, minTraffic, uid)
  }

  /** The addresses of one user, in the order of the report. */
  function Ips(online: seq<OnlineUser>, uid: int): seq<string> {
    if online == [] then []
    else
      var last := online[|online| - 1];
      Ips(online[..|online| - 1], uid) + if last.uid == uid then [last.ip] else []
  }

  lemma LittleMeans(traffic: seq<UserTraffic>, minTraffic: int, uid: int)
    ensures LittleTraffic(traffic, minTraffic, uid) <==>
      exists row :: row in traffic && row.uid == uid && row.upload + row.download < minTraffic * 1000
  {
    if row :| row in traffic && row.uid == uid && row.upload + row.download < minTraffic * 1000 {
      assert IsLittle(row, minTraffic, uid);
    }
  }

  /** The addresses of a user are those of its entries, each as often as it occurs. */
  lemma {:induction false} IpsAre(online: seq<OnlineUser>, uid: int, ip: string)
    ensures multiset(Ips(online, uid))[ip] == multiset(online)[OnlineUser(uid, ip)]
  {
    if online != [] {
      var front, last := online[..|online| - 1], online[|online| - 1];
      IpsAre(front, uid, ip);
      assert online == front + [last];
      assert Ips(online, uid) == Ips(front, uid) + if last.uid == uid then [last.ip] else [];
    }
  }

  lemma {:induction false} IpsSome(online: seq<OnlineUser>, uid: int)
    ensures Ips(online, uid) != [] <==> exists o :: o in online && o.uid == uid
  {
    if online != [] {
      var front, last := online[..|online| - 1], online[|online| - 1];
      IpsSome(front, uid);
      assert forall o :: o in online <==> o in front || o == last;
    }
  }

  /** The same in rows and entries: a user is reported unless a row shows little traffic for it, and
      with it all its online addresses and no other. */
  lemma GroupMeans(traffic: seq<UserTraffic>, online: seq<OnlineUser>, minTraffic: int, data: map<int, seq<string>>)
    requires forall uid :: uid in data <==> !LittleTraffic(traffic, minTraffic, uid) && Ips(online, uid) != []
    requires forall uid :: uid in data ==> data[uid] == Ips(online, uid)
    ensures forall uid :: uid in data <==>
      && (forall row :: row in traffic && row.uid == uid ==> row.upload + row.download >= minTraffic * 1000)
      && exists o :: o in online && o.uid == uid
    ensures forall uid, ip :: uid in data ==> multiset(data[uid])[ip] == multiset(online)[OnlineUser(uid, ip)]
  {
    hide LittleTraffic, Ips;
    forall uid ensures uid in data <==>
      && (forall row :: row in traffic && row.uid == uid ==> row.upload + row.download >= minTraffic * 1000)
      && exists o :: o in online && o.uid == uid
    {
      LittleMeans(traffic, minTraffic, uid);
      IpsSome(online, uid);
    }
    forall uid, ip | uid in data ensures multiset(data[uid])[ip] == multiset(online)[OnlineUser(uid, ip)] {
      IpsAre(online, uid, ip);
    }
  }

  /** The online part of the report task: the addresses of every user that no row shows to have
      little traffic, grouped by user id. */
  method GroupOnline(traffic: seq<UserTraffic>, online: seq<OnlineUser>, minTraffic: int) returns (data: map<int,
                     seq<string>>)
    ensures forall uid :: uid in data <==> !LittleTraffic(traffic, minTraffic, uid) && Ips(online, uid) != []
    ensures forall uid :: uid in data ==> data[uid] == Ips(online, uid)
    ensures forall uid :: uid in data <==>
      && (forall row :: row in traffic && row.uid == uid ==> row.upload + row.download >= minTraffic * 1000)
      && exists o :: o in online && o.uid == uid
    ensures forall uid, ip :: uid in data ==> multiset(data[uid])[ip] == multiset(online)[OnlineUser(uid, ip)]
  {
    hide LittleTraffic, Ips;
    var nocount := Quiet(traffic, minTraffic);
    var result := DropUsers(online, nocount);
    data := GroupByUid(result);
    GroupMeans(traffic, online, minTraffic, data);
  }

  method Quiet(traffic: seq<UserTraffic>, minTraffic: int) returns (nocount: set<int>)
    ensures forall uid :: uid in nocount <==> LittleTraffic(traffic, minTraffic, uid)
  {
    nocount := {};
    for i := 0 to |traffic|
      invariant forall uid :: uid in nocount <==> LittleTraffic(traffic[..i], minTraffic, uid)
    {
      hide LittleTraffic;
      LittleMore(traffic[..i], minTraffic, traffic[i]);
      assert traffic[..i + 1] == traffic[..i] + [traffic[i]];
      if traffic[i].upload + traffic[i].download < minTraffic * 1000 {
        nocount := nocount + {traffic[i].uid};
      }
    }
    assert traffic[..|traffic|] == traffic;
  }

  lemma LittleMore(traffic: seq<UserTraffic>, minTraffic: int, row: UserTraffic)
    ensures forall uid ::
      LittleTraffic(traffic + [row], minTraffic, uid) <==>
        (LittleTraffic(traffic, minTraffic, uid) || IsLittle(row, minTraffic, uid))
  {
    forall uid ensures
      LittleTraffic(traffic + [row], minTraffic, uid) <==>
        (LittleTraffic(traffic, minTraffic, uid) || IsLittle(row, minTraffic, uid))
    {
      if LittleTraffic(traffic, minTraffic, uid) {
        var r :| r in traffic && IsLittle(r, minTraffic, uid);
        assert r in traffic + [row];
      }
      assert row in traffic + [row];
    }
  }

  method DropUsers(online: seq<OnlineUser>, nocount: set<int>) returns (result: seq<OnlineUser>)
    ensures forall uid :: Ips(result, uid) == if uid in nocount then [] else Ips(online, uid)
  {
    hide Ips;
    result := [];
    NoIps();
    assert online[..0] == [];
    for i := 0 to |online|
      invariant forall uid :: Ips(result, uid) == if uid in nocount then [] else Ips(online[..i], uid)
    {
      IpsMore(online[..i], online[i]);
      IpsMore(result, online[i]);
      assert online[..i + 1] == online[..i] + [online[i]];
      if online[i].uid !in nocount {
        result := result + [online[i]];
      }
    }
    assert online[..|online|] == online;
  }

  lemma NoIps()
    ensures forall uid :: Ips([], uid) == []
  {
  }

  lemma IpsMore(online: seq<OnlineUser>, o: OnlineUser)
    ensures forall uid :: Ips(online + [o], uid) == if o.uid == uid then Ips(online, uid) + [o.ip] else Ips(online, uid)
  {
    assert (online + [o])[..|online|] == online;
  }

  method GroupByUid(result: seq<OnlineUser>) returns (data: map<int, seq<string>>)
    ensures forall uid :: uid in data <==> Ips(result, uid) != []
    ensures forall uid :: uid in data ==> data[uid] == Ips(result, uid)
  {
    hide Ips;
    data := map[];
    NoIps();
    assert result[..0] == [];
    for i := 0 to |result|
      invariant forall uid :: uid in data <==> Ips(result[..i], uid) != []
      invariant forall uid :: uid in data ==> data[uid] == Ips(result[..i], uid)
    {
      IpsMore(result[..i], result[i]);
      assert result[..i + 1] == result[..i] + [result[i]];
      var u := result[i];
      data := data[u.uid := (if u.uid in data then data[u.uid] else []) + [u.ip]];
    }
    assert result[..|result|] == result;
  }

  /** A user without a row in the slice counts as a user with much traffic: its addresses are
      reported, whatever the minimum. */
  lemma SilentUserIsReported(traffic: seq<UserTraffic>, minTraffic: int, uid: int)
    requires forall row :: row in traffic ==> row.uid != uid
    ensures !LittleTraffic(traffic, minTraffic, uid)
  {
  }

  // ---------------------------------------------------------------------
  // The report task
  // ---------------------------------------------------------------------

  /** What a push carries in all; no push carries nothing. */
  ghost function Carried(pushed: Option<map<int, Pair>>): Pair {
    match pushed
    case None => Pair(0, 0)
    case Some(data) => Total(data)
  }

  /** One report: collects and clears the counters, pushes the traffic by user id if there is any,
      empties the online table and, if anyone was online, reports the addresses. What was counted
      is in the push, still in the counters, or was dropped with unknown users. `pushOk` is whether
      the panel takes a push; the program logs the outcome and does nothing else with it, so it
      changes what was delivered and no table. */
  method ReportUserTrafficTask(x: Xray, l: L.Limiter, minTraffic: int, pushOk: bool)
    returns (delivered: Option<map<int, Pair>>, online: Option<map<int, seq<string>>>,
             ghost rows: seq<UserTraffic>, ghost order: seq<string>, ghost devices: seq<OnlineUser>)
    modifies x`counters, l`userOnlineIP, l`oldUserOnline
    ensures Collects(old(x.counters), x.counters, x.uidMap, x.threshold, order, rows)
    ensures delivered.Some? <==> rows != [] && pushOk
    ensures delivered.Some? ==> forall uid :: uid in delivered.value ==> delivered.value[uid] == UidTotal(rows, uid)
    ensures Carried(delivered) == if pushOk then SliceTotal(rows) else Pair(0, 0)
    ensures L.Reports(old(l.Tables()), l.Tables(), devices)
    ensures online.Some? <==> devices != []
    ensures online.Some? ==> forall uid ::
      && (uid in online.value <==> !LittleTraffic(rows, minTraffic, uid) && Ips(devices, uid) != [])
      && (uid in online.value ==> online.value[uid] == Ips(devices, uid))
  {
    hide Total, UidTotal, LittleTraffic, Ips, Rows, LeftAs, L.Reports, Unknown, L.Lists, Conserves;
    delivered, online := None, None;
    var slice, out;
    slice, order := x.GetUserTrafficSlice(true);
    rows := slice;
    if |slice| > 0 {
      var data := AggregateTraffic(slice);
      if pushOk {
        delivered := Some(data);
      }
    }
    ghost var pairs;
    out, pairs := l.GetOnlineDevice();
    devices := out;
    if |out| > 0 {
      var data := GroupOnline(slice, out, minTraffic);
      online := Some(data);
    }
  }
}
