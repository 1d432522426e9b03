/**
 Collecting traffic with nobody adding meanwhile, and handing it to the panel.

 `GetUserTrafficSlice` and the panel's aggregation are methods over tables; what is conserved is
 stated with sums that do not depend on the iteration order of a table.
 */
module XrayUsers {
  import opened Basics
  import opened Panel
  import opened Traffic

  function Add2(a: Pair, b: Pair): Pair {
    Pair(a.up + b.up, a.down + b.down)
  }

  // ---------------------------------------------------------------------
  // Sums over tables and slices
  // ---------------------------------------------------------------------

  /** Both directions summed over all entries of a table. */
  ghost function Total<K>(m: map<K, Pair>): Pair
    decreases |m|
  {
    if m == map[] then Pair(0, 0)
    else
      assert m.Keys != {};
      var k :| k in m;
      Shrinks(m, k);
      Add2(m[k], Total(m - {k}))
  }

  lemma TotalFirst<K>(m: map<K, Pair>) returns (k: K)
    requires m != map[]
    ensures k in m && Total(m) == Add2(m[k], Total(m - {k}))
  {
    assert m.Keys != {};
    k :| k in m && Total(m) == Add2(m[k], Total(m - {k}));
  }

  /** The sum does not depend on the entry taken first. */
  lemma {:induction false} TotalAt<K>(m: map<K, Pair>, k: K)
    requires k in m
    ensures Total(m).up == m[k].up + Total(m - {k}).up
    ensures Total(m).down == m[k].down + Total(m - {k}).down
    decreases |m|
  {
    hide Total;
    var j := TotalFirst(m);
    if j != k {
      Shrinks(m, j);
      Shrinks(m, k);
      TotalAt(m - {j}, k);
      TotalAt(m - {k}, j);
      assert m - {j} - {k} == m - {k} - {j};
    }
  }

  lemma TotalUpdate<K>(m: map<K, Pair>, k: K, p: Pair)
    requires k in m
    ensures Add2(Total(m[k := p]), m[k]) == Add2(Total(m), p)
  {
    TotalAt(m, k);
    TotalAt(m[k := p], k);
    assert m[k := p] - {k} == m - {k};
  }

  lemma TotalNew<K>(m: map<K, Pair>, k: K, p: Pair)
    requires k !in m
    ensures Total(m[k := p]) == Add2(Total(m), p)
  {
    TotalAt(m[k := p], k);
    assert m[k := p] - {k} == m;
  }

  /** Both directions summed over a slice. */
  function SliceTotal(rows: seq<UserTraffic>): Pair {
    if rows == [] then Pair(0, 0)
    else
      var last := rows[|rows| - 1];
      Add2(SliceTotal(rows[..|rows| - 1]), Pair(last.upload, last.download))
  }

  /** Both directions summed over the rows of one user id. */
  function UidTotal(rows: seq<UserTraffic>, uid: int): Pair {
    if rows == [] then Pair(0, 0)
    else
      var last := rows[|rows| - 1];
      var rest := UidTotal(rows[..|rows| - 1], uid);
      if last.uid == uid then Add2(rest, Pair(last.upload, last.download)) else rest
  }

  /** One more row adds its amounts to the sum of the slice and to that of its own user id. */
  lemma TotalsMore(rows: seq<UserTraffic>, row: UserTraffic, uid: int)
    ensures SliceTotal(rows + [row]).up == SliceTotal(rows).up + row.upload
    ensures SliceTotal(rows + [row]).down == SliceTotal(rows).down + row.download
    ensures UidTotal(rows + [row], uid) ==
      if row.uid == uid
      then Pair(UidTotal(rows, uid).up + row.upload, UidTotal(rows, uid).down + row.download)
      else UidTotal(rows, uid)
  {
    assert (rows + [row])[..|rows|] == rows;
  }

  // ---------------------------------------------------------------------
  // Collecting
  // ---------------------------------------------------------------------

  function Uid(uids: map<string, int>, user: string): int {
    if user in uids then uids[user] else 0
  }

  predicate Over(p: Pair, threshold: int) {
    p.up + p.down > threshold
  }

  /** What is left of one counter after a collection; unknown users over the threshold lose theirs. */
  ghost predicate LeftAs(before: map<string, Pair>, after: map<string, Pair>, uids: map<string, int>, threshold: int,
                         reset: bool, user: string)
    requires user in before
  {
    if !Over(before[user], threshold) then user in after && after[user] == before[user]
    else if Uid(uids, user) == 0 then user !in after
    else user in after && after[user] == if reset then Pair(0, 0) else before[user]
  }

  /** Has the user a row in the slice? */
  predicate Reported(before: map<string, Pair>, uids: map<string, int>, threshold: int, user: string) {
    user in before && Over(before[user], threshold) && Uid(uids, user) != 0
  }

  function RowOf(before: map<string, Pair>, uids: map<string, int>, user: string): UserTraffic
    requires user in before
  {
    UserTraffic(Uid(uids, user), before[user].up, before[user].down)
  }

  /** `slice` has one row for each known user over the threshold outside `todo`, in the order of `order`. */
  ghost predicate Rows(before: map<string, Pair>, uids: map<string, int>, threshold: int, todo: set<string>,
                       order: seq<string>, slice: seq<UserTraffic>)
  {
    && |order| == |slice|
    && (forall i, j :: 0 <= i < j < |order| ==> order[i] != order[j])
    && (forall u :: u in order <==> Reported(before, uids, threshold, u) && u !in todo)
    && (forall i :: 0 <= i < |order| ==> order[i] in before && slice[i] == RowOf(before, uids, order[i]))
  }

  lemma RowsMore(before: map<string, Pair>, uids: map<string, int>, threshold: int, todo: set<string>,
                 order: seq<string>, slice: seq<UserTraffic>, user: string)
    requires Rows(before, uids, threshold, todo, order, slice) && user in todo && user in before
    ensures Reported(before, uids, threshold, user) ==>
      Rows(before, uids, threshold, todo - {user}, order + [user], slice + [RowOf(before, uids, user)])
    ensures !Reported(before, uids, threshold, user) ==> Rows(before, uids, threshold, todo - {user}, order, slice)
  {
    hide Reported;
    if Reported(before, uids, threshold, user) {
      assert user !in order;
      assert forall u :: u in order + [user] <==> u in order || u == user;
    }
  }

  /** The counters over the threshold, outside `todo`, that belong to no known user. */
  ghost function Unknown(before: map<string, Pair>, uids: map<string, int>, threshold: int,
                         todo: set<string>): map<string, Pair> {
    map u | u in before && u !in todo && Over(before[u], threshold) && Uid(uids, u) == 0 :: before[u]
  }

  /** The counters after one user was collected. */
  function Collected(m: map<string, Pair>, uids: map<string, int>, threshold: int, reset: bool,
                     user: string): map<string, Pair>
    requires user in m
  {
    if !Over(m[user], threshold) then m
    else if Uid(uids, user) == 0 then m - {user}
    else if reset then m[user := Pair(0, 0)]
    else m
  }

  /** All users outside `todo` have been collected. */
  ghost predicate Done(before: map<string, Pair>, now: map<string, Pair>, uids: map<string, int>, threshold: int,
                       reset: bool, todo: set<string>) {
    && todo <= now.Keys <= before.Keys
    && (forall u :: u in todo ==> now[u] == before[u])
    && (forall u :: u in before && u !in todo ==> LeftAs(before, now, uids, threshold, reset, u))
  }

  class Xray {
    const threshold: int
    var uidMap: map<string, int>
    var counters: map<string, Pair>

    constructor (threshold: int)
      ensures this.threshold == threshold && uidMap == map[] && counters == map[]
    {
      this.threshold := threshold;
      uidMap, counters := map[], map[];
    }

    /** Collects what the users sent and received, with nobody adding meanwhile. Each known user
        over the threshold gets one row with the counter's values; with `reset` no byte is lost or
        counted twice: what was counted is in the slice, still in the counters, or was dropped
        with users that are not known. */
    method GetUserTrafficSlice(reset: bool) returns (slice: seq<UserTraffic>, ghost order: seq<string>)
      modifies this`counters
      ensures Rows(old(counters), uidMap, threshold, {}, order, slice)
      ensures counters.Keys <= old(counters).Keys
      ensures forall u :: u in old(counters) ==> LeftAs(old(counters), counters, uidMap, threshold, reset, u)
      ensures reset ==> Conserves(old(counters), slice, counters, Unknown(old(counters), uidMap, threshold, {}))
      ensures |order| == |slice| && forall i, j :: 0 <= i < j < |order| ==> order[i] != order[j]
      ensures forall u :: u in order <==>
        && u in old(counters) && old(counters)[u].up + old(counters)[u].down > threshold
        && u in uidMap && uidMap[u] != 0
      ensures forall i :: 0 <= i < |order| ==>
        order[i] in old(counters) && order[i] in uidMap &&
        slice[i] == UserTraffic(uidMap[order[i]], old(counters)[order[i]].up, old(counters)[order[i]].down)
      ensures forall u :: u in counters <==>
        u in old(counters) &&
        (old(counters)[u].up + old(counters)[u].down <= threshold || (u in uidMap && uidMap[u] != 0))
      ensures forall u :: u in counters ==>
        if old(counters)[u].up + old(counters)[u].down > threshold && reset
        then counters[u].up == 0 && counters[u].down == 0
        else counters[u] == old(counters)[u]
      ensures reset ==> forall u :: u in counters ==>
        counters[u].up + counters[u].down <= threshold || (counters[u].up == 0 && counters[u].down == 0)
    {
      hide Rows, Conserves, Reported, RowOf, Done, Unknown, Collected, LeftAs;
      slice, order := [], [];
      ghost var before := counters;
      ghost var gone: map<string, Pair> := map[];
      var todo := counters.Keys;
      CollectNothing(before, uidMap, threshold, reset);
      while todo != {}
        invariant todo <= counters.Keys <= before.Keys
        invariant Rows(before, uidMap, threshold, todo, order, slice)
        invariant Done(before, counters, uidMap, threshold, reset, todo)
        invariant gone == Unknown(before, uidMap, threshold, todo)
        invariant reset ==> Conserves(before, slice, counters, gone)
        decreases |todo|
      {
        var email :| email in todo;
        RowsMore(before, uidMap, threshold, todo, order, slice, email);
        DoneMore(before, counters, uidMap, threshold, reset, todo, email);
        ConservesMore(before, slice, counters, uidMap, threshold, todo, email);
        var row := CollectUser(email, reset);
        if row.Some? {
          slice := slice + [row.value];
          order := order + [email];
        }
        todo := todo - {email};
        gone := Unknown(before, uidMap, threshold, todo);
      }
      LeftAll(before, counters, uidMap, threshold, reset);
      RowsMean(before, uidMap, threshold, order, slice);
      LeftMeans(before, counters, uidMap, threshold, reset);
    }

    /** The loop body of `GetUserTrafficSlice`. */
    method CollectUser(email: string, reset: bool) returns (row: Option<UserTraffic>)
      requires email in counters
      modifies this`counters
      ensures row ==
        if Reported(old(counters), uidMap, threshold, email) then Some(RowOf(old(counters), uidMap, email)) else None
      ensures counters == Collected(old(counters), uidMap, threshold, reset, email)
    {
      var up, down := counters[email].up, counters[email].down;
      row := None;
      if up + down > threshold {
        if reset {
          counters := counters[email := counters[email].(up := 0)];
          counters := counters[email := counters[email].(down := 0)];
        }
        if Uid(uidMap, email) == 0 {
          counters := counters - {email};
          return;
        }
        row := Some(UserTraffic(Uid(uidMap, email), up, down));
      }
    }
  }

  /** What was counted is in the slice, still pending, or gone. */
  ghost predicate Conserves(before: map<string, Pair>, slice: seq<UserTraffic>, after: map<string, Pair>,
                            gone: map<string, Pair>) {
    Total(before) == Add2(Add2(SliceTotal(slice), Total(after)), Total(gone))
  }

  lemma CollectNothing(before: map<string, Pair>, uids: map<string, int>, threshold: int, reset: bool)
    ensures Rows(before, uids, threshold, before.Keys, [], [])
    ensures Done(before, before, uids, threshold, reset, before.Keys)
    ensures Unknown(before, uids, threshold, before.Keys) == map[]
    ensures Conserves(before, [], before, map[])
  {
    assert SliceTotal([]) == Pair(0, 0);
    TotalNothing();
    hide Total;
  }

  lemma TotalNothing()
    ensures Total<string>(map[]).up == 0 && Total<string>(map[]).down == 0
  {
  }

  lemma ConservesRow(before: map<string, Pair>, slice: seq<UserTraffic>, after: map<string, Pair>, gone: map<string,
                     Pair>,
                     user: string, row: UserTraffic)
    requires Conserves(before, slice, after, gone) && user in after
    requires row.upload == after[user].up && row.download == after[user].down
    ensures Conserves(before, slice + [row], after[user := Pair(0, 0)], gone)
  {
    hide Total, SliceTotal;
    TotalUpdate(after, user, Pair(0, 0));
    TotalsMore(slice, row, 0);
  }

  lemma ConservesDrop(before: map<string, Pair>, slice: seq<UserTraffic>, after: map<string, Pair>, gone: map<string,
                      Pair>, user: string)
    requires Conserves(before, slice, after, gone) && user in after && user !in gone
    ensures Conserves(before, slice, after - {user}, gone[user := after[user]])
  {
    hide Total, SliceTotal;
    TotalAt(after, user);
    TotalNew(gone, user, after[user]);
  }

  lemma ConservesMore(before: map<string, Pair>, slice: seq<UserTraffic>, now: map<string, Pair>, uids: map<string,
                      int>,
                      threshold: int, todo: set<string>, user: string)
    requires Done(before, now, uids, threshold, true, todo) || Done(before, now, uids, threshold, false, todo)
    requires user in todo
    ensures Conserves(before, slice, now, Unknown(before, uids, threshold, todo)) ==>
      Conserves(before,
        if Reported(now, uids, threshold, user) then slice + [RowOf(now, uids, user)] else slice,
        Collected(now, uids, threshold, true, user),
        Unknown(before, uids, threshold, todo - {user}))
  {
    hide Conserves, LeftAs;
    var gone, more := Unknown(before, uids, threshold, todo), Unknown(before, uids, threshold, todo - {user});
    if Conserves(before, slice, now, gone) {
      if Over(before[user], threshold) && Uid(uids, user) == 0 {
        assert more == gone[user := before[user]];
        ConservesDrop(before, slice, now, gone, user);
      } else {
        assert more == gone;
        if Reported(now, uids, threshold, user) {
          ConservesRow(before, slice, now, gone, user, RowOf(now, uids, user));
        }
      }
    }
  }

  lemma DoneMore(before: map<string, Pair>, now: map<string, Pair>, uids: map<string, int>,
                 threshold: int, reset: bool, todo: set<string>, user: string)
    requires Done(before, now, uids, threshold, reset, todo) && user in todo
    ensures Done(before, Collected(now, uids, threshold, reset, user), uids, threshold, reset, todo - {user})
    ensures Reported(now, uids, threshold, user) == Reported(before, uids, threshold, user)
    ensures RowOf(now, uids, user) == RowOf(before, uids, user)
  {
    var after := Collected(now, uids, threshold, reset, user);
    forall u | u in before && u !in todo - {user} ensures LeftAs(before, after, uids, threshold, reset, u) {
      if u != user { assert LeftAs(before, now, uids, threshold, reset, u); }
    }
  }

  lemma LeftAll(before: map<string, Pair>, now: map<string, Pair>, uids: map<string, int>, threshold: int, reset: bool)
    requires Done(before, now, uids, threshold, reset, {})
    ensures forall u :: u in before ==> LeftAs(before, now, uids, threshold, reset, u)
  {
  }

  /** Who has a row, and what it says, in the amounts of the counters. */
  lemma RowsMean(before: map<string, Pair>, uids: map<string, int>, threshold: int, order: seq<string>,
                 slice: seq<UserTraffic>)
    requires Rows(before, uids, threshold, {}, order, slice)
    ensures |order| == |slice| && forall i, j :: 0 <= i < j < |order| ==> order[i] != order[j]
    ensures forall u ::
      u in order <==> u in before && before[u].up + before[u].down > threshold && u in uids && uids[u] != 0
    ensures forall i :: 0 <= i < |order| ==>
      order[i] in before && order[i] in uids &&
      slice[i] == UserTraffic(uids[order[i]], before[order[i]].up, before[order[i]].down)
  {
    forall i | 0 <= i < |order| ensures order[i] in uids {
      assert order[i] in order;
    }
  }

  /** What is left of the counters: below the threshold they are as before, above it those of known
      users are cleared if the collection resets, and those of unknown users are gone. */
  lemma LeftMeans(before: map<string, Pair>, after: map<string, Pair>, uids: map<string, int>, threshold: int,
                  reset: bool)
    requires after.Keys <= before.Keys
    requires forall u :: u in before ==> LeftAs(before, after, uids, threshold, reset, u)
    ensures forall u :: u in after <==>
      u in before && (before[u].up + before[u].down <= threshold || (u in uids && uids[u] != 0))
    ensures forall u :: u in after ==>
      if before[u].up + before[u].down > threshold && reset
      then after[u].up == 0 && after[u].down == 0
      else after[u] == before[u]
    ensures reset ==> forall u :: u in after ==>
      after[u].up + after[u].down <= threshold || (after[u].up == 0 && after[u].down == 0)
  {
    forall u | u in before
      ensures u in after <==> (before[u].up + before[u].down <= threshold || (u in uids && uids[u] != 0))
      ensures u in after ==>
        if before[u].up + before[u].down > threshold && reset
        then after[u].up == 0 && after[u].down == 0
        else after[u] == before[u]
    {
      assert LeftAs(before, after, uids, threshold, reset, u);
    }
  }

  /** A resetting collection neither loses nor doubles a byte, in either direction: the sum before is
      that of the slice, of the counters left, and of the counters over the threshold without an id. */
  lemma NothingVanishes(before: map<string, Pair>, slice: seq<UserTraffic>, after: map<string, Pair>,
                        uids: map<string, int>, threshold: int)
    requires Conserves(before, slice, after, Unknown(before, uids, threshold, {}))
    ensures
      var gone := map u | u in before && before[u].up + before[u].down > threshold && (u in uids ==> uids[u] == 0)
        :: before[u];
      && Total(before).up == SliceTotal(slice).up + Total(after).up + Total(gone).up
      && Total(before).down == SliceTotal(slice).down + Total(after).down + Total(gone).down
  {
    hide Total, SliceTotal;
    var gone := map u | u in before && before[u].up + before[u].down > threshold && (u in uids ==> uids[u] == 0)
      :: before[u];
    assert gone == Unknown(before, uids, threshold, {});
  }

  /** A resetting collection of a quiet table: what its rows and the counters afterwards are. */
  ghost predicate Collects(before: map<string, Pair>, after: map<string, Pair>, uids: map<string, int>, threshold: int,
                           order: seq<string>, rows: seq<UserTraffic>)
  {
    && Rows(before, uids, threshold, {}, order, rows)
    && after.Keys <= before.Keys
    && (forall u :: u in before ==> LeftAs(before, after, uids, threshold, true, u))
    && Conserves(before, rows, after, Unknown(before, uids, threshold, {}))
  }

  /** What every such collection comes to, in the amounts of the counters. */
  lemma CollectsMeans(before: map<string, Pair>, after: map<string, Pair>, uids: map<string, int>, threshold: int,
                      order: seq<string>, rows: seq<UserTraffic>)
    requires Collects(before, after, uids, threshold, order, rows)
    ensures |order| == |rows| && forall i, j :: 0 <= i < j < |order| ==> order[i] != order[j]
    ensures forall u ::
      u in order <==> u in before && before[u].up + before[u].down > threshold && u in uids && uids[u] != 0
    ensures forall i :: 0 <= i < |order| ==>
      order[i] in before && order[i] in uids &&
      rows[i] == UserTraffic(uids[order[i]], before[order[i]].up, before[order[i]].down)
    ensures forall u :: u in after <==>
      u in before && (before[u].up + before[u].down <= threshold || (u in uids && uids[u] != 0))
    ensures forall u :: u in after ==>
      if before[u].up + before[u].down > threshold
      then after[u].up == 0 && after[u].down == 0
      else after[u] == before[u]
    ensures
      var gone := map u | u in before && before[u].up + before[u].down > threshold && (u in uids ==> uids[u] == 0)
        :: before[u];
      && Total(before).up == SliceTotal(rows).up + Total(after).up + Total(gone).up
      && Total(before).down == SliceTotal(rows).down + Total(after).down + Total(gone).down
  {
    hide Rows, LeftAs, Conserves, Unknown, Total, SliceTotal;
    RowsMean(before, uids, threshold, order, rows);
    LeftMeans(before, after, uids, threshold, true);
    NothingVanishes(before, rows, after, uids, threshold);
  }
}
