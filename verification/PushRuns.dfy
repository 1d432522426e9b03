/**
 Runs of several reports: what was counted against what reached the panel, when pushes may fail.

 The counters are quiet while a report collects; `Traffic` treats adders that interfere.
 */
module PushRuns {
  import opened Basics
  import opened Panel
  import opened Traffic
  import opened XrayUsers

  /** The counters with the books, in both directions: what was counted, what the panel took, and
      what was dropped with removed and unknown users. */
  datatype Ledger = Ledger(
    counters: map<string, Pair>,
    uids: map<string, int>,
    counted: Pair,
    delivered: Pair,
    dropped: Pair)

  datatype Event =
    | Counted(user: string, dir: Dir, n: nat)
    | Reported(order: seq<string>, rows: seq<UserTraffic>, pushOk: bool)
    | UsersSet(uids: map<string, int>)
    | UserRemoved(user: string)

  const NOTHING := Pair(0, 0)

  ghost predicate Happens(c: Ledger, e: Event, d: Ledger, threshold: int) {
    match e
    case Counted(user, dir, n) =>
      d == c.(counters := AddTo(c.counters, user, dir, n), counted := c.counted.Set(dir, c.counted.At(dir) + n))
    case Reported(order, rows, pushOk) =>
      && Collects(c.counters, d.counters, c.uids, threshold, order, rows)
      && d == c.(counters := d.counters,
                 delivered := if pushOk then Add2(c.delivered, SliceTotal(rows)) else c.delivered,
                 dropped := Add2(c.dropped, Total(Unknown(c.counters, c.uids, threshold, {}))))
    case UsersSet(uids) => d == c.(uids := uids)
    case UserRemoved(user) =>
      d == c.(counters := c.counters - {user}, uids := c.uids - {user},
              dropped := if user in c.counters then Add2(c.dropped, c.counters[user]) else c.dropped)
  }

  ghost predicate History(states: seq<Ledger>, events: seq<Event>, threshold: int) {
    && |states| == |events| + 1
    && states[0].counters == map[] && states[0].counted == states[0].delivered == states[0].dropped == NOTHING
    && forall i :: 0 <= i < |events| ==> Happens(states[i], events[i], states[i + 1], threshold)
  }

  /** What the pushes that failed carried. */
  function Failed(events: seq<Event>): Pair {
    if events == [] then NOTHING
    else
      var e := events[|events| - 1];
      var before := Failed(events[..|events| - 1]);
      if e.Reported? && !e.pushOk then Add2(before, SliceTotal(e.rows)) else before
  }

  ghost predicate Natural(counters: map<string, Pair>) {
    forall u :: u in counters ==> counters[u].up >= 0 && counters[u].down >= 0
  }

  ghost predicate Books(c: Ledger, failed: Pair) {
    Natural(c.counters) && c.counted == Add2(Add2(Add2(c.delivered, Total(c.counters)), c.dropped), failed)
  }

  lemma AddBooks(c: Ledger, user: string, dir: Dir, n: nat, d: Ledger, failed: Pair)
    requires Books(c, failed)
    requires d == c.(counters := AddTo(c.counters, user, dir, n), counted := c.counted.Set(dir, c.counted.At(dir) + n))
    ensures Books(d, failed)
  {
    hide Total;
    if user in c.counters {
      TotalUpdate(c.counters, user, d.counters[user]);
    } else {
      TotalNew(c.counters, user, d.counters[user]);
    }
  }

  lemma RemoveBooks(c: Ledger, user: string, d: Ledger, failed: Pair)
    requires Books(c, failed)
    requires d.counters == c.counters - {user} && d.counted == c.counted && d.delivered == c.delivered
    requires d.dropped == if user in c.counters then Add2(c.dropped, c.counters[user]) else c.dropped
    ensures Books(d, failed)
  {
    hide Total;
    if user in c.counters {
      TotalAt(c.counters, user);
    } else {
      assert c.counters - {user} == c.counters;
    }
  }

  lemma ReportBooks(c: Ledger, e: Event, d: Ledger, threshold: int, failed: Pair)
    requires Books(c, failed) && e.Reported? && Happens(c, e, d, threshold)
    ensures Books(d, if e.pushOk then failed else Add2(failed, SliceTotal(e.rows)))
  {
    hide Total, SliceTotal, Rows, Unknown;
    forall u | u in d.counters ensures d.counters[u].up >= 0 && d.counters[u].down >= 0 {
      assert LeftAs(c.counters, d.counters, c.uids, threshold, true, u);
    }
  }

  lemma StepBooks(c: Ledger, e: Event, d: Ledger, threshold: int, failed: Pair)
    requires Books(c, failed) && Happens(c, e, d, threshold)
    ensures Books(d, if e.Reported? && !e.pushOk then Add2(failed, SliceTotal(e.rows)) else failed)
  {
    hide Books, Collects, SliceTotal, Total, AddTo;
    match e
    case Counted(user, dir, n) => AddBooks(c, user, dir, n, d, failed);
    case Reported(order, rows, pushOk) => ReportBooks(c, e, d, threshold, failed);
    case UsersSet(uids) => assert Books(d, failed) by { UidsBooks(c, uids, failed); }
    case UserRemoved(user) => RemoveBooks(c, user, d, failed);
  }

  lemma UidsBooks(c: Ledger, uids: map<string, int>, failed: Pair)
    requires Books(c, failed)
    ensures Books(c.(uids := uids), failed)
  {
  }

  lemma StartBooks(c: Ledger, events: seq<Event>)
    requires c.counters == map[] && c.counted == c.delivered == c.dropped == NOTHING
    ensures Books(c, Failed(events[..0]))
  {
    hide Total, Failed;
    NoneFailed(events);
    TotalNothing();
  }

  lemma FailedMore(events: seq<Event>, i: nat)
    requires i < |events|
    ensures Failed(events[..i + 1]) ==
      if events[i].Reported? && !events[i].pushOk
      then Add2(Failed(events[..i]), SliceTotal(events[i].rows))
      else Failed(events[..i])
  {
    hide SliceTotal;
    assert events[..i + 1][..i] == events[..i];
  }

  /** In every history: counted is delivered, pending, dropped, and what the failed pushes carried. */
  lemma {:induction false} HistoryBooks(states: seq<Ledger>, events: seq<Event>, threshold: int, i: nat)
    requires History(states, events, threshold) && i < |states|
    ensures Books(states[i], Failed(events[..i]))
  {
    hide Happens, Books, Failed, SliceTotal;
    if i == 0 {
      StartBooks(states[0], events);
    } else {
      HistoryBooks(states, events, threshold, i - 1);
      FailedMore(events, i - 1);
      StepBooks(states[i - 1], events[i - 1], states[i], threshold, Failed(events[..i - 1]));
    }
  }

  /** The amounts of a slice are natural numbers, and one of them is positive if the slice is not
      empty and the threshold is not negative. */
  lemma {:induction false} SliceNatural(rows: seq<UserTraffic>)
    requires forall i :: 0 <= i < |rows| ==> rows[i].upload >= 0 && rows[i].download >= 0
    ensures SliceTotal(rows).up >= 0 && SliceTotal(rows).down >= 0
    ensures rows != [] && rows[|rows| - 1].upload + rows[|rows| - 1].download > 0 ==> SliceTotal(rows) != NOTHING
  {
    if rows != [] { SliceNatural(rows[..|rows| - 1]); }
  }

  lemma ReportNatural(c: Ledger, e: Event, d: Ledger, threshold: int)
    requires Natural(c.counters) && e.Reported? && Happens(c, e, d, threshold)
    ensures SliceTotal(e.rows).up >= 0 && SliceTotal(e.rows).down >= 0
    ensures threshold >= 0 && e.rows != [] ==> SliceTotal(e.rows) != NOTHING
    ensures e.rows == [] ==> SliceTotal(e.rows) == NOTHING
  {
    hide Conserves, Unknown, LeftAs;
    forall i | 0 <= i < |e.rows|
      ensures e.rows[i].upload >= 0 && e.rows[i].download >= 0 && e.rows[i].upload + e.rows[i].download > threshold
    {
      assert e.order[i] in e.order;
    }
    SliceNatural(e.rows);
  }

  /** A push that carries something and fails. */
  predicate LosesPush(e: Event) {
    e.Reported? && !e.pushOk && SliceTotal(e.rows) != NOTHING
  }

  lemma NoneFailed(events: seq<Event>)
    ensures Failed(events[..0]) == NOTHING
  {
  }

  lemma BooksNatural(c: Ledger, failed: Pair)
    requires Books(c, failed)
    ensures Natural(c.counters)
  {
  }

  lemma {:induction false} FailedIff(states: seq<Ledger>, events: seq<Event>, threshold: int, i: nat)
    requires History(states, events, threshold) && i <= |events|
    ensures Failed(events[..i]).up >= 0 && Failed(events[..i]).down >= 0
    ensures Failed(events[..i]) == NOTHING <==> forall j :: 0 <= j < i ==> !LosesPush(events[j])
  {
    hide Happens, SliceTotal, Failed, Books;
    if i == 0 {
      assert Failed(events[..0]) == NOTHING by { NoneFailed(events); }
    } else {
      var e := events[i - 1];
      FailedIff(states, events, threshold, i - 1);
      FailedMore(events, i - 1);
      HistoryBooks(states, events, threshold, i - 1);
      BooksNatural(states[i - 1], Failed(events[..i - 1]));
      if e.Reported? { ReportNatural(states[i - 1], e, states[i], threshold); }
    }
  }

  /** Every byte counted was delivered to the panel, is pending, or was dropped with a user, exactly
      if no push that carried anything failed: a failed push is never made good. */
  lemma DeliveredIff(states: seq<Ledger>, events: seq<Event>, threshold: int, i: nat)
    requires History(states, events, threshold) && i < |states|
    ensures
      var c := states[i];
      c.counted == Add2(Add2(c.delivered, Total(c.counters)), c.dropped) <==>
        (forall j :: 0 <= j < i ==> !LosesPush(events[j]))
  {
    hide Total, Happens, LosesPush, Failed;
    HistoryBooks(states, events, threshold, i);
    FailedIff(states, events, threshold, i);
  }

  /** With a threshold that is not negative, as it is meant to be, a push carries something exactly
      if it is made at all. */
  lemma PushCarries(states: seq<Ledger>, events: seq<Event>, threshold: int, i: nat)
    requires History(states, events, threshold) && i < |events| && threshold >= 0 && events[i].Reported?
    ensures LosesPush(events[i]) <==> events[i].rows != [] && !events[i].pushOk
  {
    hide Happens, SliceTotal, Books, Failed;
    HistoryBooks(states, events, threshold, i);
    BooksNatural(states[i], Failed(events[..i]));
    ReportNatural(states[i], events[i], states[i + 1], threshold);
  }

  /** One failed push: seven bytes were counted, and they are nowhere. */
  lemma FailedPushLost() returns (states: seq<Ledger>, events: seq<Event>)
    ensures History(states, events, 0)
    ensures
      var c := states[|events|];
      c.counted == Pair(7, 0) && c.delivered == NOTHING && c.dropped == NOTHING && Total(c.counters) == NOTHING
  {
    hide Total, Collects;
    var empty: map<string, Pair> := map[];
    var before, after := map["u" := Pair(7, 0)], map["u" := NOTHING];
    var rows := [UserTraffic(1, 7, 0)];
    SevenCollected(before, after, rows);
    var s0 := Ledger(empty, map[], NOTHING, NOTHING, NOTHING);
    var s1 := s0.(uids := map["u" := 1]);
    var s2 := s1.(counters := before, counted := Pair(7, 0));
    var s3 := s2.(counters := after);
    events := [UsersSet(map["u" := 1]), Counted("u", Up, 7), Reported(["u"], rows, false)];
    states := [s0, s1, s2, s3];
  }

  lemma SevenCollected(before: map<string, Pair>, after: map<string, Pair>, rows: seq<UserTraffic>)
    requires before == map["u" := Pair(7, 0)] && after == map["u" := NOTHING] && rows == [UserTraffic(1, 7, 0)]
    ensures Collects(before, after, map["u" := 1], 0, ["u"], rows)
    ensures Total(Unknown(before, map["u" := 1], 0, {})) == NOTHING && Total(after) == NOTHING
  {
    hide Total, SliceTotal, Rows;
    var none: map<string, Pair> := map[];
    assert Unknown(before, map["u" := 1], 0, {}) == none;
    SevenRows(before, rows);
    SevenTotals(before, after, none, rows);
  }

  lemma SevenRows(before: map<string, Pair>, rows: seq<UserTraffic>)
    requires before == map["u" := Pair(7, 0)] && rows == [UserTraffic(1, 7, 0)]
    ensures Rows(before, map["u" := 1], 0, {}, ["u"], rows)
  {
  }

  lemma SevenTotals(before: map<string, Pair>, after: map<string, Pair>, none: map<string, Pair>,
                    rows: seq<UserTraffic>)
    requires before == none["u" := Pair(7, 0)] && after == none["u" := NOTHING] && none == map[]
    requires rows == [UserTraffic(1, 7, 0)]
    ensures Total(before) == SliceTotal(rows) == Pair(7, 0) && Total(after) == Total(none) == NOTHING
  {
    hide Total, SliceTotal;
    TotalNothing();
    TotalNew(none, "u", Pair(7, 0));
    TotalNew(none, "u", NOTHING);
    SevenSlice(rows);
  }

  lemma SevenSlice(rows: seq<UserTraffic>)
    requires rows == [UserTraffic(1, 7, 0)]
    ensures SliceTotal(rows) == Pair(7, 0)
  {
    assert rows[..0] == [];
  }
}
