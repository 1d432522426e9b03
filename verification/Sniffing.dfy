/**
 Sniffing the protocol of a connection: a reader that lets sniffers peek without losing bytes, a
 list of sniffers that is pruned from attempt to attempt, and the retry loop over both.
 */
module Sniffing {
  import opened Basics

  type Bytes = seq<byte>

  // ---------------------------------------------------------------------
  // The caching reader
  // ---------------------------------------------------------------------

  /** What a read of the underlying connection brings. */
  datatype Arrival = Data(bytes: Bytes) | Broken

  class CachedReader {
    var cache: Bytes
    /** Everything taken from the connection and everything handed on, in order. */
    ghost var taken: Bytes
    ghost var delivered: Bytes
    ghost var interrupted: bool

    /** Without an interrupt nothing is lost, repeated or reordered. */
    ghost predicate Valid()
      reads this
    {
      !interrupted ==> taken == delivered + cache
    }

    constructor ()
      ensures Valid() && cache == [] && taken == [] && delivered == [] && !interrupted
    {
      cache, taken, delivered, interrupted := [], [], [], false;
    }

    /** Takes what arrived into the cache and shows the front of the cache in a buffer of `cap`
        bytes. A broken connection leaves cache and buffer as they were. */
    method Cache(b0: Bytes, cap: nat, a: Arrival) returns (b: Bytes, ok: bool)
      requires Valid()
      modifies this`cache, this`taken
      ensures Valid() && ok == a.Data?
      ensures ok ==> taken == old(taken) + a.bytes && cache == old(cache) + a.bytes
      ensures ok ==> b == cache[..Min(|cache|, cap)]
      ensures !ok ==> b == b0 && cache == old(cache) && taken == old(taken)
    {
      if a.Broken? {
        return b0, false;
      }
      if a.bytes != [] {
        cache := cache + a.bytes;
      }
      taken := taken + a.bytes;
      b := cache[..Min(|cache|, cap)];
      ok := true;
    }

    /** Hands on the whole cache if there is one. */
    method ReadInternal() returns (mb: Bytes)
      modifies this`cache
      ensures mb == old(cache) && cache == []
    {
      if cache != [] {
        mb := cache;
        cache := [];
      } else {
        mb := [];
      }
    }

    /** A read by the next stage, with or without a timeout: the cache first, and what arrives on
        the connection only when the cache is empty. */
    method ReadMultiBuffer(a: Arrival) returns (mb: Bytes, ok: bool)
      requires Valid()
      modifies this`cache, this`taken, this`delivered
      ensures Valid() && cache == []
      ensures ok == (old(cache) != [] || a.Data?)
      ensures delivered == old(delivered) + mb
      ensures old(cache) != [] ==> mb == old(cache) && taken == old(taken)
      ensures old(cache) == [] && ok ==> mb == a.bytes && taken == old(taken) + a.bytes
      ensures !ok ==> mb == [] && taken == old(taken)
    {
      mb := ReadInternal();
      ok := true;
      if mb == [] {
        if a.Broken? {
          return [], false;
        }
        mb := a.bytes;
        taken := taken + a.bytes;
      }
      delivered := delivered + mb;
    }

    method Interrupt()
      modifies this`cache, this`interrupted
      ensures Valid() && cache == [] && interrupted
    {
      cache := [];
      interrupted := true;
    }
  }

  // ---------------------------------------------------------------------
  // Sniffers
  // ---------------------------------------------------------------------

  datatype Network = TCP | UDP

  /** What one protocol sniffer says about a payload. */
  datatype Verdict =
    | Found(protocol: string, domain: string)
    | Nothing
    | NoClue
    | NeedMoreData
    | Mismatch

  /** A protocol sniffer: a function of the payload. Metadata sniffers are run without one. */
  datatype ProtocolSniffer = ProtocolSniffer(run: Bytes -> Verdict, metadata: bool, network: Network)

  /** What a round of sniffing returns: a result or an error. */
  datatype Outcome =
    | Result(protocol: string, domain: string)
    | ErrNoClue
    | ErrNeedMoreData
    | ErrUnknown
    | ErrTimeout
    | ErrRead
    | ErrContext

  predicate Applies(s: ProtocolSniffer, net: Network) {
    !s.metadata && s.network == net
  }

  /** Neither a result nor "no clue". */
  predicate Rejects(v: Verdict) {
    !v.Found? && !v.NoClue?
  }

  /** The first result in the order of the list, if there is one. */
  function FirstFound(list: seq<ProtocolSniffer>, p: Bytes, net: Network): (v: Verdict)
    ensures v.Found? || v == Nothing
  {
    if list == [] then Nothing
    else if Applies(list[0], net) && list[0].run(p).Found? then list[0].run(p)
    else FirstFound(list[1..], p, net)
  }

  /** The sniffers that cannot tell yet, in the order of the list. */
  function Undecided(list: seq<ProtocolSniffer>, p: Bytes, net: Network): seq<ProtocolSniffer> {
    if list == [] then []
    else if Applies(list[0], net) && list[0].run(p).NoClue? then [list[0]] + Undecided(list[1..], p, net)
    else Undecided(list[1..], p, net)
  }

  /** What one round over a list returns. */
  function Sniffed(list: seq<ProtocolSniffer>, p: Bytes, net: Network): (o: Outcome)
    ensures o.Result? || o == ErrNoClue || o == ErrUnknown
  {
    var v := FirstFound(list, p, net);
    if v.Found? then Result(v.protocol, v.domain)
    else if Undecided(list, p, net) != [] then ErrNoClue
    else ErrUnknown
  }

  /** The list kept after a round. */
  function Kept(list: seq<ProtocolSniffer>, p: Bytes, net: Network): seq<ProtocolSniffer> {
    if Sniffed(list, p, net) == ErrNoClue then Undecided(list, p, net) else list
  }

  // The metadata round.

  function FirstMeta(list: seq<ProtocolSniffer>): (v: Verdict)
    ensures v.Found? || v == Nothing
  {
    if list == [] then Nothing
    else if list[0].metadata && list[0].run([]).Found? then list[0].run([])
    else FirstMeta(list[1..])
  }

  function UndecidedMeta(list: seq<ProtocolSniffer>): seq<ProtocolSniffer> {
    if list == [] then []
    else if !list[0].metadata || list[0].run([]).NoClue? then [list[0]] + UndecidedMeta(list[1..])
    else UndecidedMeta(list[1..])
  }

  function SniffedMeta(list: seq<ProtocolSniffer>): (o: Outcome)
    ensures o.Result? || o == ErrNoClue || o == ErrUnknown
  {
    var v := FirstMeta(list);
    if v.Found? then Result(v.protocol, v.domain)
    else if UndecidedMeta(list) != [] then ErrNoClue
    else ErrUnknown
  }

  function KeptMeta(list: seq<ProtocolSniffer>): seq<ProtocolSniffer> {
    if SniffedMeta(list) == ErrNoClue then UndecidedMeta(list) else list
  }

  class Sniffer {
    var list: seq<ProtocolSniffer>

    constructor (list: seq<ProtocolSniffer>)
      ensures this.list == list
    {
      this.list := list;
    }

    /** One round over the list, which is replaced by the undecided sniffers if that is all there is. */
    method Sniff(p: Bytes, net: Network) returns (o: Outcome)
      modifies this
      ensures o == Sniffed(old(list), p, net)
      ensures list == Kept(old(list), p, net)
    {
      hide FirstFound, Undecided;
      var pending: seq<ProtocolSniffer> := [];
      SniffEnds(list, p, net);
      for i := 0 to |list|
        invariant list == old(list)
        invariant FirstFound(list, p, net) == FirstFound(list[i..], p, net)
        invariant Undecided(list, p, net) == pending + Undecided(list[i..], p, net)
      {
        var si := list[i];
        SniffStep(list, i, p, net, pending);
        if si.metadata || si.network != net {
          continue;
        }
        var v := si.run(p);
        if v.NoClue? {
          pending := pending + [si];
          continue;
        }
        if v.Found? {
          return Result(v.protocol, v.domain);
        }
      }
      if |pending| > 0 {
        list := pending;
        return ErrNoClue;
      }
      return ErrUnknown;
    }

    /** The metadata round; it keeps every sniffer that needs a payload. */
    method SniffMetadata() returns (o: Outcome)
      modifies this
      ensures o == SniffedMeta(old(list))
      ensures list == KeptMeta(old(list))
    {
      var pending: seq<ProtocolSniffer> := [];
      assert list[0..] == list;
      for i := 0 to |list|
        invariant list == old(list)
        invariant FirstMeta(list) == FirstMeta(list[i..])
        invariant UndecidedMeta(list) == pending + UndecidedMeta(list[i..])
      {
        var si := list[i];
        assert list[i..][0] == si && list[i..][1..] == list[i + 1..];
        assert pending + ([si] + UndecidedMeta(list[i + 1..])) == pending + [si] + UndecidedMeta(list[i + 1..]);
        if !si.metadata {
          pending := pending + [si];
          continue;
        }
        var v := si.run([]);
        if v.NoClue? {
          pending := pending + [si];
          continue;
        }
        if v.Found? {
          return Result(v.protocol, v.domain);
        }
      }
      assert list[|list|..] == [];
      if |pending| > 0 {
        list := pending;
        return ErrNoClue;
      }
      return ErrUnknown;
    }
  }

  lemma SniffEnds(list: seq<ProtocolSniffer>, p: Bytes, net: Network)
    ensures list[0..] == list
    ensures FirstFound(list[|list|..], p, net) == Nothing && Undecided(list[|list|..], p, net) == []
  {
  }

  lemma SniffStep(list: seq<ProtocolSniffer>, i: nat, p: Bytes, net: Network, pending: seq<ProtocolSniffer>)
    requires i < |list|
    ensures FirstFound(list[i..], p, net) ==
      if Applies(list[i], net) && list[i].run(p).Found? then list[i].run(p) else FirstFound(list[i + 1..], p, net)
    ensures pending + Undecided(list[i..], p, net) ==
      (if Applies(list[i], net) && list[i].run(p).NoClue? then pending + [list[i]] else pending)
      + Undecided(list[i + 1..], p, net)
  {
    assert list[i..][1..] == list[i + 1..];
    var rest := Undecided(list[i + 1..], p, net);
    assert pending + ([list[i]] + rest) == pending + [list[i]] + rest;
  }

  // ---------------------------------------------------------------------
  // Pruned sniffing refines full sniffing
  // ---------------------------------------------------------------------

  /** A sniffer that has rejected a payload keeps rejecting longer ones. */
  ghost predicate Persistent(s: ProtocolSniffer) {
    forall p: Bytes, q: Bytes :: p != [] && p <= q && Rejects(s.run(p)) ==> Rejects(s.run(q))
  }

  ghost predicate AllPersistent(list: seq<ProtocolSniffer>, net: Network) {
    forall s :: s in list && Applies(s, net) ==> Persistent(s)
  }

  /** `kept` is `full` without some sniffers that do not apply or have rejected `p`; the rest is in order. */
  ghost predicate Prunes(full: seq<ProtocolSniffer>, kept: seq<ProtocolSniffer>, p: Bytes, net: Network) {
    if full == [] then kept == []
    else
      || (kept != [] && kept[0] == full[0] && Prunes(full[1..], kept[1..], p, net))
      || ((Applies(full[0], net) ==> p != [] && Rejects(full[0].run(p))) && Prunes(full[1..], kept, p, net))
  }

  lemma {:induction false} PrunesSelf(full: seq<ProtocolSniffer>, p: Bytes, net: Network)
    ensures Prunes(full, full, p, net)
  {
    if full != [] { PrunesSelf(full[1..], p, net); }
  }

  /** A pruned list answers every longer payload as the full list does, and stays a pruned list. */
  lemma {:induction false} PrunedAnswers(full: seq<ProtocolSniffer>, kept: seq<ProtocolSniffer>, p: Bytes, q: Bytes,
                                         net: Network)
    requires Prunes(full, kept, p, net) && p <= q && AllPersistent(full, net)
    ensures FirstFound(kept, q, net) == FirstFound(full, q, net)
    ensures Undecided(kept, q, net) == Undecided(full, q, net)
    ensures Prunes(full, kept, q, net)
  {
    hide Persistent;
    if full != [] {
      var f, rest := full[0], full[1..];
      assert (Applies(f, net) ==> Persistent(f)) && forall s :: s in rest ==> s in full;
      if kept != [] && kept[0] == f && Prunes(rest, kept[1..], p, net) {
        PrunedAnswers(rest, kept[1..], p, q, net);
      } else {
        PrunedAnswers(rest, kept, p, q, net);
        if Applies(f, net) { RejectsLonger(f, p, q); }
      }
    }
  }

  lemma RejectsLonger(s: ProtocolSniffer, p: Bytes, q: Bytes)
    requires Persistent(s) && p != [] && p <= q
    ensures Rejects(s.run(p)) ==> Rejects(s.run(q))
  {
  }

  lemma {:induction false} UndecidedPrunes(full: seq<ProtocolSniffer>, q: Bytes, net: Network)
    requires q != [] && FirstFound(full, q, net) == Nothing
    ensures Prunes(full, Undecided(full, q, net), q, net)
  {
    if full != [] { UndecidedPrunes(full[1..], q, net); }
  }

  /** The list after a payload was looked at; an empty one is not shown to the sniffers. */
  function KeptAfter(list: seq<ProtocolSniffer>, p: Bytes, net: Network): seq<ProtocolSniffer> {
    if p == [] then list else Kept(list, p, net)
  }

  /** One round on a pruned list: the answer of the full list, and again a pruned list. */
  lemma PrunedRound(full: seq<ProtocolSniffer>, kept: seq<ProtocolSniffer>, p: Bytes, q: Bytes, net: Network)
    requires Prunes(full, kept, p, net) && p <= q && AllPersistent(full, net)
    ensures Sniffed(kept, q, net) == Sniffed(full, q, net)
    ensures Prunes(full, KeptAfter(kept, q, net), q, net)
  {
    PrunedAnswers(full, kept, p, q, net);
    if q != [] && Sniffed(full, q, net) == ErrNoClue { UndecidedPrunes(full, q, net); }
  }

  /** A chain of payloads, each extending the one before it. */
  ghost predicate Growing(ps: seq<Bytes>) {
    forall i :: 0 <= i && i + 1 < |ps| ==> ps[i] <= ps[i + 1]
  }

  /** The lists of a sniffer over a chain of payloads: `ListAt(.., i)` is the one before payload `i`. */
  ghost function ListAt(full: seq<ProtocolSniffer>, ps: seq<Bytes>, net: Network, i: nat): seq<ProtocolSniffer>
    requires i <= |ps|
  {
    if i == 0 then full else KeptAfter(ListAt(full, ps, net, i - 1), ps[i - 1], net)
  }

  /** Over a growing chain of payloads on one network every round returns what the full list
      would return, and the kept sniffers are the full list without some that reject, in order. */
  lemma {:induction false} PrunedSniffingRefines(full: seq<ProtocolSniffer>, ps: seq<Bytes>, net: Network, i: nat)
    requires Growing(ps) && AllPersistent(full, net) && i < |ps|
    ensures Sniffed(ListAt(full, ps, net, i), ps[i], net) == Sniffed(full, ps[i], net)
    ensures Prunes(full, ListAt(full, ps, net, i + 1), ps[i], net)
  {
    hide Sniffed, KeptAfter, AllPersistent;
    if i == 0 {
      PrunesSelf(full, ps[0], net);
      PrunedRound(full, full, ps[0], ps[0], net);
    } else {
      PrunedSniffingRefines(full, ps, net, i - 1);
      PrunedRound(full, ListAt(full, ps, net, i), ps[i - 1], ps[i], net);
    }
  }

  // What persistence is needed for.

  /** On a list of these two sniffers the second round answers as if the first had pruned nothing. */
  ghost predicate PairAgrees(s: ProtocolSniffer, u: ProtocolSniffer, p: Bytes, q: Bytes, net: Network) {
    Sniffed(ListAt([s, u], [p, q], net, 1), q, net) == Sniffed([s, u], q, net)
  }

  /** Still unsure until the payload reaches `q`, and then sure that it is something else. */
  function UnsureUntil(q: Bytes, net: Network): ProtocolSniffer {
    ProtocolSniffer((x: Bytes) => if q <= x then Nothing else NoClue, false, net)
  }

  lemma UnsurePersistent(q: Bytes, net: Network)
    ensures Persistent(UnsureUntil(q, net))
  {
  }

  /** Both sniffers of a list of two on one payload. */
  lemma PairSniffed(s: ProtocolSniffer, u: ProtocolSniffer, p: Bytes, net: Network)
    requires Applies(s, net) && Applies(u, net)
    ensures FirstFound([s, u], p, net) ==
      if s.run(p).Found? then s.run(p) else if u.run(p).Found? then u.run(p) else Nothing
    ensures Undecided([s, u], p, net) == (if s.run(p).NoClue? then [s] else []) + (if u.run(p).NoClue? then [u] else [])
    ensures FirstFound([u], p, net) == if u.run(p).Found? then u.run(p) else Nothing
    ensures Undecided([u], p, net) == if u.run(p).NoClue? then [u] else []
  {
    OneSniffed(u, p, net);
    assert [s, u][0] == s && [s, u][1..] == [u];
    hide FirstFound, Undecided;
    PairFirst(s, u, p, net);
  }

  lemma OneSniffed(u: ProtocolSniffer, p: Bytes, net: Network)
    requires Applies(u, net)
    ensures FirstFound([u], p, net) == if u.run(p).Found? then u.run(p) else Nothing
    ensures Undecided([u], p, net) == if u.run(p).NoClue? then [u] else []
  {
    assert [u][0] == u && [u][1..] == [];
    assert FirstFound([], p, net) == Nothing && Undecided([], p, net) == [];
  }

  lemma PairFirst(s: ProtocolSniffer, u: ProtocolSniffer, p: Bytes, net: Network)
    requires Applies(s, net)
    ensures FirstFound([s, u], p, net) == if s.run(p).Found? then s.run(p) else FirstFound([u], p, net)
    ensures Undecided([s, u], p, net) == (if s.run(p).NoClue? then [s] else []) + Undecided([u], p, net)
  {
    assert [s, u][0] == s && [s, u][1..] == [u];
  }

  /** A sniffer that rejects a payload and not a longer one spoils the list next to a sniffer that
      gives up in between. */
  lemma ComebackSpoils(s: ProtocolSniffer, p: Bytes, q: Bytes, net: Network)
    requires Applies(s, net) && p != [] && p <= q && Rejects(s.run(p)) && !Rejects(s.run(q))
    ensures !PairAgrees(s, UnsureUntil(q, net), p, q, net)
  {
    hide FirstFound, Undecided;
    var u := UnsureUntil(q, net);
    assert q <= p ==> p == q;
    PairSniffed(s, u, p, net);
    PairSniffed(s, u, q, net);
    assert Undecided([s, u], p, net) == [u];
    assert ListAt([s, u], [p, q], net, 0) == [s, u];
    assert ListAt([s, u], [p, q], net, 1) == [u];
  }

  /** Persistence is exactly what the refinement needs: the sniffers of a list that apply are all
      persistent if and only if each of them, next to any persistent sniffer, has its answers
      unchanged by the pruning. */
  lemma PersistenceIsExact(list: seq<ProtocolSniffer>, net: Network)
    ensures AllPersistent(list, net) <==>
      forall s, u, p, q :: s in list && Applies(s, net) && Persistent(u) && p <= q ==> PairAgrees(s, u, p, q, net)
  {
    hide Persistent, PairAgrees;
    if AllPersistent(list, net) {
      forall s, u, p, q | s in list && Applies(s, net) && Persistent(u) && p <= q ensures PairAgrees(s, u, p, q, net) {
        PairRefines(s, u, p, q, net);
      }
    } else {
      var s :| s in list && Applies(s, net) && !Persistent(s);
      var p, q := Comeback(s);
      UnsurePersistent(q, net);
      ComebackSpoils(s, p, q, net);
    }
  }

  lemma PairRefines(s: ProtocolSniffer, u: ProtocolSniffer, p: Bytes, q: Bytes, net: Network)
    requires Persistent(s) && Persistent(u) && p <= q
    ensures PairAgrees(s, u, p, q, net)
  {
    hide Persistent, Sniffed, ListAt;
    PrunedSniffingRefines([s, u], [p, q], net, 1);
  }

  lemma Comeback(s: ProtocolSniffer) returns (p: Bytes, q: Bytes)
    requires !Persistent(s)
    ensures p != [] && p <= q && Rejects(s.run(p)) && !Rejects(s.run(q))
  {
    p, q :| p != [] && p <= q && Rejects(s.run(p)) && !Rejects(s.run(q));
  }

  /** A sniffer that asks for more data is dropped like one that rejects: when the data comes, the
      pruned list still has no clue where the full list would find the protocol. */
  lemma MoreDataComesTooLate(s: ProtocolSniffer, u: ProtocolSniffer, p: Bytes, q: Bytes, net: Network)
    requires Applies(s, net) && Applies(u, net) && p != [] && p <= q
    requires s.run(p).NeedMoreData? && s.run(q).Found?
    requires u.run(p).NoClue? && u.run(q).NoClue?
    ensures ListAt([s, u], [p, q], net, 1) == [u]
    ensures Sniffed(ListAt([s, u], [p, q], net, 1), q, net) == ErrNoClue
    ensures Sniffed([s, u], q, net) == Result(s.run(q).protocol, s.run(q).domain)
  {
    hide FirstFound, Undecided;
    PairSniffed(s, u, p, net);
    PairSniffed(s, u, q, net);
    assert Undecided([s, u], p, net) == [u];
    assert ListAt([s, u], [p, q], net, 0) == [s, u];
  }

  /** The metadata round does not change what the payload rounds return. */
  lemma {:induction false} MetadataKeepsPayloadSniffers(list: seq<ProtocolSniffer>, p: Bytes, net: Network)
    ensures FirstFound(UndecidedMeta(list), p, net) == FirstFound(list, p, net)
    ensures Undecided(UndecidedMeta(list), p, net) == Undecided(list, p, net)
  {
    if list != [] { MetadataKeepsPayloadSniffers(list[1..], p, net); }
  }

  // ---------------------------------------------------------------------
  // The retry loop
  // ---------------------------------------------------------------------

  /** The outside of one attempt: whether the context is done, what arrives, and how long it took. */
  datatype Attempt = Attempt(done: bool, arrival: Arrival, elapsed: int)

  const DEADLINE := 200

  /** What has arrived in the first `k` attempts. */
  ghost function Arrived(attempts: nat -> Attempt, k: nat): Bytes {
    if k == 0 then []
    else Arrived(attempts, k - 1) + match attempts(k - 1).arrival case Data(bytes) => bytes case Broken => []
  }

  ghost function Elapsed(attempts: nat -> Attempt, k: nat): int {
    if k == 0 then 0 else Elapsed(attempts, k - 1) + attempts(k - 1).elapsed
  }

  function Front(b: Bytes, cap: nat): Bytes {
    b[..Min(|b|, cap)]
  }

  /** Round `i` leaves the matter open: nothing to show, or no clue. */
  ghost predicate LeavesOpen(full: seq<ProtocolSniffer>, payloads: seq<Bytes>, net: Network, i: nat)
    requires i < |payloads|
  {
    payloads[i] == [] || Sniffed(ListAt(full, payloads, net, i), payloads[i], net) == ErrNoClue
  }

  /** Rounds that were followed by another attempt: they read something, left the matter open and
      left time. */
  ghost predicate Rounds(full: seq<ProtocolSniffer>, attempts: nat -> Attempt, cap: nat, net: Network,
                         payloads: seq<Bytes>, k: nat)
    requires k <= |payloads|
  {
    forall i :: 0 <= i < k ==>
      && Shown(attempts, cap, payloads, i)
      && LeavesOpen(full, payloads, net, i)
      && Elapsed(attempts, i + 1) < 200
  }

  /** Attempt `i` brought data, and the front of everything that arrived was looked at. */
  ghost predicate Shown(attempts: nat -> Attempt, cap: nat, payloads: seq<Bytes>, i: nat)
    requires i < |payloads|
  {
    !attempts(i).done && attempts(i).arrival.Data? && payloads[i] == Front(Arrived(attempts, i + 1), cap)
  }

  /** Why the loop ended as it did, after at most two reads. */
  ghost predicate Ends(full: seq<ProtocolSniffer>, attempts: nat -> Attempt, cap: nat, net: Network,
                       payloads: seq<Bytes>, o: Outcome) {
    var n := |payloads|;
    match o
    case ErrContext => n < 2 && Rounds(full, attempts, cap, net, payloads, n) && attempts(n).done
    case ErrRead =>
      && n < 2 && Rounds(full, attempts, cap, net, payloads, n)
      && !attempts(n).done && attempts(n).arrival.Broken?
    case ErrTimeout =>
      && 1 <= n <= 2 && Rounds(full, attempts, cap, net, payloads, n - 1)
      && Shown(attempts, cap, payloads, n - 1) && LeavesOpen(full, payloads, net, n - 1)
      && (n == 2 || Elapsed(attempts, n) >= 200)
    case ErrNoClue => false
    case ErrNeedMoreData => false
    case _ =>
      && 1 <= n <= 2 && Rounds(full, attempts, cap, net, payloads, n - 1)
      && Shown(attempts, cap, payloads, n - 1)
      && payloads[n - 1] != [] && o == Sniffed(ListAt(full, payloads, net, n - 1), payloads[n - 1], net)
  }

  /** The retry loop, for all sniffers. Whatever the clock says, it reads at most twice; the payloads
      shown are fronts of what arrived and each extends the one before it; nothing that arrived is
      lost; and `Ends` says which outcome it has and why. With persistent sniffers a result or
      "unknown" is the answer of the list it started with to the last payload. */
  method SniffContent(reader: CachedReader, sniffer: Sniffer, net: Network, cap: nat, attempts: nat -> Attempt)
    returns (o: Outcome, ghost payloads: seq<Bytes>)
    requires reader.Valid() && reader.cache == []
    modifies reader`cache, reader`taken, sniffer
    ensures reader.Valid() && reader.cache == Arrived(attempts, |payloads|)
    ensures Growing(payloads)
    ensures Ends(old(sniffer.list), attempts, cap, net, payloads, o)
    ensures AllPersistent(old(sniffer.list), net) && (o.Result? || o == ErrUnknown) ==>
      payloads != [] && o == Sniffed(old(sniffer.list), payloads[|payloads| - 1], net)
  {
    hide Sniffed, Kept, AllPersistent, ListAt, Arrived, Elapsed, Shown, LeavesOpen, Rounds, Growing, Ends;
    payloads := [];
    ghost var full := sniffer.list;
    var payload: Bytes := [];
    var deadline, totalAttempt, k := DEADLINE, 0, 0;
    LoopStart(full, attempts, cap, net);
    while true
      invariant reader.Valid() && reader.cache == Arrived(attempts, k)
      invariant k == |payloads| == totalAttempt <= 1
      invariant Growing(payloads) && Rounds(full, attempts, cap, net, payloads, k)
      invariant sniffer.list == ListAt(full, payloads, net, k)
      invariant deadline == DEADLINE - Elapsed(attempts, k) && deadline > 0
      decreases 2 - totalAttempt
    {
      var at := attempts(k);
      EndsEarly(full, attempts, cap, net, payloads);
      if at.done {
        return ErrContext, payloads;
      }
      ghost var shown := payloads;
      var ok;
      payload, ok := reader.Cache(payload, cap, at.arrival);
      if !ok {
        return ErrRead, payloads;
      }
      payloads := payloads + [payload];
      OneMore(full, attempts, cap, net, shown, payload);
      EndsLate(full, attempts, cap, net, payloads);
      deadline := deadline - at.elapsed;
      k := k + 1;
      if payload != [] {
        var r := sniffer.Sniff(payload, net);
        match r {
          case ErrNoClue => totalAttempt := totalAttempt + 1;
          case ErrNeedMoreData =>
          case _ =>
            Answered(full, payloads, net);
            return r, payloads;
        }
      } else {
        totalAttempt := totalAttempt + 1;
      }
      if totalAttempt >= 2 || deadline <= 0 {
        return ErrTimeout, payloads;
      }
    }
  }

  /** The loop ends before a read. */
  lemma EndsEarly(full: seq<ProtocolSniffer>, attempts: nat -> Attempt, cap: nat, net: Network, payloads: seq<Bytes>)
    requires |payloads| < 2 && Rounds(full, attempts, cap, net, payloads, |payloads|)
    ensures attempts(|payloads|).done ==> Ends(full, attempts, cap, net, payloads, ErrContext)
    ensures !attempts(|payloads|).done && attempts(|payloads|).arrival.Broken? ==>
      Ends(full, attempts, cap, net, payloads, ErrRead)
  {
    hide Rounds;
  }

  /** The loop ends after a payload was looked at, or goes on. */
  lemma EndsLate(full: seq<ProtocolSniffer>, attempts: nat -> Attempt, cap: nat, net: Network, payloads: seq<Bytes>)
    requires 1 <= |payloads| <= 2 && Rounds(full, attempts, cap, net, payloads, |payloads| - 1)
    requires Shown(attempts, cap, payloads, |payloads| - 1)
    ensures
      var n := |payloads|;
      var o := Sniffed(ListAt(full, payloads, net, n - 1), payloads[n - 1], net);
      && (payloads[n - 1] != [] && o != ErrNoClue ==> Ends(full, attempts, cap, net, payloads, o))
      && (LeavesOpen(full, payloads, net, n - 1) ==>
            if n == 2 || Elapsed(attempts, n) >= 200 then Ends(full, attempts, cap, net, payloads, ErrTimeout)
            else Rounds(full, attempts, cap, net, payloads, n))
  {
    hide Shown, LeavesOpen, FirstFound, Undecided, ListAt, Elapsed;
  }

  lemma LoopStart(full: seq<ProtocolSniffer>, attempts: nat -> Attempt, cap: nat, net: Network)
    ensures Growing([]) && Rounds(full, attempts, cap, net, [], 0)
    ensures Arrived(attempts, 0) == [] && Elapsed(attempts, 0) == 0 && ListAt(full, [], net, 0) == full
  {
  }

  /** One more payload: the rounds before are as they were, and this is what the round does. */
  lemma OneMore(full: seq<ProtocolSniffer>, attempts: nat -> Attempt, cap: nat, net: Network, shown: seq<Bytes>,
                payload: Bytes)
    requires |shown| <= 1 && Growing(shown) && Rounds(full, attempts, cap, net, shown, |shown|)
    requires !attempts(|shown|).done && attempts(|shown|).arrival.Data?
    requires payload == Front(Arrived(attempts, |shown|) + attempts(|shown|).arrival.bytes, cap)
    ensures
      var n, payloads := |shown|, shown + [payload];
      && Arrived(attempts, n + 1) == Arrived(attempts, n) + attempts(n).arrival.bytes
      && Elapsed(attempts, n + 1) == Elapsed(attempts, n) + attempts(n).elapsed
      && Growing(payloads) && Rounds(full, attempts, cap, net, payloads, n) && Shown(attempts, cap, payloads, n)
      && ListAt(full, payloads, net, n) == ListAt(full, shown, net, n)
      && ListAt(full, payloads, net, n + 1) == KeptAfter(ListAt(full, shown, net, n), payload, net)
      && (payload == [] || Sniffed(ListAt(full, shown, net, n), payload, net) == ErrNoClue ==>
            LeavesOpen(full, payloads, net, n))
  {
    hide Sniffed, KeptAfter;
    var n, payloads := |shown|, shown + [payload];
    assert Arrived(attempts, n) <= Arrived(attempts, n + 1);
    if n == 1 {
      assert Shown(attempts, cap, shown, 0) && LeavesOpen(full, shown, net, 0);
      assert ListAt(full, payloads, net, 0) == ListAt(full, shown, net, 0) == full;
      PrefixGrows(Arrived(attempts, 1), Arrived(attempts, 2), cap);
    }
  }

  lemma PrefixGrows(before: Bytes, after: Bytes, cap: nat)
    requires before <= after
    ensures Front(before, cap) <= Front(after, cap) <= after
  {
  }

  /** With persistent sniffers the answer of the last round is that of the full list. */
  lemma Answered(full: seq<ProtocolSniffer>, payloads: seq<Bytes>, net: Network)
    requires Growing(payloads) && payloads != []
    ensures AllPersistent(full, net) ==>
      var n := |payloads| - 1;
      Sniffed(ListAt(full, payloads, net, n), payloads[n], net) == Sniffed(full, payloads[n], net)
  {
    hide Sniffed, ListAt, AllPersistent;
    if AllPersistent(full, net) { PrunedSniffingRefines(full, payloads, net, |payloads| - 1); }
  }

  // ---------------------------------------------------------------------
  // One connection
  // ---------------------------------------------------------------------

  /** The result for a connection: a result, the domain of one and the protocol of another, or an error. */
  datatype Final = Single(o: Outcome) | Composite(domainOf: Outcome, protocolOf: Outcome)

  /** Sniffs one connection: the metadata round first, then the payload rounds unless only metadata
      is asked for. The outcome combines the two, and `Ends` says which outcome the payload rounds
      had and why; no byte taken from the connection is missing from the cache. With persistent
      sniffers a payload answer is that of the sniffers the connection started with. */
  method SniffConnection(reader: CachedReader, sniffers: seq<ProtocolSniffer>, metadataOnly: bool, net: Network,
                         cap: nat, attempts: nat -> Attempt)
    returns (f: Final, ghost content: Outcome, ghost payloads: seq<Bytes>)
    requires reader.Valid() && reader.cache == []
    modifies reader`cache, reader`taken
    ensures reader.Valid() && reader.cache == Arrived(attempts, |payloads|)
    ensures metadataOnly ==> f == Single(SniffedMeta(sniffers)) && payloads == [] && reader.taken == old(reader.taken)
    ensures !metadataOnly ==>
      && f == (if !SniffedMeta(sniffers).Result? then Single(content)
               else if content.Result? then Composite(SniffedMeta(sniffers), content)
               else Single(SniffedMeta(sniffers)))
      && Growing(payloads) && Ends(KeptMeta(sniffers), attempts, cap, net, payloads, content)
      && (AllPersistent(sniffers, net) && (content.Result? || content == ErrUnknown) ==>
            payloads != [] && content == Sniffed(sniffers, payloads[|payloads| - 1], net))
  {
    hide Ends, AllPersistent, Sniffed;
    payloads := [];
    var sniffer := new Sniffer(sniffers);
    var meta := sniffer.SniffMetadata();
    LoopStart(sniffers, attempts, cap, net);
    if metadataOnly {
      content := meta;
      return Single(meta), content, payloads;
    }
    MetadataPersistent(sniffers, net);
    var answer;
    answer, payloads := SniffContent(reader, sniffer, net, cap, attempts);
    content := answer;
    if payloads != [] { MetadataKeepsSniffed(sniffers, payloads[|payloads| - 1], net); }
    if !answer.Result? && meta.Result? {
      return Single(meta), content, payloads;
    }
    if answer.Result? && meta.Result? {
      return Composite(meta, answer), content, payloads;
    }
    return Single(answer), content, payloads;
  }

  lemma MetadataKeepsSniffed(list: seq<ProtocolSniffer>, p: Bytes, net: Network)
    ensures Sniffed(KeptMeta(list), p, net) == Sniffed(list, p, net)
  {
    MetadataKeepsPayloadSniffers(list, p, net);
  }

  lemma MetadataPersistent(list: seq<ProtocolSniffer>, net: Network)
    ensures AllPersistent(list, net) ==> AllPersistent(KeptMeta(list), net)
  {
    hide Persistent;
    MetadataSubset(list);
  }

  lemma {:induction false} MetadataSubset(list: seq<ProtocolSniffer>)
    ensures forall s :: s in UndecidedMeta(list) ==> s in list
  {
    if list != [] { MetadataSubset(list[1..]); }
  }
}
