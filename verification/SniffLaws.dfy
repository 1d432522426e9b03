/**
 What a round of sniffing answers and keeps, sniffer by sniffer, and when the payload rounds end.
 */
module SniffLaws {
  import opened Basics
  import opened Sniffing

  // ---------------------------------------------------------------------
  // Payload rounds
  // ---------------------------------------------------------------------

  /** The sniffer is asked on this network, and finds a protocol in the payload. */
  predicate Finds(s: ProtocolSniffer, p: Bytes, net: Network) {
    !s.metadata && s.network == net && s.run(p).Found?
  }

  /** The sniffer is asked on this network, and cannot tell yet. */
  predicate Wonders(s: ProtocolSniffer, p: Bytes, net: Network) {
    !s.metadata && s.network == net && s.run(p).NoClue?
  }

  lemma {:induction false} FirstFoundAt(list: seq<ProtocolSniffer>, p: Bytes, net: Network) returns (i: nat)
    ensures i <= |list| && forall j :: 0 <= j < i ==> !Finds(list[j], p, net)
    ensures i < |list| ==> Finds(list[i], p, net) && FirstFound(list, p, net) == list[i].run(p)
    ensures i == |list| ==> FirstFound(list, p, net) == Nothing
  {
    i := 0;
    if list != [] && !Finds(list[0], p, net) {
      var k := FirstFoundAt(list[1..], p, net);
      assert forall j :: 1 <= j < |list| ==> list[j] == list[1..][j - 1];
      i := k + 1;
    }
  }

  /** `part` is what stands in the list at these positions, in order: those with the property. */
  ghost predicate Picks<T(!new)>(list: seq<T>, at: seq<nat>, part: seq<T>, f: T -> bool) {
    Stands(list, at, part) && forall k: nat :: k in at <==> k < |list| && f(list[k])
  }

  ghost predicate Stands<T>(list: seq<T>, at: seq<nat>, part: seq<T>) {
    && |at| == |part| && (forall i, j :: 0 <= i < j < |at| ==> at[i] < at[j])
    && (forall i :: 0 <= i < |at| ==> at[i] < |list| && part[i] == list[at[i]])
  }

  /** Positions in the tail of a list as positions in the list. */
  function Next(at: seq<nat>): (next: seq<nat>)
    ensures |next| == |at| && forall i :: 0 <= i < |at| ==> next[i] == at[i] + 1
    ensures forall k: nat :: k in next <==> k > 0 && k - 1 in at
  {
    if at == [] then [] else Next(at[..|at| - 1]) + [at[|at| - 1] + 1]
  }

  lemma StandsMore<T>(list: seq<T>, at: seq<nat>, part: seq<T>)
    requires list != [] && Stands(list[1..], at, part)
    ensures Stands(list, Next(at), part) && Stands(list, [0] + Next(at), [list[0]] + part)
  {
    var next := Next(at);
    assert forall i :: 0 <= i < |at| ==> next[i] < |list| && part[i] == list[1..][at[i]] == list[next[i]];
  }

  lemma PicksMore<T(!new)>(list: seq<T>, at: seq<nat>, part: seq<T>, f: T -> bool)
    requires list != [] && Picks(list[1..], at, part, f)
    ensures if f(list[0]) then Picks(list, [0] + Next(at), [list[0]] + part, f) else Picks(list, Next(at), part, f)
  {
    hide Stands, Next;
    StandsMore(list, at, part);
    var more := if f(list[0]) then [0] + Next(at) else Next(at);
    forall k: nat ensures k in more <==> k < |list| && f(list[k]) {
      if k > 0 { assert k in Next(at) <==> k - 1 < |list[1..]| && f(list[1..][k - 1]); }
    }
  }

  lemma NoPicks<T(!new)>(list: seq<T>, f: T -> bool)
    requires list == []
    ensures Picks(list, [], [], f)
  {
  }

  lemma {:induction false} UndecidedAt(list: seq<ProtocolSniffer>, p: Bytes, net: Network, f: ProtocolSniffer -> bool)
    returns (at: seq<nat>)
    requires forall s :: f(s) <==> Wonders(s, p, net)
    ensures Picks(list, at, Undecided(list, p, net), f)
  {
    hide Picks;
    at := [];
    if list != [] {
      var rest := UndecidedAt(list[1..], p, net, f);
      PicksMore(list, rest, Undecided(list[1..], p, net), f);
      at := if f(list[0]) then [0] + Next(rest) else Next(rest);
    } else {
      NoPicks(list, f);
    }
  }

  /** The answer of a round is that of the first sniffer on the network that finds anything; there is
      no clue if nobody does and one cannot tell yet; otherwise the content is unknown. */
  lemma RoundIs(list: seq<ProtocolSniffer>, p: Bytes, net: Network)
    ensures Sniffed(list, p, net).Result? <==> exists i :: 0 <= i < |list| && Finds(list[i], p, net)
    ensures forall i ::
      0 <= i < |list| && Finds(list[i], p, net) && (forall j :: 0 <= j < i ==> !Finds(list[j], p, net)) ==>
      Sniffed(list, p, net) == Result(list[i].run(p).protocol, list[i].run(p).domain)
    ensures Sniffed(list, p, net) == ErrNoClue <==>
      && (forall i :: 0 <= i < |list| ==> !Finds(list[i], p, net))
      && exists i :: 0 <= i < |list| && Wonders(list[i], p, net)
    ensures Sniffed(list, p, net).Result? || Sniffed(list, p, net) == ErrNoClue || Sniffed(list, p, net) == ErrUnknown
  {
    hide FirstFound, Undecided, Wonders;
    var first := FirstFoundAt(list, p, net);
    var at := UndecidedAt(list, p, net, s => Wonders(s, p, net));
    if at != [] { assert at[0] in at; }
  }

  /** After a round without a clue exactly the sniffers that cannot tell yet are kept, in their order;
      after any other round the list stays. */
  lemma KeptIs(list: seq<ProtocolSniffer>, p: Bytes, net: Network) returns (at: seq<nat>)
    ensures Sniffed(list, p, net) != ErrNoClue ==> Kept(list, p, net) == list
    ensures Sniffed(list, p, net) == ErrNoClue ==>
      Stands(list, at, Kept(list, p, net)) && forall k: nat :: k in at <==> k < |list| && Wonders(list[k], p, net)
  {
    hide Sniffed, Undecided, Wonders, Stands;
    at := UndecidedAt(list, p, net, s => Wonders(s, p, net));
  }

  // ---------------------------------------------------------------------
  // The metadata round
  // ---------------------------------------------------------------------

  /** The sniffer is asked without a payload, and finds a protocol. */
  predicate FindsMeta(s: ProtocolSniffer) {
    s.metadata && s.run([]).Found?
  }

  /** The sniffer waits for a payload, or was asked without one and cannot tell yet. */
  predicate Waits(s: ProtocolSniffer) {
    !s.metadata || s.run([]).NoClue?
  }

  lemma {:induction false} FirstMetaAt(list: seq<ProtocolSniffer>) returns (i: nat)
    ensures i <= |list| && forall j :: 0 <= j < i ==> !FindsMeta(list[j])
    ensures i < |list| ==> FindsMeta(list[i]) && FirstMeta(list) == list[i].run([])
    ensures i == |list| ==> FirstMeta(list) == Nothing
  {
    i := 0;
    if list != [] && !FindsMeta(list[0]) {
      var k := FirstMetaAt(list[1..]);
      assert forall j :: 1 <= j < |list| ==> list[j] == list[1..][j - 1];
      i := k + 1;
    }
  }

  lemma {:induction false} UndecidedMetaAt(list: seq<ProtocolSniffer>, f: ProtocolSniffer -> bool)
    returns (at: seq<nat>)
    requires forall s :: f(s) <==> Waits(s)
    ensures Picks(list, at, UndecidedMeta(list), f)
  {
    hide Picks;
    at := [];
    if list != [] {
      var rest := UndecidedMetaAt(list[1..], f);
      PicksMore(list, rest, UndecidedMeta(list[1..]), f);
      at := if f(list[0]) then [0] + Next(rest) else Next(rest);
    } else {
      NoPicks(list, f);
    }
  }

  /** The answer of the metadata round, in the same way. */
  lemma MetaRoundIs(list: seq<ProtocolSniffer>)
    ensures SniffedMeta(list).Result? <==> exists i :: 0 <= i < |list| && FindsMeta(list[i])
    ensures forall i ::
      0 <= i < |list| && FindsMeta(list[i]) && (forall j :: 0 <= j < i ==> !FindsMeta(list[j])) ==>
      SniffedMeta(list) == Result(list[i].run([]).protocol, list[i].run([]).domain)
    ensures SniffedMeta(list) == ErrNoClue <==>
      && (forall i :: 0 <= i < |list| ==> !FindsMeta(list[i]))
      && exists i :: 0 <= i < |list| && Waits(list[i])
    ensures SniffedMeta(list).Result? || SniffedMeta(list) == ErrNoClue || SniffedMeta(list) == ErrUnknown
  {
    hide FirstMeta, UndecidedMeta, Waits;
    var first := FirstMetaAt(list);
    var at := UndecidedMetaAt(list, s => Waits(s));
    if at != [] { assert at[0] in at; }
  }

  /** What the metadata round keeps, in the same way: also every sniffer that waits for a payload. */
  lemma MetaKeptIs(list: seq<ProtocolSniffer>) returns (at: seq<nat>)
    ensures SniffedMeta(list) != ErrNoClue ==> KeptMeta(list) == list
    ensures SniffedMeta(list) == ErrNoClue ==>
      Stands(list, at, KeptMeta(list)) && forall k: nat :: k in at <==> k < |list| && Waits(list[k])
  {
    hide SniffedMeta, UndecidedMeta, Waits, Stands;
    at := UndecidedMetaAt(list, s => Waits(s));
  }

  // ---------------------------------------------------------------------
  // The end of the payload rounds
  // ---------------------------------------------------------------------

  /** The loop gives up exactly after two payloads without an answer, or after one when 200
      milliseconds are over; a second payload is looked at only before that. */
  lemma TimeoutMeans(full: seq<ProtocolSniffer>, attempts: nat -> Attempt, cap: nat, net: Network,
                     payloads: seq<Bytes>, o: Outcome)
    requires Ends(full, attempts, cap, net, payloads, o)
    ensures |payloads| <= 2 && (|payloads| == 2 ==> attempts(0).elapsed < 200)
    ensures o == ErrTimeout && |payloads| < 2 ==> |payloads| == 1 && attempts(0).elapsed >= 200
    ensures (o == ErrContext || o == ErrRead) && |payloads| == 1 ==> attempts(0).elapsed < 200
    ensures o == ErrContext ==> attempts(|payloads|).done
    ensures o == ErrRead ==> attempts(|payloads|).arrival.Broken?
    ensures o == ErrTimeout ==> forall i :: 0 <= i < |payloads| ==> attempts(i).arrival.Data? && !attempts(i).done
  {
    hide Rounds, Shown, LeavesOpen, Sniffed;
    FirstElapsed(attempts);
    var n := |payloads|;
    if n == 2 { RoundAt(full, attempts, cap, net, payloads, 1, 0); }
    if (o == ErrContext || o == ErrRead) && n == 1 { RoundAt(full, attempts, cap, net, payloads, 1, 0); }
    if o == ErrTimeout { ShownReads(attempts, cap, payloads, n - 1); }
  }

  lemma FirstElapsed(attempts: nat -> Attempt)
    ensures Elapsed(attempts, 1) == attempts(0).elapsed
  {
    assert Elapsed(attempts, 0) == 0;
  }

  lemma RoundAt(full: seq<ProtocolSniffer>, attempts: nat -> Attempt, cap: nat, net: Network, payloads: seq<Bytes>,
                k: nat, i: nat)
    requires i < k <= |payloads| && Rounds(full, attempts, cap, net, payloads, k)
    ensures Shown(attempts, cap, payloads, i) && Elapsed(attempts, i + 1) < 200
    ensures attempts(i).arrival.Data? && !attempts(i).done
  {
    hide LeavesOpen, Sniffed, Elapsed;
  }

  lemma ShownReads(attempts: nat -> Attempt, cap: nat, payloads: seq<Bytes>, i: nat)
    requires i < |payloads| && Shown(attempts, cap, payloads, i)
    ensures attempts(i).arrival.Data? && !attempts(i).done
  {
  }

  /** What the rounds look at: the first bytes of what arrived in the first read, then of both. */
  lemma PayloadsAre(attempts: nat -> Attempt, cap: nat, payloads: seq<Bytes>, i: nat)
    requires i < |payloads| <= 2 && Shown(attempts, cap, payloads, i)
    requires forall j :: 0 <= j <= i ==> attempts(j).arrival.Data?
    ensures
      var all := attempts(0).arrival.bytes + if i == 0 then [] else attempts(1).arrival.bytes;
      payloads[i] == if |all| <= cap then all else all[..cap]
  {
    assert Arrived(attempts, 0) == [];
    assert Arrived(attempts, 1) == attempts(0).arrival.bytes;
    if i == 0 { assert attempts(0).arrival.bytes + [] == attempts(0).arrival.bytes; }
  }
}
