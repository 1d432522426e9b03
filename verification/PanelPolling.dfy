/**
 What the panel client remembers from tick to tick, and which ticks bring the user list up to date.

 A reply is remembered when it arrives, before anything is done with it. While the panel does not
 change, the same reply counts as "not modified" from then on, whatever became of the tick.
 */
module PanelPolling {
  import opened Basics
  import opened Panel
  import opened L = Limiter
  import opened UserList
  import opened NodeSync

  /** What the panel has to offer. */
  datatype Offer = Offer(node: NodeInfo, users: seq<UserInfo>)

  /** How the request for the node goes: no reply, a reply that cannot be decoded, or a good one. */
  datatype Request = NoReply | Garbled | Fine

  /** The outside of one tick, besides what the panel offers. */
  datatype Poll = Poll(node: Request, usersFine: bool, alive: Reply<Option<map<int, int>>>, core: CoreOutcome)

  /** The replies that the client remembers. */
  datatype Memory = Memory(node: Option<NodeInfo>, users: Option<seq<UserInfo>>)

  // ---------------------------------------------------------------------
  // The two requests
  // ---------------------------------------------------------------------

  function NodeReply(m: Memory, p: Offer, r: Request): Reply<Option<NodeInfo>> {
    if r.NoReply? then Failed
    else if m.node == Some(p.node) then Got(None)
    else if r.Garbled? then Failed
    else Got(Some(p.node))
  }

  function NodeSeen(m: Memory, p: Offer, r: Request): Memory {
    if r.NoReply? then m else m.(node := Some(p.node))
  }

  function UsersReply(m: Memory, p: Offer, fine: bool): Reply<Option<seq<UserInfo>>> {
    if !fine then Failed
    else if m.users == Some(p.users) then Got(None)
    else Got(Some(p.users))
  }

  function UsersSeen(m: Memory, p: Offer, fine: bool): Memory {
    if fine then m.(users := Some(p.users)) else m
  }

  class Client {
    var node: Option<NodeInfo>
    var users: Option<seq<UserInfo>>

    ghost function Value(): Memory
      reads this
    {
      Memory(node, users)
    }

    constructor ()
      ensures Value() == Memory(None, None)
    {
      node, users := None, None;
    }

    /** `GetNodeInfo`: the reply is remembered before it is decoded. */
    method GetNodeInfo(p: Offer, r: Request) returns (reply: Reply<Option<NodeInfo>>)
      modifies this`node
      ensures reply == NodeReply(old(Value()), p, r) && Value() == NodeSeen(old(Value()), p, r)
      ensures node == if r.NoReply? then old(node) else Some(p.node)
      ensures reply == Got(None) <==> !r.NoReply? && old(node) == Some(p.node)
      ensures reply == Got(Some(p.node)) <==> r.Fine? && old(node) != Some(p.node)
      ensures reply.Got? ==> reply.value == None || reply.value == Some(p.node)
    {
      if r.NoReply? {
        return Failed;
      }
      if node == Some(p.node) {
        return Got(None);
      }
      node := Some(p.node);
      if r.Garbled? {
        return Failed;
      }
      return Got(Some(p.node));
    }

    /** `GetUserList`: the reply is remembered after it was decoded. */
    method GetUserList(p: Offer, fine: bool) returns (reply: Reply<Option<seq<UserInfo>>>)
      modifies this`users
      ensures reply == UsersReply(old(Value()), p, fine) && Value() == UsersSeen(old(Value()), p, fine)
      ensures users == if fine then Some(p.users) else old(users)
      ensures reply.Failed? <==> !fine
      ensures fine ==> reply.value == if old(users) == Some(p.users) then None else Some(p.users)
    {
      if !fine {
        return Failed;
      }
      if users == Some(p.users) {
        return Got(None);
      }
      users := Some(p.users);
      return Got(Some(p.users));
    }

    /** One tick with this client: the requests up to the first that fails, and what the controller
        makes of them. */
    method Tick(c: Controller, p: Offer, o: Poll) returns (alive: bool)
      requires c.Valid()
      modifies this, c, c.limiter
      ensures alive ==> c.Valid() && Polled(old(Session(c.Value(), Value())), p, o, Session(c.Value(), Value()))
      ensures !alive ==> NodeSync.Tick(old(c.Value()), InputOf(old(Value()), p, o)) == Panicked
    {
      hide NodeSync.Tick;
      var n := GetNodeInfo(p, o.node);
      var u: Reply<Option<seq<UserInfo>>> := Failed;
      if n.Got? {
        u := GetUserList(p, o.usersFine);
      }
      alive := c.NodeInfoMonitor(Input(n, u, o.alive, o.core));
    }
  }

  // ---------------------------------------------------------------------
  // Ticks
  // ---------------------------------------------------------------------

  datatype Session = Session(node: Node, memory: Memory)

  /** What a tick learns. The users are asked for only if the node request went well. */
  function InputOf(m: Memory, p: Offer, o: Poll): Input {
    var n := NodeReply(m, p, o.node);
    Input(n, if n.Got? then UsersReply(m, p, o.usersFine) else Failed, o.alive, o.core)
  }

  function MemoryAfter(m: Memory, p: Offer, o: Poll): Memory {
    var k := NodeSeen(m, p, o.node);
    if NodeReply(m, p, o.node).Got? then UsersSeen(k, p, o.usersFine) else k
  }

  ghost predicate Polled(s: Session, p: Offer, o: Poll, t: Session) {
    && NodeSync.Tick(s.node, InputOf(s.memory, p, o)) == Alive(t.node)
    && t.memory == MemoryAfter(s.memory, p, o)
  }

  /** A run of ticks during which the panel does not change. */
  ghost predicate Run(states: seq<Session>, p: Offer, polls: seq<Poll>) {
    && |states| == |polls| + 1
    && forall i :: 0 <= i < |polls| ==> Polled(states[i], p, polls[i], states[i + 1])
  }

  /** The controller has the panel's list. */
  predicate UpToDate(s: Session, p: Offer) {
    s.node.users == p.users
  }

  /** The request for the users is made and goes well. */
  predicate GetsThrough(s: Session, p: Offer, o: Poll) {
    NodeReply(s.memory, p, o.node).Got? && o.usersFine
  }

  /** What the tick takes in is kept: the alive list came too, and either the node is new, or the
      list is not empty and every core call that the comparison needs succeeds. */
  ghost predicate Keeps(s: Session, p: Offer, o: Poll) {
    && o.alive.Got?
    && (|| NodeReply(s.memory, p, o.node) == Got(Some(p.node))
        || (p.users != [] && NodeSync.Applies(s.node, p.users, o.core)))
  }

  /** The tick takes a new list in and keeps it. */
  ghost predicate TakesIn(s: Session, p: Offer, o: Poll) {
    GetsThrough(s, p, o) && s.memory.users != Some(p.users) && Keeps(s, p, o)
  }

  /** What one tick does to the list. */
  lemma TickUsers(s: Session, p: Offer, o: Poll, t: Session)
    requires Polled(s, p, o, t)
    ensures TakesIn(s, p, o) ==> UpToDate(t, p)
    ensures !TakesIn(s, p, o) ==> t.node.users == s.node.users
    ensures t.memory.users == if GetsThrough(s, p, o) then Some(p.users) else s.memory.users
  {
    hide NodeSync.Applies, L.Update, L.Fresh, BuildNodeTag, Added, Deleted, Keys;
  }

  /** The node request of a tick: it goes well unless nothing came or a node that is not known yet
      could not be decoded, and any reply at all is remembered. */
  lemma TickNode(s: Session, p: Offer, o: Poll, t: Session)
    requires Polled(s, p, o, t)
    ensures t.memory.node == if o.node.NoReply? then s.memory.node else Some(p.node)
    ensures InputOf(s.memory, p, o).node ==
      if o.node.NoReply? || (o.node.Garbled? && s.memory.node != Some(p.node)) then Failed
      else if s.memory.node == Some(p.node) then Got(None)
      else Got(Some(p.node))
  {
    hide NodeSync.Tick;
  }

  /** While the panel does not change, the controller hears of its node in one tick at most: the first
      that gets a reply, if the client did not know the node and could decode it. A node that could
      not be decoded once is never heard of. */
  lemma {:induction false} HeardOnceIff(states: seq<Session>, p: Offer, polls: seq<Poll>, k: nat)
    requires Run(states, p, polls) && k < |polls|
    ensures InputOf(states[k].memory, p, polls[k]).node == Got(Some(p.node)) <==>
      && polls[k].node.Fine? && states[0].memory.node != Some(p.node)
      && forall j :: 0 <= j < k ==> polls[j].node.NoReply?
  {
    hide Polled;
    KnownSince(states, p, polls, k);
    assert Polled(states[k], p, polls[k], states[k + 1]);
    TickNode(states[k], p, polls[k], states[k + 1]);
  }

  lemma {:induction false} KnownSince(states: seq<Session>, p: Offer, polls: seq<Poll>, k: nat)
    requires Run(states, p, polls) && k < |states|
    ensures states[k].memory.node == Some(p.node) <==>
      states[0].memory.node == Some(p.node) || exists j :: 0 <= j < k && !polls[j].node.NoReply?
  {
    hide Polled;
    if k > 0 {
      KnownSince(states, p, polls, k - 1);
      assert Polled(states[k - 1], p, polls[k - 1], states[k]);
      TickNode(states[k - 1], p, polls[k - 1], states[k]);
    }
  }

  lemma {:induction false} UpToDateSince(states: seq<Session>, p: Offer, polls: seq<Poll>, k: nat)
    requires Run(states, p, polls) && k < |states|
    ensures UpToDate(states[k], p) <==>
      UpToDate(states[0], p) || exists i :: 0 <= i < k && TakesIn(states[i], p, polls[i])
  {
    hide Polled, TakesIn;
    if k > 0 {
      UpToDateSince(states, p, polls, k - 1);
      assert Polled(states[k - 1], p, polls[k - 1], states[k]);
      TickUsers(states[k - 1], p, polls[k - 1], states[k]);
    }
  }

  lemma {:induction false} RemembersSince(states: seq<Session>, p: Offer, polls: seq<Poll>, k: nat)
    requires Run(states, p, polls) && k < |states|
    ensures states[k].memory.users == Some(p.users) <==>
      states[0].memory.users == Some(p.users) || exists i :: 0 <= i < k && GetsThrough(states[i], p, polls[i])
  {
    hide Polled, GetsThrough;
    if k > 0 {
      RemembersSince(states, p, polls, k - 1);
      assert Polled(states[k - 1], p, polls[k - 1], states[k]);
      TickUsers(states[k - 1], p, polls[k - 1], states[k]);
    }
  }

  /** While the panel does not change, only the first tick whose request for the users goes well can
      bring the list up to date. Afterwards the controller has the panel's list exactly if it had it
      from the start, or if that list was new to the client and that very tick kept it: a list that
      it did not keep is never tried again. */
  lemma OneChanceIff(states: seq<Session>, p: Offer, polls: seq<Poll>, i: nat, k: nat)
    requires Run(states, p, polls) && i < k < |states|
    requires GetsThrough(states[i], p, polls[i]) && forall j :: 0 <= j < i ==> !GetsThrough(states[j], p, polls[j])
    ensures UpToDate(states[k], p) <==>
      UpToDate(states[0], p) || (states[0].memory.users != Some(p.users) && Keeps(states[i], p, polls[i]))
  {
    hide Polled, GetsThrough, Keeps;
    UpToDateSince(states, p, polls, k);
    RemembersSince(states, p, polls, i);
    forall j | 0 <= j < k && TakesIn(states[j], p, polls[j]) ensures j == i {
      RemembersSince(states, p, polls, j);
    }
    if states[0].memory.users != Some(p.users) && Keeps(states[i], p, polls[i]) {
      assert TakesIn(states[i], p, polls[i]);
    }
  }

  /** Until a request for the users goes well nothing is lost: the list stays as it was, and so does
      what the client remembers of it. */
  lemma NoChanceYet(states: seq<Session>, p: Offer, polls: seq<Poll>, k: nat)
    requires Run(states, p, polls) && k < |states|
    requires forall j :: 0 <= j < k ==> !GetsThrough(states[j], p, polls[j])
    ensures UpToDate(states[k], p) <==> UpToDate(states[0], p)
    ensures states[k].memory.users == Some(p.users) <==> states[0].memory.users == Some(p.users)
  {
    hide Polled, GetsThrough, Keeps;
    UpToDateSince(states, p, polls, k);
    RemembersSince(states, p, polls, k);
  }

  /** One core call fails once, and the new user never gets in, however many good ticks follow. */
  lemma OneFailureIsForever(states: seq<Session>, p: Offer, bad: Poll, good: seq<Poll>)
    requires Run(states, p, [bad] + good)
    requires states[0].memory == Memory(Some(p.node), Some(states[0].node.users)) && states[0].node.users != p.users
    requires bad.node.Fine? && bad.usersFine
    requires Added(Keys(states[0].node.users), p.users) != [] && !bad.core.addUsers
    ensures forall k :: 0 <= k < |states| ==> !UpToDate(states[k], p)
  {
    forall k | 0 <= k < |states| ensures !UpToDate(states[k], p) {
      if k > 0 { OneChanceIff(states, p, [bad] + good, 0, k); }
    }
  }
}
