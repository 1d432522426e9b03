/**
 When a tick ends the process, what it leaves in the controller, and that names and tags tell
 users and nodes apart.
 */
module TickLaws {
  import opened Basics
  import opened Panel
  import L = Limiter
  import opened UserList
  import opened NodeSync

  // ---------------------------------------------------------------------
  // Tags and names
  // ---------------------------------------------------------------------

  lemma {:induction false} DigitsPlain(n: nat)
    ensures Digits(n) != "" && forall c :: c in Digits(n) ==> '0' <= c <= '9'
  {
    if n >= 10 { DigitsPlain(n / 10); }
  }

  lemma ItoaPlain(n: int)
    ensures ':' !in Itoa(n)
  {
    DigitsPlain(if n < 0 then -n else n);
  }

  lemma NotAfter(a: string, x: string, b: string, y: string, sep: char)
    requires a + [sep] + x == b + [sep] + y && sep !in x
    ensures |b| <= |a|
  {
    var s := a + [sep] + x;
    forall k | |a| < k < |s| ensures s[k] != sep {
      assert s[k] == x[k - |a| - 1];
    }
    assert s[|b|] == (b + [sep] + y)[|b|] == sep;
  }

  /** A text is settled by what stands before and after its last separator. */
  lemma LastSeparator(a: string, x: string, b: string, y: string, sep: char)
    requires a + [sep] + x == b + [sep] + y && sep !in x && sep !in y
    ensures a == b && x == y
  {
    NotAfter(a, x, b, y, sep);
    NotAfter(b, y, a, x, sep);
    var s, t := a + [sep] + x, b + [sep] + y;
    assert s[..|a|] == a && t[..|b|] == b && s[|a| + 1..] == x && t[|b| + 1..] == y;
  }

  /** At one host, the tag tells nodes apart: no two kinds or ids share one. */
  lemma NodeTagIff(host: string, m: NodeInfo, n: NodeInfo)
    ensures BuildNodeTag(host, m) == BuildNodeTag(host, n) <==> m.kind == n.kind && m.id == n.id
  {
    hide Itoa;
    if BuildNodeTag(host, m) == BuildNodeTag(host, n) {
      var front := "[" + host + "]-";
      assert BuildNodeTag(host, m) == front + m.kind + ":" + Itoa(m.id);
      assert BuildNodeTag(host, n) == front + n.kind + ":" + Itoa(n.id);
      ItoaPlain(m.id);
      ItoaPlain(n.id);
      LastSeparator(front + m.kind, Itoa(m.id), front + n.kind, Itoa(n.id), ':');
      assert (front + m.kind)[|front|..] == m.kind && (front + n.kind)[|front|..] == n.kind;
      ItoaInjective(m.id, n.id);
    }
  }

  /** Across nodes: names are shared by users without a bar in their uuids only if tag and uuid agree. */
  lemma UserNameIff(tag: string, uuid: string, other: string, uuid2: string)
    requires '|' !in uuid && '|' !in uuid2
    ensures UserTag(tag, uuid) == UserTag(other, uuid2) <==> tag == other && uuid == uuid2
  {
    if UserTag(tag, uuid) == UserTag(other, uuid2) {
      LastSeparator(tag, uuid, other, uuid2, '|');
    }
  }

  // ---------------------------------------------------------------------
  // Ticks
  // ---------------------------------------------------------------------

  /** A tick ends the process exactly when the panel sent a new node and the core refuses to delete the
      old one, or to add the new one with its certificate, if it needs one, in place. */
  lemma DiesIff(c: Node, i: Input)
    ensures Tick(c, i) == Panicked <==>
      && i.node.Got? && i.users.Got? && i.alive.Got? && i.node.value.Some?
      && (!i.core.delNode || (!i.core.addNode && (i.node.value.value.tls ==> i.core.cert)))
  {
  }

  /** Which user list the controller keeps. With a new node any list that came; otherwise a list that
      is not empty, if the core made every change that the comparison asks for. */
  lemma ListAfterTick(c: Node, i: Input, d: Node)
    requires Tick(c, i) == Alive(d)
    ensures
      var replied := i.node.Got? && i.users.Got? && i.alive.Got?;
      d.users ==
        if replied && i.node.value.Some? && i.users.value.Some? then i.users.value.value
        else if replied && i.node.value.None? && i.users.value.Some? && i.users.value.value != []
          && (Deleted(c.users, i.users.value.value) != {} ==> i.core.delUsers)
          && (Added(Keys(c.users), i.users.value.value) != [] ==> i.core.addUsers)
        then i.users.value.value
        else c.users
  {
    hide L.StoreLimits, L.StoreUids, Added, Deleted, Keys, BuildNodeTag;
  }

  /** What names the controller has afterwards: only an unnamed node gets a new tag, when the panel
      sent a new node; the limiter it had stays registered under the old one. */
  lemma TagAfterTick(c: Node, i: Input, d: Node)
    requires Tick(c, i) == Alive(d)
    ensures d.host == c.host && d.name == c.name && d.nodeLimit == c.nodeLimit
    ensures
      if i.node.Got? && i.users.Got? && i.alive.Got? && i.node.value.Some? && c.name == ""
      then d.tag == BuildNodeTag(c.host, i.node.value.value) && d.registry == c.registry + {d.tag}
      else d.tag == c.tag && d.registry == c.registry
  {
    hide L.StoreLimits, L.StoreUids, Added, Deleted, Keys, BuildNodeTag;
  }

  /** A new node that the program runs under a name keeps its limiter, whatever users came with it:
      nobody new is let in and nobody is turned away until lists are compared again. */
  lemma NamedNodeKeepsLimiter(c: Node, i: Input, d: Node)
    requires Tick(c, i) == Alive(d) && c.name != ""
    requires i.node.Got? && i.users.Got? && i.alive.Got? && i.node.value.Some?
    ensures forall key :: key in d.limiter.limits <==> key in c.limiter.limits
    ensures d.limiter.limits == c.limiter.limits && d.limiter.uids == c.limiter.uids
    ensures d.limiter.online == c.limiter.online && d.limiter.previous == c.limiter.previous
    ensures d.limiter.buckets == c.limiter.buckets
  {
    hide L.StoreLimits, L.StoreUids, Added, Deleted, Keys, BuildNodeTag;
  }
}
