/**
 The periodic tick that keeps a node's user list and its limiter in step with the panel.

 `Tick` is the meaning of one tick on the part of the controller that it changes; the class
 `Controller` performs it on its fields and on a limiter object.
 */
module NodeSync {
  import opened Basics
  import opened Panel
  import opened L = Limiter
  import opened UserList

  /** A panel request: it failed, or it gave a value. */
  datatype Reply<+T> = Failed | Got(value: T)

  /** Everything one tick learns from the panel and from the proxy core. A missing node or user
      list means "not modified". */
  datatype Input = Input(
    node: Reply<Option<NodeInfo>>,
    users: Reply<Option<seq<UserInfo>>>,
    alive: Reply<Option<map<int, int>>>,
    core: CoreOutcome)

  /** Which of the core calls of a tick would succeed. */
  datatype CoreOutcome = CoreOutcome(delNode: bool, cert: bool, addNode: bool, addUsers: bool, delUsers: bool)

  /** The part of the controller that a tick reads or changes. `registry` is the program-wide table
      of limiters by node tag; it is modelled by the tags it has. */
  datatype Node = Node(
    host: string,
    name: string,
    nodeLimit: int,
    tag: string,
    users: seq<UserInfo>,
    limiter: State,
    registry: set<string>)

  /** How a tick ends: normally, or with the process. */
  datatype Outcome = Alive(node: Node) | Panicked

  function BuildNodeTag(host: string, n: NodeInfo): string {
    "[" + host + "]-" + n.kind + ":" + Itoa(n.id)
  }

  function UsersOf(u: Option<seq<UserInfo>>): seq<UserInfo> {
    match u
    case None => []
    case Some(users) => users
  }

  function AliveOr(s: State, alive: Option<map<int, int>>): State {
    match alive
    case None => s
    case Some(a) => s.(alive := a)
  }

  function AliveMap(alive: Option<map<int, int>>): map<int, int> {
    match alive
    case None => map[]
    case Some(a) => a
  }

  /** The tick when the panel sent a new node. */
  function Changed(c: Node, n: NodeInfo, users: Option<seq<UserInfo>>, alive: Option<map<int, int>>,
                   core: CoreOutcome): Outcome {
    var list := if users.Some? then users.value else c.users;
    if !core.delNode then Panicked
    else
      var tag := if c.name == "" then BuildNodeTag(c.host, n) else c.tag;
      var limiter := if c.name == "" then L.Fresh(c.nodeLimit, tag, list, AliveMap(alive)) else c.limiter;
      var registry := if c.name == "" then c.registry + {tag} else c.registry;
      if (n.tls && !core.cert) || core.addNode
      then Alive(c.(tag := tag, users := list, limiter := AliveOr(limiter, alive), registry := registry))
      else Panicked
  }

  /** Does the tick reach the limiter? Only when both core calls it needed succeeded. */
  ghost predicate Applies(c: Node, list: seq<UserInfo>, core: CoreOutcome) {
    && (Deleted(c.users, list) != {} ==> core.delUsers)
    && (Added(Keys(c.users), list) != [] ==> core.addUsers)
  }

  /** The tick when the node is unchanged. */
  ghost function Unchanged(c: Node, users: Option<seq<UserInfo>>, alive: Option<map<int, int>>,
                           core: CoreOutcome): Node {
    var list := UsersOf(users);
    var d := c.(limiter := AliveOr(c.limiter, alive));
    if list == [] || !Applies(c, list, core) then d
    else
      d.(limiter := L.Update(d.limiter, c.tag, Added(Keys(c.users), list), Deleted(c.users, list)), users := list)
  }

  ghost function Tick(c: Node, i: Input): Outcome {
    if i.node.Failed? || i.users.Failed? || i.alive.Failed? then Alive(c)
    else
      match i.node.value
      case Some(n) => Changed(c, n, i.users.value, i.alive.value, i.core)
      case None => Alive(Unchanged(c, i.users.value, i.alive.value, i.core))
  }

  class Controller {
    const host: string
    const name: string
    const speedLimit: int
    var tag: string
    var limiter: L.Limiter
    var userList: seq<UserInfo>
    var registry: map<string, L.Limiter>

    ghost function Value(): Node
      reads this, limiter
    {
      Node(host, name, speedLimit, tag, userList, limiter.Tables(), registry.Keys)
    }

    /** The limiter that connections look up under the current tag is the controller's own. */
    ghost predicate Valid()
      reads this, limiter
    {
      tag in registry && registry[tag] == limiter && limiter.speedLimit == speedLimit
    }

    /** The controller once the node runs with its first user list. */
    constructor (host: string, name: string, speedLimit: int, n: NodeInfo, users: seq<UserInfo>, alive: map<int, int>)
      ensures Valid()
      ensures
        var t := if name == "" then BuildNodeTag(host, n) else name;
        Value() == Node(host, name, speedLimit, t, users, L.Fresh(speedLimit, t, users, alive), {t})
    {
      this.host, this.name, this.speedLimit := host, name, speedLimit;
      var t := if name == "" then BuildNodeTag(host, n) else name;
      tag := t;
      userList := users;
      var l := new L.Limiter(speedLimit, t, users, alive);
      limiter := l;
      registry := map[t := l];
    }

    /** One tick. It returns false where the program ends the process. */
    method NodeInfoMonitor(i: Input) returns (alive: bool)
      requires Valid()
      modifies this, limiter
      ensures alive ==> Valid() && Tick(old(Value()), i) == Alive(Value())
      ensures !alive ==> Tick(old(Value()), i) == Panicked
      ensures limiter == old(limiter) || fresh(limiter)
    {
      hide L.StoreLimits, L.StoreUids, L.Update, Added, Deleted, Keys, BuildNodeTag;
      if i.node.Failed? {
        return true;
      }
      if i.users.Failed? {
        return true;
      }
      if i.alive.Failed? {
        return true;
      }
      var newU, newA := i.users.value, i.alive.value;
      if i.node.value.Some? {
        alive := Reload(i.node.value.value, newU, newA, i.core);
        return;
      }
      if newA.Some? {
        limiter.UpdateAlive(newA.value);
      }
      if |UsersOf(newU)| == 0 {
        return true;
      }
      SyncUsers(UsersOf(newU), i.core);
      return true;
    }

    /** The changed-node branch of the tick. */
    method Reload(n: NodeInfo, newU: Option<seq<UserInfo>>, newA: Option<map<int, int>>, core: CoreOutcome)
      returns (alive: bool)
      requires Valid()
      modifies this, limiter
      ensures alive ==> Valid() && Changed(old(Value()), n, newU, newA, core) == Alive(Value())
      ensures !alive ==> Changed(old(Value()), n, newU, newA, core) == Panicked
      ensures limiter == old(limiter) || fresh(limiter)
    {
      hide L.StoreLimits, L.StoreUids, BuildNodeTag;
      if newU.Some? {
        userList := newU.value;
      }
      if !core.delNode {
        return false;
      }
      if |name| == 0 {
        ReplaceLimiter(n, newA);
      }
      if newA.Some? {
        limiter.UpdateAlive(newA.value);
      }
      if n.tls {
        if !core.cert {
          return true;
        }
      }
      if !core.addNode {
        return false;
      }
      return true;
    }

    /** Gives an unnamed node a new tag and a new limiter. The entry that is deleted first is the one
        under the new tag, so an entry under a different old tag stays. */
    method ReplaceLimiter(n: NodeInfo, newA: Option<map<int, int>>)
      modifies this`tag, this`registry, this`limiter
      ensures Valid() && fresh(limiter)
      ensures tag == BuildNodeTag(host, n)
      ensures limiter.Tables() == L.Fresh(speedLimit, tag, userList, AliveMap(newA))
      ensures registry.Keys == old(registry).Keys + {tag}
    {
      hide L.StoreLimits, L.StoreUids, BuildNodeTag;
      tag := BuildNodeTag(host, n);
      registry := registry - {tag};
      var l := new L.Limiter(speedLimit, tag, userList, AliveMap(newA));
      registry := registry[tag := l];
      limiter := l;
      assert registry.Keys == old(registry).Keys + {tag};
    }

    /** The user part of a tick with an unchanged node: compare, tell the core, and only then
        update the limiter and keep the new list. */
    method SyncUsers(newU: seq<UserInfo>, core: CoreOutcome)
      requires Valid()
      modifies this`userList, limiter
      ensures Valid()
      ensures Value() == if !Applies(old(Value()), newU, core) then old(Value()) else
        old(Value()).(limiter := L.Update(old(Value()).limiter, tag,
                                          Added(Keys(old(userList)), newU), Deleted(old(userList), newU)),
                      users := newU)
    {
      hide L.Update, Added, Deleted, Keys;
      var deleted, added := CompareUserList(userList, newU);
      assert Elements(deleted) == {} <==> deleted == [] by {
        if deleted != [] { assert deleted[0] in Elements(deleted); }
      }
      if |deleted| > 0 {
        if !core.delUsers {
          return;
        }
      }
      if |added| > 0 {
        if !core.addUsers {
          return;
        }
      }
      if |added| > 0 || |deleted| > 0 {
        limiter.UpdateUser(tag, added, deleted);
      } else {
        UpdateNothing(limiter.Tables(), tag);
      }
      userList := newU;
    }
  }

  lemma UpdateNothing(s: State, tag: string)
    ensures L.Update(s, tag, [], {}) == s
  {
    L.RemoveNothing(s, tag);
  }
}
