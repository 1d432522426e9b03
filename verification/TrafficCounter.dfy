/**
 The shared table of traffic counters, as objects: a connection keeps the storage it got, and adds
 to it even after the user's entry is gone.
 */
module TrafficCounter {
  import opened Basics
  import opened Traffic

  class TrafficStorage {
    var up: int
    var down: int

    constructor ()
      ensures Value() == Pair(0, 0)
    {
      up, down := 0, 0;
    }

    ghost function Value(): Pair
      reads this
    {
      Pair(up, down)
    }

    method Add(dir: Dir, n: int)
      modifies this
      ensures Value() == old(Value()).Set(dir, old(Value()).At(dir) + n)
    {
      match dir {
        case Up => up := up + n;
        case Down => down := down + n;
      }
    }
  }

  class TrafficCounter {
    var counters: map<string, TrafficStorage>

    /** No two users share a storage. */
    ghost predicate Valid()
      reads this
    {
      forall u, v :: u in counters && v in counters && u != v ==> counters[u] != counters[v]
    }

    ghost function Value(): map<string, Pair>
      reads this, counters.Values
    {
      map u | u in counters :: counters[u].Value()
    }

    constructor ()
      ensures Valid() && Value() == map[]
    {
      counters := map[];
    }

    /** The storage of a user: the one in the table, or a new one at zero. */
    method GetCounter(uuid: string) returns (ts: TrafficStorage)
      requires Valid()
      modifies this
      ensures Valid() && uuid in counters && counters[uuid] == ts
      ensures if uuid in old(counters) then counters == old(counters)
        else fresh(ts) && ts.Value() == Pair(0, 0) && counters == old(counters)[uuid := ts]
      ensures Value() == if uuid in old(Value()) then old(Value()) else old(Value())[uuid := Pair(0, 0)]
    {
      if uuid in counters {
        return counters[uuid];
      }
      ts := new TrafficStorage();
      counters := counters[uuid := ts];
    }

    method Rx(uuid: string, n: int)
      requires Valid()
      modifies this, counters.Values
      ensures Valid() && Value() == AddTo(old(Value()), uuid, Down, n)
    {
      var cts := GetCounter(uuid);
      cts.Add(Down, n);
    }

    method Tx(uuid: string, n: int)
      requires Valid()
      modifies this, counters.Values
      ensures Valid() && Value() == AddTo(old(Value()), uuid, Up, n)
    {
      var cts := GetCounter(uuid);
      cts.Add(Up, n);
    }

    /** A connection adds to the storage it got: to the user's counter while that storage is the
        one in the table, and to nothing that will be collected once it is not. */
    method AddThrough(ts: TrafficStorage, ghost uuid: string, dir: Dir, n: int)
      requires Valid() && (ts in counters.Values ==> uuid in counters && counters[uuid] == ts)
      modifies ts
      ensures Valid()
      ensures Value() == if ts in counters.Values then AddTo(old(Value()), uuid, dir, n) else old(Value())
    {
      ts.Add(dir, n);
      assert ts !in counters.Values ==> forall u :: u in counters ==> counters[u] in counters.Values;
    }

    method GetUpCount(uuid: string) returns (n: int)
      ensures n == if uuid in Value() then Value()[uuid].up else 0
    {
      n := if uuid in counters then counters[uuid].up else 0;
    }

    method GetDownCount(uuid: string) returns (n: int)
      ensures n == if uuid in Value() then Value()[uuid].down else 0
    {
      n := if uuid in counters then counters[uuid].down else 0;
    }

    method Reset(uuid: string)
      requires Valid()
      modifies counters.Values
      ensures Valid()
      ensures Value() == if uuid in old(Value()) then old(Value())[uuid := Pair(0, 0)] else old(Value())
    {
      if uuid in counters {
        counters[uuid].up := 0;
        counters[uuid].down := 0;
      }
    }

    /** Removes the entry; the storage itself lives on with the connections that have it. */
    method Delete(uuid: string)
      requires Valid()
      modifies this
      ensures Valid() && counters == old(counters) - {uuid}
      ensures Value() == old(Value()) - {uuid}
    {
      counters := counters - {uuid};
    }
  }

  /** A connection that outlives its user's entry: what it adds afterwards is in no counter, though
      the user may be back with a new one. */
  method DetachedAdds(c: TrafficCounter, uuid: string, dir: Dir, n: int)
    requires c.Valid() && uuid in c.counters
    modifies c, c.counters.Values
    ensures c.Valid() && c.Value() == (old(c.Value()) - {uuid})[uuid := Pair(0, 0)]
  {
    hide AddTo;
    var ts := c.GetCounter(uuid);
    c.Delete(uuid);
    assert ts !in c.counters.Values;
    var back := c.GetCounter(uuid);
    c.AddThrough(ts, uuid, dir, n);
  }
}
