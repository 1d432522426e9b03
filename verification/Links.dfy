/**
 The links of a user: writers registered with their readers, and closing them all.

 Closing a managed writer removes it from the very table that `CloseAll` is ranging over.
 */
module Links {
  import opened Basics

  datatype Writer = Writer(id: nat)

  datatype Reader = Reader(id: nat)

  /** A manager as a value: what is registered, and how often each writer was closed and each
      reader interrupted through it. */
  datatype Manager = Manager(links: map<Writer, Reader>, closes: multiset<Writer>, interrupts: multiset<Reader>)

  const NO_LINKS := Manager(map[], multiset{}, multiset{})

  function Linked(m: Manager, w: Writer, r: Reader): Manager {
    m.(links := m.links[w := r])
  }

  function WriterClosed(m: Manager, w: Writer): Manager {
    m.(links := m.links - {w}, closes := m.closes + multiset{w})
  }

  /** Every registered writer closed once and its reader interrupted once. */
  ghost function AllClosed(m: Manager): Manager {
    Manager(map[], m.closes + multiset(m.links.Keys), m.interrupts + ReaderBag(m.links))
  }

  /** The readers of a table, each as often as it occurs. */
  ghost function ReaderBag(links: map<Writer, Reader>): multiset<Reader>
    decreases |links|
  {
    if links == map[] then multiset{}
    else
      assert links.Keys != {};
      var w :| w in links;
      Shrinks(links, w);
      ReaderBag(links - {w}) + multiset{links[w]}
  }

  class LinkManager {
    var links: map<Writer, Reader>
    /** The underlying writers closed and the readers interrupted so far, in order. */
    ghost var closes: seq<Writer>
    ghost var interrupts: seq<Reader>

    ghost function Value(): Manager
      reads this
    {
      Manager(links, multiset(closes), multiset(interrupts))
    }

    constructor ()
      ensures Value() == NO_LINKS
    {
      links := map[];
      closes, interrupts := [], [];
    }

    method AddLink(w: Writer, r: Reader)
      modifies this`links
      ensures Value() == Linked(old(Value()), w, r)
    {
      links := links[w := r];
    }

    method RemoveWriter(w: Writer)
      modifies this`links
      ensures links == old(links) - {w}
    {
      links := links - {w};
    }

    /** `ManagedWriter.Close` of a writer of this manager. */
    method CloseWriter(w: Writer)
      modifies this`links, this`closes
      ensures links == old(links) - {w}
      ensures closes == old(closes) + [w]
      ensures Value() == WriterClosed(old(Value()), w)
    {
      RemoveWriter(w);
      closes := closes + [w];
    }

    /** Ranges over the table while every round removes an entry from it. A range produces each
        entry at most once and none that is gone. Every writer is closed exactly once, every
        reader interrupted exactly once, in one order, and the table ends empty. */
    method CloseAll() returns (ghost order: seq<Writer>)
      modifies this`links, this`closes, this`interrupts
      ensures links == map[]
      ensures forall i, j :: 0 <= i < j < |order| ==> order[i] != order[j]
      ensures forall w :: w in order <==> w in old(links)
      ensures closes == old(closes) + order
      ensures interrupts == old(interrupts) + ReadersOf(old(links), order)
      ensures Value() == AllClosed(old(Value()))
    {
      hide ReadersOf, AllClosed, Ranged, Enumerates;
      order := [];
      var produced: set<Writer> := {};
      ghost var was := links;
      RangedNothing(was);
      while links.Keys - produced != {}
        invariant Ranged(was, links, produced, order)
        invariant closes == old(closes) + order
        invariant interrupts == old(interrupts) + ReadersOf(was, order)
        decreases |links|
      {
        var w :| w in links.Keys - produced;
        var r := links[w];
        Shrinks(links, w);
        RangedMore(was, links, produced, order, w);
        Snoc(old(closes), order, w);
        Snoc(old(interrupts), ReadersOf(was, order), r);
        produced := produced + {w};
        CloseWriter(w);
        order := order + [w];
        interrupts := interrupts + [r];
      }
      RangedAll(was, links, produced, order);
      AllClosedIs(was, order, old(closes), old(interrupts));
    }
  }

  /** The range over `was` has produced `produced`, in the order `order`, and `links` is left. */
  ghost predicate Ranged(was: map<Writer, Reader>, links: map<Writer, Reader>, produced: set<Writer>,
                         order: seq<Writer>) {
    && produced !! links.Keys && produced + links.Keys == was.Keys
    && (forall w :: w in links ==> links[w] == was[w])
    && (forall w :: w in order <==> w in produced)
    && (forall i, j :: 0 <= i < j < |order| ==> order[i] != order[j])
  }

  lemma RangedMore(was: map<Writer, Reader>, links: map<Writer, Reader>, produced: set<Writer>, order: seq<Writer>,
                   w: Writer)
    requires Ranged(was, links, produced, order) && w in links
    ensures Ranged(was, links - {w}, produced + {w}, order + [w])
    ensures links[w] == was[w]
    ensures ReadersOf(was, order + [w]) == ReadersOf(was, order) + [links[w]]
  {
    hide ReadersOf;
    ReadersMore(was, order, w);
    assert forall x :: x in order + [w] <==> x in order || x == w;
  }

  lemma RangedAll(was: map<Writer, Reader>, links: map<Writer, Reader>, produced: set<Writer>, order: seq<Writer>)
    requires Ranged(was, links, produced, order) && links.Keys - produced == {}
    ensures links == map[] && Enumerates(order, was.Keys)
    ensures forall w :: w in order <==> w in was
    ensures forall i, j :: 0 <= i < j < |order| ==> order[i] != order[j]
  {
    assert links.Keys == links.Keys - produced;
  }

  /** The readers of a sequence of writers, in its order. */
  ghost function ReadersOf(links: map<Writer, Reader>, order: seq<Writer>): (rs: seq<Reader>) {
    if order == [] then []
    else
      var last := order[|order| - 1];
      ReadersOf(links, order[..|order| - 1]) + if last in links then [links[last]] else []
  }

  lemma RangedNothing(links: map<Writer, Reader>)
    ensures Ranged(links, links, {}, []) && ReadersOf(links, []) == []
  {
  }

  lemma Snoc<T>(a: seq<T>, b: seq<T>, x: T)
    ensures a + b + [x] == a + (b + [x])
  {
  }

  lemma ReadersMore(links: map<Writer, Reader>, order: seq<Writer>, w: Writer)
    requires w in links
    ensures ReadersOf(links, order + [w]) == ReadersOf(links, order) + [links[w]]
  {
    assert (order + [w])[..|order|] == order;
  }

  // ---------------------------------------------------------------------
  // Writers and readers as multisets
  // ---------------------------------------------------------------------

  ghost predicate Enumerates(order: seq<Writer>, writers: set<Writer>) {
    && (forall w :: w in order <==> w in writers)
    && (forall i, j :: 0 <= i < j < |order| ==> order[i] != order[j])
  }

  lemma EnumeratesFront(order: seq<Writer>, writers: set<Writer>)
    requires Enumerates(order, writers) && order != []
    ensures order[|order| - 1] in writers
    ensures Enumerates(order[..|order| - 1], writers - {order[|order| - 1]})
  {
    var n := |order| - 1;
    assert order == order[..n] + [order[n]];
    assert order[n] in order;
    forall w ensures w in order[..n] <==> w in writers - {order[n]} {
      assert w in order <==> w in order[..n] || w == order[n];
    }
  }

  lemma {:induction false} OrderBag(writers: set<Writer>, order: seq<Writer>)
    requires Enumerates(order, writers)
    ensures multiset(order) == multiset(writers)
  {
    if order == [] {
      assert writers == {};
    } else {
      var n := |order| - 1;
      EnumeratesFront(order, writers);
      OrderBag(writers - {order[n]}, order[..n]);
      assert order == order[..n] + [order[n]];
      assert writers == (writers - {order[n]}) + {order[n]};
    }
  }

  lemma AllClosedIs(was: map<Writer, Reader>, order: seq<Writer>, closes: seq<Writer>, interrupts: seq<Reader>)
    requires Enumerates(order, was.Keys)
    ensures Manager(map[], multiset(closes + order), multiset(interrupts + ReadersOf(was, order)))
         == AllClosed(Manager(was, multiset(closes), multiset(interrupts)))
  {
    hide ReadersOf, ReaderBag;
    OrderBag(was.Keys, order);
    ReadersBag(was, order);
  }

  lemma FirstOfBag(links: map<Writer, Reader>) returns (w: Writer)
    requires links != map[]
    ensures w in links && ReaderBag(links) == ReaderBag(links - {w}) + multiset{links[w]}
  {
    assert links.Keys != {};
    w :| w in links && ReaderBag(links) == ReaderBag(links - {w}) + multiset{links[w]};
  }

  /** The multiset does not depend on the writer taken first. */
  lemma {:induction false} BagAt(links: map<Writer, Reader>, w: Writer)
    requires w in links
    ensures ReaderBag(links) == ReaderBag(links - {w}) + multiset{links[w]}
    decreases |links|
  {
    hide ReaderBag;
    var v := FirstOfBag(links);
    if v != w {
      Shrinks(links, v);
      Shrinks(links, w);
      BagAt(links - {v}, w);
      BagAt(links - {w}, v);
      assert links - {v} - {w} == links - {w} - {v};
    }
  }

  lemma NoReaders()
    ensures ReaderBag(map[]) == multiset{}
  {
  }

  lemma {:induction false} ReadersBag(links: map<Writer, Reader>, order: seq<Writer>)
    requires Enumerates(order, links.Keys)
    ensures multiset(ReadersOf(links, order)) == ReaderBag(links)
    decreases |order|
  {
    hide ReaderBag, ReadersOf;
    if order == [] {
      assert links == map[];
      NoReaders();
      NoReadersOf(links);
    } else {
      var n := |order| - 1;
      var w, front := order[n], order[..n];
      EnumeratesFront(order, links.Keys);
      assert (links - {w}).Keys == links.Keys - {w};
      ReadersBag(links - {w}, front);
      ReadersWithout(links, front, w);
      ReadersMore(links, front, w);
      assert order == front + [w];
      BagAt(links, w);
    }
  }

  lemma NoReadersOf(links: map<Writer, Reader>)
    ensures ReadersOf(links, []) == []
  {
  }

  lemma {:induction false} ReadersWithout(links: map<Writer, Reader>, order: seq<Writer>, w: Writer)
    requires w !in order
    ensures ReadersOf(links - {w}, order) == ReadersOf(links, order)
  {
    if order != [] {
      assert order[|order| - 1] in order;
      ReadersWithout(links, order[..|order| - 1], w);
    }
  }

  /** When no two writers share a reader, each reader occurs once. */
  lemma {:induction false} BagCount(links: map<Writer, Reader>, r: Reader)
    requires forall v, w :: v in links && w in links && v != w ==> links[v] != links[w]
    ensures ReaderBag(links)[r] == if exists w :: w in links && links[w] == r then 1 else 0
    decreases |links|
  {
    hide ReaderBag;
    if links == map[] {
      NoReaders();
    } else {
      assert links.Keys != {};
      var v :| v in links;
      Shrinks(links, v);
      BagAt(links, v);
      BagCount(links - {v}, r);
      if w :| w in links && links[w] == r {
        assert w != v ==> w in links - {v} && (links - {v})[w] == r;
      }
    }
  }
}
