/**
 What several modules need and nobody owns.
 */
module Basics {

  datatype Option<+T> = None | Some(value: T)

  newtype byte = b: int | 0 <= b < 256

  type text = seq<byte>

  function Min(a: nat, b: nat): nat { if a <= b then a else b }

  /** The directions of traffic, and an amount for each. */
  datatype Dir = Up | Down

  datatype Pair = Pair(up: int, down: int) {
    function At(d: Dir): int {
      if d.Up? then up else down
    }

    function Set(d: Dir, n: int): Pair {
      if d.Up? then this.(up := n) else this.(down := n)
    }
  }

  /** Removing an entry makes a map smaller. */
  lemma Shrinks<K, V>(m: map<K, V>, k: K)
    requires k in m
    ensures |m - {k}| < |m|
  {
    assert m == (m - {k})[k := m[k]];
  }
}
