/**
 The reader that hands out the cleaned configuration in pieces of any size.
 */
module Json5Reader {
  import opened Basics
  import opened Json5

  /** One attempt to drain the underlying reader: the bytes it gave and whether it ended well. */
  datatype Drain = Drain(data: text, ok: bool)

  datatype ReadError = NoError | EOF | Failed

  /** The underlying reader, as the outcomes of successive attempts to drain it. */
  class Source {
    var drains: seq<Drain>

    constructor (drains: seq<Drain>)
      ensures this.drains == drains
    {
      this.drains := drains;
    }

    /** The outcome of the next attempt; an exhausted reader gives no bytes and no error. */
    ghost function Next(): (d: Drain)
      reads this
    {
      if drains == [] then Drain([], true) else drains[0]
    }

    method Copy() returns (d: Drain)
      modifies this
      ensures d == old(Next())
      ensures drains == if old(drains) == [] then [] else old(drains)[1..]
    {
      if drains == [] {
        d := Drain([], true);
      } else {
        d := drains[0];
        drains := drains[1..];
      }
    }
  }

  /** Copies as much of `t` as fits to the front of `p`. */
  method CopyInto(p: array<byte>, t: text) returns (n: nat)
    modifies p
    ensures n == Min(p.Length, |t|)
    ensures p[..n] == t[..n]
    ensures p[n..] == old(p[..])[n..]
  {
    n := 0;
    while n < p.Length && n < |t|
      invariant n <= p.Length && n <= |t|
      invariant p[..n] == t[..n]
      invariant p[n..] == old(p[..])[n..]
    {
      p[n] := t[n];
      n := n + 1;
    }
  }

  datatype Cleaned = Pending | Ready(s: text, pos: nat)

  class TrimNodeReader {
    const r: Source
    var br: Cleaned

    ghost predicate Valid()
      reads this
    {
      br.Ready? ==> br.pos <= |br.s|
    }

    constructor (r: Source)
      ensures Valid() && this.r == r && br == Pending
    {
      this.r := r;
      br := Pending;
    }

    /** The bytes still to be handed out, if the text is or will be there. */
    ghost function Rest(): (t: text)
      requires Valid()
      reads this, r
    {
      match br
      case Ready(s, pos) => s[pos..]
      case Pending => if r.Next().ok then Clean(r.Next().data) else []
    }

    /** Reads into `p`: hands out the next bytes of the cleaned text in order. The text is drained
        and cleaned by the first call that succeeds; a failed drain hands out nothing, keeps no
        bytes and leaves the next call to try again. */
    method Read(p: array<byte>) returns (n: nat, err: ReadError)
      requires Valid()
      modifies this, r, p
      ensures Valid() && n <= p.Length
      ensures old(br.Pending? && !r.Next().ok) ==> n == 0 && err == Failed && br == Pending
      ensures !old(br.Pending? && !r.Next().ok) ==>
        && br.Ready?
        && err == (if old(Rest()) == [] then EOF else NoError)
        && n == Min(p.Length, |old(Rest())|)
        && p[..n] + Rest() == old(Rest())
      ensures p[n..] == old(p[..])[n..]
      ensures old(br.Ready?) ==> r.drains == old(r.drains)
    {
      hide Clean;
      n := 0;
      if br.Pending? {
        var d := r.Copy();
        if !d.ok {
          err := Failed;
          return;
        }
        var s := new byte[|d.data|](i requires 0 <= i < |d.data| => d.data[i]);
        assert s[..] == d.data;
        Prep(s);
        br := Ready(s[..], 0);
      }
      assert br.s[br.pos..] == old(Rest());
      if br.pos >= |br.s| {
        err := EOF;
        return;
      }
      err := NoError;
      ghost var rest := br.s[br.pos..];
      n := CopyInto(p, br.s[br.pos..]);
      br := Ready(br.s, br.pos + n);
      assert br.s[br.pos..] == rest[n..];
      assert rest[..n] + rest[n..] == rest;
    }

    /** Reads to the end with buffers of any size, as the callers of the reader do: the pieces
        together are the cleaned text of the drain, whole and in order. */
    method ReadAll() returns (data: text, err: ReadError)
      requires Valid() && br == Pending
      modifies this, r
      ensures old(r.Next()).ok ==> err == NoError && data == Clean(old(r.Next()).data)
      ensures !old(r.Next()).ok ==> err == Failed && data == [] && br == Pending
    {
      hide Clean;
      data := [];
      ghost var whole := Rest();
      while true
        invariant Valid() && data + Rest() == whole
        invariant br.Pending? ==> data == [] && r.Next() == old(r.Next())
        invariant br.Ready? ==> old(r.Next()).ok
        decreases br.Pending?, |Rest()|
      {
        var size: nat :| 0 < size;
        var p := new byte[size](_ => 0);
        var n;
        ghost var before, rest := data, Rest();
        n, err := Read(p);
        if err == Failed {
          return;
        }
        data := data + p[..n];
        assert before + rest == data + Rest();
        if err == EOF {
          err := NoError;
          return;
        }
      }
    }
  }
}
