/**
 What trimming, printing and parsing of a DNS environment come to, in characters and pieces.
 */
module DnsLaws {
  import opened Basics
  import opened DnsEnv

  /** The code points that count as white space. */
  const SPACES: set<int> := {
    0x09, 0x0A, 0x0B, 0x0C, 0x0D, 0x20, 0x85, 0xA0, 0x1680,
    0x2000, 0x2001, 0x2002, 0x2003, 0x2004, 0x2005, 0x2006, 0x2007, 0x2008, 0x2009, 0x200A,
    0x2028, 0x2029, 0x202F, 0x205F, 0x3000
  }

  lemma SpaceIs(c: char)
    ensures IsSpace(c) <==> c as int in SPACES
  {
  }

  predicate AllSpaces(s: string) {
    forall c :: c in s ==> c as int in SPACES
  }

  lemma {:induction false} TrimLeftSplit(s: string) returns (pre: string)
    ensures s == pre + TrimLeft(s) && AllSpaces(pre)
  {
    hide SPACES, IsSpace;
    pre := "";
    if s != [] && IsSpace(s[0]) {
      SpaceIs(s[0]);
      var rest := TrimLeftSplit(s[1..]);
      pre := [s[0]] + rest;
    }
  }

  lemma {:induction false} TrimRightSplit(s: string) returns (post: string)
    ensures s == TrimRight(s) + post && AllSpaces(post)
  {
    hide SPACES, IsSpace;
    post := "";
    if s != [] && IsSpace(s[|s| - 1]) {
      SpaceIs(s[|s| - 1]);
      var rest := TrimRightSplit(s[..|s| - 1]);
      post := rest + [s[|s| - 1]];
    }
  }

  lemma {:induction false} TrimLeftSkips(pre: string, s: string)
    requires AllSpaces(pre) && (s == "" || s[0] as int !in SPACES)
    ensures TrimLeft(pre + s) == s
  {
    hide SPACES, IsSpace;
    if pre == "" {
      assert pre + s == s;
      if s != "" { SpaceIs(s[0]); }
    } else {
      SpaceIs(pre[0]);
      assert pre[0] in pre;
      assert (pre + s)[1..] == pre[1..] + s;
      assert forall c :: c in pre[1..] ==> c in pre;
      TrimLeftSkips(pre[1..], s);
    }
  }

  lemma {:induction false} TrimRightSkips(s: string, post: string)
    requires AllSpaces(post) && (s == "" || s[|s| - 1] as int !in SPACES)
    ensures TrimRight(s + post) == s
  {
    hide SPACES, IsSpace;
    if post == "" {
      assert s + post == s;
      if s != "" { SpaceIs(s[|s| - 1]); }
    } else {
      var last := |post| - 1;
      SpaceIs(post[last]);
      assert post[last] in post;
      assert (s + post)[..|s| + last] == s + post[..last];
      assert forall c :: c in post[..last] ==> c in post;
      TrimRightSkips(s, post[..last]);
    }
  }

  lemma {:induction false} TrimLeftBlank(s: string)
    requires AllSpaces(s)
    ensures TrimLeft(s) == ""
  {
    TrimLeftSkips(s, "");
    assert s + "" == s;
  }

  /** No space at either end. */
  predicate Bare(t: string) {
    t == "" || (t[0] as int !in SPACES && t[|t| - 1] as int !in SPACES)
  }

  /** The trimmed text is what is left between the spaces at both ends, and nothing else is. */
  lemma TrimSpaceIff(s: string, t: string)
    ensures t == TrimSpace(s) <==>
      Bare(t) && exists pre, post :: AllSpaces(pre) && AllSpaces(post) && s == pre + t + post
  {
    hide SPACES, IsSpace;
    if t == TrimSpace(s) {
      var pre := TrimLeftSplit(s);
      var post := TrimRightSplit(TrimLeft(s));
      if t != "" {
        assert TrimLeft(s)[0] == t[0];
        SpaceIs(t[0]);
        SpaceIs(t[|t| - 1]);
      }
      assert s == pre + t + post;
    }
    if Bare(t) && exists pre, post :: AllSpaces(pre) && AllSpaces(post) && s == pre + t + post {
      var pre, post :| AllSpaces(pre) && AllSpaces(post) && s == pre + t + post;
      if t == "" {
        assert AllSpaces(s);
        TrimLeftBlank(s);
      } else {
        assert s == pre + (t + post);
        TrimLeftSkips(pre, t + post);
        TrimRightSkips(t, post);
      }
    }
  }

  // ---------------------------------------------------------------------
  // Printing
  // ---------------------------------------------------------------------

  /** Each further item comes after a comma. */
  lemma {:induction false} JoinMore(items: seq<string>, item: string)
    ensures Join([]) == "" && Join([item]) == item
    ensures items != [] ==> Join(items + [item]) == Join(items) + "," + item
  {
    if |items| == 1 {
      assert (items + [item])[1..] == [item];
    } else if items != [] {
      assert (items + [item])[1..] == items[1..] + [item];
      JoinMore(items[1..], item);
    }
  }

  /** One item for each key that is not blank, in the order of the keys. */
  lemma {:induction false} PrintedItems(env: map<string, string>, keys: seq<string>)
    returns (from: seq<string>)
    requires Orders(env, keys)
    ensures |from| == |Items(env, keys)|
    ensures forall i :: 0 <= i < |from| ==>
      from[i] in env && Items(env, keys)[i] == TrimSpace(from[i]) + "=" + env[from[i]]
    ensures forall k :: k in from <==> k in env && !AllSpaces(k)
    ensures forall i, j :: 0 <= i < j < |from| ==> from[i] != from[j]
  {
    hide TrimSpace, SPACES;
    from := [];
    NoItems(env);
    for n := 0 to |keys|
      invariant |from| == |Items(env, keys[..n])|
      invariant forall i :: 0 <= i < |from| ==>
        from[i] in env && Items(env, keys[..n])[i] == TrimSpace(from[i]) + "=" + env[from[i]]
      invariant forall k :: k in from <==> k in keys[..n] && !AllSpaces(k)
      invariant forall i, j :: 0 <= i < j < |from| ==> from[i] != from[j]
    {
      var k := keys[n];
      ItemsMore(env, keys[..n], k);
      assert keys[..n + 1] == keys[..n] + [k];
      BlankIff(k);
      assert k !in keys[..n];
      if TrimSpace(k) != "" { from := from + [k]; }
    }
    assert keys[..|keys|] == keys;
  }

  lemma BlankIff(k: string)
    ensures TrimSpace(k) == "" <==> AllSpaces(k)
  {
    hide SPACES, TrimSpace;
    TrimSpaceIff(k, "");
    if AllSpaces(k) {
      assert AllSpaces("") && k == k + "" + "";
    }
    if TrimSpace(k) == "" {
      var pre, post :| AllSpaces(pre) && AllSpaces(post) && k == pre + "" + post;
      assert k == pre + post;
    }
  }

  /** How a field of an object is printed. */
  lemma TextsAre(fields: map<string, PanelValue>, k: string)
    requires k in fields
    ensures k in Texts(fields)
    ensures fields[k] == Null ==> Texts(fields)[k] == ""
    ensures fields[k].Text? ==> Texts(fields)[k] == fields[k].s
    ensures fields[k] == Flag(true) ==> Texts(fields)[k] == "1"
    ensures fields[k] == Flag(false) ==> Texts(fields)[k] == "0"
    ensures fields[k].Number? ==> Texts(fields)[k] == fields[k].decimal
    ensures fields[k].Array? || fields[k].Object? ==> Texts(fields)[k] == fields[k].json
  {
  }

  // ---------------------------------------------------------------------
  // Parsing
  // ---------------------------------------------------------------------

  /** A text without separators is one piece, if it is not empty; `FieldsSplit` is about the others. */
  lemma FieldsWhole(s: string)
    requires ',' !in s && '\n' !in s && '\r' !in s
    ensures Fields(s) == if s == "" then [] else [s]
  {
    assert Join([s]) == s;
    if s != "" { FieldsJoin([s]); }
  }

  /** The piece gives this key this value: key and value are what stands before and after its first
      equals sign, trimmed. */
  ghost predicate Gives(field: string, k: string, v: string) {
    exists a, b :: '=' !in a && field == a + "=" + b && k == TrimSpace(a) && v == TrimSpace(b)
  }

  lemma EqualsSplit(field: string)
    requires EqualsAt(field) < |field|
    ensures '=' !in field[..EqualsAt(field)]
    ensures field == field[..EqualsAt(field)] + "=" + field[EqualsAt(field) + 1..]
  {
    hide EqualsAt;
    CutAt(field, EqualsAt(field));
  }

  lemma CutAt(s: string, n: nat)
    requires n < |s|
    ensures s == s[..n] + [s[n]] + s[n + 1..]
  {
  }

  lemma EqualsParts(a: string, b: string)
    requires '=' !in a
    ensures
      var field := a + "=" + b;
      |a| == EqualsAt(field) < |field| && field[..|a|] == a && field[|a| + 1..] == b
  {
    EqualsAtKey(a, b);
  }

  lemma GivesAt(field: string, k: string, v: string)
    ensures Gives(field, k, v) <==>
      && EqualsAt(field) < |field| && k == TrimSpace(field[..EqualsAt(field)])
      && v == TrimSpace(field[EqualsAt(field) + 1..])
  {
    hide TrimSpace, EqualsAt;
    if EqualsAt(field) < |field| { EqualsSplit(field); }
    if Gives(field, k, v) {
      var a, b :| '=' !in a && field == a + "=" + b && k == TrimSpace(a) && v == TrimSpace(b);
      EqualsParts(a, b);
    }
  }

  lemma ReadGives(m: map<string, string>, field: string, k: string)
    requires k != ""
    ensures forall v :: Gives(field, k, v) ==> k in Read(m, field) && Read(m, field)[k] == v
    ensures (forall v :: !Gives(field, k, v)) ==> (k in Read(m, field) <==> k in m)
    ensures (forall v :: !Gives(field, k, v)) && k in m ==> Read(m, field)[k] == m[k]
  {
    hide TrimSpace, Gives;
    forall v ensures Gives(field, k, v) ==> k in Read(m, field) && Read(m, field)[k] == v {
      GivesAt(field, k, v);
    }
    if EqualsAt(field) < |field| {
      GivesAt(field, k, TrimSpace(field[EqualsAt(field) + 1..]));
    }
  }

  /** The piece at `i` is the last one that gives the key a value, and the value is `v`. */
  ghost predicate LastGives(fs: seq<string>, k: string, i: int, v: string) {
    0 <= i < |fs| && Gives(fs[i], k, v) && forall j, w :: i < j < |fs| ==> !Gives(fs[j], k, w)
  }

  /** Some piece gives the key a value. */
  ghost predicate SomeGives(fs: seq<string>, k: string) {
    exists i, v :: 0 <= i < |fs| && Gives(fs[i], k, v)
  }

  lemma NoBlankKey(m: map<string, string>, field: string)
    requires "" !in m
    ensures "" !in Read(m, field)
  {
    hide TrimSpace;
  }

  lemma {:induction false} ReadAllMore(m: map<string, string>, fields: seq<string>, field: string)
    ensures ReadAll(m, fields + [field]) == Read(ReadAll(m, fields), field)
    decreases |fields|
  {
    hide Read;
    if fields == [] {
      assert [field][1..] == [];
    } else {
      assert (fields + [field])[1..] == fields[1..] + [field];
      ReadAllMore(Read(m, fields[0]), fields[1..], field);
    }
  }

  lemma GivesMore(fs: seq<string>, field: string, k: string)
    ensures SomeGives(fs + [field], k) <==> SomeGives(fs, k) || exists v :: Gives(field, k, v)
    ensures forall v :: Gives(field, k, v) ==> LastGives(fs + [field], k, |fs|, v)
    ensures forall i, v :: LastGives(fs, k, i, v) && (forall w :: !Gives(field, k, w)) ==>
      LastGives(fs + [field], k, i, v)
  {
    hide Gives;
    assert (fs + [field])[|fs|] == field;
    assert forall i :: 0 <= i < |fs| ==> (fs + [field])[i] == fs[i];
  }

  lemma {:induction false} ReadAllGives(fs: seq<string>, k: string)
    ensures
      var m := ReadAll(map[], fs);
      && "" !in m
      && (k in m <==> k != "" && SomeGives(fs, k))
      && (k in m ==> exists i :: LastGives(fs, k, i, m[k]))
  {
    hide Read, Gives, LastGives;
    if fs != [] {
      var front, last := fs[..|fs| - 1], fs[|fs| - 1];
      var before := ReadAll(map[], front);
      ReadAllGives(front, k);
      ReadAllMore(map[], front, last);
      GivesMore(front, last, k);
      assert fs == front + [last];
      NoBlankKey(before, last);
      if k != "" { ReadGives(before, last, k); }
    }
  }

  /**
   What the plain form reads, for every text: a key is there if and only if it is not empty and some
   piece gives it a value, and its value is that of the last such piece.
   */
  lemma ParseIff(s: string, k: string)
    ensures k in Parse(s) <==> k != "" && SomeGives(Fields(TrimSpace(s)), k)
    ensures k in Parse(s) ==> exists i :: LastGives(Fields(TrimSpace(s)), k, i, Parse(s)[k])
  {
    hide Fields, TrimSpace, SomeGives, LastGives, ReadAll;
    ReadAllGives(Fields(TrimSpace(s)), k);
  }
}
