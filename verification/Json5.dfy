/**
 The configuration cleaner: an in-place scanner that turns JSON with comments
 and trailing commas into plain JSON by overwriting bytes with spaces.

 `Clean` is the meaning of one run, defined on values by recursion over the text
 that is still to be scanned; `Prep` is the scanner itself, over an array.
 */
module Json5 {
  import opened Basics

  const QUOTE: byte := 34
  const STAR: byte := 42
  const COMMA: byte := 44
  const SLASH: byte := 47
  const BACKSLASH: byte := 92
  const SPACE: byte := 32
  const TAB: byte := 9
  const LF: byte := 10
  const CR: byte := 13
  const OPEN_BRACKET: byte := 91
  const CLOSE_BRACKET: byte := 93
  const OPEN_BRACE: byte := 123
  const CLOSE_BRACE: byte := 125
  const COLON: byte := 58

  predicate IsNL(c: byte) { c == LF || c == CR }

  predicate IsWS(c: byte) { c == SPACE || c == TAB || IsNL(c) }

  predicate IsClose(c: byte) { c == CLOSE_BRACE || c == CLOSE_BRACKET }

  // ---------------------------------------------------------------------
  // Meaning of the scanner
  // ---------------------------------------------------------------------

  /** Length of the string literal body at the front of `t`, closing quote included;
      it may pass the end of `t` by one when the text ends with a backslash. */
  function StringStop(t: text): (n: nat)
    ensures n <= |t| + 1
    ensures t != [] ==> 0 < n
  {
    if t == [] then 0
    else if t[0] == QUOTE then 1
    else if t[0] == BACKSLASH then
      if |t| == 1 then 2 else 2 + StringStop(t[2..])
    else 1 + StringStop(t[1..])
  }

  /** Bytes of `t` before the end of the line. */
  function LineStop(t: text): (n: nat)
    ensures n <= |t|
  {
    if t == [] || IsNL(t[0]) then 0 else 1 + LineStop(t[1..])
  }

  /** `t` after its first line was blanked. */
  function LineOut(t: text): (o: text)
    ensures |o| == |t|
  {
    if t == [] || IsNL(t[0]) then t else [SPACE] + LineOut(t[1..])
  }

  /** Where the scan of a block comment body `t` stops: at the slash that closes it, or
      past the end by at most one. A star that does not close skips the byte after it. */
  function BlockStop(t: text): (n: nat)
    ensures n <= |t| + 1
  {
    if t == [] then 0
    else if t[0] != STAR then 1 + BlockStop(t[1..])
    else if |t| == 1 then 2
    else if t[1] == SLASH then 1
    else 2 + BlockStop(t[2..])
  }

  /** The whole of `t` after the scan of a block comment body at its front. */
  function BlockOut(t: text): (o: text)
    ensures |o| == |t|
  {
    if t == [] then []
    else if t[0] != STAR || |t| == 1 then [SPACE] + BlockOut(t[1..])
    else if t[1] == SLASH then [SPACE, SPACE] + t[2..]
    else [SPACE, t[1]] + BlockOut(t[2..])
  }

  /** Where `ConsumeComment` stops, counted from the slash at the front of `t`. */
  function CommentStop(t: text): (n: nat)
    requires t != [] && t[0] == SLASH
    ensures 1 <= n <= |t| + 1
  {
    if |t| > 1 && t[1] == SLASH then 1 + LineStop(t[1..])
    else if |t| > 1 && t[1] == STAR then 2 + BlockStop(t[2..])
    else 1
  }

  /** The whole of `t` after `ConsumeComment` ran on the slash at its front. */
  function CommentOut(t: text): (o: text)
    requires t != [] && t[0] == SLASH
    ensures |o| == |t|
  {
    if |t| > 1 && t[1] == SLASH then [SPACE] + LineOut(t[1..])
    else if |t| > 1 && t[1] == STAR then [SPACE, SPACE] + BlockOut(t[2..])
    else t
  }

  /** What follows a comma: the text as left behind, where the look-ahead stopped, and
      whether it stopped at a closing bracket. */
  datatype Ahead = Ahead(out: text, stop: nat, closes: bool)

  function LookAhead(t: text): (a: Ahead)
    ensures |a.out| == |t|
    ensures a.stop <= |t| + 2
    decreases |t|
  {
    if t == [] then Ahead([], 0, false)
    else if t[0] == SLASH || IsWS(t[0]) then
      var o := if t[0] == SLASH then CommentOut(t) else t;
      var n := if t[0] == SLASH then CommentStop(t) + 1 else 1;
      if n > |t| then Ahead(o, n, false)
      else
        var a := LookAhead(o[n..]);
        Ahead(o[..n] + a.out, n + a.stop, a.closes)
    else Ahead(t, 0, IsClose(t[0]))
  }

  /** One round of the scan: the text it leaves, of which the first `done` bytes are final. */
  datatype Round = Round(out: text, done: nat)

  function Scan(t: text): (r: Round)
    requires t != []
    ensures |r.out| == |t| && 1 <= r.done <= |t|
  {
    if t[0] == QUOTE then Round(t, Min(1 + StringStop(t[1..]), |t|))
    else if t[0] == SLASH then Round(CommentOut(t), Min(CommentStop(t), |t|))
    else if t[0] == COMMA then
      var a := LookAhead(t[1..]);
      Round([if a.closes then SPACE else COMMA] + a.out, Min(1 + a.stop, |t|))
    else Round(t, 1)
  }

  /** The text that the cleaner leaves behind, for every input. */
  function Clean(t: text): (c: text)
    ensures |c| == |t|
    decreases |t|
  {
    if t == [] then []
    else
      var r := Scan(t);
      r.out[..r.done] + Clean(r.out[r.done..])
  }

  lemma CleanIs(t: text, r: Round)
    requires t != [] && r == Scan(t)
    ensures Clean(t) == r.out[..r.done] + Clean(r.out[r.done..])
  {
    hide Scan;
  }

  // ---------------------------------------------------------------------
  // The scanner blanks bytes and does nothing else
  // ---------------------------------------------------------------------

  /** `o` is `t` with some bytes overwritten by spaces. */
  ghost predicate Blanks(t: text, o: text) {
    |o| == |t| && forall k :: 0 <= k < |t| ==> o[k] == t[k] || o[k] == 32
  }

  lemma {:induction false} LineBlanks(t: text)
    ensures Blanks(t, LineOut(t))
  {
    if t != [] { LineBlanks(t[1..]); }
  }

  lemma {:induction false} BlockBlanks(t: text)
    ensures Blanks(t, BlockOut(t))
    decreases |t|
  {
    if t != [] {
      hide BlockOut;
      BlockUnfold(t);
      if t[0] != STAR || |t| == 1 {
        BlockBlanks(t[1..]);
      } else if t[1] != SLASH {
        BlockBlanks(t[2..]);
      }
    }
  }

  lemma CommentBlanks(t: text)
    requires t != [] && t[0] == SLASH
    ensures Blanks(t, CommentOut(t))
  {
    if |t| > 1 { LineBlanks(t[1..]); BlockBlanks(t[2..]); }
  }

  /** Putting an unscanned rest that was blanked behind a prefix that was blanked. */
  lemma BlanksSplit(t: text, o: text, n: nat, rest: text)
    requires Blanks(t, o) && n <= |t| && Blanks(o[n..], rest)
    ensures Blanks(t, o[..n] + rest)
  {
    forall k | 0 <= k < |t|
      ensures (o[..n] + rest)[k] == t[k] || (o[..n] + rest)[k] == SPACE
    {
      if n <= k { assert o[n..][k - n] == o[k]; }
    }
  }

  lemma {:induction false} LookAheadBlanks(t: text)
    ensures Blanks(t, LookAhead(t).out)
    decreases |t|
  {
    if t != [] && (t[0] == SLASH || IsWS(t[0])) {
      var o := if t[0] == SLASH then CommentOut(t) else t;
      var n := if t[0] == SLASH then CommentStop(t) + 1 else 1;
      if t[0] == SLASH { CommentBlanks(t); }
      if n <= |t| {
        LookAheadBlanks(o[n..]);
        BlanksSplit(t, o, n, LookAhead(o[n..]).out);
      }
    }
  }

  lemma ScanBlanks(t: text)
    requires t != []
    ensures Blanks(t, Scan(t).out)
  {
    if t[0] == SLASH {
      CommentBlanks(t);
    } else if t[0] == COMMA {
      LookAheadBlanks(t[1..]);
    }
  }

  /** For every buffer, cleaning only overwrites bytes with spaces. */
  lemma {:induction false} CleanBlanks(t: text)
    ensures Blanks(t, Clean(t))
    decreases |t|
  {
    if t != [] {
      var r := Scan(t);
      ScanBlanks(t);
      CleanBlanks(r.out[r.done..]);
      BlanksSplit(t, r.out, r.done, Clean(r.out[r.done..]));
    }
  }

  // ---------------------------------------------------------------------
  // The scanner
  // ---------------------------------------------------------------------

  /** Blanks the comment whose slash stands just before index `i0`. Every byte from there on
      ends as `CommentOut` says and no byte before it changes. */
  method ConsumeComment(s: array<byte>, i0: nat) returns (i: nat)
    requires 1 <= i0 <= s.Length && s[i0 - 1] == SLASH
    modifies s
    ensures s[..] == old(s[..])[..i0 - 1] + CommentOut(old(s[..])[i0 - 1..])
    ensures i == i0 - 1 + CommentStop(old(s[..])[i0 - 1..])
  {
    hide CommentOut, CommentStop;
    i := i0;
    ghost var was := s[..];
    if i < s.Length && s[i] == SLASH {
      s[i - 1] := SPACE;
      while i < s.Length && !IsNL(s[i])
        invariant i0 <= i <= s.Length
        invariant s[..i0 - 1] == was[..i0 - 1] && s[i..] == was[i..]
        invariant forall k :: i0 - 1 <= k < i ==> s[k] == SPACE
        invariant forall k :: i0 <= k < i ==> !IsNL(was[k])
      {
        s[i] := SPACE;
        i := i + 1;
      }
      LineDone(was, s[..], i0, i);
    } else if i < s.Length && s[i] == STAR {
      i := ConsumeBlock(s, i0);
    } else {
      LoneSlash(was[i0 - 1..]);
      assert was == was[..i0 - 1] + was[i0 - 1..];
    }
  }

  lemma LoneSlash(t: text)
    requires t != [] && t[0] == SLASH
    requires |t| > 1 ==> t[1] != SLASH && t[1] != STAR
    ensures CommentOut(t) == t && CommentStop(t) == 1
  {
  }

  lemma {:induction false} LineIs(t: text, out: text, n: nat)
    requires n <= |t| == |out|
    requires forall k :: 0 <= k < n ==> !IsNL(t[k]) && out[k] == SPACE
    requires n < |t| ==> IsNL(t[n])
    requires out[n..] == t[n..]
    ensures LineStop(t) == n && LineOut(t) == out
  {
    if n > 0 {
      assert out[1..][n - 1..] == out[n..] && t[1..][n - 1..] == t[n..];
      LineIs(t[1..], out[1..], n - 1);
      assert out == [SPACE] + out[1..];
    }
  }

  lemma LineDone(was: text, now: text, i0: nat, i: nat)
    requires 1 <= i0 < i <= |was| == |now|
    requires was[i0 - 1] == SLASH && was[i0] == SLASH
    requires now[..i0 - 1] == was[..i0 - 1] && now[i..] == was[i..]
    requires forall k :: i0 - 1 <= k < i ==> now[k] == SPACE
    requires forall k :: i0 <= k < i ==> !IsNL(was[k])
    requires i < |was| ==> IsNL(was[i])
    ensures now == was[..i0 - 1] + CommentOut(was[i0 - 1..])
    ensures i == i0 - 1 + CommentStop(was[i0 - 1..])
  {
    hide LineOut, LineStop;
    var line, out := was[i0..], now[i0..];
    assert out[i - i0..] == now[i..] && line[i - i0..] == was[i..];
    LineIs(line, out, i - i0);
    assert was[i0 - 1..][1..] == line;
    assert now == now[..i0 - 1] + ([SPACE] + out);
  }

  /** The block case of `ConsumeComment`. */
  method ConsumeBlock(s: array<byte>, i0: nat) returns (i: nat)
    requires 1 <= i0 < s.Length && s[i0 - 1] == SLASH && s[i0] == STAR
    modifies s
    ensures s[..] == old(s[..])[..i0 - 1] + CommentOut(old(s[..])[i0 - 1..])
    ensures i == i0 - 1 + CommentStop(old(s[..])[i0 - 1..])
  {
    hide BlockOut, BlockStop, InBlock, CommentOut, CommentStop;
    i := i0;
    ghost var was := s[..];
    s[i - 1] := SPACE;
    s[i] := SPACE;
    ghost var body := s[i0..];
    BlockStart(was[i0 - 1..], body);
    while i < s.Length
      invariant i0 <= i <= s.Length + 1
      invariant s[..i0] == was[..i0 - 1] + [SPACE]
      invariant InBlock(body, s[i0..], i - i0)
      decreases s.Length + 1 - i
    {
      ghost var cur, at := s[i0..], i - i0;
      BlockSame(body, cur, at);
      if s[i] != STAR {
        s[i] := SPACE;
        assert s[i0..] == cur[at := SPACE];
        BlockByte(body, cur, at);
      } else {
        s[i] := SPACE;
        i := i + 1;
        if i < s.Length {
          if s[i] == SLASH {
            s[i] := SPACE;
            assert s[i0..] == cur[at := SPACE][at + 1 := SPACE];
            BlockClose(body, cur, at);
            break;
          }
        }
        assert s[i0..] == cur[at := SPACE];
        BlockSkip(body, cur, at);
      }
      i := i + 1;
    }
    BlockEnd(body, s[i0..], i - i0);
    assert s[..] == s[..i0] + s[i0..];
    JoinSpace(was[..i0 - 1], s[i0..]);
  }

  lemma JoinSpace(a: text, b: text)
    ensures a + [SPACE] + b == a + ([SPACE] + b)
  {
  }

  /** The block scan of `body` has reached offset `at` and left `cur`. */
  ghost predicate InBlock(body: text, cur: text, at: nat) {
    && |cur| == |body|
    && var k := Min(at, |body|);
    && cur[k..] == body[k..]
    && BlockOut(body) == cur[..k] + BlockOut(body[k..])
    && BlockStop(body) == at + BlockStop(body[k..])
  }

  lemma BlockStart(t: text, body: text)
    requires |t| > 1 && t[0] == SLASH && t[1] == STAR && body == [SPACE] + t[2..]
    ensures InBlock(body, body, 0)
    ensures CommentOut(t) == [SPACE] + BlockOut(body)
    ensures CommentStop(t) == 1 + BlockStop(body)
  {
    assert body[0..] == body;
    assert body[1..] == t[2..];
    assert [SPACE, SPACE] + BlockOut(t[2..]) == [SPACE] + ([SPACE] + BlockOut(t[2..]));
  }

  lemma BlockEnd(body: text, cur: text, at: nat)
    requires (InBlock(body, cur, at) && at >= |body|) || (cur == BlockOut(body) && at == BlockStop(body))
    ensures cur == BlockOut(body) && at == BlockStop(body)
  {
    assert body[|body|..] == [];
    assert InBlock(body, cur, at) && at >= |body| ==> cur[..|body|] == cur;
  }

  lemma BlockClose(body: text, cur: text, at: nat)
    requires InBlock(body, cur, at) && at + 1 < |body| && body[at] == STAR && body[at + 1] == SLASH
    ensures cur[at := SPACE][at + 1 := SPACE] == BlockOut(body) && at + 1 == BlockStop(body)
  {
    hide BlockOut, BlockStop, InBlock;
    BlockUnfold(body[at..]);
    BlockSame(body, cur, at);
    assert body[at..][2..] == body[at + 2..] == cur[at + 2..];
    assert cur[at := SPACE][at + 1 := SPACE] == cur[..at] + ([SPACE, SPACE] + cur[at + 2..]);
  }

  lemma BlockSkip(body: text, cur: text, at: nat)
    requires InBlock(body, cur, at) && at < |body| && body[at] == STAR
    requires at + 1 == |body| || body[at + 1] != SLASH
    ensures InBlock(body, cur[at := SPACE], at + 2)
  {
    hide BlockOut, BlockStop, InBlock;
    BlockUnfold(body[at..]);
    if at + 1 == |body| {
      assert body[at..][1..] == body[at + 1..];
      BlockStep(body, cur, at, [SPACE], 2);
    } else {
      assert body[at..][2..] == body[at + 2..];
      BlockStep(body, cur, at, [SPACE, body[at + 1]], 2);
    }
  }

  lemma BlockByte(body: text, cur: text, at: nat)
    requires InBlock(body, cur, at) && at < |body| && body[at] != STAR
    ensures InBlock(body, cur[at := SPACE], at + 1)
  {
    hide BlockOut, BlockStop, InBlock;
    BlockUnfold(body[at..]);
    assert body[at..][1..] == body[at + 1..];
    BlockStep(body, cur, at, [SPACE], 1);
  }

  lemma BlockSame(body: text, cur: text, at: nat)
    requires InBlock(body, cur, at) && at < |body|
    ensures |cur| == |body| && cur[at..] == body[at..] && cur[at] == body[at]
    ensures forall k :: at <= k < |body| ==> cur[k] == body[k]
    ensures BlockOut(body) == cur[..at] + BlockOut(body[at..])
    ensures BlockStop(body) == at + BlockStop(body[at..])
  {
    hide BlockOut, BlockStop;
    assert forall k :: at <= k < |cur| ==> cur[k] == cur[at..][k - at] == body[at..][k - at];
  }

  lemma BlockUnfold(t: text)
    requires t != []
    ensures t[0] != STAR || |t| == 1 ==> BlockOut(t) == [SPACE] + BlockOut(t[1..])
    ensures t[0] != STAR ==> BlockStop(t) == 1 + BlockStop(t[1..])
    ensures t[0] == STAR && |t| == 1 ==> BlockStop(t) == 2 + BlockStop(t[1..])
    ensures t[0] == STAR && |t| > 1 && t[1] == SLASH ==>
      BlockOut(t) == [SPACE, SPACE] + t[2..] && BlockStop(t) == 1
    ensures t[0] == STAR && |t| > 1 && t[1] != SLASH ==>
      BlockOut(t) == [SPACE, t[1]] + BlockOut(t[2..]) && BlockStop(t) == 2 + BlockStop(t[2..])
  {
  }

  lemma BlockStep(body: text, cur: text, at: nat, more: text, n: nat)
    requires InBlock(body, cur, at) && at < |body| && 0 < n
    requires |more| == Min(n, |body| - at) && more[0] == SPACE
    requires forall k :: 1 <= k < |more| ==> more[k] == body[at + k]
    requires BlockOut(body[at..]) == more + BlockOut(body[at + |more|..])
    requires BlockStop(body[at..]) == n + BlockStop(body[at + |more|..])
    ensures InBlock(body, cur[at := SPACE], at + n)
  {
    hide BlockOut, BlockStop;
    var next, m := cur[at := SPACE], |more|;
    BlockSame(body, cur, at);
    assert next[..at + m] == cur[..at] + more;
    assert cur[..at] + (more + BlockOut(body[at + m..])) == next[..at + m] + BlockOut(body[at + m..]);
  }

  /** The string case of the scan: steps over the literal whose opening quote is at `q`. */
  method ScanString(s: array<byte>, q: nat) returns (i: nat)
    requires q < s.Length && s[q] == QUOTE
    ensures i == q + 1 + StringStop(s[..][q + 1..])
  {
    hide StringStop;
    i := q + 1;
    ghost var t := s[..];
    while i < s.Length
      invariant q + 1 <= i <= s.Length + 1
      invariant StringStop(t[q + 1..]) == i - (q + 1) + StringStop(t[Min(i, s.Length)..])
      decreases s.Length + 1 - i
    {
      StringUnfold(t, i);
      if s[i] == QUOTE {
        i := i + 1;
        break;
      } else if s[i] == BACKSLASH {
        i := i + 1;
      }
      i := i + 1;
    }
    StringEnd();
  }

  lemma StringUnfold(t: text, i: nat)
    requires i < |t|
    ensures t[i] == QUOTE ==> StringStop(t[i..]) == 1
    ensures t[i] == BACKSLASH ==> StringStop(t[i..]) == 2 + StringStop(t[Min(i + 2, |t|)..])
    ensures t[i] != QUOTE && t[i] != BACKSLASH ==> StringStop(t[i..]) == 1 + StringStop(t[i + 1..])
  {
    var rest := t[i..];
    assert rest[1..] == t[i + 1..];
    if |rest| > 1 { assert rest[2..] == t[i + 2..]; } else { assert t[|t|..] == []; }
  }

  lemma StringEnd()
    ensures StringStop([]) == 0
  {
  }

  /** The comma case of the scan: looks past whitespace and comments after the comma at `j`,
      blanking the comments, and blanks the comma if a closing bracket comes next. */
  method ScanComma(s: array<byte>, j: nat) returns (i: nat)
    requires j < s.Length && s[j] == COMMA
    modifies s
    ensures
      var a := LookAhead(old(s[..])[j + 1..]);
      && s[..] == old(s[..])[..j] + [if a.closes then SPACE else COMMA] + a.out
      && i == j + 1 + a.stop
  {
    hide CommentOut, CommentStop, LookAhead, InAhead;
    i := j;
    ghost var was := s[..];
    ghost var a := LookAhead(was[j + 1..]);
    AheadStart(was, j + 1);
    while true
      invariant j <= i <= s.Length + 1
      invariant s[..j + 1] == was[..j] + [COMMA]
      invariant InAhead(a, s[..], j + 1, i + 1)
      decreases s.Length + 1 - i
    {
      i := i + 1;
      ghost var before := s[..];
      if i >= s.Length {
        CommaStop(a, was, before, j, i);
        break;
      } else if s[i] == CLOSE_BRACE || s[i] == CLOSE_BRACKET {
        CommaStop(a, was, before, j, i);
        s[j] := SPACE;
        assert s[..] == before[j := SPACE];
        break;
      } else if s[i] == SLASH {
        ghost var x := i;
        i := ConsumeComment(s, i + 1);
        AheadRound(a, before, s[..], j + 1, x);
      } else if !IsWS(s[i]) {
        CommaStop(a, was, before, j, i);
        break;
      } else {
        assert before == before[..i] + before[i..];
        AheadRound(a, before, before, j + 1, i);
      }
    }
  }

  /** The look-ahead that started at index `from` has reached index `at` of the buffer `s`. */
  ghost predicate InAhead(a: Ahead, s: text, from: nat, at: nat) {
    && from <= |s| && from <= at
    && var k := Min(at, |s|);
       var b := LookAhead(s[k..]);
       a == Ahead(s[from..k] + b.out, at - from + b.stop, b.closes)
  }

  lemma AheadStart(s: text, from: nat)
    requires from <= |s|
    ensures InAhead(LookAhead(s[from..]), s, from, from)
  {
    hide LookAhead;
    assert s[from..from] == [];
  }

  lemma CommaStop(a: Ahead, was: text, s: text, j: nat, at: nat)
    requires j < |s| && j < |was| && j < at && s[..j + 1] == was[..j] + [COMMA]
    requires InAhead(a, s, j + 1, at)
    requires at < |s| ==> !IsWS(s[at]) && s[at] != SLASH
    ensures a.stop == at - (j + 1) && a.closes == (at < |s| && IsClose(s[at]))
    ensures s == was[..j] + [COMMA] + a.out
    ensures s[j := SPACE] == was[..j] + [SPACE] + a.out
  {
    var k := Min(at, |s|);
    assert s[j + 1..] == s[j + 1..k] + s[k..];
    assert s == s[..j + 1] + s[j + 1..];
    if at >= |s| { assert s[k..] == []; }
  }

  lemma AheadRound(a: Ahead, s: text, now: text, from: nat, at: nat)
    requires InAhead(a, s, from, at) && at < |s|
    requires s[at] == SLASH || IsWS(s[at])
    requires now == s[..at] + (if s[at] == SLASH then CommentOut(s[at..]) else s[at..])
    ensures InAhead(a, now, from, at + if s[at] == SLASH then CommentStop(s[at..]) + 1 else 1)
  {
    hide CommentOut, CommentStop, LookAhead, InAhead;
    var t := s[at..];
    var o := if t[0] == SLASH then CommentOut(t) else t;
    var n := if t[0] == SLASH then CommentStop(t) + 1 else 1;
    LookAheadUnfold(t);
    AheadStep(a, s, now, from, at, o, n);
  }

  lemma LookAheadUnfold(t: text)
    requires t != [] && (t[0] == SLASH || IsWS(t[0]))
    ensures
      var o := if t[0] == SLASH then CommentOut(t) else t;
      var n := if t[0] == SLASH then CommentStop(t) + 1 else 1;
      LookAhead(t) == if n > |t| then Ahead(o, n, false) else
        var b := LookAhead(o[n..]); Ahead(o[..n] + b.out, n + b.stop, b.closes)
  {
    hide CommentOut, CommentStop;
  }

  lemma AheadStep(a: Ahead, s: text, now: text, from: nat, at: nat, o: text, n: nat)
    requires InAhead(a, s, from, at) && at < |s| && |o| == |s| - at
    requires now == s[..at] + o
    requires LookAhead(s[at..]) == if n > |o| then Ahead(o, n, false) else
      var b := LookAhead(o[n..]); Ahead(o[..n] + b.out, n + b.stop, b.closes)
    ensures InAhead(a, now, from, at + n)
  {
    hide LookAhead;
    var k := Min(at + n, |now|);
    LookAheadEnd();
    assert now[from..k] == s[from..at] + o[..k - at];
    assert now[k..] == o[k - at..];
    assert s[from..at] + (o[..k - at] + LookAhead(now[k..]).out) == now[from..k] + LookAhead(now[k..]).out;
    assert n > |o| ==> o[..|o|] + [] == o;
  }

  lemma LookAheadEnd()
    ensures LookAhead([]) == Ahead([], 0, false)
  {
  }

  /** The cleaner itself: it stays within the buffer, ends, and leaves `Clean` of the text. */
  method Prep(s: array<byte>)
    modifies s
    ensures s[..] == Clean(old(s[..]))
  {
    hide Scan, LookAhead, CommentOut, CommentStop, StringStop, Clean, InClean;
    var i := 0;
    ghost var t := s[..];
    CleanEnds(t, t);
    while i < s.Length
      invariant i <= s.Length + 2
      invariant InClean(t, s[..], Min(i, s.Length))
      decreases s.Length + 2 - i
    {
      ghost var before, at := s[..], i;
      if s[i] == QUOTE {
        i := ScanString(s, i);
        StringRound(before, at);
      } else if s[i] == SLASH {
        i := ConsumeComment(s, i + 1);
        CommentRound(before, at);
      } else if s[i] == COMMA {
        i := ScanComma(s, i);
        CommaRound(before, at);
      } else {
        i := i + 1;
        OtherRound(before, at);
      }
      CleanRound(t, before, s[..], at);
    }
    CleanEnds(t, s[..]);
  }

  // The branches of the scanner leave the buffer and the index as `Scan` says.

  lemma StringRound(s: text, at: nat)
    requires at < |s| && s[at] == QUOTE
    ensures s == s[..at] + Scan(s[at..]).out
    ensures Min(at + 1 + StringStop(s[at + 1..]), |s|) == at + Scan(s[at..]).done
  {
    hide StringStop;
    assert s[at..][1..] == s[at + 1..];
  }

  lemma CommentRound(s: text, at: nat)
    requires at < |s| && s[at] == SLASH
    ensures Scan(s[at..]).out == CommentOut(s[at..])
    ensures Min(at + CommentStop(s[at..]), |s|) == at + Scan(s[at..]).done
  {
    hide CommentOut, CommentStop;
  }

  lemma CommaRound(s: text, at: nat)
    requires at < |s| && s[at] == COMMA
    ensures
      var a := LookAhead(s[at + 1..]);
      && s[..at] + [if a.closes then SPACE else COMMA] + a.out == s[..at] + Scan(s[at..]).out
      && Min(at + 1 + a.stop, |s|) == at + Scan(s[at..]).done
  {
    hide LookAhead;
    assert s[at..][1..] == s[at + 1..];
  }

  lemma OtherRound(s: text, at: nat)
    requires at < |s| && s[at] != QUOTE && s[at] != SLASH && s[at] != COMMA
    ensures s == s[..at] + Scan(s[at..]).out
    ensures at + 1 == at + Scan(s[at..]).done
  {
  }

  /** The scan of `t` has reached index `at` and left the buffer `s`. */
  ghost predicate InClean(t: text, s: text, at: nat) {
    at <= |s| && Clean(t) == s[..at] + Clean(s[at..])
  }

  lemma CleanEnds(t: text, s: text)
    ensures InClean(t, t, 0)
    ensures InClean(t, s, |s|) ==> s == Clean(t)
  {
    assert t[..0] + Clean(t[0..]) == Clean(t) by { assert t[0..] == t; }
    assert s[..|s|] + Clean(s[|s|..]) == s;
  }

  lemma CleanRound(t: text, s: text, now: text, at: nat)
    requires InClean(t, s, at) && at < |s|
    requires now == s[..at] + Scan(s[at..]).out
    ensures InClean(t, now, at + Scan(s[at..]).done)
  {
    hide Scan;
    var r := Scan(s[at..]);
    assert now[at + r.done..] == r.out[r.done..];
    assert now[..at + r.done] == s[..at] + r.out[..r.done];
    assert s[..at] + (r.out[..r.done] + Clean(r.out[r.done..])) == s[..at] + r.out[..r.done] + Clean(r.out[r.done..]);
  }
}
