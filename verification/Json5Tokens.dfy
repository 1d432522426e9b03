/**
 What the configuration cleaner means for JSON: cleaning a text keeps its tokens, except for the
 commas in front of a closing bracket.

 Tokens are those of `JsonLexer`, which knows nothing of the cleaner.
 */
module Json5Tokens {
  import opened Basics
  import opened Json5
  import opened JsonLexer

  // ---------------------------------------------------------------------
  // Comments
  // ---------------------------------------------------------------------

  /** The comment of length `n` at the front of `t` is scanned to its end and only whitespace
      is left of it. */
  ghost predicate Erased(t: text, n: nat)
    requires t != [] && t[0] == SLASH && n <= |t|
  {
    && AllBlank(CommentOut(t)[..n])
    && CommentOut(t)[n..] == t[n..]
    && CommentStop(t) == if |t| > 1 && t[1] == SLASH then n else n - 1
  }

  ghost predicate GentleBody(t: text, m: nat) {
    m < |t| && forall k :: 0 <= k < m && t[k] == STAR ==> Blank(t[k + 1])
  }

  lemma {:induction false} GentleBlockErased(t: text, m: nat)
    requires CloserAt(t) == Some(m) && GentleBody(t, m)
    ensures BlockStop(t) == m + 1
    ensures AllBlank(BlockOut(t)[..m + 2]) && BlockOut(t)[m + 2..] == t[m + 2..]
    decreases |t|
  {
    var k := if t[0] == STAR then 2 else 1;
    if m > 0 {
      var rest := t[k..];
      CloserStep(t, m, k);
      GentleStep(t, m, k);
      GentleBlockErased(rest, m - k);
      BlockUnfold(t);
      GlueErased(t, BlockOut(t), BlockOut(rest), m, k);
    }
  }

  lemma CloserStep(t: text, m: nat, k: nat)
    requires CloserAt(t) == Some(m) && 0 < m
    requires k == 1 || (k == 2 && t[0] == STAR && t[1] != STAR)
    ensures k <= m && CloserAt(t[k..]) == Some(m - k)
  {
    if k == 2 {
      assert t[1..][1..] == t[2..];
      assert m != 1;
    }
  }

  lemma GentleStep(t: text, m: nat, k: nat)
    requires 0 < k <= m < |t| && (k == 1 || (k == 2 && Blank(t[1])))
    requires t[0] == STAR ==> Blank(t[1])
    ensures GentleBody(t, m) <==> GentleBody(t[k..], m - k)
  {
    var rest := t[k..];
    assert forall i :: 0 <= i < |rest| ==> rest[i] == t[i + k];
    if GentleBody(rest, m - k) {
      forall i | 0 <= i < m && t[i] == STAR ensures Blank(t[i + 1]) {
        if i >= k { assert rest[i - k] == STAR && Blank(rest[i - k + 1]); }
      }
    }
  }

  lemma GlueErased(t: text, o: text, r: text, m: nat, k: nat)
    requires 0 < k <= m && m + 2 <= |t| && |r| == |t| - k
    requires |o| == |t| && o[k..] == r && AllBlank(o[..k])
    requires AllBlank(r[..m + 2 - k]) && r[m + 2 - k..] == t[k..][m + 2 - k..]
    ensures AllBlank(o[..m + 2]) && o[m + 2..] == t[m + 2..]
  {
    forall i | 0 <= i < m + 2 ensures Blank(o[i]) {
      if i < k { assert o[i] == o[..k][i]; } else { assert o[i] == r[i - k] == r[..m + 2 - k][i - k]; }
    }
    assert o[m + 2..] == r[m + 2 - k..];
  }

  lemma {:induction false} RoughBlockNotErased(t: text, m: nat)
    requires CloserAt(t) == Some(m) && !GentleBody(t, m)
    ensures !AllBlank(BlockOut(t)[..m + 2])
    decreases |t|
  {
    BlockUnfold(t);
    assert m > 0;
    if t[0] == STAR && !Blank(t[1]) {
      assert !Blank(BlockOut(t)[..m + 2][1]);
    } else {
      var k := if t[0] == STAR then 2 else 1;
      var rest := t[k..];
      CloserStep(t, m, k);
      GentleStep(t, m, k);
      RoughBlockNotErased(rest, m - k);
      var i :| 0 <= i < m + 2 - k && !Blank(BlockOut(rest)[..m + 2 - k][i]);
      assert BlockOut(t)[i + k] == BlockOut(t)[k..][i] == BlockOut(rest)[i];
      assert !Blank(BlockOut(t)[..m + 2][i + k]);
    }
  }

  /** The scanner and the lexer agree on where a line ends. */
  lemma {:induction false} SameLine(t: text)
    ensures LineStop(t) == LineLen(t)
  {
    if t != [] && !IsNL(t[0]) { SameLine(t[1..]); }
  }

  /** A closed comment disappears exactly when every star inside it is followed by whitespace. */
  lemma CommentErasedIff(t: text)
    requires t != [] && t[0] == SLASH && CommentLen(t).Some?
    ensures Erased(t, CommentLen(t).value) <==> Gentle(Comment(t[..CommentLen(t).value]))
  {
    var n := CommentLen(t).value;
    if t[1] == SLASH {
      SameLine(t[1..]);
      LineErased(t[1..]);
      Framed(t, [SPACE], LineOut(t[1..]), n);
      GentleLine(Comment(t[..n]));
    } else {
      GentleOfBody(t, n - 4);
      BlockErasedIff(t, n);
    }
  }

  lemma BlockErasedIff(t: text, n: nat)
    requires |t| > 1 && t[0] == SLASH && t[1] == STAR && CommentLen(t) == Some(n)
    ensures Erased(t, n) <==> GentleBody(t[2..], n - 4)
  {
    hide BlockOut, BlockStop, GentleBody, CloserAt;
    var b, m := t[2..], n - 4;
    Framed(t, [SPACE, SPACE], BlockOut(b), n);
    if GentleBody(b, m) {
      GentleBlockErased(b, m);
    } else {
      RoughBlockNotErased(b, m);
    }
  }

  /** A scanned text `w + o`, with `w` blank: what its two halves around `n` are. */
  lemma Framed(t: text, w: text, o: text, n: nat)
    requires |w| <= n <= |t| == |w| + |o| && AllBlank(w)
    ensures AllBlank((w + o)[..n]) <==> AllBlank(o[..n - |w|])
    ensures (w + o)[n..] == o[n - |w|..] && t[n..] == t[|w|..][n - |w|..]
  {
    var a, b := (w + o)[..n], o[..n - |w|];
    assert forall k :: 0 <= k < n ==> a[k] == if k < |w| then w[k] else b[k - |w|];
    if AllBlank(a) {
      forall k | 0 <= k < |b| ensures Blank(b[k]) { assert Blank(a[k + |w|]); }
    }
  }

  lemma GentleLine(l: Lexeme)
    requires l.Comment? && |l.body| > 1 && l.body[1] != STAR
    ensures Gentle(l)
  {
  }

  lemma {:induction false} LineErased(t: text)
    ensures AllBlank(LineOut(t)[..LineStop(t)])
    ensures LineOut(t)[LineStop(t)..] == t[LineStop(t)..]
  {
    if t != [] && !IsNL(t[0]) {
      LineErased(t[1..]);
      var n := LineStop(t[1..]);
      assert LineOut(t)[..n + 1] == [SPACE] + LineOut(t[1..])[..n];
    }
  }

  lemma GentleOfBody(t: text, m: nat)
    requires |t| > 1 && t[1] == STAR && m + 4 <= |t|
    ensures GentleBody(t[2..], m) <==> Gentle(Comment(t[..m + 4]))
  {
    var c, b := t[..m + 4], t[2..];
    assert forall k :: 2 <= k < m + 4 ==> c[k] == b[k - 2];
    if GentleBody(b, m) {
      forall k | 2 <= k < m + 2 && c[k] == STAR ensures Blank(c[k + 1]) {
        assert b[k - 2] == STAR;
      }
    }
    if Gentle(Comment(c)) {
      forall k | 0 <= k < m && b[k] == STAR ensures Blank(b[k + 1]) {
        assert c[k + 2] == STAR && c[k + 3] == b[k + 1];
      }
    }
  }

  // ---------------------------------------------------------------------
  // How the cleaner moves over each kind of lexeme
  // ---------------------------------------------------------------------

  lemma CleanOther(t: text)
    requires t != [] && t[0] != QUOTE && t[0] != SLASH && t[0] != COMMA
    ensures Clean(t) == [t[0]] + Clean(t[1..])
  {
    assert Scan(t) == Round(t, 1);
    assert t[..1] == [t[0]];
  }

  lemma {:induction false} CleanAtom(t: text)
    ensures Clean(t) == t[..AtomLen(t)] + Clean(t[AtomLen(t)..])
  {
    hide Clean;
    if t != [] && IsAtomByte(t[0]) {
      CleanOther(t);
      CleanAtom(t[1..]);
      var n := AtomLen(t[1..]);
      assert t[..n + 1] == [t[0]] + t[1..][..n];
      assert t[n + 1..] == t[1..][n..];
      assert [t[0]] + (t[1..][..n] + Clean(t[n + 1..])) == t[..n + 1] + Clean(t[n + 1..]);
    } else {
      assert t[..0] + Clean(t[0..]) == Clean(t) by { assert t[0..] == t; }
    }
  }

  lemma {:induction false} StringStopIs(t: text)
    requires StringLen(t).Some?
    ensures StringStop(t) == StringLen(t).value
    decreases |t|
  {
    if t[0] == BACKSLASH {
      StringStopIs(t[2..]);
    } else if t[0] != QUOTE {
      StringStopIs(t[1..]);
    }
  }

  lemma CleanString(t: text)
    requires t != [] && t[0] == QUOTE && StringLen(t[1..]).Some?
    ensures Clean(t) == t[..StringLen(t[1..]).value + 1] + Clean(t[StringLen(t[1..]).value + 1..])
  {
    StringStopIs(t[1..]);
    assert Scan(t) == Round(t, StringLen(t[1..]).value + 1);
  }

  /** A gentle comment leaves only whitespace, and what follows it is cleaned as if alone. */
  lemma CleanComment(t: text) returns (gap: text)
    requires t != [] && t[0] == SLASH && CommentLen(t).Some?
    requires Erased(t, CommentLen(t).value)
    ensures AllBlank(gap) && Clean(t) == gap + Clean(t[CommentLen(t).value..])
  {
    hide Clean, Scan, CommentOut, CommentStop, CommentLen;
    var n, o, d := CommentLen(t).value, CommentOut(t), Min(CommentStop(t), |t|);
    CommentScan(t);
    CleanIs(t, Round(o, d));
    gap := o[..n];
    if d < n {
      assert Blank(o[..n][d]);
      CleanOther(o[d..]);
      assert o[d..][1..] == o[n..];
      JoinAt(o, d, Clean(o[n..]));
    }
  }

  lemma CommentScan(t: text)
    requires t != [] && t[0] == SLASH
    ensures Scan(t) == Round(CommentOut(t), Min(CommentStop(t), |t|))
  {
    hide CommentOut, CommentStop;
  }

  lemma JoinAt(o: text, d: nat, rest: text)
    requires d < |o|
    ensures o[..d] + ([o[d]] + rest) == o[..d + 1] + rest
  {
  }

  /** The first byte left of a text that does not start with an atom belongs to no atom. */
  lemma CleanHead(t: text)
    requires t != [] && !IsAtomByte(t[0])
    ensures !IsAtomByte(Clean(t)[0])
  {
    hide Clean;
    CleanBlanks(t);
  }

  // ---------------------------------------------------------------------
  // How the lexer reads what the cleaner left
  // ---------------------------------------------------------------------

  lemma {:induction false} LexSkips(gap: text, t: text)
    requires AllBlank(gap)
    ensures Lex(gap + t) == Lex(t)
  {
    if gap == [] {
      assert gap + t == t;
    } else {
      assert (gap + t)[1..] == gap[1..] + t;
      LexSkips(gap[1..], t);
    }
  }

  lemma {:induction false} AtomLenOf(run: text, t: text)
    requires AtomLen(run) == |run|
    requires t != [] ==> !IsAtomByte(t[0])
    ensures AtomLen(run + t) == |run|
  {
    if run == [] {
      assert run + t == t;
    } else {
      assert (run + t)[1..] == run[1..] + t;
      AtomLenOf(run[1..], t);
    }
  }

  lemma {:induction false} AtomLenPrefix(t: text)
    ensures AtomLen(t[..AtomLen(t)]) == AtomLen(t)
    ensures AtomLen(t) < |t| ==> !IsAtomByte(t[AtomLen(t)])
  {
    if t != [] && IsAtomByte(t[0]) {
      AtomLenPrefix(t[1..]);
      var n := AtomLen(t[1..]);
      assert t[..n + 1][1..] == t[1..][..n];
    }
  }

  lemma {:induction false} StringLenOf(t: text, u: text)
    requires StringLen(t).Some?
    ensures StringLen(t[..StringLen(t).value] + u) == StringLen(t)
    decreases |t|
  {
    var n := StringLen(t).value;
    var v := t[..n] + u;
    if t[0] != QUOTE {
      var k := if t[0] == BACKSLASH then 2 else 1;
      StringLenOf(t[k..], u);
      assert v[k..] == t[k..][..n - k] + u;
    }
  }

  /** Reading one lexeme `l` that is followed by a text `u`. */
  ghost predicate Reads(l: Lexeme, v: text, u: text) {
    v != [] && !Blank(v[0]) && First(v) == Some((l, |v| - |u|)) && |u| < |v| && v[|v| - |u|..] == u
  }

  lemma LexReads(l: Lexeme, v: text, u: text)
    requires Reads(l, v, u) && Lex(u).Some?
    ensures Lex(v) == Some([l] + Lex(u).value)
  {
    hide First;
  }

  lemma ReadsPunct(c: byte, u: text)
    requires IsPunct(c)
    ensures Reads(Punct(c), [c] + u, u)
  {
  }

  lemma ReadsString(t: text, u: text)
    requires t != [] && t[0] == QUOTE && StringLen(t[1..]).Some?
    ensures Reads(First(t).value.0, t[..StringLen(t[1..]).value + 1] + u, u)
  {
    var n := StringLen(t[1..]).value;
    var v := t[..n + 1] + u;
    StringLenOf(t[1..], u);
    assert v[1..] == t[1..][..n] + u;
    assert v[..n + 1] == t[..n + 1];
  }

  lemma ReadsAtom(t: text, u: text)
    requires t != [] && IsAtomByte(t[0])
    requires u != [] ==> !IsAtomByte(u[0])
    ensures Reads(First(t).value.0, t[..AtomLen(t)] + u, u)
  {
    var n := AtomLen(t);
    AtomLenPrefix(t);
    AtomLenOf(t[..n], u);
    assert (t[..n] + u)[..n] == t[..n];
  }

  // ---------------------------------------------------------------------
  // Looking past a comma
  // ---------------------------------------------------------------------

  ghost predicate Lexable(t: text) {
    Lex(t).Some? && AllGentle(Lex(t).value)
  }

  ghost function TokensOf(t: text): seq<Lexeme>
    requires Lexable(t)
  {
    Tokens(Lex(t).value)
  }

  ghost predicate HasFirst(t: text, l: Lexeme, n: nat)
    requires Lexable(t)
  {
    && n <= |t| && Gentle(l) && Lexable(t[n..])
    && TokensOf(t) == (if l.Comment? then [] else [l]) + TokensOf(t[n..])
  }

  /** The parts of a lexable text: its first lexeme, and a lexable rest. */
  lemma LexableTail(t: text)
    requires t != [] && Lexable(t)
    ensures Blank(t[0]) ==> Lexable(t[1..]) && TokensOf(t) == TokensOf(t[1..])
    ensures !Blank(t[0]) ==> First(t).Some? && HasFirst(t, First(t).value.0, First(t).value.1)
  {
    hide First, Gentle;
    if !Blank(t[0]) {
      var (l, n) := First(t).value;
      var rest := Lex(t[n..]).value;
      assert Lex(t).value == [l] + rest;
      assert forall x :: x in rest ==> x in Lex(t).value;
      assert l in Lex(t).value;
      assert ([l] + rest)[1..] == rest;
    }
  }

  /** What the look-ahead finds: it passes whitespace and comments, and reports whether the next
      token is a closing bracket. */
  ghost predicate Finds(u: text, a: Ahead)
    requires Lexable(u) && |a.out| == |u|
  {
    var k := Min(a.stop, |u|);
    && AllBlank(a.out[..k]) && a.out[k..] == u[k..]
    && Lexable(u[k..]) && TokensOf(u[k..]) == TokensOf(u)
    && (a.closes <==> TokensOf(u) != [] && Closes(TokensOf(u)[0]))
  }

  lemma {:induction false} LookAheadFinds(u: text)
    requires Lexable(u)
    ensures Finds(u, LookAhead(u))
    decreases |u|
  {
    hide Lexable, TokensOf, CommentOut, CommentStop, CommentLen, Lex, Gentle, LookAhead;
    if u == [] {
      FindsNothing();
    } else {
      LexableTail(u);
      if u[0] == SLASH || Blank(u[0]) { LookAheadUnfold(u); }
      if Blank(u[0]) {
        LookAheadFinds(u[1..]);
        FindsMore(u, u, 1, LookAhead(u[1..]));
      } else if u[0] == SLASH {
        FirstOf(u);
        var n := CommentLen(u).value;
        CommentErasedIff(u);
        var o, c := CommentOut(u), CommentStop(u) + 1;
        assert [] + TokensOf(u[n..]) == TokensOf(u[n..]);
        PastComment(u, n);
        if c <= |u| {
          LookAheadFinds(o[c..]);
          FindsMore(u, o, c, LookAhead(o[c..]));
        } else {
          FindsNothing();
          assert o[..|u|] == o[..n] && o[|u|..] == u[|u|..] == [];
        }
      } else {
        LookAheadStops(u);
      }
    }
  }

  lemma LookAheadStops(u: text)
    requires u != [] && !Blank(u[0]) && u[0] != SLASH && Lexable(u)
    ensures Finds(u, LookAhead(u))
  {
    hide Lexable, TokensOf, CommentOut, CommentStop, Lex, Gentle, StringLen, AtomLen, CommentLen;
    LexableTail(u);
    assert u[0..] == u;
  }

  lemma FindsNothing()
    ensures Lexable([]) && TokensOf([]) == [] && Finds([], LookAhead([]))
  {
  }

  /** After a comment of length `n` the look-ahead goes on behind it, or behind the line feed
      that ends it. */
  lemma PastComment(u: text, n: nat)
    requires u != [] && u[0] == SLASH && CommentLen(u) == Some(n) && Erased(u, n)
    requires Lexable(u[n..])
    ensures
      var c := CommentStop(u) + 1;
      if c <= |u| then
        && AllBlank(CommentOut(u)[..c]) && CommentOut(u)[c..] == u[c..]
        && Lexable(u[c..]) && TokensOf(u[c..]) == TokensOf(u[n..])
      else n == |u| && u[n..] == []
  {
    hide CommentOut, CommentStop, Lexable, TokensOf;
    var o, c := CommentOut(u), CommentStop(u) + 1;
    if |u| > 1 { SameLine(u[1..]); }
    if c == n + 1 && c <= |u| {
      LineStopAt(u[1..]);
      assert u[n] == u[1..][n - 1];
      LexableTail(u[n..]);
      assert u[n..][1..] == u[c..] && o[n..][1..] == o[c..];
      assert o[..c] == o[..n] + [o[n]] && o[n] == o[n..][0] == u[n];
    }
  }

  lemma {:induction false} LineStopAt(t: text)
    ensures LineStop(t) < |t| ==> IsNL(t[LineStop(t)])
  {
    if t != [] && !IsNL(t[0]) { LineStopAt(t[1..]); }
  }

  lemma FindsMore(u: text, o: text, c: nat, a: Ahead)
    requires Lexable(u) && |o| == |u| && c <= |u| && |a.out| == |u| - c
    requires AllBlank(o[..c]) && Lexable(u[c..]) && TokensOf(u[c..]) == TokensOf(u)
    requires Finds(u[c..], a)
    ensures Finds(u, Ahead(o[..c] + a.out, c + a.stop, a.closes))
  {
    hide Lexable, TokensOf;
    var k := Min(a.stop, |u| - c);
    assert (o[..c] + a.out)[..c + k] == o[..c] + a.out[..k];
    assert (o[..c] + a.out)[c + k..] == a.out[k..];
    assert u[c..][k..] == u[c + k..];
  }

  // ---------------------------------------------------------------------
  // Main results
  // ---------------------------------------------------------------------

  /** The cleaner keeps a lexeme other than a comma or a comment, and the lexer reads it back. */
  lemma KeepsLexeme(t: text)
    requires t != [] && !Blank(t[0]) && First(t).Some? && t[0] != COMMA && t[0] != SLASH
    ensures
      var (l, n) := First(t).value;
      && Clean(t) == t[..n] + Clean(t[n..])
      && Reads(l, Clean(t), Clean(t[n..]))
  {
    hide Clean, Reads, StringLen, AtomLen;
    if IsPunct(t[0]) {
      CleanOther(t);
      ReadsPunct(t[0], Clean(t[1..]));
      assert t[..1] == [t[0]];
    } else if t[0] == QUOTE {
      CleanString(t);
      ReadsString(t, Clean(t[StringLen(t[1..]).value + 1..]));
    } else {
      var n := AtomLen(t);
      CleanAtom(t);
      AtomLenPrefix(t);
      if n < |t| { CleanHead(t[n..]); }
      ReadsAtom(t, Clean(t[n..]));
    }
  }

  lemma DropOther(l: Lexeme, ts: seq<Lexeme>)
    requires !IsComma(l)
    ensures DropTrailing([l] + ts) == [l] + DropTrailing(ts)
  {
    assert ([l] + ts)[1..] == ts;
  }

  lemma DropComma(l: Lexeme, ts: seq<Lexeme>)
    requires IsComma(l)
    ensures DropTrailing([l] + ts)
         == (if ts != [] && Closes(ts[0]) then [] else [l]) + DropTrailing(ts)
  {
    assert ([l] + ts)[1..] == ts;
  }

  lemma CleanComma(t: text, a: Ahead, k: nat)
    requires t != [] && t[0] == COMMA && a == LookAhead(t[1..]) && k == Min(a.stop, |t| - 1)
    ensures Clean(t) == [if a.closes then SPACE else COMMA] + (a.out[..k] + Clean(a.out[k..]))
  {
    hide Clean, LookAhead, CommentOut, CommentStop, StringStop;
    var o := [if a.closes then SPACE else COMMA] + a.out;
    CleanIs(t, Round(o, 1 + k));
    ConsSplit(o[0], a.out, k, Clean(a.out[k..]));
  }

  lemma ConsSplit(b: byte, out: text, k: nat, rest: text)
    requires k <= |out|
    ensures ([b] + out)[1 + k..] == out[k..]
    ensures ([b] + out)[..1 + k] + rest == [b] + (out[..k] + rest)
  {
  }

  lemma KeepsComma(t: text, a: Ahead, k: nat)
    requires t != [] && t[0] == COMMA && Lexable(t) && Lexable(t[1..])
    requires a == LookAhead(t[1..]) && k == Min(a.stop, |t| - 1) && Finds(t[1..], a)
    requires TokensOf(t) == [Punct(COMMA)] + TokensOf(t[1..])
    requires Lex(Clean(t[1..][k..])) == Some(DropTrailing(TokensOf(t[1..])))
    ensures Lex(Clean(t)) == Some(DropTrailing(TokensOf(t)))
  {
    hide Lexable, TokensOf, Clean, Lex, First, DropTrailing, LookAhead, Reads;
    var c := Clean(t[1..][k..]);
    CleanComma(t, a, k);
    LexSkips(a.out[..k], c);
    DropComma(Punct(COMMA), TokensOf(t[1..]));
    if a.closes {
      LexSkips([SPACE], a.out[..k] + c);
      assert [] + DropTrailing(TokensOf(t[1..])) == DropTrailing(TokensOf(t[1..]));
    } else {
      ReadsPunct(COMMA, a.out[..k] + c);
      LexReads(Punct(COMMA), [COMMA] + (a.out[..k] + c), a.out[..k] + c);
    }
  }

  lemma NothingKept()
    ensures Lexable([]) && Lex(Clean([])) == Some(DropTrailing(TokensOf([])))
  {
  }

  /** What kind of lexeme the first byte announces. */
  lemma FirstOf(t: text)
    requires t != [] && !Blank(t[0]) && First(t).Some?
    ensures t[0] == SLASH <==> First(t).value.0.Comment?
    ensures t[0] == SLASH ==> CommentLen(t) == Some(First(t).value.1)
    ensures t[0] == SLASH ==> First(t).value.0 == Comment(t[..First(t).value.1])
    ensures t[0] == COMMA <==> IsComma(First(t).value.0)
    ensures t[0] == COMMA ==> First(t).value.1 == 1
  {
  }

  /** The cleaned text is plain JSON with the same tokens, except for the commas that stand in
      front of a closing bracket. Strings are tokens, so they are intact byte for byte. */
  lemma {:induction false} CleanKeepsTokens(t: text)
    requires Lexable(t)
    ensures Lex(Clean(t)) == Some(DropTrailing(TokensOf(t)))
    decreases |t|
  {
    hide Lexable, TokensOf, Clean, Lex, First, DropTrailing, Gentle, CommentLen, LookAhead, Reads, Finds;
    if t == [] {
      NothingKept();
    } else {
      LexableTail(t);
      if Blank(t[0]) {
        CleanKeepsTokens(t[1..]);
        CleanOther(t);
        LexSkips([t[0]], Clean(t[1..]));
      } else {
        var (l, n) := First(t).value;
        FirstOf(t);
        if t[0] == COMMA {
          LookAheadFinds(t[1..]);
          var a := LookAhead(t[1..]);
          var k := Min(a.stop, |t| - 1);
          FindsSuffix(t[1..], a);
          CleanKeepsTokens(t[1..][k..]);
          KeepsComma(t, a, k);
        } else {
          CleanKeepsTokens(t[n..]);
          if t[0] == SLASH {
            CommentErasedIff(t);
            var gap := CleanComment(t);
            LexSkips(gap, Clean(t[n..]));
            assert [] + TokensOf(t[n..]) == TokensOf(t[n..]);
          } else {
            KeepsLexeme(t);
            LexReads(l, Clean(t), Clean(t[n..]));
            DropOther(l, TokensOf(t[n..]));
          }
        }
      }
    }
  }

  lemma FindsSuffix(u: text, a: Ahead)
    requires Lexable(u) && |a.out| == |u| && Finds(u, a)
    ensures Lexable(u[Min(a.stop, |u|)..])
    ensures TokensOf(u[Min(a.stop, |u|)..]) == TokensOf(u)
  {
  }

  // ---------------------------------------------------------------------
  // Texts that the cleaner returns as they are
  // ---------------------------------------------------------------------

  /** Plain JSON: a lexable text without comments. */
  ghost predicate Plain(t: text) {
    Lex(t).Some? && forall l :: l in Lex(t).value ==> !l.Comment?
  }

  lemma PlainIsLexable(t: text)
    requires Plain(t)
    ensures Lexable(t)
  {
  }

  lemma PlainTail(t: text)
    requires t != [] && Plain(t)
    ensures Blank(t[0]) ==> Plain(t[1..])
    ensures !Blank(t[0]) ==> First(t).Some? && !First(t).value.0.Comment? && Plain(t[First(t).value.1..])
  {
    hide First;
    if !Blank(t[0]) {
      var (l, n) := First(t).value;
      var rest := Lex(t[n..]).value;
      assert Lex(t).value == [l] + rest;
      assert forall x :: x in rest ==> x in Lex(t).value;
      assert l in Lex(t).value;
    }
  }

  /** No comma stands in front of a closing bracket. */
  ghost predicate NoTrailing(ts: seq<Lexeme>) {
    forall k :: 0 <= k && k + 1 < |ts| && IsComma(ts[k]) ==> !Closes(ts[k + 1])
  }

  lemma {:induction false} LookAheadPlain(u: text)
    requires Plain(u)
    ensures LookAhead(u).out == u
    decreases |u|
  {
    hide Plain, CommentOut, CommentStop, LookAhead, First;
    if u == [] {
      LookAheadEnd();
    } else {
      PlainTail(u);
      if Blank(u[0]) {
        LookAheadUnfold(u);
        LookAheadPlain(u[1..]);
        assert u[..1] + u[1..] == u;
      } else {
        FirstOf(u);
        LookAheadHalts(u);
      }
    }
  }

  lemma LookAheadHalts(u: text)
    requires u != [] && !Blank(u[0]) && u[0] != SLASH
    ensures LookAhead(u).out == u
  {
  }

  /** A text without comments and without trailing commas is returned unchanged. */
  lemma {:induction false} CleanKeepsPlain(t: text)
    requires Plain(t) && Lexable(t) && NoTrailing(TokensOf(t))
    ensures Clean(t) == t
    decreases |t|
  {
    hide Plain, Lexable, TokensOf, Clean, First, LookAhead, Finds;
    if t == [] {
    } else {
      PlainTail(t);
      LexableTail(t);
      if Blank(t[0]) {
        CleanKeepsPlain(t[1..]);
        CleanOther(t);
      } else {
        var (l, n) := First(t).value;
        FirstOf(t);
        assert TokensOf(t)[1..] == TokensOf(t[n..]);
        NoTrailingTail(TokensOf(t));
        if t[0] == COMMA {
          LookAheadPlain(t[1..]);
          LookAheadFinds(t[1..]);
          var a := LookAhead(t[1..]);
          var k := Min(a.stop, |t| - 1);
          KeepsPlainComma(t, a, k);
          CleanKeepsPlain(t[1..][k..]);
          CleanComma(t, a, k);
          assert t == [t[0]] + (t[1..][..k] + t[1..][k..]);
        } else {
          CleanKeepsPlain(t[n..]);
          KeepsLexeme(t);
        }
      }
    }
  }

  lemma NoTrailingTail(ts: seq<Lexeme>)
    requires ts != [] && NoTrailing(ts)
    ensures NoTrailing(ts[1..])
    ensures IsComma(ts[0]) && |ts| > 1 ==> !Closes(ts[1])
  {
    assert forall k :: 0 <= k < |ts| - 1 ==> ts[1..][k] == ts[k + 1];
    assert IsComma(ts[0]) && |ts| > 1 ==> !Closes(ts[0 + 1]);
  }

  lemma KeepsPlainComma(t: text, a: Ahead, k: nat)
    requires t != [] && t[0] == COMMA && Lexable(t) && Lexable(t[1..]) && Plain(t[1..])
    requires a == LookAhead(t[1..]) && k == Min(a.stop, |t| - 1) && Finds(t[1..], a) && a.out == t[1..]
    requires TokensOf(t) == [Punct(COMMA)] + TokensOf(t[1..])
    requires NoTrailing(TokensOf(t)) && NoTrailing(TokensOf(t[1..]))
    ensures !a.closes
    ensures Plain(t[1..][k..]) && Lexable(t[1..][k..]) && NoTrailing(TokensOf(t[1..][k..]))
  {
    hide Plain, Lexable, TokensOf, LookAhead;
    NoTrailingTail(TokensOf(t));
    SkipPlain(t[1..], k);
  }

  lemma {:induction false} SkipPlain(u: text, k: nat)
    requires Plain(u) && k <= |u| && AllBlank(u[..k])
    ensures Plain(u[k..])
  {
    assert u == u[..k] + u[k..];
    LexSkips(u[..k], u[k..]);
  }

  // ---------------------------------------------------------------------
  // Cleaning twice
  // ---------------------------------------------------------------------

  /** Two commas in succession in front of a closing bracket. */
  ghost predicate Stacked(ts: seq<Lexeme>) {
    exists k: nat :: StackedAt(ts, k)
  }

  ghost predicate StackedAt(ts: seq<Lexeme>, k: nat) {
    k + 2 < |ts| && IsComma(ts[k]) && IsComma(ts[k + 1]) && Closes(ts[k + 2])
  }

  lemma {:induction false} DropsStacked(ts: seq<Lexeme>)
    ensures NoTrailing(DropTrailing(ts)) <==> !Stacked(ts)
    ensures ts != [] ==> DropTrailing(ts) != []
    ensures ts != [] && !IsComma(ts[0]) ==> DropTrailing(ts)[0] == ts[0]
  {
    if ts != [] {
      var rest, d := ts[1..], DropTrailing(ts[1..]);
      DropsStacked(rest);
      StackedTail(ts);
      if IsComma(ts[0]) && |ts| > 1 && Closes(ts[1]) {
        assert rest[0] == ts[1];
      } else {
        NoTrailingCons(ts[0], d);
        if IsComma(ts[0]) && rest != [] {
          FirstKept(rest);
          if IsComma(rest[0]) && |rest| > 1 && Closes(rest[1]) {
            assert ts[1] == rest[0] && ts[2] == rest[1];
            assert Closes(d[0]);
            assert StackedAt(ts, 0);
          }
        }
      }
    }
  }

  /** The first token left: the second one if the first was a trailing comma. */
  lemma FirstKept(ts: seq<Lexeme>)
    requires ts != []
    ensures DropTrailing(ts) != []
    ensures DropTrailing(ts)[0] ==
      if IsComma(ts[0]) && |ts| > 1 && Closes(ts[1]) then ts[1] else ts[0]
  {
  }

  lemma NoTrailingCons(l: Lexeme, ts: seq<Lexeme>)
    ensures NoTrailing([l] + ts) <==> NoTrailing(ts) && !(IsComma(l) && ts != [] && Closes(ts[0]))
  {
    var all := [l] + ts;
    assert forall k :: 0 <= k < |ts| ==> all[k + 1] == ts[k];
    if NoTrailing(all) {
      NoTrailingTail(all);
      assert all[1..] == ts;
    }
  }

  lemma StackedTail(ts: seq<Lexeme>)
    requires ts != []
    ensures Stacked(ts)
       <==> (Stacked(ts[1..]) || StackedAt(ts, 0))
  {
    var rest := ts[1..];
    if Stacked(rest) {
      var k: nat :| StackedAt(rest, k);
      assert StackedAt(ts, k + 1);
    }
    if Stacked(ts) {
      var k: nat :| StackedAt(ts, k);
      if k > 0 { assert StackedAt(rest, k - 1); }
    }
  }

  lemma {:induction false} DropLength(ts: seq<Lexeme>)
    ensures |DropTrailing(ts)| <= |ts|
    ensures DropTrailing(ts) == ts <==> NoTrailing(ts)
  {
    if ts != [] {
      DropLength(ts[1..]);
      NoTrailingCons(ts[0], ts[1..]);
      assert ts == [ts[0]] + ts[1..];
      if DropTrailing(ts) == ts && !(IsComma(ts[0]) && |ts| > 1 && Closes(ts[1])) {
        assert DropTrailing(ts)[1..] == DropTrailing(ts[1..]);
      }
    }
  }

  lemma {:induction false} TokensHaveNoComment(ls: seq<Lexeme>)
    ensures forall l :: l in Tokens(ls) ==> !l.Comment?
  {
    if ls != [] { TokensHaveNoComment(ls[1..]); }
  }

  lemma {:induction false} DropKeepsOnly(ts: seq<Lexeme>)
    ensures forall l :: l in DropTrailing(ts) ==> l in ts
  {
    if ts != [] { DropKeepsOnly(ts[1..]); }
  }

  lemma {:induction false} TokensOfTokens(ts: seq<Lexeme>)
    requires forall l :: l in ts ==> !l.Comment?
    ensures Tokens(ts) == ts
  {
    if ts != [] {
      TokensOfTokens(ts[1..]);
      assert ts == [ts[0]] + ts[1..];
    }
  }

  /** Cleaning again changes nothing, exactly when no two commas in succession stand in front of
      a closing bracket. */
  lemma CleanTwice(t: text)
    requires Lexable(t)
    ensures Clean(Clean(t)) == Clean(t) <==> !Stacked(TokensOf(t))
  {
    hide Lex, Clean, Gentle, DropTrailing, Stacked, NoTrailing;
    var c, ts := Clean(t), TokensOf(t);
    CleanKeepsTokens(t);
    TokensHaveNoComment(Lex(t).value);
    DropKeepsOnly(ts);
    TokensOfTokens(DropTrailing(ts));
    PlainIsLexable(c);
    DropsStacked(ts);
    if NoTrailing(DropTrailing(ts)) {
      CleanKeepsPlain(c);
    } else {
      CleanKeepsTokens(c);
      DropLength(DropTrailing(ts));
    }
  }

  /** A comment whose inner star is not followed by whitespace can swallow what comes after it:
      the text is a closed comment and the number 1, and the 1 is lost. */
  lemma RoughCommentLosesToken()
    ensures
      var t := [SLASH, STAR, STAR, STAR, SLASH, 49];
      && Lex(t) == Some([Comment(t[..5]), Atom([49])])
      && Lex(Clean(t)) == Some([Atom([STAR])])
  {
    var t: text := [SLASH, STAR, STAR, STAR, SLASH, 49];
    RoughLex(t, 49);
    RoughClean(t, 49);
  }

  lemma RoughLex(t: text, last: byte)
    requires t == [SLASH, STAR, STAR, STAR, SLASH, last] && IsAtomByte(last)
    ensures Lex(t) == Some([Comment(t[..5]), Atom([last])])
  {
    assert t[2..] == [STAR, STAR, SLASH, last] && t[2..][1..] == [STAR, SLASH, last];
    assert CloserAt(t[2..]) == Some(1);
    var u := t[5..];
    assert u == [last] && u[1..] == [];
    LoneAtom(last, []);
    assert u == [last] + [];
    assert First(t) == Some((Comment(t[..5]), 5));
    LexReads(Comment(t[..5]), t, u);
    assert [Comment(t[..5])] + [Atom([last])] == [Comment(t[..5]), Atom([last])];
  }

  lemma LoneAtom(c: byte, gap: text)
    requires IsAtomByte(c) && AllBlank(gap)
    ensures Lex([c] + gap) == Some([Atom([c])])
  {
    var u := [c] + gap;
    assert u[1..] == gap;
    assert AtomLen(gap) == 0;
    assert u[..1] == [c];
    assert gap + [] == gap;
    LexSkips(gap, []);
    LexReads(Atom([c]), u, gap);
    assert [Atom([c])] + [] == [Atom([c])];
  }

  lemma RoughClean(t: text, last: byte)
    requires t == [SLASH, STAR, STAR, STAR, SLASH, last]
    ensures Lex(Clean(t)) == Some([Atom([STAR])])
  {
    var b := t[2..];
    assert b == [STAR, STAR, SLASH, last] && b[2..] == [SLASH, last] && b[2..][1..] == [last] && b[2..][1..][1..] == [];
    BlockUnfold(b[2..]);
    BlockUnfold(b[2..][1..]);
    BlockUnfold(b);
    assert BlockOut([]) == [] && BlockStop([]) == 0;
    assert BlockOut(b[2..]) == [SPACE, SPACE] && BlockStop(b[2..]) >= 2;
    assert CommentOut(t) == [SPACE, SPACE, SPACE, STAR, SPACE, SPACE];
    assert CommentStop(t) >= 6;
    var c := [SPACE, SPACE, SPACE, STAR, SPACE, SPACE];
    CleanIs(t, Scan(t));
    assert Clean(t) == c by { assert c[..6] + Clean(c[6..]) == c; }
    var w := [SPACE, SPACE, SPACE];
    LexSkips(w, [STAR] + [SPACE, SPACE]);
    LoneAtom(STAR, [SPACE, SPACE]);
    assert c == w + ([STAR] + [SPACE, SPACE]);
  }

  // ---------------------------------------------------------------------
  // Comments that are harmless wherever they stand
  // ---------------------------------------------------------------------

  /** The text `c` is one block comment, closed at its end. */
  ghost predicate IsBlockComment(c: text) {
    |c| > 1 && c[0] == SLASH && c[1] == STAR && CommentLen(c) == Some(|c|)
  }

  /** Putting the comment in front of any lexable text changes no token of what is left of it. */
  ghost predicate Harmless(c: text) {
    forall rest :: Lexable(rest) ==> KeepsRest(c, rest)
  }

  ghost predicate KeepsRest(c: text, rest: text)
    requires Lexable(rest)
  {
    Lex(Clean(c + rest)) == Some(DropTrailing(TokensOf(rest)))
  }

  lemma {:induction false} CloserFirst(b: text, u: text)
    requires CloserAt(b).Some?
    ensures CloserAt(b + u) == CloserAt(b)
  {
    if !(b[0] == STAR && b[1] == SLASH) {
      assert (b + u)[1..] == b[1..] + u;
      CloserFirst(b[1..], u);
    }
  }

  lemma CommentLenFirst(c: text, rest: text)
    requires IsBlockComment(c)
    ensures CommentLen(c + rest) == Some(|c|) && (c + rest)[..|c|] == c && (c + rest)[|c|..] == rest
  {
    assert (c + rest)[2..] == c[2..] + rest;
    CloserFirst(c[2..], rest);
  }

  lemma GentleHarmless(c: text, rest: text)
    requires IsBlockComment(c) && Gentle(Comment(c)) && Lexable(rest)
    ensures KeepsRest(c, rest)
  {
    hide Lexable, TokensOf, Clean, Lex, DropTrailing, Gentle, CommentLen, Erased;
    var t := c + rest;
    CommentLenFirst(c, rest);
    CommentErasedIff(t);
    var gap := CleanComment(t);
    LexSkips(gap, Clean(rest));
    CleanKeepsTokens(rest);
  }

  /** The scan of a block comment body does not stop before the closer, and what it stops at is blank. */
  lemma {:induction false} StopsLate(t: text, m: nat)
    requires CloserAt(t) == Some(m)
    ensures BlockStop(t) >= m + 1
    ensures BlockStop(t) == m + 1 ==> BlockOut(t)[m + 1] == SPACE
    decreases |t|
  {
    hide BlockOut, BlockStop, CloserAt;
    BlockUnfold(t);
    CloserUnfold(t, m);
    if t[0] != STAR {
      StopsLate(t[1..], m - 1);
    } else if t[1] != SLASH {
      if m == 1 {
        BlockUnfold(t[2..]);
      } else {
        StopsLate(t[2..], m - 2);
      }
    }
  }

  /** Where the first closer can be. */
  lemma CloserUnfold(t: text, m: nat)
    requires CloserAt(t) == Some(m)
    ensures |t| >= m + 2 && t[m] == STAR && t[m + 1] == SLASH
    ensures t[0] == STAR && t[1] == SLASH <==> m == 0
    ensures m > 0 ==> CloserAt(t[1..]) == Some(m - 1)
    ensures m > 1 ==> CloserAt(t[2..]) == Some(m - 2)
  {
    CloserThere(t, m);
    if m > 1 { assert t[1..][1..] == t[2..]; }
  }

  lemma {:induction false} CloserThere(t: text, m: nat)
    requires CloserAt(t) == Some(m)
    ensures |t| >= m + 2 && t[m] == STAR && t[m + 1] == SLASH
  {
    if m > 0 { CloserThere(t[1..], m - 1); }
  }

  lemma {:induction false} NoLexemes(t: text)
    requires Lex(t) == Some([])
    ensures AllBlank(t)
  {
    if t != [] {
      assert Blank(t[0]);
      NoLexemes(t[1..]);
      assert forall k :: 0 < k < |t| ==> t[k] == t[1..][k - 1];
    }
  }

  /** A comment with a star that is not followed by whitespace leaves something behind on its own. */
  lemma RoughAlone(c: text)
    requires IsBlockComment(c) && !Gentle(Comment(c))
    ensures Lex(Clean(c)) != Some([])
  {
    hide Clean, Lex, Gentle, BlockOut, BlockStop, CloserAt, GentleBody;
    var b, m := c[2..], |c| - 4;
    assert CloserAt(b) == Some(m);
    assert c[..m + 4] == c;
    GentleOfBody(c, m);
    RoughBlockNotErased(b, m);
    var i :| 0 <= i < m + 2 && !Blank(BlockOut(b)[..m + 2][i]);
    StopsLate(b, m);
    CommentScan(c);
    var done := Min(CommentStop(c), |c|);
    CleanIs(c, Round(CommentOut(c), done));
    assert Clean(c)[i + 2] == BlockOut(b)[i];
    if Lex(Clean(c)) == Some([]) { NoLexemes(Clean(c)); }
  }

  /** A closed block comment is harmless wherever it stands, exactly when every star inside it is
      followed by whitespace. */
  lemma HarmlessIff(c: text)
    requires IsBlockComment(c)
    ensures Harmless(c) <==> Gentle(Comment(c))
  {
    hide Gentle, IsBlockComment, Lexable, KeepsRest;
    if Gentle(Comment(c)) {
      forall rest | Lexable(rest) ensures KeepsRest(c, rest) {
        GentleHarmless(c, rest);
      }
    } else {
      RoughAlone(c);
      NothingLexed(c);
    }
  }

  lemma NothingLexed(c: text)
    ensures Lexable([])
    ensures KeepsRest(c, []) ==> Lex(Clean(c)) == Some([])
  {
    NothingKept();
    assert c + [] == c;
  }

  /** In one place such a comment can do no harm: here the star left of it stands in for the star
      that it swallowed, and the tokens are the same. */
  lemma RoughCommentKeepsTokens()
    ensures
      var t := [SLASH, STAR, STAR, STAR, SLASH, STAR];
      && Lex(t) == Some([Comment(t[..5]), Atom([STAR])])
      && !Gentle(Comment(t[..5]))
      && Lex(Clean(t)) == Some(Tokens([Comment(t[..5]), Atom([STAR])]))
  {
    var t: text := [SLASH, STAR, STAR, STAR, SLASH, STAR];
    RoughLex(t, STAR);
    RoughClean(t, STAR);
    var c := t[..5];
    assert c[2] == STAR && !Blank(c[3]);
    assert [Comment(c), Atom([STAR])][1..] == [Atom([STAR])];
    assert Tokens([Atom([STAR])]) == [Atom([STAR])] by { assert [Atom([STAR])][1..] == []; }
  }

  /** Two commas in succession: the first cleaning blanks the second comma only, the next one the
      first. */
  lemma StackedCommas()
    ensures
      var t := [OPEN_BRACKET, COMMA, COMMA, CLOSE_BRACKET];
      && Clean(t) == [OPEN_BRACKET, COMMA, SPACE, CLOSE_BRACKET]
      && Clean(Clean(t)) == [OPEN_BRACKET, SPACE, SPACE, CLOSE_BRACKET]
  {
    hide Clean, LookAhead;
    var close: text := [CLOSE_BRACKET];
    var commas := [COMMA, COMMA, CLOSE_BRACKET];
    var comma := [COMMA, SPACE, CLOSE_BRACKET];
    LastBracket(close);
    assert [COMMA] + close == [COMMA, CLOSE_BRACKET] && [SPACE] + close == [SPACE, CLOSE_BRACKET];
    assert [COMMA, CLOSE_BRACKET][1..] == close && commas[1..] == [COMMA, CLOSE_BRACKET];
    assert comma[1..] == [SPACE, CLOSE_BRACKET] && [SPACE, CLOSE_BRACKET][1..] == close;
    CleanComma([COMMA, CLOSE_BRACKET], LookAhead(close), 0);
    CleanComma(commas, LookAhead([COMMA, CLOSE_BRACKET]), 0);
    CleanComma(comma, LookAhead([SPACE, CLOSE_BRACKET]), 1);
    assert [SPACE, CLOSE_BRACKET][..1] == [SPACE] && [SPACE, CLOSE_BRACKET][1..] == close;
    assert [OPEN_BRACKET, COMMA, COMMA, CLOSE_BRACKET][1..] == commas;
    assert [OPEN_BRACKET, COMMA, SPACE, CLOSE_BRACKET][1..] == comma;
    CleanOther([OPEN_BRACKET, COMMA, COMMA, CLOSE_BRACKET]);
    CleanOther([OPEN_BRACKET, COMMA, SPACE, CLOSE_BRACKET]);
  }

  lemma LastBracket(close: text)
    requires close == [CLOSE_BRACKET]
    ensures Clean(close) == close
    ensures LookAhead(close) == Ahead(close, 0, true)
    ensures LookAhead([COMMA] + close) == Ahead([COMMA] + close, 0, false)
    ensures LookAhead([SPACE] + close) == Ahead([SPACE] + close, 1, true)
  {
    hide Clean;
    CleanOther(close);
    assert close[1..] == [];
    assert Clean([]) == [] by { NothingLeft(); }
    LookAheadUnfold([SPACE] + close);
    assert ([SPACE] + close)[1..] == close && ([SPACE] + close)[..1] == [SPACE];
  }

  lemma NothingLeft()
    ensures Clean([]) == []
  {
  }

  // ---------------------------------------------------------------------
  // Texts that no lexer reads
  // ---------------------------------------------------------------------

  lemma {:induction false} OpenStringStop(t: text)
    requires StringLen(t).None?
    ensures StringStop(t) >= |t|
    decreases |t|
  {
    if t != [] {
      if t[0] == 92 {
        if |t| > 1 { OpenStringStop(t[2..]); }
      } else {
        OpenStringStop(t[1..]);
      }
    }
  }

  /** Behind a quote that is never closed nothing changes. */
  lemma OpenStringKept(t: text)
    requires t != [] && t[0] == 34 && StringLen(t[1..]).None?
    ensures Clean(t) == t
  {
    OpenStringStop(t[1..]);
    assert Scan(t) == Round(t, |t|);
    CleanIs(t, Round(t, |t|));
    assert t[|t|..] == [];
  }

  lemma {:induction false} OpenBlockOut(t: text)
    requires 42 !in t
    ensures BlockStop(t) == |t| && forall k :: 0 <= k < |t| ==> BlockOut(t)[k] == 32
  {
    if t != [] {
      BlockUnfold(t);
      assert t[0] in t;
      OpenBlockOut(t[1..]);
      assert forall k :: 0 < k < |t| ==> BlockOut(t)[k] == BlockOut(t[1..])[k - 1];
    }
  }

  /** A block comment without a star in it and never closed is blanked to the end of the text. */
  lemma OpenCommentBlanked(t: text)
    requires |t| > 1 && t[0] == 47 && t[1] == 42 && 42 !in t[2..]
    ensures |Clean(t)| == |t| && forall k :: 0 <= k < |t| ==> Clean(t)[k] == 32
  {
    hide Clean, BlockOut, BlockStop;
    OpenBlockOut(t[2..]);
    CommentScan(t);
    CleanIs(t, Round(CommentOut(t), |t|));
    NothingLeft();
    assert CommentOut(t)[|t|..] == [] && CommentOut(t)[..|t|] == CommentOut(t);
    assert forall k :: 2 <= k < |t| ==> CommentOut(t)[k] == BlockOut(t[2..])[k - 2];
  }

  /** A slash that opens no comment stays, and so the scan goes on behind it; behind a comma the
      look-ahead passes over it and over the byte after it. */
  lemma LoneSlashKept(t: text)
    requires t != [] && t[0] == 47 && (|t| > 1 ==> t[1] != 47 && t[1] != 42)
    ensures Clean(t) == [t[0]] + Clean(t[1..])
    ensures |t| > 1 ==> LookAhead(t).closes == LookAhead(t[2..]).closes
  {
    hide Clean, LookAhead;
    LoneSlash(t);
    CommentScan(t);
    CleanIs(t, Round(t, 1));
    assert t[..1] == [t[0]];
    LookAheadUnfold(t);
  }
}
