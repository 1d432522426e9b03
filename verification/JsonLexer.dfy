/**
 A lexer for JSON with comments, written down from the format alone.

 Whitespace, the six structural characters and the extent of strings are those of sections 2 and 7
 of RFC 8259, by their byte values; numbers and literal names are maximal runs of other bytes. Line
 comments end before a line feed or carriage return, block comments with the first star-slash.
 */
module JsonLexer {
  import opened Basics

  datatype Lexeme =
    | Punct(c: byte)
    | Str(chars: text)
    | Atom(run: text)
    | Comment(body: text)

  /** Whitespace as section 2 of RFC 8259 has it: tab, line feed, carriage return and space. */
  predicate Blank(c: byte) {
    c == 9 || c == 10 || c == 13 || c == 32
  }

  /** The six structural characters: brackets, braces, colon and comma. */
  predicate IsPunct(c: byte) {
    c == 91 || c == 93 || c == 123 || c == 125 || c == 58 || c == 44
  }

  predicate IsAtomByte(c: byte) {
    !Blank(c) && !IsPunct(c) && c != 34 && c != 47
  }

  function AtomLen(t: text): (n: nat)
    ensures n <= |t|
  {
    if t == [] || !IsAtomByte(t[0]) then 0 else 1 + AtomLen(t[1..])
  }

  /** Length of the string body at the front of `t`, closing quote included. */
  function StringLen(t: text): (n: Option<nat>)
    ensures n.Some? ==> 0 < n.value <= |t|
  {
    if t == [] then None
    else if t[0] == 34 then Some(1)
    else
      var k := if t[0] == 92 then 2 else 1;
      if |t| < k then None
      else
        var m := StringLen(t[k..]);
        if m.None? then None else Some(k + m.value)
  }

  /** Bytes of `t` before a line feed or a carriage return. */
  function LineLen(t: text): (n: nat)
    ensures n <= |t|
  {
    if t == [] || t[0] == 10 || t[0] == 13 then 0 else 1 + LineLen(t[1..])
  }

  /** Offset of the first star-slash pair in `t`. */
  function CloserAt(t: text): (n: Option<nat>)
    ensures n.Some? ==> n.value + 2 <= |t|
  {
    if |t| < 2 then None
    else if t[0] == 42 && t[1] == 47 then Some(0)
    else
      var m := CloserAt(t[1..]);
      if m.None? then None else Some(1 + m.value)
  }

  /** Length of the comment at the front of `t`: to the end of the line, or to the first closer. */
  function CommentLen(t: text): (n: Option<nat>)
    requires t != [] && t[0] == 47
    ensures n.Some? ==> 2 <= n.value <= |t|
  {
    if |t| < 2 then None
    else if t[1] == 47 then Some(1 + LineLen(t[1..]))
    else if t[1] == 42 then
      var m := CloserAt(t[2..]);
      if m.None? then None else Some(m.value + 4)
    else None
  }

  /** The lexeme at the front of a text that does not start with whitespace, and its length. */
  function First(t: text): (r: Option<(Lexeme, nat)>)
    requires t != [] && !Blank(t[0])
    ensures r.Some? ==> 0 < r.value.1 <= |t|
  {
    if IsPunct(t[0]) then Some((Punct(t[0]), 1))
    else if t[0] == 34 then
      var n := StringLen(t[1..]);
      if n.None? then None else Some((Str(t[..n.value + 1]), n.value + 1))
    else if t[0] == 47 then
      var n := CommentLen(t);
      if n.None? then None else Some((Comment(t[..n.value]), n.value))
    else
      var n := AtomLen(t);
      Some((Atom(t[..n]), n))
  }

  function Lex(t: text): (r: Option<seq<Lexeme>>)
    decreases |t|
  {
    if t == [] then Some([])
    else if Blank(t[0]) then Lex(t[1..])
    else
      var f := First(t);
      if f.None? then None
      else
        var rest := Lex(t[f.value.1..]);
        if rest.None? then None else Some([f.value.0] + rest.value)
  }

  /** The tokens of a text: its lexemes without the comments. */
  function Tokens(ls: seq<Lexeme>): (ts: seq<Lexeme>) {
    if ls == [] then []
    else if ls[0].Comment? then Tokens(ls[1..])
    else [ls[0]] + Tokens(ls[1..])
  }

  predicate IsComma(l: Lexeme) { l == Punct(44) }

  predicate Closes(l: Lexeme) { l.Punct? && (l.c == 93 || l.c == 125) }

  /** The tokens without the commas whose next token is a closing bracket. */
  function DropTrailing(ts: seq<Lexeme>): (r: seq<Lexeme>) {
    if ts == [] then []
    else if IsComma(ts[0]) && |ts| > 1 && Closes(ts[1]) then DropTrailing(ts[1..])
    else [ts[0]] + DropTrailing(ts[1..])
  }

  /** Every star inside a block comment is followed by whitespace. */
  ghost predicate Gentle(l: Lexeme) {
    l.Comment? && |l.body| > 1 && l.body[1] == 42 ==>
      forall k :: 2 <= k < |l.body| - 2 && l.body[k] == 42 ==> Blank(l.body[k + 1])
  }

  ghost predicate AllGentle(ls: seq<Lexeme>) {
    forall l :: l in ls ==> Gentle(l)
  }

  ghost predicate AllBlank(t: text) {
    forall k :: 0 <= k < |t| ==> Blank(t[k])
  }
}
