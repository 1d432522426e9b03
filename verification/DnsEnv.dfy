/**
 The DNS environment of a certificate: a map printed as `key=value` pairs joined by commas, and
 parsed back from that form.
 */
module DnsEnv {
  import opened Basics

  /** White space as the Go `unicode` package defines it. */
  predicate IsSpace(c: char) {
    || '\t' <= c <= '\r' || c == ' ' || c == '\U{0085}' || c == '\U{00A0}' || c == '\U{1680}'
    || '\U{2000}' <= c <= '\U{200A}' || c == '\U{2028}' || c == '\U{2029}' || c == '\U{202F}'
    || c == '\U{205F}' || c == '\U{3000}'
  }

  predicate IsSeparator(c: char) {
    c == ',' || c == '\n' || c == '\r'
  }

  function TrimLeft(s: string): (t: string)
    ensures t == [] || !IsSpace(t[0])
    ensures forall c :: c in t ==> c in s
  {
    if s != [] && IsSpace(s[0]) then TrimLeft(s[1..]) else s
  }

  function TrimRight(s: string): (t: string)
    ensures t == [] || !IsSpace(t[|t| - 1])
    ensures t <= s
  {
    if s != [] && IsSpace(s[|s| - 1]) then TrimRight(s[..|s| - 1]) else s
  }

  function TrimSpace(s: string): string {
    TrimRight(TrimLeft(s))
  }

  predicate Trimmed(s: string) {
    s != [] ==> !IsSpace(s[0]) && !IsSpace(s[|s| - 1])
  }

  lemma TrimSpaceTrims(s: string)
    ensures Trimmed(TrimSpace(s))
    ensures forall c :: c in TrimSpace(s) ==> c in s
    ensures Trimmed(s) ==> TrimSpace(s) == s
  {
    var l := TrimLeft(s);
    var t := TrimRight(l);
    assert t <= l;
    assert forall c :: c in t ==> c in l;
  }

  // ---------------------------------------------------------------------
  // Printing
  // ---------------------------------------------------------------------

  function Join(items: seq<string>): string {
    if items == [] then ""
    else if |items| == 1 then items[0]
    else items[0] + "," + Join(items[1..])
  }

  /** The items printed for the keys, in their order: a key that is blank prints nothing. */
  function Items(env: map<string, string>, keys: seq<string>): (items: seq<string>)
    requires forall k :: k in keys ==> k in env
  {
    if keys == [] then []
    else
      var k := TrimSpace(keys[0]);
      (if k != "" then [k + "=" + env[keys[0]]] else []) + Items(env, keys[1..])
  }

  /** `keys` lists every key of the map once. */
  ghost predicate Orders(env: map<string, string>, keys: seq<string>) {
    && (forall k :: k in keys <==> k in env)
    && (forall i, j :: 0 <= i < j < |keys| ==> keys[i] != keys[j])
  }

  /** The printed form for one order of the keys. */
  function Print(env: map<string, string>, keys: seq<string>): string
    requires forall k :: k in keys ==> k in env
  {
    Join(Items(env, keys))
  }

  /** A value of the panel's JSON. A number carries its decimal form; a list carries its JSON text,
      and so does an object next to its fields. */
  datatype PanelValue =
    | Null
    | Text(s: string)
    | Flag(b: bool)
    | Number(decimal: string)
    | Array(json: string)
    | Object(fields: map<string, PanelValue>, json: string)

  /** A value as it is printed into an item. */
  function AnyString(v: PanelValue): string {
    match v
    case Null => ""
    case Text(s) => s
    case Flag(b) => if b then "1" else "0"
    case Number(decimal) => decimal
    case Array(json) => json
    case Object(_, json) => json
  }

  /** A value as it is taken for the whole environment: texts and JSON are trimmed. */
  function WholeString(v: PanelValue): string {
    match v
    case Null => ""
    case Text(s) => TrimSpace(s)
    case Flag(b) => if b then "1" else "0"
    case Number(decimal) => decimal
    case Array(json) => TrimSpace(json)
    case Object(_, json) => TrimSpace(json)
  }

  /** The fields of an object with their printed values. */
  function Texts(fields: map<string, PanelValue>): map<string, string> {
    map k | k in fields :: AnyString(fields[k])
  }

  method MapValue(raw: map<string, PanelValue>, keys: seq<string>) returns (v: Option<PanelValue>)
    ensures v.None? <==> forall k :: k in keys ==> k !in raw
    ensures v.Some? ==> exists i :: FirstAt(raw, keys, i) && v.value == raw[keys[i]]
  {
    for i := 0 to |keys|
      invariant forall j :: 0 <= j < i ==> keys[j] !in raw
    {
      if keys[i] in raw {
        assert FirstAt(raw, keys, i);
        return Some(raw[keys[i]]);
      }
    }
    return None;
  }

  ghost predicate FirstAt(raw: map<string, PanelValue>, keys: seq<string>, i: int) {
    0 <= i < |keys| && keys[i] in raw && forall j :: 0 <= j < i ==> keys[j] !in raw
  }

  /** `mapDNSEnv`: the first of the keys that is there is printed. Of an object the fields are
      printed in some order; anything else is printed as a whole, and nothing prints nothing. */
  method MapDNSEnv(raw: map<string, PanelValue>, keys: seq<string>) returns (s: string)
    ensures (forall k :: k in keys ==> k !in raw) ==> s == ""
    ensures forall i :: FirstAt(raw, keys, i) ==>
      match raw[keys[i]]
      case Object(fields, _) => exists order :: Orders(Texts(fields), order) && s == Print(Texts(fields), order)
      case Null => s == ""
      case Text(t) => s == TrimSpace(t)
      case Flag(b) => s == if b then "1" else "0"
      case Number(decimal) => s == decimal
      case Array(json) => s == TrimSpace(json)
  {
    hide AnyString, Items, TrimSpace, Join;
    var value := MapValue(raw, keys);
    if value.None? || value.value.Null? {
      return "";
    }
    if value.value.Object? {
      s := PrintFields(Texts(value.value.fields));
      return;
    }
    return WholeString(value.value);
  }

  /** The loop of `mapDNSEnv` over the fields of an object. */
  method PrintFields(env: map<string, string>) returns (s: string)
    ensures exists order :: Orders(env, order) && s == Print(env, order)
  {
    hide Items, TrimSpace, Join;
    var items: seq<string> := [];
    ghost var keys: seq<string> := [];
    NoItems(env);
    var rest := env.Keys;
    while rest != {}
      invariant rest <= env.Keys
      invariant forall k :: k in keys <==> k in env && k !in rest
      invariant forall i, j :: 0 <= i < j < |keys| ==> keys[i] != keys[j]
      invariant items == Items(env, keys)
      decreases |rest|
    {
      var k :| k in rest;
      ItemsMore(env, keys, k);
      var key := TrimSpace(k);
      if key != "" {
        items := items + [key + "=" + env[k]];
      }
      keys := keys + [k];
      rest := rest - {k};
    }
    s := Join(items);
    assert Orders(env, keys);
  }

  lemma NoItems(env: map<string, string>)
    ensures Items(env, []) == []
  {
  }

  lemma {:induction false} ItemsMore(env: map<string, string>, keys: seq<string>, k: string)
    requires (forall x :: x in keys ==> x in env) && k in env
    ensures forall x :: x in keys + [k] ==> x in env
    ensures Items(env, keys + [k]) == Items(env, keys) +
      if TrimSpace(k) != "" then [TrimSpace(k) + "=" + env[k]] else []
  {
    hide TrimSpace;
    if keys == [] {
      assert [k][1..] == [];
    } else {
      assert (keys + [k])[1..] == keys[1..] + [k];
      assert forall x :: x in keys[1..] ==> x in keys;
      ItemsMore(env, keys[1..], k);
    }
  }

  // ---------------------------------------------------------------------
  // Parsing
  // ---------------------------------------------------------------------

  /** The maximal non-empty pieces between separators. */
  function Fields(s: string): (fs: seq<string>)
    decreases |s|
  {
    if s == [] then []
    else if IsSeparator(s[0]) then Fields(s[1..])
    else
      var n := FieldLen(s);
      [s[..n]] + Fields(s[n..])
  }

  function FieldLen(s: string): (n: nat)
    ensures n <= |s|
    ensures s != [] && !IsSeparator(s[0]) ==> n > 0
  {
    if s == [] || IsSeparator(s[0]) then 0 else 1 + FieldLen(s[1..])
  }

  /** The position of the first equals sign, or the length. */
  function EqualsAt(s: string): (n: nat)
    ensures n <= |s|
    ensures n < |s| ==> s[n] == '='
    ensures '=' !in s[..n]
  {
    if s == [] || s[0] == '=' then 0 else 1 + EqualsAt(s[1..])
  }

  /** The map after one piece was read. */
  function Read(m: map<string, string>, field: string): map<string, string> {
    var n := EqualsAt(field);
    if n == |field| then m
    else
      var key := TrimSpace(field[..n]);
      if key == "" then m else m[key := TrimSpace(field[n + 1..])]
  }

  function ReadAll(m: map<string, string>, fields: seq<string>): map<string, string>
    decreases |fields|
  {
    if fields == [] then m else ReadAll(Read(m, fields[0]), fields[1..])
  }

  /** The plain form of the parser. */
  function Parse(s: string): map<string, string> {
    ReadAll(map[], Fields(TrimSpace(s)))
  }

  /** The text takes the JSON branch of the parser. */
  predicate Braced(s: string) {
    var t := TrimSpace(s);
    t != "" && t[0] == '{'
  }

  type Decoder = string -> Option<map<string, string>>

  /** The text is read as a JSON object. */
  predicate AsJson(text: string, decode: Decoder) {
    Braced(text) && decode(TrimSpace(text)).Some?
  }

  /** `env` is what the text parses to: a text that is read as JSON may give several maps. */
  ghost predicate Parses(text: string, decode: Decoder, env: map<string, string>) {
    if AsJson(text, decode) then Rekeys(decode(TrimSpace(text)).value, env) else env == Parse(text)
  }

  /**
   `parseDNSEnv`. `decode` stands for the JSON decoder: the map of strings a text decodes to, if it
   does. Two decoded keys that trim alike leave the value of whichever is visited last.
   */
  method ParseDNSEnv(text: string, decode: Decoder) returns (env: map<string, string>)
    ensures Parses(text, decode, env)
    ensures
      var t := TrimSpace(text);
      if t != "" && t[0] == '{' && decode(t).Some? then
        var d := decode(t).value;
        && (forall k :: k in d && TrimSpace(k) != "" ==> TrimSpace(k) in env)
        && (forall e :: e in env ==> e != "" && exists k :: k in d && TrimSpace(k) == e && env[e] == d[k])
      else env == Parse(text)
  {
    env := map[];
    var value := TrimSpace(text);
    if value == "" {
      return;
    }
    if value[0] == '{' {
      var decoded := decode(value);
      if decoded.Some? {
        env := Rekey(decoded.value);
        return;
      }
    }
    var envs := Fields(value);
    var i := 0;
    while i < |envs|
      invariant 0 <= i <= |envs|
      invariant ReadAll(env, envs[i..]) == ReadAll(map[], envs)
    {
      hide Fields, TrimSpace, EqualsAt;
      assert envs[i..][0] == envs[i] && envs[i..][1..] == envs[i + 1..];
      var n := EqualsAt(envs[i]);
      if n < |envs[i]| {
        var key := TrimSpace(envs[i][..n]);
        if key != "" {
          env := env[key := TrimSpace(envs[i][n + 1..])];
        }
      }
      i := i + 1;
    }
  }

  /** The keys of `env` are the non-blank keys of `decoded`, trimmed; every value comes from such a key, untrimmed. */
  ghost predicate Rekeys(decoded: map<string, string>, env: map<string, string>) {
    && (forall k :: k in decoded && TrimSpace(k) != "" ==> TrimSpace(k) in env)
    && (forall e :: e in env ==> e != "" && exists k :: k in decoded && TrimSpace(k) == e && decoded[k] == env[e])
  }

  method Rekey(decoded: map<string, string>) returns (env: map<string, string>)
    ensures Rekeys(decoded, env)
  {
    env := map[];
    var rest := decoded.Keys;
    while rest != {}
      invariant rest <= decoded.Keys
      invariant forall k :: k in decoded && k !in rest && TrimSpace(k) != "" ==> TrimSpace(k) in env
      invariant forall e :: e in env ==>
        e != "" && exists k :: k in decoded && TrimSpace(k) == e && decoded[k] == env[e]
      decreases |rest|
    {
      hide TrimSpace;
      var k :| k in rest;
      var key := TrimSpace(k);
      if key != "" {
        env := env[key := decoded[k]];
      }
      rest := rest - {k};
    }
  }

  // ---------------------------------------------------------------------
  // Round trip
  // ---------------------------------------------------------------------

  predicate NoSeparator(s: string) {
    ',' !in s && '\n' !in s && '\r' !in s
  }

  predicate CleanKey(k: string) {
    k != "" && Trimmed(k) && NoSeparator(k) && '=' !in k
  }

  predicate CleanValue(v: string) {
    Trimmed(v) && NoSeparator(v)
  }

  predicate CleanEnv(env: map<string, string>) {
    forall k :: k in env ==> CleanKey(k) && CleanValue(env[k])
  }

  /** No key starts, once trimmed, like a JSON object. */
  predicate NoBraceKey(env: map<string, string>) {
    forall k :: k in env && TrimSpace(k) != "" ==> TrimSpace(k)[0] != '{'
  }

  lemma {:induction false} FieldsSeparated(s: string)
    ensures forall f :: f in Fields(s) ==> NoSeparator(f)
    decreases |s|
  {
    if s == [] {
    } else if IsSeparator(s[0]) {
      FieldsSeparated(s[1..]);
    } else {
      FieldPlain(s);
      FieldsSeparated(s[FieldLen(s)..]);
    }
  }

  lemma {:induction false} FieldPlain(s: string)
    ensures NoSeparator(s[..FieldLen(s)])
  {
    if s != [] && !IsSeparator(s[0]) {
      FieldPlain(s[1..]);
      assert s[..FieldLen(s)] == [s[0]] + s[1..][..FieldLen(s[1..])];
    }
  }

  lemma ReadKeepsClean(m: map<string, string>, field: string)
    requires CleanEnv(m) && NoSeparator(field)
    ensures CleanEnv(Read(m, field))
  {
    hide TrimSpace;
    var n := EqualsAt(field);
    if n < |field| {
      TrimSpaceTrims(field[..n]);
      TrimSpaceTrims(field[n + 1..]);
      assert forall c :: c in field[..n] ==> c in field;
      assert forall c :: c in field[n + 1..] ==> c in field;
    }
  }

  lemma {:induction false} ReadAllClean(m: map<string, string>, fields: seq<string>)
    requires CleanEnv(m) && forall f :: f in fields ==> NoSeparator(f)
    ensures CleanEnv(ReadAll(m, fields))
    decreases |fields|
  {
    hide CleanEnv, Read, NoSeparator;
    if fields != [] {
      ReadKeepsClean(m, fields[0]);
      ReadAllClean(Read(m, fields[0]), fields[1..]);
    }
  }

  /** Whatever the text, the map read from the plain form is clean. */
  lemma ParseClean(s: string)
    ensures CleanEnv(Parse(s))
  {
    FieldsSeparated(TrimSpace(s));
    ReadAllClean(map[], Fields(TrimSpace(s)));
  }

  lemma {:induction false} FieldLenAt(item: string, rest: string)
    requires NoSeparator(item) && (rest == "" || IsSeparator(rest[0]))
    ensures FieldLen(item + rest) == |item|
  {
    if item != "" {
      assert (item + rest)[1..] == item[1..] + rest;
      assert item[0] in item;
      FieldLenAt(item[1..], rest);
    }
  }

  /** Splitting undoes joining. */
  lemma {:induction false} FieldsJoin(items: seq<string>)
    requires forall i :: 0 <= i < |items| ==> items[i] != "" && NoSeparator(items[i])
    ensures Fields(Join(items)) == items
  {
    if items == [] {
    } else if |items| == 1 {
      var s := items[0];
      assert s[0] in s;
      assert s + "" == s;
      FieldLenAt(s, "");
      assert s[|s|..] == "";
    } else {
      var s, tail := items[0], "," + Join(items[1..]);
      assert s[0] in s;
      assert Join(items) == s + tail;
      FieldLenAt(s, tail);
      assert (s + tail)[..|s|] == s && (s + tail)[|s|..] == tail;
      assert tail[1..] == Join(items[1..]);
      FieldsJoin(items[1..]);
    }
  }

  /** What splitting means, with `FieldsJoin` for one item: a separator splits wherever it stands,
      and an empty side gives no piece. */
  lemma {:induction false} FieldsSplit(a: string, sep: char, b: string)
    requires sep == ',' || sep == '\n' || sep == '\r'
    ensures Fields(a + [sep] + b) == Fields(a) + Fields(b)
    decreases |a|
  {
    var s := a + [sep] + b;
    if a == "" {
      assert s == [sep] + b && s[1..] == b;
    } else if IsSeparator(a[0]) {
      assert s[1..] == a[1..] + [sep] + b;
      FieldsSplit(a[1..], sep, b);
    } else {
      var n := FieldLen(a);
      FieldPlain(a);
      FieldEnd(a);
      assert s == a[..n] + (a[n..] + [sep] + b);
      FieldLenAt(a[..n], a[n..] + [sep] + b);
      assert s[..n] == a[..n] && s[n..] == a[n..] + [sep] + b;
      FieldsSplit(a[n..], sep, b);
      FieldsTail(a, s, n, b);
    }
  }

  lemma FieldsTail(a: string, s: string, n: nat, b: string)
    requires 0 < n <= |a| && n <= |s| && !IsSeparator(a[0]) && n == FieldLen(a) == FieldLen(s)
    requires s[..n] == a[..n] && Fields(s[n..]) == Fields(a[n..]) + Fields(b)
    ensures Fields(s) == Fields(a) + Fields(b)
  {
    hide Fields, FieldLen;
    assert s[0] == a[0] by { assert s[..n][0] == a[..n][0]; }
    FieldsFirst(s);
    FieldsFirst(a);
    Regroup(a[..n], Fields(a[n..]), Fields(b));
  }

  lemma Regroup(first: string, p: seq<string>, q: seq<string>)
    ensures [first] + (p + q) == [first] + p + q
  {
  }

  lemma FieldsFirst(s: string)
    requires s != "" && !IsSeparator(s[0])
    ensures Fields(s) == [s[..FieldLen(s)]] + Fields(s[FieldLen(s)..])
  {
    hide FieldLen;
  }

  lemma {:induction false} FieldEnd(s: string)
    ensures FieldLen(s) < |s| ==> IsSeparator(s[FieldLen(s)])
  {
    if s != [] && !IsSeparator(s[0]) { FieldEnd(s[1..]); }
  }

  lemma {:induction false} EqualsAtKey(k: string, rest: string)
    requires '=' !in k
    ensures EqualsAt(k + "=" + rest) == |k|
  {
    var s := k + "=" + rest;
    if k != "" {
      assert s[1..] == k[1..] + "=" + rest;
      EqualsAtKey(k[1..], rest);
    }
  }

  lemma ReadItem(m: map<string, string>, k: string, v: string)
    requires CleanKey(k) && CleanValue(v)
    ensures Read(m, k + "=" + v) == m[k := v]
  {
    EqualsAtKey(k, v);
    var s := k + "=" + v;
    assert s[..|k|] == k && s[|k| + 1..] == v;
    TrimSpaceTrims(k);
    TrimSpaceTrims(v);
  }

  lemma CleanItem(env: map<string, string>, k: string)
    requires CleanEnv(env) && k in env
    ensures CleanKey(k) && CleanValue(env[k]) && TrimSpace(k) == k && k != ""
  {
    TrimSpaceTrims(k);
  }

  lemma Covered(m: map<string, string>, env: map<string, string>, keys: seq<string>)
    requires keys != [] && forall k :: k in keys ==> k in env
    ensures m[keys[0] := env[keys[0]]] + (map k | k in keys[1..] :: env[k]) == m + (map k | k in keys :: env[k])
  {
    assert keys == [keys[0]] + keys[1..];
  }

  /** Reading the printed items of some keys writes exactly their entries. */
  lemma {:induction false} ReadItems(m: map<string, string>, env: map<string, string>, keys: seq<string>)
    requires CleanEnv(env) && forall k :: k in keys ==> k in env
    ensures ReadAll(m, Items(env, keys)) == m + (map k | k in keys :: env[k])
    decreases |keys|
  {
    hide TrimSpace, Read, CleanKey, CleanValue;
    if keys != [] {
      var k := keys[0];
      CleanItem(env, k);
      ReadItem(m, k, env[k]);
      ReadItems(m[k := env[k]], env, keys[1..]);
      var item := k + "=" + env[k];
      var rest := Items(env, keys[1..]);
      assert Items(env, keys) == [item] + rest;
      assert ([item] + rest)[0] == item && ([item] + rest)[1..] == rest;
      Covered(m, env, keys);
    }
  }

  predicate Plain(env: map<string, string>, items: seq<string>) {
    forall i :: 0 <= i < |items| ==>
      && items[i] != "" && !IsSpace(items[i][0]) && (NoBraceKey(env) ==> items[i][0] != '{')
      && (CleanEnv(env) ==> Trimmed(items[i]) && NoSeparator(items[i]))
  }

  /** Every printed item starts with a character of a trimmed key; in a clean map it also stays whole and trimmed. */
  lemma {:induction false} ItemsPlain(env: map<string, string>, keys: seq<string>)
    requires forall k :: k in keys ==> k in env
    ensures Plain(env, Items(env, keys))
    decreases |keys|
  {
    if keys != [] {
      hide TrimSpace, IsSpace, CleanEnv, NoBraceKey, Trimmed, NoSeparator;
      ItemsPlain(env, keys[1..]);
      if TrimSpace(keys[0]) != "" {
        ItemPlain(env, keys[0]);
      }
    }
  }

  lemma ItemPlain(env: map<string, string>, k: string)
    requires k in env && TrimSpace(k) != ""
    ensures var i := TrimSpace(k) + "=" + env[k];
            && !IsSpace(i[0]) && (NoBraceKey(env) ==> i[0] != '{')
            && (CleanEnv(env) ==> Trimmed(i) && NoSeparator(i))
  {
    hide TrimSpace;
    TrimSpaceTrims(k);
  }

  lemma {:induction false} JoinEnds(items: seq<string>)
    requires items != [] && forall i :: 0 <= i < |items| ==> items[i] != ""
    ensures Join(items) != "" && Join(items)[0] == items[0][0]
    ensures Join(items)[|Join(items)| - 1] == items[|items| - 1][|items[|items| - 1]| - 1]
  {
    if |items| > 1 {
      JoinEnds(items[1..]);
    }
  }

  /** A text that starts with a character other than space keeps it when trimmed. */
  lemma TrimKeepsHead(s: string)
    requires s != "" && !IsSpace(s[0])
    ensures TrimSpace(s) != "" && TrimSpace(s)[0] == s[0]
  {
    TrimRightKeepsHead(s);
  }

  lemma {:induction false} TrimRightKeepsHead(s: string)
    requires s != "" && !IsSpace(s[0])
    ensures TrimRight(s) != "" && TrimRight(s)[0] == s[0]
  {
    if IsSpace(s[|s| - 1]) {
      TrimRightKeepsHead(s[..|s| - 1]);
    }
  }

  /** The printed form never takes the JSON branch when no key starts with a brace. */
  lemma PrintedPlain(env: map<string, string>, keys: seq<string>)
    requires NoBraceKey(env) && forall k :: k in keys ==> k in env
    ensures !Braced(Print(env, keys))
  {
    hide TrimSpace, NoBraceKey;
    var items := Items(env, keys);
    ItemsPlain(env, keys);
    if items == [] {
      TrimSpaceTrims("");
    } else {
      JoinEnds(items);
      TrimKeepsHead(Join(items));
    }
  }

  lemma CleanRoundTrip(env: map<string, string>, keys: seq<string>)
    requires CleanEnv(env) && Orders(env, keys)
    ensures Parse(Print(env, keys)) == env
  {
    hide TrimSpace, CleanEnv, Items, Trimmed, NoSeparator;
    var items := Items(env, keys);
    ItemsPlain(env, keys);
    assert Trimmed(Join(items)) by { CleanPrintTrimmed(items); }
    TrimSpaceTrims(Join(items));
    FieldsJoin(items);
    ReadItems(map[], env, keys);
    assert (map k | k in keys :: env[k]) == env;
    assert map[] + env == env;
  }

  lemma CleanPrintTrimmed(items: seq<string>)
    requires forall i :: 0 <= i < |items| ==> items[i] != "" && Trimmed(items[i])
    ensures Trimmed(Join(items))
  {
    if items != [] {
      JoinEnds(items);
    }
  }

  /** The plain form alone: whatever order the keys are printed in, it gives the map back if and only
      if keys and values are clean. */
  lemma PlainRoundTripIff(env: map<string, string>, keys: seq<string>)
    requires Orders(env, keys)
    ensures Parse(Print(env, keys)) == env <==> CleanEnv(env)
  {
    hide CleanEnv, Parse, Print;
    if CleanEnv(env) {
      CleanRoundTrip(env, keys);
    }
    ParseClean(Print(env, keys));
  }

  // ---------------------------------------------------------------------
  // The JSON branch
  // ---------------------------------------------------------------------

  /** What the pairs of these keys take at least in a JSON object: four quotes, a colon and a comma
      or brace besides key and value. */
  function Weight(m: map<string, string>, keys: seq<string>): nat
    requires forall k :: k in keys ==> k in m
  {
    if keys == [] then 0 else |keys[0]| + |m[keys[0]]| + 6 + Weight(m, keys[1..])
  }

  ghost predicate Distinct(keys: seq<string>) {
    forall i, j :: 0 <= i < j < |keys| ==> keys[i] != keys[j]
  }

  /** The map has no more pairs than fit into a text of this length. */
  ghost predicate FitsIn(m: map<string, string>, length: nat) {
    forall keys: seq<string> :: Distinct(keys) && (forall k :: k in keys ==> k in m) ==> Weight(m, keys) < length
  }

  /** The one thing that is asked of a JSON decoder: an object's text is longer than its pairs. No
      escape of JSON is shorter than the character it stands for, see section 7 of RFC 8259. */
  ghost predicate Sized(decode: Decoder) {
    forall t: string :: decode(t).Some? ==> FitsIn(decode(t).value, |t|)
  }

  lemma {:induction false} TrimLeftShorter(s: string)
    ensures |TrimLeft(s)| <= |s|
  {
    if s != [] && IsSpace(s[0]) { TrimLeftShorter(s[1..]); }
  }

  lemma TrimShorter(s: string)
    ensures |TrimSpace(s)| <= |s|
  {
    TrimLeftShorter(s);
  }

  /** The printed form is no longer than the JSON object would be. */
  lemma {:induction false} PrintShorter(env: map<string, string>, keys: seq<string>)
    requires forall k :: k in keys ==> k in env
    ensures |Print(env, keys)| <= Weight(env, keys)
    decreases |keys|
  {
    if keys != [] {
      hide TrimSpace;
      var k, items := keys[0], Items(env, keys[1..]);
      PrintShorter(env, keys[1..]);
      TrimShorter(k);
      if TrimSpace(k) != "" {
        var item := TrimSpace(k) + "=" + env[k];
        assert Items(env, keys) == [item] + items;
        assert ([item] + items)[1..] == items;
      } else {
        assert Items(env, keys) == [] + items == items;
      }
    }
  }

  /** For each key of a rekeyed map a key it came from. */
  lemma {:induction false} Sources(d: map<string, string>, env: map<string, string>,
                                   keys: seq<string>) returns (from: seq<string>)
    requires Rekeys(d, env) && Distinct(keys) && forall k :: k in keys ==> k in env
    ensures |from| == |keys| && Distinct(from) && forall k :: k in from ==> k in d
    ensures forall i :: 0 <= i < |keys| ==> TrimSpace(from[i]) == keys[i]
    ensures Weight(d, from) >= Weight(env, keys)
  {
    hide TrimSpace;
    if keys == [] {
      from := [];
    } else {
      var rest := keys[1..];
      assert forall i :: 0 <= i < |rest| ==> rest[i] == keys[i + 1];
      var tail := Sources(d, env, rest);
      var e := keys[0];
      assert e in keys;
      var k :| k in d && TrimSpace(k) == e && d[k] == env[e];
      from := [k] + tail;
      forall i | 0 <= i < |tail| ensures tail[i] != k {
        assert TrimSpace(tail[i]) == rest[i] == keys[i + 1];
      }
      TrimShorter(k);
      assert from[1..] == tail;
    }
  }

  /** A map whose printed form is read as JSON never comes back: the text is too short for it. */
  lemma JsonBranchLoses(env: map<string, string>, keys: seq<string>, d: map<string, string>)
    requires Orders(env, keys)
    requires FitsIn(d, |TrimSpace(Print(env, keys))|)
    ensures !Rekeys(d, env)
  {
    hide TrimSpace, Print, Rekeys, Weight;
    if Rekeys(d, env) {
      var from := Sources(d, env, keys);
      PrintShorter(env, keys);
      TrimShorter(Print(env, keys));
    }
  }

  /**
   Round trip. For every map and every print order, with any JSON decoder, parsing the printed form
   gives the map back if and only if its keys are non-empty, trimmed and free of separators and
   equals signs, its values trimmed and free of separators, and the printed form is not read as a
   JSON object. Values may contain equals signs.
   */
  lemma RoundTripIff(env: map<string, string>, keys: seq<string>, decode: Decoder, back: map<string, string>)
    requires Orders(env, keys) && Sized(decode)
    requires Parses(Print(env, keys), decode, back)
    ensures back == env <==> CleanEnv(env) && !AsJson(Print(env, keys), decode)
  {
    hide CleanEnv, Parse, Print, Rekeys, TrimSpace, FitsIn, Braced;
    PlainRoundTripIff(env, keys);
    if AsJson(Print(env, keys), decode) {
      JsonBranchLoses(env, keys, decode(TrimSpace(Print(env, keys))).value);
    }
  }

  /** Printing and parsing as the program does. */
  method PrintAndParse(env: map<string, string>, decode: Decoder) returns (s: string, back: map<string, string>)
    requires Sized(decode)
    ensures exists keys :: Orders(env, keys) && s == Print(env, keys)
    ensures back == env <==> CleanEnv(env) && !AsJson(s, decode)
  {
    hide CleanEnv, Parse, Print, AsJson, Parses, Sized;
    s := PrintFields(env);
    ghost var keys :| Orders(env, keys) && s == Print(env, keys);
    back := ParseDNSEnv(s, decode);
    RoundTripIff(env, keys, decode, back);
  }

  /** Without a key that starts with a brace the condition is about the map alone. */
  lemma NoBraceRoundTripIff(env: map<string, string>, keys: seq<string>, decode: Decoder, back: map<string, string>)
    requires Orders(env, keys) && NoBraceKey(env) && Parses(Print(env, keys), decode, back)
    ensures back == env <==> CleanEnv(env)
  {
    hide CleanEnv, Parse, Print, NoBraceKey, Braced, TrimSpace;
    PrintedPlain(env, keys);
    PlainRoundTripIff(env, keys);
  }

  /**
   A key that starts with a brace can be clean and still be lost: the printed form of this map is the
   JSON object with the one key `a=`, and any decoder that reads it so takes the JSON branch.
   */
  lemma BraceKeyLost()
    ensures var env := map["{\"a" := "\":\"b\"}"];
            && CleanEnv(env)
            && Orders(env, ["{\"a"])
            && Print(env, ["{\"a"]) == "{\"a=\":\"b\"}"
            && Braced(Print(env, ["{\"a"]))
            && FitsIn(map["a=" := "b"], |TrimSpace(Print(env, ["{\"a"]))|)
            && !Rekeys(map["a=" := "b"], env)
  {
    hide TrimSpace, FitsIn;
    var k, v := "{\"a", "\":\"b\"}";
    var env := map[k := v];
    TrimSpaceTrims(k);
    TrimKeepsHead(k + "=" + v);
    OneItem(env, k);
    TrimSpaceTrims("a=");
    assert "a=" !in env;
    TrimSpaceTrims(k + "=" + v);
    OnePairFits("a=", "b");
  }

  lemma OneItem(env: map<string, string>, k: string)
    requires k in env && TrimSpace(k) == k && k != ""
    ensures Print(env, [k]) == k + "=" + env[k]
  {
    hide TrimSpace;
    assert [k][1..] == [];
    assert Items(env, [k]) == [k + "=" + env[k]];
  }

  lemma OnePairFits(k: string, v: string)
    ensures FitsIn(map[k := v], |k| + |v| + 7)
  {
    forall keys: seq<string> | Distinct(keys) && forall x :: x in keys ==> x in map[k := v]
      ensures Weight(map[k := v], keys) < |k| + |v| + 7
    {
      AtMostOne(keys, k);
      if keys != [] { assert keys[0] in keys && keys[1..] == []; }
    }
  }

  lemma AtMostOne(keys: seq<string>, k: string)
    requires Distinct(keys) && forall x :: x in keys ==> x == k
    ensures |keys| <= 1
  {
    hide Distinct;
    if |keys| > 1 { Apart(keys, 0, 1); }
  }

  lemma Apart(keys: seq<string>, i: nat, j: nat)
    requires Distinct(keys) && i < j < |keys|
    ensures keys[i] in keys && keys[j] in keys && keys[i] != keys[j]
  {
  }
}
