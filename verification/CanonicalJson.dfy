/** Canonical JSON text: object keys sorted by UTF-16 code units, no white space. */
module CanonicalJson {
  import opened Outcomes
  import opened Sorting

  // A UTF-16 code unit; JavaScript strings are sequences of them.
  type Unit = u: int | 0 <= u < 0x10000

  type Text = seq<Unit>

  // A finite number is given by its ECMAScript text.
  datatype Json =
    | Null
    | Bool(b: bool)
    | Num(token: Text)
    | Str(s: Text)
    | Arr(items: seq<Json>)
    | Obj(fields: seq<Field>)

  datatype Field = Field(key: Text, value: Json)

  // ---------- Well-formed trees ----------

  predicate IsDigit(u: Unit) { '0' as int <= u <= '9' as int }

  predicate IsNumberUnit(u: Unit) {
    IsDigit(u) || u in {'-' as int, '+' as int, '.' as int, 'e' as int}
  }

  predicate IsNumberToken(t: Text) {
    && t != []
    && (IsDigit(t[0]) || t[0] == '-' as int)
    && forall i :: 0 <= i < |t| ==> IsNumberUnit(t[i])
  }

  ghost predicate DistinctKeys(fields: seq<Field>) {
    forall i, j :: 0 <= i < j < |fields| ==> fields[i].key != fields[j].key
  }

  ghost predicate WellFormed(v: Json) {
    match v
    case Num(token) => IsNumberToken(token)
    case Arr(items) => forall x :: x in items ==> WellFormed(x)
    case Obj(fields) => DistinctKeys(fields) && forall f :: f in fields ==> WellFormed(f.value)
    case _ => true
  }

  // ---------- String literals ----------

  const QUOTE: Unit := 0x22
  const BACKSLASH: Unit := 0x5C
  const COMMA: Unit := 0x2C
  const COLON: Unit := 0x3A

  predicate IsHigh(u: Unit) { 0xD800 <= u <= 0xDBFF }

  predicate IsLow(u: Unit) { 0xDC00 <= u <= 0xDFFF }

  function Hex(d: int): Unit
    requires 0 <= d < 16
  {
    if d < 10 then 0x30 + d else 0x61 + d - 10
  }

  function Unhex(u: Unit): (d: int)
    ensures 0 <= d < 16
  {
    if 0x30 <= u <= 0x39 then u - 0x30 else if 0x61 <= u <= 0x66 then u - 0x61 + 10 else 0
  }

  function UnicodeEscape(u: Unit): Text {
    [BACKSLASH, 0x75, Hex(u / 4096), Hex(u / 256 % 16), Hex(u / 16 % 16), Hex(u % 16)]
  }

  // The letter of a two-character escape, if the unit has one.
  function ShortEscape(u: Unit): Option<Unit> {
    if u == QUOTE || u == BACKSLASH then Some(u)
    else if u == 8 then Some(0x62)
    else if u == 9 then Some(0x74)
    else if u == 10 then Some(0x6E)
    else if u == 12 then Some(0x66)
    else if u == 13 then Some(0x72)
    else None
  }

  // A surrogate pair is copied whole; every other unit is written on its own.
  function Width(s: Text): (w: nat)
    requires s != []
    ensures 1 <= w <= |s| && w <= 2
  {
    if IsHigh(s[0]) && |s| > 1 && IsLow(s[1]) then 2 else 1
  }

  function Piece(s: Text): Text
    requires s != []
  {
    if ShortEscape(s[0]).Some? then [BACKSLASH, ShortEscape(s[0]).value]
    else if s[0] < 0x20 then UnicodeEscape(s[0])
    else if Width(s) == 2 then [s[0], s[1]]
    else if IsHigh(s[0]) || IsLow(s[0]) then UnicodeEscape(s[0])
    else [s[0]]
  }

  function Escape(s: Text): Text {
    if s == [] then [] else Piece(s) + Escape(s[Width(s)..])
  }

  function Quote(s: Text): Text { [QUOTE] + Escape(s) + [QUOTE] }

  function Unescaped(u: Unit): Unit {
    if u == 0x62 then 8 else if u == 0x74 then 9 else if u == 0x6E then 10
    else if u == 0x66 then 12 else if u == 0x72 then 13 else u
  }

  // Reads a literal up to its closing quote.
  function Unquote(t: Text): Option<(Text, Text)> {
    if t == [] then None
    else if t[0] == QUOTE then Some(([], t[1..]))
    else if t[0] == BACKSLASH then
      if |t| >= 6 && t[1] == 0x75 then
        var u := 4096 * Unhex(t[2]) + 256 * Unhex(t[3]) + 16 * Unhex(t[4]) + Unhex(t[5]);
        Prepend(u, Unquote(t[6..]))
      else if |t| >= 2 then Prepend(Unescaped(t[1]), Unquote(t[2..]))
      else None
    else Prepend(t[0], Unquote(t[1..]))
  }

  function Prepend(u: Unit, r: Option<(Text, Text)>): Option<(Text, Text)> {
    match r
    case None => None
    case Some((s, rest)) => Some(([u] + s, rest))
  }

  lemma HexDigits(u: Unit)
    ensures u == 4096 * (u / 4096) + 256 * (u / 256 % 16) + 16 * (u / 16 % 16) + u % 16
    ensures u / 4096 < 16
  {}

  lemma UnquoteUnicode(u: Unit, t: Text)
    ensures Unquote(UnicodeEscape(u) + t) == Prepend(u, Unquote(t))
  {
    HexDigits(u);
    assert (UnicodeEscape(u) + t)[6..] == t;
  }

  lemma UnquotePiece(s: Text, t: Text, decoded: Text, rest: Text)
    requires s != [] && Unquote(t) == Some((decoded, rest))
    ensures Unquote(Piece(s) + t) == Some((s[..Width(s)] + decoded, rest))
  {
    var text := Piece(s) + t;
    if ShortEscape(s[0]).Some? {
      assert text[2..] == t;
      assert s[..1] == [s[0]];
    } else if Piece(s) == UnicodeEscape(s[0]) {
      UnquoteUnicode(s[0], t);
      assert Width(s) == 1;
      assert s[..1] == [s[0]];
    } else if Width(s) == 2 {
      assert text[1..] == [s[1]] + t;
      assert text[1..][1..] == t;
      assert [s[0]] + ([s[1]] + decoded) == s[..2] + decoded;
    } else {
      assert text[1..] == t;
      assert s[..1] == [s[0]];
    }
  }

  // Decoding a literal gives back the string it was written for.
  lemma {:induction false} UnquoteEscape(s: Text, rest: Text)
    ensures Unquote(Escape(s) + [QUOTE] + rest) == Some((s, rest))
  {
    if s == [] {
      assert Escape(s) + [QUOTE] + rest == [QUOTE] + rest;
    } else {
      var tail := s[Width(s)..];
      UnquoteEscape(tail, rest);
      UnquotePiece(s, Escape(tail) + [QUOTE] + rest, tail, rest);
      Regroup(Piece(s), Escape(tail), rest);
      SplitAt(s, Width(s));
    }
  }

  lemma Regroup(a: Text, b: Text, rest: Text)
    ensures a + b + [QUOTE] + rest == a + (b + [QUOTE] + rest)
  {}

  lemma SplitAt(s: Text, n: nat)
    requires n <= |s|
    ensures s[..n] + s[n..] == s
  {}

  lemma QuoteUnique(s: Text, q: Text, r: Text, t: Text)
    requires Quote(s) + r == Quote(q) + t
    ensures s == q && r == t
  {
    UnquoteQuoted(s, r, Quote(s) + r);
    UnquoteQuoted(q, t, Quote(q) + t);
  }

  lemma UnquoteQuoted(s: Text, r: Text, text: Text)
    requires text == Quote(s) + r
    ensures text != [] && Unquote(text[1..]) == Some((s, r))
  {
    UnquoteEscape(s, r);
    assert text[1..] == Escape(s) + [QUOTE] + r;
  }

  // ---------- Writing a tree in the order it is given ----------

  function Write(v: Json): Text
    decreases v, 0
  {
    match v
    case Null => [0x6E, 0x75, 0x6C, 0x6C]
    case Bool(b) => if b then [0x74, 0x72, 0x75, 0x65] else [0x66, 0x61, 0x6C, 0x73, 0x65]
    case Num(token) => token
    case Str(s) => Quote(s)
    case Arr(items) => [0x5B] + WriteItems(items) + [0x5D]
    case Obj(fields) => [0x7B] + WriteFields(fields) + [0x7D]
  }

  function WriteItems(items: seq<Json>): Text
    decreases items, 1
  {
    if items == [] then []
    else Write(items[0]) + (if |items| == 1 then [] else [COMMA] + WriteItems(items[1..]))
  }

  function WriteFields(fields: seq<Field>): Text
    decreases fields, 1
  {
    if fields == [] then []
    else
      var more := if |fields| == 1 then [] else [COMMA] + WriteFields(fields[1..]);
      Quote(fields[0].key) + [COLON] + Write(fields[0].value) + more
  }

  // What may follow a value: nothing, a comma or a closing bracket.
  ghost predicate Delimits(r: Text) {
    r == [] || r[0] in {COMMA, 0x5D, 0x7D}
  }

  lemma WriteStart(v: Json, r: Text)
    requires WellFormed(v)
    ensures Write(v) != []
    ensures var first := (Write(v) + r)[0];
      && first == Write(v)[0] && first !in {COMMA, 0x5D, 0x7D}
      && (first == 0x6E <==> v.Null?) && (first in {0x74, 0x66} <==> v.Bool?)
      && (first == QUOTE <==> v.Str?) && (first == 0x5B <==> v.Arr?) && (first == 0x7B <==> v.Obj?)
      && (IsDigit(first) || first == '-' as int <==> v.Num?)
  {
    match v
    case Num(token) => assert IsDigit(token[0]) || token[0] == '-' as int;
    case _ =>
  }

  lemma NumberNotShorter(m: Text, n: Text, r: Text, t: Text)
    requires m + r == n + t && Delimits(r)
    requires forall i :: 0 <= i < |n| ==> IsNumberUnit(n[i])
    ensures |n| <= |m|
  {
    var all := m + r;
    assert all == n + t;
    assert forall i :: 0 <= i < |n| ==> all[i] == n[i];
    assert |m| < |all| ==> all[|m|] == r[0];
  }

  lemma NumberUnique(m: Text, n: Text, r: Text, t: Text)
    requires m + r == n + t && Delimits(r) && Delimits(t)
    requires forall i :: 0 <= i < |m| ==> IsNumberUnit(m[i])
    requires forall i :: 0 <= i < |n| ==> IsNumberUnit(n[i])
    ensures m == n && r == t
  {
    NumberNotShorter(m, n, r, t);
    NumberNotShorter(n, m, t, r);
    assert (m + r)[..|m|] == m && (n + t)[..|m|] == n;
    assert (m + r)[|m|..] == r && (n + t)[|m|..] == t;
  }

  lemma DropPrefix(a: Text, r: Text)
    ensures (a + r)[|a|..] == r
  {}

  lemma DropArr(items: seq<Json>, r: Text)
    ensures (Write(Arr(items)) + r)[1..] == WriteItems(items) + ([0x5D] + r)
  {}

  lemma DropObj(fields: seq<Field>, r: Text)
    ensures (Write(Obj(fields)) + r)[1..] == WriteFields(fields) + ([0x7D] + r)
  {}

  lemma SameKind(v: Json, w: Json, r: Text, t: Text)
    requires WellFormed(v) && WellFormed(w)
    requires Write(v) + r == Write(w) + t
    ensures (v.Null? <==> w.Null?) && (v.Bool? ==> v == w) && (v.Num? <==> w.Num?)
    ensures (v.Str? <==> w.Str?) && (v.Arr? <==> w.Arr?) && (v.Obj? <==> w.Obj?)
  {
    WriteStart(v, r);
    WriteStart(w, t);
  }

  // A written tree can be read off any text it starts.
  lemma {:induction false} WriteUnique(v: Json, w: Json, r: Text, t: Text)
    requires WellFormed(v) && WellFormed(w) && Delimits(r) && Delimits(t)
    requires Write(v) + r == Write(w) + t
    ensures v == w && r == t
    decreases v, 0
  {
    SameKind(v, w, r, t);
    match v {
      case Null =>
        DropPrefix(Write(v), r);
        DropPrefix(Write(w), t);
      case Bool(b) =>
        DropPrefix(Write(v), r);
        DropPrefix(Write(w), t);
      case Num(token) =>
        NumberUnique(token, w.token, r, t);
      case Str(s) =>
        QuoteUnique(s, w.s, r, t);
      case Arr(items) =>
        DropArr(items, r);
        DropArr(w.items, t);
        ItemsUnique(items, w.items, r, t);
      case Obj(fields) =>
        DropObj(fields, r);
        DropObj(w.fields, t);
        FieldsUnique(fields, w.fields, r, t);
    }
  }

  lemma {:induction false} ItemsUnique(xs: seq<Json>, ys: seq<Json>, r: Text, t: Text)
    requires forall x :: x in xs ==> WellFormed(x)
    requires forall y :: y in ys ==> WellFormed(y)
    requires WriteItems(xs) + ([0x5D] + r) == WriteItems(ys) + ([0x5D] + t)
    ensures xs == ys && r == t
    decreases xs, 1
  {
    if xs == [] || ys == [] {
      EmptyItems(xs, ys, r, t);
    } else {
      var restX := ItemsTail(xs, r);
      var restY := ItemsTail(ys, t);
      WriteUnique(xs[0], ys[0], restX, restY);
      ItemTailsAgree(xs, ys, r, t);
      if |xs| > 1 {
        ItemsUnique(xs[1..], ys[1..], r, t);
      }
      assert xs == [xs[0]] + xs[1..] && ys == [ys[0]] + ys[1..];
    }
  }

  function ItemsRest(xs: seq<Json>, r: Text): Text
    requires xs != []
  {
    if |xs| == 1 then [0x5D] + r else [COMMA] + WriteItems(xs[1..]) + ([0x5D] + r)
  }

  lemma ItemTailsAgree(xs: seq<Json>, ys: seq<Json>, r: Text, t: Text)
    requires xs != [] && ys != [] && ItemsRest(xs, r) == ItemsRest(ys, t)
    ensures |xs| == 1 <==> |ys| == 1
    ensures |xs| == 1 ==> r == t
    ensures |xs| > 1 ==> WriteItems(xs[1..]) + ([0x5D] + r) == WriteItems(ys[1..]) + ([0x5D] + t)
  {
    assert ItemsRest(xs, r)[0] == ItemsRest(ys, t)[0];
    if |xs| == 1 {
      assert ItemsRest(xs, r)[1..] == r && ItemsRest(ys, t)[1..] == t;
    } else {
      assert ItemsRest(xs, r)[1..] == WriteItems(xs[1..]) + ([0x5D] + r);
      assert ItemsRest(ys, t)[1..] == WriteItems(ys[1..]) + ([0x5D] + t);
    }
  }

  lemma ItemsTail(xs: seq<Json>, r: Text) returns (rest: Text)
    requires xs != []
    ensures WriteItems(xs) + ([0x5D] + r) == Write(xs[0]) + rest
    ensures rest == ItemsRest(xs, r) && Delimits(rest)
  {
    rest := ItemsRest(xs, r);
  }

  lemma ItemsStart(xs: seq<Json>, r: Text)
    requires forall x :: x in xs ==> WellFormed(x)
    ensures (WriteItems(xs) + ([0x5D] + r))[0] == 0x5D <==> xs == []
  {
    if xs != [] {
      var rest := ItemsTail(xs, r);
      WriteStart(xs[0], rest);
    }
  }

  lemma EmptyItems(xs: seq<Json>, ys: seq<Json>, r: Text, t: Text)
    requires forall x :: x in xs ==> WellFormed(x)
    requires forall y :: y in ys ==> WellFormed(y)
    requires WriteItems(xs) + ([0x5D] + r) == WriteItems(ys) + ([0x5D] + t)
    requires xs == [] || ys == []
    ensures xs == ys && r == t
  {
    ItemsStart(xs, r);
    ItemsStart(ys, t);
    assert (WriteItems(xs) + ([0x5D] + r))[1..] == r && (WriteItems(ys) + ([0x5D] + t))[1..] == t;
  }

  lemma {:induction false} FieldsUnique(fs: seq<Field>, gs: seq<Field>, r: Text, t: Text)
    requires forall f :: f in fs ==> WellFormed(f.value)
    requires forall g :: g in gs ==> WellFormed(g.value)
    requires WriteFields(fs) + ([0x7D] + r) == WriteFields(gs) + ([0x7D] + t)
    ensures fs == gs && r == t
    decreases fs, 1
  {
    if fs == [] || gs == [] {
      EmptyFields(fs, gs, r, t);
    } else {
      var restF := FieldsTail(fs, r);
      var restG := FieldsTail(gs, t);
      FirstFieldUnique(fs[0], gs[0], restF, restG);
      WriteUnique(fs[0].value, gs[0].value, restF, restG);
      TailsAgree(fs, gs, r, t);
      if |fs| > 1 {
        FieldsUnique(fs[1..], gs[1..], r, t);
      }
      assert fs == [fs[0]] + fs[1..] && gs == [gs[0]] + gs[1..];
    }
  }

  function Rest(fs: seq<Field>, r: Text): Text
    requires fs != []
  {
    if |fs| == 1 then [0x7D] + r else [COMMA] + WriteFields(fs[1..]) + ([0x7D] + r)
  }

  lemma TailsAgree(fs: seq<Field>, gs: seq<Field>, r: Text, t: Text)
    requires fs != [] && gs != [] && Rest(fs, r) == Rest(gs, t)
    ensures |fs| == 1 <==> |gs| == 1
    ensures |fs| == 1 ==> r == t
    ensures |fs| > 1 ==> WriteFields(fs[1..]) + ([0x7D] + r) == WriteFields(gs[1..]) + ([0x7D] + t)
  {
    var x := if |fs| == 1 then r else WriteFields(fs[1..]) + ([0x7D] + r);
    var y := if |gs| == 1 then t else WriteFields(gs[1..]) + ([0x7D] + t);
    RestText(fs, r, x);
    RestText(gs, t, y);
    TextTailsAgree(|fs| == 1, |gs| == 1, x, y);
  }

  lemma RestText(fs: seq<Field>, r: Text, x: Text)
    requires fs != [] && x == if |fs| == 1 then r else WriteFields(fs[1..]) + ([0x7D] + r)
    ensures Rest(fs, r) == [if |fs| == 1 then 0x7D else COMMA] + x
  {
    if |fs| > 1 {
      JoinAssociates([COMMA], WriteFields(fs[1..]), [0x7D] + r);
    }
  }

  lemma JoinAssociates(a: Text, b: Text, c: Text)
    ensures a + b + c == a + (b + c)
  {}

  lemma TextTailsAgree(p: bool, q: bool, x: Text, y: Text)
    requires [if p then 0x7D else COMMA] + x == [if q then 0x7D else COMMA] + y
    ensures p == q && x == y
  {
    var a, b := [if p then 0x7D else COMMA] + x, [if q then 0x7D else COMMA] + y;
    assert a[0] == b[0] && a[1..] == x && b[1..] == y;
  }

  lemma FirstFieldUnique(f: Field, g: Field, r: Text, t: Text)
    requires Quote(f.key) + ([COLON] + Write(f.value) + r) == Quote(g.key) + ([COLON] + Write(g.value) + t)
    ensures f.key == g.key && Write(f.value) + r == Write(g.value) + t
  {
    QuoteUnique(f.key, g.key, [COLON] + Write(f.value) + r, [COLON] + Write(g.value) + t);
    assert ([COLON] + Write(f.value) + r)[1..] == Write(f.value) + r;
    assert ([COLON] + Write(g.value) + t)[1..] == Write(g.value) + t;
  }

  lemma FieldsTail(fs: seq<Field>, r: Text) returns (rest: Text)
    requires fs != []
    ensures WriteFields(fs) + ([0x7D] + r) == Quote(fs[0].key) + ([COLON] + Write(fs[0].value) + rest)
    ensures rest == Rest(fs, r) && Delimits(rest)
  {
    rest := Rest(fs, r);
  }

  lemma FieldsStart(fs: seq<Field>, r: Text)
    ensures (WriteFields(fs) + ([0x7D] + r))[0] == if fs == [] then 0x7D else QUOTE
  {}

  lemma EmptyFields(fs: seq<Field>, gs: seq<Field>, r: Text, t: Text)
    requires WriteFields(fs) + ([0x7D] + r) == WriteFields(gs) + ([0x7D] + t)
    requires fs == [] || gs == []
    ensures fs == gs && r == t
  {
    FieldsStart(fs, r);
    FieldsStart(gs, t);
    assert (WriteFields(fs) + ([0x7D] + r))[1..] == r && (WriteFields(gs) + ([0x7D] + t))[1..] == t;
  }

  // ---------- Key order ----------

  predicate TextLe(a: Text, b: Text) {
    a == [] || (b != [] && if a[0] != b[0] then a[0] < b[0] else TextLe(a[1..], b[1..]))
  }

  function KeyOrder(): (Field, Field) -> bool {
    (f: Field, g: Field) => TextLe(f.key, g.key)
  }

  lemma {:induction false} TextLeTotal(a: Text, b: Text)
    ensures TextLe(a, b) || TextLe(b, a)
    ensures TextLe(a, b) && TextLe(b, a) ==> a == b
  {
    if a != [] && b != [] && a[0] == b[0] {
      TextLeTotal(a[1..], b[1..]);
      assert a == [a[0]] + a[1..] && b == [b[0]] + b[1..];
    }
  }

  lemma {:induction false} TextLeTransitive(a: Text, b: Text, c: Text)
    requires TextLe(a, b) && TextLe(b, c)
    ensures TextLe(a, c)
  {
    if a != [] && a[0] == b[0] && b[0] == c[0] {
      TextLeTransitive(a[1..], b[1..], c[1..]);
    }
  }

  lemma KeyOrderIsPreorder()
    ensures TotalPreorder(KeyOrder())
  {
    forall f: Field, g: Field ensures KeyOrder()(f, g) || KeyOrder()(g, f) {
      TextLeTotal(f.key, g.key);
    }
    forall f: Field, g: Field, h: Field | KeyOrder()(f, g) && KeyOrder()(g, h) ensures KeyOrder()(f, h) {
      TextLeTransitive(f.key, g.key, h.key);
    }
  }

  lemma KeyOrderIsStrict(fs: seq<Field>)
    requires DistinctKeys(fs)
    ensures Strict(KeyOrder(), fs)
  {
    forall f, g | f in fs && g in fs && KeyOrder()(f, g) && KeyOrder()(g, f) ensures f == g {
      TextLeTotal(f.key, g.key);
    }
  }

  // The tree with the fields of every object sorted by key.
  function Canon(v: Json): Json
    decreases v, 0
  {
    match v
    case Arr(items) => Arr(CanonItems(items))
    case Obj(fields) => Obj(Sort(KeyOrder(), CanonFields(fields)))
    case _ => v
  }

  function CanonItems(items: seq<Json>): (out: seq<Json>)
    ensures |out| == |items|
    ensures forall i :: 0 <= i < |items| ==> out[i] == Canon(items[i])
    decreases items, 1
  {
    if items == [] then [] else [Canon(items[0])] + CanonItems(items[1..])
  }

  function CanonFields(fields: seq<Field>): (out: seq<Field>)
    ensures |out| == |fields|
    ensures forall i :: 0 <= i < |fields| ==> out[i] == Field(fields[i].key, Canon(fields[i].value))
    decreases fields, 1
  {
    if fields == [] then []
    else [Field(fields[0].key, Canon(fields[0].value))] + CanonFields(fields[1..])
  }

  // The canonical text of a tree.
  function Serialize(v: Json): Text { Write(Canon(v)) }

  lemma SortKeepsDistinctKeys(fs: seq<Field>)
    requires DistinctKeys(fs)
    ensures DistinctKeys(Sort(KeyOrder(), fs))
  {
    SortKeepsKeysDifferent(KeyOrder(), (f: Field) => f.key, fs);
  }

  lemma {:induction false} CanonWellFormed(v: Json)
    requires WellFormed(v)
    ensures WellFormed(Canon(v))
    decreases v
  {
    match v {
      case Arr(items) =>
        forall i | 0 <= i < |items| ensures WellFormed(CanonItems(items)[i]) {
          CanonWellFormed(items[i]);
        }
      case Obj(fields) =>
        var out := CanonFields(fields);
        forall f | f in out ensures WellFormed(f.value) {
          var i :| 0 <= i < |out| && out[i] == f;
          CanonWellFormed(fields[i].value);
        }
        SortKeepsDistinctKeys(out);
        SortMembers(KeyOrder(), out);
      case _ =>
    }
  }

  // Equality of trees up to the order in which objects list their keys.
  ghost predicate Same(v: Json, w: Json)
    decreases v
  {
    match v
    case Arr(items) =>
      w.Arr? && |items| == |w.items| && forall i :: 0 <= i < |items| ==> Same(items[i], w.items[i])
    case Obj(fields) =>
      && w.Obj? && |fields| == |w.fields|
      && forall i :: 0 <= i < |fields| ==>
           exists j :: 0 <= j < |w.fields| && w.fields[j].key == fields[i].key && Same(fields[i].value, w.fields[j].value)
    case _ => v == w
  }

  lemma {:induction false} CanonEqualImpliesSame(v: Json, w: Json)
    requires WellFormed(v) && WellFormed(w) && Canon(v) == Canon(w)
    ensures Same(v, w)
    decreases v, 1
  {
    match v {
      case Arr(items) =>
        forall i | 0 <= i < |items| ensures Same(items[i], w.items[i]) {
          assert CanonItems(items)[i] == CanonItems(w.items)[i];
          CanonEqualImpliesSame(items[i], w.items[i]);
        }
      case Obj(fields) =>
        SortedAlike(CanonFields(fields), CanonFields(w.fields));
        forall i: nat | i < |fields|
          ensures exists j :: 0 <= j < |w.fields| && w.fields[j].key == fields[i].key && Same(fields[i].value, w.fields[j].value)
        {
          var j := SameField(v, w, i);
        }
      case _ =>
    }
  }

  lemma {:induction false} SameField(v: Json, w: Json, i: nat) returns (j: nat)
    requires v.Obj? && w.Obj? && WellFormed(v) && WellFormed(w) && i < |v.fields|
    requires multiset(CanonFields(v.fields)) == multiset(CanonFields(w.fields))
    ensures j < |w.fields| && w.fields[j].key == v.fields[i].key && Same(v.fields[i].value, w.fields[j].value)
    decreases v, 0
  {
    j := FindField(CanonFields(v.fields), CanonFields(w.fields), i);
    assert Canon(v.fields[i].value) == Canon(w.fields[j].value);
    CanonEqualImpliesSame(v.fields[i].value, w.fields[j].value);
  }

  lemma SortedAlike(a: seq<Field>, b: seq<Field>)
    requires Sort(KeyOrder(), a) == Sort(KeyOrder(), b)
    ensures multiset(a) == multiset(b) && |a| == |b|
  {
    SortPermutes(KeyOrder(), a);
    SortPermutes(KeyOrder(), b);
  }

  lemma FindField(a: seq<Field>, b: seq<Field>, i: nat) returns (j: nat)
    requires i < |a| && multiset(a) == multiset(b)
    ensures j < |b| && b[j] == a[i]
  {
    assert a[i] in multiset(b);
    j :| 0 <= j < |b| && b[j] == a[i];
  }

  lemma {:induction false} DistinctIncluded(a: seq<Field>, b: seq<Field>)
    requires DistinctKeys(a) && |a| == |b|
    requires forall f :: f in a ==> f in b
    ensures multiset(a) == multiset(b)
  {
    if a != [] {
      assert a[0] in a;
      var k :| 0 <= k < |b| && b[k] == a[0];
      var rest := b[..k] + b[k + 1..];
      assert b == b[..k] + [b[k]] + b[k + 1..];
      assert a == [a[0]] + a[1..];
      forall f | f in a[1..] ensures f in rest {
        assert f in b && f != a[0];
      }
      DistinctIncluded(a[1..], rest);
    }
  }

  lemma {:induction false} SameImpliesCanonEqual(v: Json, w: Json)
    requires WellFormed(v) && WellFormed(w) && Same(v, w)
    ensures Canon(v) == Canon(w)
    decreases v, 1
  {
    match v {
      case Arr(items) =>
        forall i | 0 <= i < |items| ensures CanonItems(items)[i] == CanonItems(w.items)[i] {
          SameImpliesCanonEqual(items[i], w.items[i]);
        }
      case Obj(fields) =>
        var a, b := CanonFields(fields), CanonFields(w.fields);
        forall f | f in a ensures f in b {
          var i: nat :| i < |a| && a[i] == f;
          var j := SameFieldCanon(v, w, i);
        }
        FieldsSortAlike(a, b);
      case _ =>
    }
  }

  lemma {:induction false} SameFieldCanon(v: Json, w: Json, i: nat) returns (j: nat)
    requires v.Obj? && w.Obj? && WellFormed(v) && WellFormed(w) && Same(v, w) && i < |v.fields|
    ensures j < |w.fields| && CanonFields(w.fields)[j] == CanonFields(v.fields)[i]
    decreases v, 0
  {
    j :| 0 <= j < |w.fields| && w.fields[j].key == v.fields[i].key && Same(v.fields[i].value, w.fields[j].value);
    SameImpliesCanonEqual(v.fields[i].value, w.fields[j].value);
  }

  lemma FieldsSortAlike(a: seq<Field>, b: seq<Field>)
    requires DistinctKeys(a) && |a| == |b| && forall f :: f in a ==> f in b
    ensures Sort(KeyOrder(), a) == Sort(KeyOrder(), b)
  {
    DistinctIncluded(a, b);
    KeyOrderIsPreorder();
    KeyOrderIsStrict(a);
    SortOfPermutation(KeyOrder(), a, b);
  }

  // Two trees have the same canonical text exactly when they are equal up to key order.
  lemma SerializeInjective(v: Json, w: Json)
    requires WellFormed(v) && WellFormed(w)
    ensures Serialize(v) == Serialize(w) <==> Same(v, w)
  {
    if Same(v, w) {
      SameImpliesCanonEqual(v, w);
    }
    if Serialize(v) == Serialize(w) {
      CanonWellFormed(v);
      CanonWellFormed(w);
      assert Write(Canon(v)) + [] == Write(Canon(w)) + [];
      WriteUnique(Canon(v), Canon(w), [], []);
      CanonEqualImpliesSame(v, w);
    }
  }

  // ---------- Serialising an object graph ----------

  // A JavaScript value: primitives, or a reference to an object on the heap.
  datatype Value =
    | VNull | VBool(b: bool) | VNumber(token: Text) | VString(s: Text)
    | NonFinite   // NaN and the infinities
    | NonJson     // undefined, functions, symbols, big integers
    | Ref(id: nat)

  datatype Entry = Entry(key: Text, value: Value)

  datatype Object =
    | ArrayObject(items: seq<Value>)
    | PlainObject(entries: seq<Entry>)
    | Exotic      // any other prototype

  type Heap = map<nat, Object>

  datatype JsonError = NonFiniteNumber | NotJson | Circular | NotPlain

  ghost predicate HeapWellFormed(h: Heap) {
    && (forall id :: id in h && h[id].ArrayObject? ==> forall v :: v in h[id].items ==> ValueWellFormed(h, v))
    && (forall id :: id in h && h[id].PlainObject? ==>
          && (forall e :: e in h[id].entries ==> ValueWellFormed(h, e.value))
          && forall i, j :: 0 <= i < j < |h[id].entries| ==> h[id].entries[i].key != h[id].entries[j].key)
  }

  ghost predicate ValueWellFormed(h: Heap, v: Value) {
    && (v.VNumber? ==> IsNumberToken(v.token))
    && (v.Ref? ==> v.id in h)
  }

  function EntryOrder(): (Entry, Entry) -> bool {
    (e: Entry, f: Entry) => TextLe(e.key, f.key)
  }

  // The ancestors are the objects on the way down to v; each call adds its object and
  // takes it out again on return, so siblings do not see each other.
  function SerializeValue(h: Heap, v: Value, ancestors: set<nat>): Result<Text, JsonError>
    decreases |h.Keys - ancestors|, 0
  {
    match v
    case VNull => Ok(Write(Null))
    case VString(s) => Ok(Write(Str(s)))
    case VBool(b) => Ok(Write(Bool(b)))
    case NonFinite => Err(NonFiniteNumber)
    case VNumber(token) => Ok(Write(Num(token)))
    case NonJson => Err(NotJson)
    case Ref(id) =>
      if id !in h then Err(NotJson)
      else if id in ancestors then Err(Circular)
      else
        Shrinks(h.Keys, ancestors, id);
        match h[id]
        case ArrayObject(items) =>
          (match SerializeItems(h, items, ancestors + {id})
           case Err(e) => Err(e)
           case Ok(text) => Ok([0x5B] + text + [0x5D]))
        case Exotic => Err(NotPlain)
        case PlainObject(entries) =>
          match SerializeEntries(h, Sort(EntryOrder(), entries), ancestors + {id})
          case Err(e) => Err(e)
          case Ok(text) => Ok([0x7B] + text + [0x7D])
  }

  function SerializeItems(h: Heap, items: seq<Value>, ancestors: set<nat>): Result<Text, JsonError>
    decreases |h.Keys - ancestors|, 1 + |items|
  {
    if items == [] then Ok([])
    else
      match SerializeValue(h, items[0], ancestors)
      case Err(e) => Err(e)
      case Ok(first) =>
        if |items| == 1 then Ok(first)
        else
          match SerializeItems(h, items[1..], ancestors)
          case Err(e) => Err(e)
          case Ok(rest) => Ok(first + ([COMMA] + rest))
  }

  function SerializeEntries(h: Heap, entries: seq<Entry>, ancestors: set<nat>): Result<Text, JsonError>
    decreases |h.Keys - ancestors|, 1 + |entries|
  {
    if entries == [] then Ok([])
    else
      match SerializeValue(h, entries[0].value, ancestors)
      case Err(e) => Err(e)
      case Ok(first) =>
        if |entries| == 1 then Ok(Quote(entries[0].key) + [COLON] + first)
        else
          match SerializeEntries(h, entries[1..], ancestors)
          case Err(e) => Err(e)
          case Ok(rest) => Ok(Quote(entries[0].key) + [COLON] + first + ([COMMA] + rest))
  }

  lemma Shrinks(keys: set<nat>, ancestors: set<nat>, id: nat)
    requires id in keys && id !in ancestors
    ensures |keys - (ancestors + {id})| < |keys - ancestors|
  {
    assert keys - ancestors == (keys - (ancestors + {id})) + {id};
  }

  // v stands for the finite tree, with its keys in the order in which the object lists them.
  ghost predicate Unfolds(h: Heap, v: Value, tree: Json)
    decreases tree
  {
    match v
    case VNull => tree.Null?
    case VBool(b) => tree == Bool(b)
    case VNumber(token) => tree == Num(token)
    case VString(s) => tree == Str(s)
    case NonFinite => false
    case NonJson => false
    case Ref(id) =>
      id in h &&
      match h[id]
      case ArrayObject(items) =>
        && tree.Arr? && |tree.items| == |items|
        && forall i :: 0 <= i < |items| ==> Unfolds(h, items[i], tree.items[i])
      case Exotic => false
      case PlainObject(entries) =>
        && tree.Obj? && |tree.fields| == |entries|
        && forall i :: 0 <= i < |entries| ==>
             tree.fields[i].key == entries[i].key && Unfolds(h, entries[i].value, tree.fields[i].value)
  }

  lemma {:induction false} UnfoldsUnique(h: Heap, v: Value, t: Json, u: Json)
    requires Unfolds(h, v, t) && Unfolds(h, v, u)
    ensures t == u
    decreases t
  {
    if v.Ref? {
      match h[v.id] {
        case ArrayObject(items) =>
          forall i | 0 <= i < |items| ensures t.items[i] == u.items[i] {
            UnfoldsUnique(h, items[i], t.items[i], u.items[i]);
          }
        case PlainObject(entries) =>
          forall i | 0 <= i < |entries| ensures t.fields[i] == u.fields[i] {
            UnfoldsUnique(h, entries[i].value, t.fields[i].value, u.fields[i].value);
          }
      }
    }
  }

  lemma {:induction false} UnfoldsWellFormed(h: Heap, v: Value, t: Json)
    requires HeapWellFormed(h) && ValueWellFormed(h, v) && Unfolds(h, v, t)
    ensures WellFormed(t)
    decreases t
  {
    if v.Ref? {
      match h[v.id] {
        case ArrayObject(items) =>
          forall i | 0 <= i < |items| ensures WellFormed(t.items[i]) {
            UnfoldsWellFormed(h, items[i], t.items[i]);
          }
        case PlainObject(entries) =>
          forall i | 0 <= i < |entries| ensures WellFormed(t.fields[i].value) {
            UnfoldsWellFormed(h, entries[i].value, t.fields[i].value);
          }
      }
    }
  }

  function Size(v: Json): nat
    decreases v, 0
  {
    match v
    case Arr(items) => 1 + ItemsSize(items)
    case Obj(fields) => 1 + FieldsSize(fields)
    case _ => 1
  }

  function ItemsSize(items: seq<Json>): nat
    decreases items, 1
  {
    if items == [] then 0 else Size(items[0]) + ItemsSize(items[1..])
  }

  function FieldsSize(fields: seq<Field>): nat
    decreases fields, 1
  {
    if fields == [] then 0 else Size(fields[0].value) + FieldsSize(fields[1..])
  }

  lemma {:induction false} ItemSmaller(items: seq<Json>, i: nat)
    requires i < |items|
    ensures Size(items[i]) <= ItemsSize(items)
  {
    if i > 0 {
      ItemSmaller(items[1..], i - 1);
    }
  }

  lemma {:induction false} FieldSmaller(fields: seq<Field>, i: nat)
    requires i < |fields|
    ensures Size(fields[i].value) <= FieldsSize(fields)
  {
    if i > 0 {
      FieldSmaller(fields[1..], i - 1);
    }
  }

  // ----- lists of values against lists of written trees -----

  ghost predicate ItemsMatch(h: Heap, ancestors: set<nat>, items: seq<Value>, trees: seq<Json>) {
    && |items| == |trees|
    && forall i :: 0 <= i < |items| ==> SerializeValue(h, items[i], ancestors) == Ok(Write(trees[i]))
  }

  ghost predicate EntriesMatch(h: Heap, ancestors: set<nat>, entries: seq<Entry>, fields: seq<Field>) {
    && |entries| == |fields|
    && forall i :: 0 <= i < |entries| ==> EntryMatches(h, ancestors, entries[i], fields[i])
  }

  ghost predicate EntryMatches(h: Heap, ancestors: set<nat>, e: Entry, f: Field) {
    e.key == f.key && SerializeValue(h, e.value, ancestors) == Ok(Write(f.value))
  }

  lemma {:induction false} MatchedItems(h: Heap, ancestors: set<nat>, items: seq<Value>, trees: seq<Json>)
    requires ItemsMatch(h, ancestors, items, trees)
    ensures SerializeItems(h, items, ancestors) == Ok(WriteItems(trees))
  {
    if items != [] {
      MatchedItems(h, ancestors, items[1..], trees[1..]);
      assert SerializeValue(h, items[0], ancestors) == Ok(Write(trees[0]));
      assert Write(trees[0]) + [] == Write(trees[0]);
    }
  }

  lemma {:induction false} MatchedEntries(h: Heap, ancestors: set<nat>, entries: seq<Entry>, fields: seq<Field>)
    requires EntriesMatch(h, ancestors, entries, fields)
    ensures SerializeEntries(h, entries, ancestors) == Ok(WriteFields(fields))
  {
    if entries != [] {
      MatchedEntries(h, ancestors, entries[1..], fields[1..]);
      assert SerializeValue(h, entries[0].value, ancestors) == Ok(Write(fields[0].value));
      var first := Quote(fields[0].key) + [COLON] + Write(fields[0].value);
      assert first + [] == first;
    }
  }

  lemma {:induction false} InsertMatches(h: Heap, ancestors: set<nat>, e: Entry, f: Field, entries: seq<Entry>, fields: seq<Field>)
    requires EntriesMatch(h, ancestors, [e] + entries, [f] + fields)
    ensures EntriesMatch(h, ancestors, Insert(EntryOrder(), e, entries), Insert(KeyOrder(), f, fields))
  {
    assert ([e] + entries)[0] == e && ([f] + fields)[0] == f;
    forall i | 0 <= i < |entries| ensures EntryMatches(h, ancestors, entries[i], fields[i]) {
      assert ([e] + entries)[i + 1] == entries[i] && ([f] + fields)[i + 1] == fields[i];
    }
    if entries != [] && !EntryOrder()(e, entries[0]) {
      InsertMatches(h, ancestors, e, f, entries[1..], fields[1..]);
    }
  }

  lemma {:induction false} SortMatches(h: Heap, ancestors: set<nat>, entries: seq<Entry>, fields: seq<Field>)
    requires EntriesMatch(h, ancestors, entries, fields)
    ensures EntriesMatch(h, ancestors, Sort(EntryOrder(), entries), Sort(KeyOrder(), fields))
  {
    if entries != [] {
      SortMatches(h, ancestors, entries[1..], fields[1..]);
      InsertMatches(h, ancestors, entries[0], fields[0], Sort(EntryOrder(), entries[1..]), Sort(KeyOrder(), fields[1..]));
    }
  }

  lemma {:induction false} AllItemsOk(h: Heap, ancestors: set<nat>, items: seq<Value>)
    requires SerializeItems(h, items, ancestors).Ok?
    ensures forall v :: v in items ==> SerializeValue(h, v, ancestors).Ok?
  {
    if |items| > 1 {
      AllItemsOk(h, ancestors, items[1..]);
      assert forall v :: v in items <==> v == items[0] || v in items[1..];
    }
  }

  lemma {:induction false} AllEntriesOk(h: Heap, ancestors: set<nat>, entries: seq<Entry>)
    requires SerializeEntries(h, entries, ancestors).Ok?
    ensures forall e :: e in entries ==> SerializeValue(h, e.value, ancestors).Ok?
  {
    if |entries| > 1 {
      AllEntriesOk(h, ancestors, entries[1..]);
      assert forall e :: e in entries <==> e == entries[0] || e in entries[1..];
    }
  }

  lemma ListedEntriesOk(h: Heap, entries: seq<Entry>, ancestors: set<nat>)
    requires SerializeEntries(h, Sort(EntryOrder(), entries), ancestors).Ok?
    ensures forall i :: 0 <= i < |entries| ==> SerializeValue(h, entries[i].value, ancestors).Ok?
  {
    AllEntriesOk(h, ancestors, Sort(EntryOrder(), entries));
    SortMembers(EntryOrder(), entries);
    forall i | 0 <= i < |entries| ensures SerializeValue(h, entries[i].value, ancestors).Ok? {
      assert entries[i] in Sort(EntryOrder(), entries);
    }
  }

  // A successful call has seen a finite tree.
  lemma {:induction false} SuccessUnfolds(h: Heap, v: Value, ancestors: set<nat>) returns (tree: Json)
    requires SerializeValue(h, v, ancestors).Ok?
    ensures Unfolds(h, v, tree)
    decreases |h.Keys - ancestors|, 0
  {
    match v {
      case VNull => tree := Null;
      case VBool(b) => tree := Bool(b);
      case VNumber(token) => tree := Num(token);
      case VString(s) => tree := Str(s);
      case Ref(id) =>
        Shrinks(h.Keys, ancestors, id);
        match h[id] {
          case ArrayObject(items) =>
            var trees := ItemsUnfold(h, items, ancestors + {id});
            tree := Arr(trees);
            UnfoldsArray(h, id, trees);
          case PlainObject(entries) =>
            ListedEntriesOk(h, entries, ancestors + {id});
            var fields := EntriesUnfold(h, entries, ancestors + {id});
            tree := Obj(fields);
            UnfoldsObject(h, id, fields);
        }
    }
  }

  lemma {:induction false} ItemsUnfold(h: Heap, items: seq<Value>, below: set<nat>) returns (trees: seq<Json>)
    requires SerializeItems(h, items, below).Ok?
    ensures |trees| == |items| && forall i :: 0 <= i < |items| ==> Unfolds(h, items[i], trees[i])
    decreases |h.Keys - below|, 1
  {
    AllItemsOk(h, below, items);
    trees := [];
    while |trees| < |items|
      invariant |trees| <= |items|
      invariant forall i :: 0 <= i < |trees| ==> Unfolds(h, items[i], trees[i])
    {
      var t := SuccessUnfolds(h, items[|trees|], below);
      trees := trees + [t];
    }
  }

  lemma {:induction false} EntriesUnfold(h: Heap, entries: seq<Entry>, below: set<nat>) returns (fields: seq<Field>)
    requires forall i :: 0 <= i < |entries| ==> SerializeValue(h, entries[i].value, below).Ok?
    ensures |fields| == |entries|
    ensures forall i :: 0 <= i < |entries| ==>
      fields[i].key == entries[i].key && Unfolds(h, entries[i].value, fields[i].value)
    decreases |h.Keys - below|, 1
  {
    fields := [];
    while |fields| < |entries|
      invariant |fields| <= |entries|
      invariant forall i :: 0 <= i < |fields| ==>
        fields[i].key == entries[i].key && Unfolds(h, entries[i].value, fields[i].value)
    {
      var e := entries[|fields|];
      var t := SuccessUnfolds(h, e.value, below);
      fields := fields + [Field(e.key, t)];
    }
  }

  lemma UnfoldsArray(h: Heap, id: nat, trees: seq<Json>)
    requires id in h && h[id].ArrayObject? && |trees| == |h[id].items|
    requires forall i :: 0 <= i < |trees| ==> Unfolds(h, h[id].items[i], trees[i])
    ensures Unfolds(h, Ref(id), Arr(trees))
  {}

  lemma UnfoldsObject(h: Heap, id: nat, fields: seq<Field>)
    requires id in h && h[id].PlainObject? && |fields| == |h[id].entries|
    requires forall i :: 0 <= i < |fields| ==>
      fields[i].key == h[id].entries[i].key && Unfolds(h, h[id].entries[i].value, fields[i].value)
    ensures Unfolds(h, Ref(id), Obj(fields))
  {}

  // Every ancestor unfolds to a larger tree than the one below it.
  ghost predicate Above(h: Heap, ancestors: set<nat>, tree: Json) {
    forall a :: a in ancestors ==> exists t :: Unfolds(h, Ref(a), t) && Size(t) > Size(tree)
  }

  lemma AboveChild(h: Heap, id: nat, ancestors: set<nat>, tree: Json, child: Json)
    requires Above(h, ancestors, tree) && Unfolds(h, Ref(id), tree) && Size(child) < Size(tree)
    ensures Above(h, ancestors + {id}, child)
  {
    forall a | a in ancestors + {id} ensures exists t :: Unfolds(h, Ref(a), t) && Size(t) > Size(child) {
      if a == id {
        assert Unfolds(h, Ref(a), tree);
      } else {
        var t :| Unfolds(h, Ref(a), t) && Size(t) > Size(tree);
      }
    }
  }

  // A finite tree is serialised to its canonical text, however its objects are shared.
  lemma {:induction false} UnfoldingSucceeds(h: Heap, v: Value, ancestors: set<nat>, tree: Json)
    requires Unfolds(h, v, tree) && Above(h, ancestors, tree)
    ensures SerializeValue(h, v, ancestors) == Ok(Serialize(tree))
    decreases tree
  {
    if v.Ref? {
      var id, below := v.id, ancestors + {v.id};
      if id in ancestors {
        var t :| Unfolds(h, Ref(id), t) && Size(t) > Size(tree);
        UnfoldsUnique(h, v, tree, t);
        assert false;
      }
      match h[id] {
        case ArrayObject(items) =>
          forall i | 0 <= i < |items| ensures SerializeValue(h, items[i], below) == Ok(Write(CanonItems(tree.items)[i])) {
            ItemSmaller(tree.items, i);
            AboveChild(h, id, ancestors, tree, tree.items[i]);
            UnfoldingSucceeds(h, items[i], below, tree.items[i]);
          }
          MatchedItems(h, below, items, CanonItems(tree.items));
        case PlainObject(entries) =>
          var fields := CanonFields(tree.fields);
          forall i | 0 <= i < |entries|
            ensures entries[i].key == fields[i].key
              && SerializeValue(h, entries[i].value, below) == Ok(Write(fields[i].value))
          {
            FieldSmaller(tree.fields, i);
            AboveChild(h, id, ancestors, tree, tree.fields[i].value);
            UnfoldingSucceeds(h, entries[i].value, below, tree.fields[i].value);
          }
          SortMatches(h, below, entries, fields);
          MatchedEntries(h, below, Sort(EntryOrder(), entries), Sort(KeyOrder(), fields));
      }
    }
  }

  // Serialising succeeds exactly on values that unfold to a finite tree: sharing is allowed,
  // cycles, exotic objects and non-JSON values are not. The text is the tree's canonical text.
  lemma SerializesExactlyFiniteTrees(h: Heap, v: Value)
    ensures SerializeValue(h, v, {}).Ok? <==> exists tree :: Unfolds(h, v, tree)
    ensures forall tree :: Unfolds(h, v, tree) ==> SerializeValue(h, v, {}) == Ok(Serialize(tree))
  {
    forall tree | Unfolds(h, v, tree) ensures SerializeValue(h, v, {}) == Ok(Serialize(tree)) {
      UnfoldingSucceeds(h, v, {}, tree);
    }
    if SerializeValue(h, v, {}).Ok? {
      var tree := SuccessUnfolds(h, v, {});
      assert Unfolds(h, v, tree);
    }
  }

  // Two values are serialised to the same text exactly when their trees agree up to key order.
  lemma GraphTextsAgree(h: Heap, v: Value, w: Value, t: Json, u: Json)
    requires HeapWellFormed(h) && ValueWellFormed(h, v) && ValueWellFormed(h, w)
    requires Unfolds(h, v, t) && Unfolds(h, w, u)
    ensures SerializeValue(h, v, {}) == SerializeValue(h, w, {}) <==> Same(t, u)
  {
    UnfoldsWellFormed(h, v, t);
    UnfoldsWellFormed(h, w, u);
    UnfoldingSucceeds(h, v, {}, t);
    UnfoldingSucceeds(h, w, {}, u);
    SerializeInjective(t, u);
  }
}
