/** json.dumps(value, sort_keys=True, separators=(",", ":")) and json.loads
    (sections 2 to 7 of RFC 8259) over Python dicts, lists, strings, integers,
    booleans and None. Non-ASCII characters are escaped, as json.dumps does by
    default. A dict is its fields in insertion order, with distinct keys. */
module CanonicalJson {
  import opened Results
  import opened Bytes

  datatype Json = Null | Bool(b: bool) | Int(n: int) | Str(s: string) | Arr(items: Items) | Obj(fields: Fields)
  datatype Items = NoItems | Item(head: Json, tail: Items)
  datatype Fields = NoFields | Field(key: string, value: Json, rest: Fields)

  // ----- dict operations ----------------------------------------------------

  function Lookup(f: Fields, key: string): (r: Option<Json>)
    ensures r.Some? ==> r.value < f
  {
    match f
    case NoFields => None
    case Field(k, v, rest) => if k == key then Some(v) else Lookup(rest, key)
  }

  predicate HasKey(f: Fields, key: string) {
    f.Field? && (f.key == key || HasKey(f.rest, key))
  }

  function Without(f: Fields, key: string): Fields {
    match f
    case NoFields => NoFields
    case Field(k, v, rest) => if k == key then rest else Field(k, v, Without(rest, key))
  }

  /** d[key] = value: in place, or at the end for a new key. */
  function Put(f: Fields, key: string, value: Json): Fields {
    match f
    case NoFields => Field(key, value, NoFields)
    case Field(k, v, rest) => if k == key then Field(k, value, rest) else Field(k, v, Put(rest, key, value))
  }

  predicate DistinctKeys(f: Fields) {
    f.Field? ==> !HasKey(f.rest, f.key) && DistinctKeys(f.rest)
  }

  /** A value Python can hold: no dict in it, at any depth, repeats a key. */
  predicate IsValue(j: Json) {
    match j
    case Arr(items) => AreValues(items)
    case Obj(fields) => DistinctKeys(fields) && AreFieldValues(fields)
    case _ => true
  }

  predicate AreValues(items: Items) {
    items.Item? ==> IsValue(items.head) && AreValues(items.tail)
  }

  predicate AreFieldValues(f: Fields) {
    f.Field? ==> IsValue(f.value) && AreFieldValues(f.rest)
  }

  lemma {:induction false} PutKeeps(f: Fields, key: string, value: Json)
    ensures forall k :: Lookup(Put(f, key, value), k) == if k == key then Some(value) else Lookup(f, k)
    ensures forall k :: HasKey(Put(f, key, value), k) <==> k == key || HasKey(f, k)
    ensures DistinctKeys(f) ==> DistinctKeys(Put(f, key, value))
    ensures AreFieldValues(f) && IsValue(value) ==> AreFieldValues(Put(f, key, value))
  {
    if f.Field? && f.key != key { PutKeeps(f.rest, key, value); }
  }

  lemma {:induction false} WithoutKeeps(f: Fields, key: string)
    requires DistinctKeys(f)
    ensures forall k :: Lookup(Without(f, key), k) == if k == key then None else Lookup(f, k)
    ensures forall k :: HasKey(Without(f, key), k) <==> k != key && HasKey(f, k)
    ensures DistinctKeys(Without(f, key))
    ensures AreFieldValues(f) ==> AreFieldValues(Without(f, key))
  {
    if f.Field? {
      if f.key == key { LookupMissing(f.rest, key); } else { WithoutKeeps(f.rest, key); }
    }
  }

  lemma {:induction false} LookupIsValue(f: Fields, key: string)
    requires AreFieldValues(f) && Lookup(f, key).Some?
    ensures IsValue(Lookup(f, key).value)
  {
    if f.key != key { LookupIsValue(f.rest, key); }
  }

  /** A dict display. */
  function Dict(pairs: seq<(string, Json)>): Fields {
    if pairs == [] then NoFields else Field(pairs[0].0, pairs[0].1, Dict(pairs[1..]))
  }

  predicate KeysDiffer(pairs: seq<(string, Json)>) {
    forall i, j | 0 <= i < j < |pairs| :: pairs[i].0 != pairs[j].0
  }

  lemma {:induction false} DictLookup(pairs: seq<(string, Json)>, i: nat)
    requires i < |pairs| && KeysDiffer(pairs)
    ensures Lookup(Dict(pairs), pairs[i].0) == Some(pairs[i].1)
  {
    if i > 0 { DictLookup(pairs[1..], i - 1); }
  }

  lemma {:induction false} DictKeys(pairs: seq<(string, Json)>, key: string)
    ensures HasKey(Dict(pairs), key) <==> exists i :: 0 <= i < |pairs| && pairs[i].0 == key
  {
    if pairs != [] {
      DictKeys(pairs[1..], key);
      if HasKey(Dict(pairs[1..]), key) {
        var i :| 0 <= i < |pairs[1..]| && pairs[1..][i].0 == key;
        assert pairs[i + 1].0 == key;
      }
      if i :| 0 < i < |pairs| && pairs[i].0 == key { assert pairs[1..][i - 1].0 == key; }
    }
  }

  lemma {:induction false} DictIsValue(pairs: seq<(string, Json)>)
    requires KeysDiffer(pairs) && forall i | 0 <= i < |pairs| :: IsValue(pairs[i].1)
    ensures DistinctKeys(Dict(pairs)) && AreFieldValues(Dict(pairs))
  {
    if pairs != [] {
      DictIsValue(pairs[1..]);
      DictKeys(pairs[1..], pairs[0].0);
    }
  }

  // ----- key order ----------------------------------------------------------

  /** Python's order of strings: lexicographic by code point. */
  predicate Less(a: string, b: string) {
    b != [] && (a == [] || a[0] < b[0] || (a[0] == b[0] && Less(a[1..], b[1..])))
  }

  lemma {:induction false} LessIrreflexive(a: string)
    ensures !Less(a, a)
  {
    if a != [] { LessIrreflexive(a[1..]); }
  }

  lemma {:induction false} LessTransitive(a: string, b: string, c: string)
    requires Less(a, b) && Less(b, c)
    ensures Less(a, c)
  {
    if a != [] && a[0] == b[0] == c[0] { LessTransitive(a[1..], b[1..], c[1..]); }
  }

  lemma {:induction false} LessTotal(a: string, b: string)
    ensures Less(a, b) || a == b || Less(b, a)
  {
    if a != [] && b != [] && a[0] == b[0] {
      LessTotal(a[1..], b[1..]);
      assert a == [a[0]] + a[1..] && b == [b[0]] + b[1..];
    }
  }

  // ----- sort_keys=True -----------------------------------------------------

  function Insert(key: string, value: Json, f: Fields): Fields {
    if f.NoFields? || Less(key, f.key) then Field(key, value, f)
    else Field(f.key, f.value, Insert(key, value, f.rest))
  }

  function Sort(f: Fields): Fields {
    match f
    case NoFields => NoFields
    case Field(k, v, rest) => Insert(k, v, Sort(rest))
  }

  /** The value with the fields of every dict in key order. */
  function Canon(j: Json): Json {
    match j
    case Arr(items) => Arr(CanonItems(items))
    case Obj(fields) => Obj(Sort(CanonFields(fields)))
    case _ => j
  }

  function CanonItems(items: Items): Items {
    match items
    case NoItems => NoItems
    case Item(h, t) => Item(Canon(h), CanonItems(t))
  }

  function CanonFields(f: Fields): Fields {
    match f
    case NoFields => NoFields
    case Field(k, v, rest) => Field(k, Canon(v), CanonFields(rest))
  }

  // ----- printing -----------------------------------------------------------

  function HexDigit(d: nat): (c: char)
    requires d < 16
    ensures c as int < 128
  {
    if d < 10 then (48 + d) as char else (97 + d - 10) as char
  }

  function UnicodeEscape(n: nat): (s: string)
    requires n < 0x1_0000
    ensures |s| == 6 && IsAscii(s)
  {
    ['\\', 'u', HexDigit(n / 4096), HexDigit(n / 256 % 16), HexDigit(n / 16 % 16), HexDigit(n % 16)]
  }

  function Escape(c: char): (s: string)
    ensures s != [] && IsAscii(s)
  {
    var n := c as int;
    if c == '"' then "\\\""
    else if c == '\\' then "\\\\"
    else if n == 10 then "\\n"
    else if n == 13 then "\\r"
    else if n == 9 then "\\t"
    else if n == 12 then "\\f"
    else if n == 8 then "\\b"
    else if 0x20 <= n < 0x7F then [c]
    else if n < 0x1_0000 then UnicodeEscape(n)
    else UnicodeEscape(0xD800 + (n - 0x1_0000) / 1024) + UnicodeEscape(0xDC00 + (n - 0x1_0000) % 1024)
  }

  /** Each Emit function writes its value in front of `rest`. */
  function EmitChars(s: string, rest: string): (r: string)
    ensures IsAscii(rest) ==> IsAscii(r)
  {
    if s == [] then ['"'] + rest else Escape(s[0]) + EmitChars(s[1..], rest)
  }

  function EmitNat(n: nat, rest: string): (r: string)
    ensures IsAscii(rest) ==> IsAscii(r)
  {
    var digits := [(48 + n % 10) as char] + rest;
    if n < 10 then digits else EmitNat(n / 10, digits)
  }

  function Emit(j: Json, rest: string): (r: string)
    ensures IsAscii(rest) ==> IsAscii(r)
  {
    match j
    case Null => "null" + rest
    case Bool(b) => (if b then "true" else "false") + rest
    case Int(n) => if n < 0 then ['-'] + EmitNat(-n, rest) else EmitNat(n, rest)
    case Str(s) => ['"'] + EmitChars(s, rest)
    case Arr(items) => ['['] + if items.NoItems? then [']'] + rest else EmitItems(items, [']'] + rest)
    case Obj(fields) => ['{'] + if fields.NoFields? then ['}'] + rest else EmitFields(fields, ['}'] + rest)
  }

  function EmitItems(items: Items, rest: string): (r: string)
    requires items.Item?
    ensures IsAscii(rest) ==> IsAscii(r)
  {
    Emit(items.head, if items.tail.NoItems? then rest else [','] + EmitItems(items.tail, rest))
  }

  function EmitFields(f: Fields, rest: string): (r: string)
    requires f.Field?
    ensures IsAscii(rest) ==> IsAscii(r)
  {
    ['"'] + EmitChars(f.key, [':'] + Emit(f.value, if f.rest.NoFields? then rest else [','] + EmitFields(f.rest, rest)))
  }

  /** The canonical text, and its UTF-8 bytes. */
  function Print(j: Json): (r: string)
    ensures IsAscii(r)
  {
    Emit(Canon(j), [])
  }

  function PrintBytes(j: Json): bytes {
    Ascii(Print(j))
  }

  // ----- parsing ------------------------------------------------------------

  predicate IsWhitespace(c: char) {
    c == ' ' || c == '\t' || c == '\n' || c == '\r'
  }

  function SkipSpace(s: string): (r: string)
    ensures |r| <= |s|
  {
    if s != [] && IsWhitespace(s[0]) then SkipSpace(s[1..]) else s
  }

  function HexValue(c: char): (r: Option<nat>)
    ensures r.Some? ==> r.value < 16
  {
    if '0' <= c <= '9' then Some(c as int - 48)
    else if 'a' <= c <= 'f' then Some(c as int - 97 + 10)
    else if 'A' <= c <= 'F' then Some(c as int - 65 + 10)
    else None
  }

  function ParseHex4(s: string): (r: Option<nat>)
    ensures r.Some? ==> r.value < 0x1_0000 && |s| >= 4
  {
    if |s| < 4 then None
    else
      var a :- HexValue(s[0]);
      var b :- HexValue(s[1]);
      var c :- HexValue(s[2]);
      var d :- HexValue(s[3]);
      Some(a * 4096 + b * 256 + c * 16 + d)
  }

  /** The character after a backslash, and how much text it took. A lone
      surrogate has no character here and is refused. */
  function ParseEscape(s: string): (r: Option<(char, nat)>)
    ensures r.Some? ==> 1 <= r.value.1 <= |s|
  {
    if s == [] then None
    else if s[0] == '"' || s[0] == '\\' || s[0] == '/' then Some((s[0], 1))
    else if s[0] == 'n' then Some((10 as char, 1))
    else if s[0] == 'r' then Some((13 as char, 1))
    else if s[0] == 't' then Some((9 as char, 1))
    else if s[0] == 'f' then Some((12 as char, 1))
    else if s[0] == 'b' then Some((8 as char, 1))
    else if s[0] != 'u' then None
    else
      var n :- ParseHex4(s[1..]);
      if 0xD800 <= n < 0xDC00 && |s| >= 11 && s[5] == '\\' && s[6] == 'u' then
        var low :- ParseHex4(s[7..]);
        if 0xDC00 <= low < 0xE000 then
          Some(((0x1_0000 + (n - 0xD800) * 1024 + (low - 0xDC00)) as char, 11))
        else None
      else if 0xD800 <= n < 0xE000 then None
      else Some((n as char, 5))
  }

  /** The rest of a string literal after its opening quote. */
  function ParseChars(s: string): (r: Option<(string, string)>)
    ensures r.Some? ==> |r.value.1| < |s|
  {
    if s == [] then None
    else if s[0] == '"' then Some(([], s[1..]))
    else if s[0] == '\\' then
      var e :- ParseEscape(s[1..]);
      var more :- ParseChars(s[1 + e.1..]);
      Some(([e.0] + more.0, more.1))
    else if s[0] as int < 0x20 then None
    else
      var more :- ParseChars(s[1..]);
      Some(([s[0]] + more.0, more.1))
  }

  predicate IsDigit(c: char) { '0' <= c <= '9' }

  function ParseDigits(s: string, acc: nat): (r: (nat, string))
    ensures |r.1| <= |s|
  {
    if s != [] && IsDigit(s[0]) then ParseDigits(s[1..], acc * 10 + (s[0] as int - 48)) else (acc, s)
  }

  /** An unsigned integer literal; None where a fraction or exponent follows. */
  function ParseNat(s: string): (r: Option<(nat, string)>)
    ensures r.Some? ==> |r.value.1| < |s|
  {
    if s == [] || !IsDigit(s[0]) then None
    else
      var (n, rest) := if s[0] == '0' then (0, s[1..]) else ParseDigits(s[1..], s[0] as int - 48);
      if rest != [] && (rest[0] == '.' || rest[0] == 'e' || rest[0] == 'E') then None else Some((n, rest))
  }

  function ParseValue(s: string): (r: Option<(Json, string)>)
    ensures r.Some? ==> |r.value.1| < |s|
    decreases |s|, 1
  {
    if s == [] then None
    else if s[0] == '"' then
      var text :- ParseChars(s[1..]);
      Some((Str(text.0), text.1))
    else if s[0] == '{' then
      var inner := SkipSpace(s[1..]);
      if inner != [] && inner[0] == '}' then Some((Obj(NoFields), inner[1..]))
      else
        var fields :- ParseFields(inner);
        Some((Obj(fields.0), fields.1))
    else if s[0] == '[' then
      var inner := SkipSpace(s[1..]);
      if inner != [] && inner[0] == ']' then Some((Arr(NoItems), inner[1..]))
      else
        var items :- ParseItems(inner);
        Some((Arr(items.0), items.1))
    else if "null" <= s then Some((Null, s[4..]))
    else if "true" <= s then Some((Bool(true), s[4..]))
    else if "false" <= s then Some((Bool(false), s[5..]))
    else if s[0] == '-' then
      var n :- ParseNat(s[1..]);
      Some((Int(0 - n.0 as int), n.1))
    else
      var n :- ParseNat(s);
      Some((Int(n.0), n.1))
  }

  function ParseItems(s: string): (r: Option<(Items, string)>)
    ensures r.Some? ==> |r.value.1| < |s|
    decreases |s|, 2
  {
    var head :- ParseValue(s);
    var after := SkipSpace(head.1);
    if after == [] then None
    else if after[0] == ']' then Some((Item(head.0, NoItems), after[1..]))
    else if after[0] != ',' then None
    else
      var tail :- ParseItems(SkipSpace(after[1..]));
      Some((Item(head.0, tail.0), tail.1))
  }

  /** A repeated key keeps its first place and its last value. */
  function ParseFields(s: string): (r: Option<(Fields, string)>)
    ensures r.Some? ==> |r.value.1| < |s|
    decreases |s|, 2
  {
    if s == [] || s[0] != '"' then None
    else
      var key :- ParseChars(s[1..]);
      var colon := SkipSpace(key.1);
      if colon == [] || colon[0] != ':' then None
      else
        var value :- ParseValue(SkipSpace(colon[1..]));
        var after := SkipSpace(value.1);
        if after == [] then None
        else if after[0] == '}' then Some((Field(key.0, value.0, NoFields), after[1..]))
        else if after[0] != ',' then None
        else
          var more :- ParseFields(SkipSpace(after[1..]));
          match Lookup(more.0, key.0)
          case None => Some((Field(key.0, value.0, more.0), more.1))
          case Some(last) => Some((Field(key.0, last, Without(more.0, key.0)), more.1))
  }

  /** json.loads; None stands for its ValueError. */
  function Parse(s: string): Option<Json> {
    var v :- ParseValue(SkipSpace(s));
    if SkipSpace(v.1) == [] then Some(v.0) else None
  }

  // ----- printing then parsing ----------------------------------------------

  /** Text that cannot continue a number literal. */
  predicate EndsNumber(rest: string) {
    rest == [] || (!IsDigit(rest[0]) && rest[0] != '.' && rest[0] != 'e' && rest[0] != 'E')
  }

  lemma HexValueOfDigit(d: nat)
    requires d < 16
    ensures HexValue(HexDigit(d)) == Some(d)
  {}

  lemma HexDigitsSum(n: nat)
    requires n < 0x1_0000
    ensures n / 4096 * 4096 + n / 256 % 16 * 256 + n / 16 % 16 * 16 + n % 16 == n
  {
    var a, b, c := n / 16, n / 256, n / 4096;
    assert n == a * 16 + n % 16;
    assert b == a / 16 && a == b * 16 + a % 16;
    assert c == b / 16 && b == c * 16 + b % 16;
  }

  lemma ParseHexEscape(n: nat, rest: string)
    requires n < 0x1_0000
    ensures ParseHex4(UnicodeEscape(n)[2..] + rest) == Some(n)
  {
    HexDigitsSum(n);
    var a, b, c, d := n / 4096, n / 256 % 16, n / 16 % 16, n % 16;
    HexValueOfDigit(a); HexValueOfDigit(b); HexValueOfDigit(c); HexValueOfDigit(d);
    assert UnicodeEscape(n)[2..] == [HexDigit(a), HexDigit(b), HexDigit(c), HexDigit(d)];
  }

  /** Reading back one escaped character: a \\uXXXX escape, a surrogate pair,
      and any escape at all. */
  lemma ParseBmpEscape(n: nat, rest: string)
    requires n < 0x1_0000 && !(0xD800 <= n < 0xE000)
    ensures ParseEscape(UnicodeEscape(n)[1..] + rest) == Some((n as char, 5))
  {
    var s := UnicodeEscape(n)[1..] + rest;
    assert s[0] == 'u' && s[1..] == UnicodeEscape(n)[2..] + rest;
    ParseHexEscape(n, rest);
  }

  lemma EscapeShape(n: nat)
    requires n < 0x1_0000
    ensures |UnicodeEscape(n)| == 6 && UnicodeEscape(n)[0] == '\\' && UnicodeEscape(n)[1] == 'u'
  {}

  lemma SurrogateSum(n: nat)
    requires 0x1_0000 <= n < 0x11_0000
    ensures var hi, lo := 0xD800 + (n - 0x1_0000) / 1024, 0xDC00 + (n - 0x1_0000) % 1024;
            0xD800 <= hi < 0xDC00 <= lo < 0xE000 && 0x1_0000 + (hi - 0xD800) * 1024 + (lo - 0xDC00) == n
  {}

  lemma ParseSurrogates(n: nat, rest: string)
    requires 0x1_0000 <= n < 0x11_0000
    ensures var hi, lo := 0xD800 + (n - 0x1_0000) / 1024, 0xDC00 + (n - 0x1_0000) % 1024;
            ParseEscape(UnicodeEscape(hi)[1..] + (UnicodeEscape(lo) + rest)) == Some((n as char, 11))
  {
    hide UnicodeEscape, ParseHex4;
    var hi, lo := 0xD800 + (n - 0x1_0000) / 1024, 0xDC00 + (n - 0x1_0000) % 1024;
    SurrogateSum(n);
    EscapeShape(hi);
    EscapeShape(lo);
    var second := UnicodeEscape(lo) + rest;
    var s := UnicodeEscape(hi)[1..] + second;
    ParseHexEscape(hi, second);
    ParseHexEscape(lo, rest);
    assert s[0] == 'u' && s[1..] == UnicodeEscape(hi)[2..] + second;
    assert s[5] == second[0] && s[6] == second[1];
    assert s[7..] == UnicodeEscape(lo)[2..] + rest;
  }

  lemma ParseEscapeOfEscape(c: char, rest: string)
    requires Escape(c)[0] == '\\'
    ensures ParseEscape(Escape(c)[1..] + rest) == Some((c, |Escape(c)| - 1))
  {
    hide UnicodeEscape, ParseHex4;
    var n := c as int;
    var e := Escape(c);
    if n >= 0x1_0000 {
      hide ParseEscape;
      var hi, lo := 0xD800 + (n - 0x1_0000) / 1024, 0xDC00 + (n - 0x1_0000) % 1024;
      EscapeShape(hi);
      EscapeShape(lo);
      assert e[1..] + rest == UnicodeEscape(hi)[1..] + (UnicodeEscape(lo) + rest);
      ParseSurrogates(n, rest);
    } else if e == UnicodeEscape(n) {
      hide ParseEscape;
      EscapeShape(n);
      ParseBmpEscape(n, rest);
    } else {
      assert |e| == 2;
      assert (e[1..] + rest)[0] == e[1];
    }
  }

  /** One printed character in front of characters that parse. */
  lemma ParseCharsOfEscape(c: char, more: string, parsed: (string, string))
    requires ParseChars(more) == Some(parsed)
    ensures ParseChars(Escape(c) + more) == Some(([c] + parsed.0, parsed.1))
  {
    hide ParseEscape;
    var e := Escape(c);
    assert (e + more)[|e|..] == more && (e + more)[1..] == e[1..] + more;
    if e[0] == '\\' {
      ParseEscapeOfEscape(c, more);
      assert (e + more)[1 + (|e| - 1)..] == more;
    }
  }

  lemma {:induction false} ParseEmitChars(s: string, rest: string)
    ensures ParseChars(EmitChars(s, rest)) == Some((s, rest))
  {
    if s == [] {
      assert (['"'] + rest)[1..] == rest;
    } else {
      var more := EmitChars(s[1..], rest);
      ParseEmitChars(s[1..], rest);
      assert s == [s[0]] + s[1..];
      ParseCharsOfEscape(s[0], more, (s[1..], rest));
    }
  }

  lemma {:induction false} DigitsOfNat(n: nat, rest: string)
    ensures var e := EmitNat(n, rest); e != [] && IsDigit(e[0]) && (e[0] == '0' <==> n == 0)
    ensures var e := EmitNat(n, rest);
            ParseDigits(e[1..], e[0] as int - 48) == ParseDigits(rest, n)
    ensures n == 0 ==> EmitNat(n, rest)[1..] == rest
  {
    var d := (48 + n % 10) as char;
    if n < 10 {
      assert ([d] + rest)[1..] == rest;
    } else {
      DigitsOfNat(n / 10, [d] + rest);
      assert ([d] + rest)[1..] == rest;
    }
  }

  lemma ParseEmitNat(n: nat, rest: string)
    requires EndsNumber(rest)
    ensures ParseNat(EmitNat(n, rest)) == Some((n, rest))
  {
    DigitsOfNat(n, rest);
  }

  /** A printed value starts with a character that is neither whitespace nor a
      closing bracket. */
  lemma EmitStart(j: Json, rest: string)
    ensures var e := Emit(j, rest); e != [] && !IsWhitespace(e[0]) && e[0] != ']'
  {
    if j.Int? && j.n >= 0 { DigitsOfNat(j.n, rest); }
  }

  lemma LookupMissing(f: Fields, key: string)
    ensures Lookup(f, key).Some? <==> HasKey(f, key)
  {}

  lemma {:induction false} ParseEmit(j: Json, rest: string)
    requires IsValue(j) && EndsNumber(rest)
    ensures ParseValue(Emit(j, rest)) == Some((j, rest))
    decreases j, 1
  {
    match j
    case Null => assert Emit(j, rest)[4..] == rest;
    case Bool(b) => assert Emit(j, rest)[if b then 4 else 5..] == rest;
    case Int(n) => ParseEmitInt(n, rest);
    case Str(s) =>
      assert Emit(j, rest)[1..] == EmitChars(s, rest);
      ParseEmitChars(s, rest);
    case Arr(items) => ParseEmitArr(items, rest);
    case Obj(fields) => ParseEmitObj(fields, rest);
  }

  lemma ParseEmitInt(n: int, rest: string)
    requires EndsNumber(rest)
    ensures ParseValue(Emit(Int(n), rest)) == Some((Int(n), rest))
  {
    if n < 0 {
      assert Emit(Int(n), rest)[1..] == EmitNat(-n, rest);
      ParseEmitNat(-n, rest);
    } else {
      DigitsOfNat(n, rest);
      ParseEmitNat(n, rest);
    }
  }

  lemma {:induction false} ParseEmitArr(items: Items, rest: string)
    requires AreValues(items)
    ensures ParseValue(Emit(Arr(items), rest)) == Some((Arr(items), rest))
    decreases items, 1
  {
    var e, close := Emit(Arr(items), rest), [']'] + rest;
    assert close[1..] == rest;
    if items.NoItems? {
      assert e[1..] == close;
    } else {
      var inner := EmitItems(items, close);
      assert e[1..] == inner;
      EmitStart(items.head, if items.tail.NoItems? then close else [','] + EmitItems(items.tail, close));
      ParseEmitItems(items, rest);
    }
  }

  lemma {:induction false} ParseEmitObj(f: Fields, rest: string)
    requires DistinctKeys(f) && AreFieldValues(f)
    ensures ParseValue(Emit(Obj(f), rest)) == Some((Obj(f), rest))
    decreases f, 1
  {
    var e, close := Emit(Obj(f), rest), ['}'] + rest;
    assert close[1..] == rest;
    if f.NoFields? {
      assert e[1..] == close;
    } else {
      var inner := EmitFields(f, close);
      assert e[1..] == inner && inner[0] == '"';
      ParseEmitFields(f, rest);
    }
  }

  lemma {:induction false} ParseEmitItems(items: Items, rest: string)
    requires items.Item? && AreValues(items)
    ensures ParseItems(EmitItems(items, [']'] + rest)) == Some((items, rest))
    decreases items, 0
  {
    var close := [']'] + rest;
    assert close[1..] == rest;
    if items.tail.NoItems? {
      ParseEmit(items.head, close);
    } else {
      var more := EmitItems(items.tail, close);
      var after := [','] + more;
      ParseEmit(items.head, after);
      assert after[1..] == more;
      EmitStart(items.tail.head, if items.tail.tail.NoItems? then close else [','] + EmitItems(items.tail.tail, close));
      ParseEmitItems(items.tail, rest);
    }
  }

  /** What the parser does with one printed field, given what follows it. */
  lemma {:induction false} ParseOneField(key: string, value: Json, after: string)
    requires IsValue(value) && EndsNumber(after) && after != [] && !IsWhitespace(after[0])
    ensures var e := ['"'] + EmitChars(key, [':'] + Emit(value, after));
            var colon := [':'] + Emit(value, after);
            && ParseChars(e[1..]) == Some((key, colon))
            && SkipSpace(colon) == colon
            && SkipSpace(colon[1..]) == Emit(value, after)
            && ParseValue(Emit(value, after)) == Some((value, after))
            && SkipSpace(after) == after
    decreases value, 2
  {
    var v := Emit(value, after);
    var colon := [':'] + v;
    var e := ['"'] + EmitChars(key, colon);
    assert e[1..] == EmitChars(key, colon) && colon[1..] == v;
    ParseEmitChars(key, colon);
    EmitStart(value, after);
    ParseEmit(value, after);
  }

  lemma {:induction false} ParseEmitFields(f: Fields, rest: string)
    requires f.Field? && DistinctKeys(f) && AreFieldValues(f)
    ensures ParseFields(EmitFields(f, ['}'] + rest)) == Some((f, rest))
    decreases f, 0
  {
    var close := ['}'] + rest;
    assert close[1..] == rest;
    if f.rest.NoFields? {
      ParseOneField(f.key, f.value, close);
    } else {
      var more := EmitFields(f.rest, close);
      var after := [','] + more;
      assert after[1..] == more && SkipSpace(more) == more;
      ParseOneField(f.key, f.value, after);
      ParseEmitFields(f.rest, rest);
      LookupMissing(f.rest, f.key);
    }
  }

  /** Whatever text is parsed, the result is a value: repeated keys are merged. */
  lemma {:induction false} ParsedIsValue(s: string)
    requires ParseValue(s).Some?
    ensures IsValue(ParseValue(s).value.0)
    decreases |s|, 1
  {
    if s[0] == '{' {
      var inner := SkipSpace(s[1..]);
      if !(inner != [] && inner[0] == '}') { ParsedFieldsAreValues(inner); }
    } else if s[0] == '[' {
      var inner := SkipSpace(s[1..]);
      if !(inner != [] && inner[0] == ']') { ParsedItemsAreValues(inner); }
    }
  }

  lemma {:induction false} ParsedItemsAreValues(s: string)
    requires ParseItems(s).Some?
    ensures AreValues(ParseItems(s).value.0)
    decreases |s|, 2
  {
    ParsedIsValue(s);
    var after := SkipSpace(ParseValue(s).value.1);
    if after[0] == ',' { ParsedItemsAreValues(SkipSpace(after[1..])); }
  }

  lemma {:induction false} ParsedFieldsAreValues(s: string)
    requires ParseFields(s).Some?
    ensures DistinctKeys(ParseFields(s).value.0) && AreFieldValues(ParseFields(s).value.0)
    decreases |s|, 2
  {
    var key := ParseChars(s[1..]).value;
    var body := SkipSpace(SkipSpace(key.1)[1..]);
    ParsedIsValue(body);
    var after := SkipSpace(ParseValue(body).value.1);
    if after[0] == ',' {
      var next := SkipSpace(after[1..]);
      ParsedFieldsAreValues(next);
      var more := ParseFields(next).value.0;
      LookupMissing(more, key.0);
      if Lookup(more, key.0).Some? {
        WithoutKeeps(more, key.0);
        LookupIsValue(more, key.0);
      }
    }
  }

  // ----- sorting keeps the dict ---------------------------------------------

  predicate Sorted(f: Fields) {
    f.Field? && f.rest.Field? ==> Less(f.key, f.rest.key) && Sorted(f.rest)
  }

  lemma {:induction false} InsertKeys(key: string, value: Json, f: Fields)
    requires !HasKey(f, key)
    ensures forall k :: HasKey(Insert(key, value, f), k) <==> k == key || HasKey(f, k)
    ensures DistinctKeys(f) ==> DistinctKeys(Insert(key, value, f))
    ensures AreFieldValues(f) && IsValue(value) ==> AreFieldValues(Insert(key, value, f))
    ensures forall k :: Lookup(Insert(key, value, f), k) == if k == key then Some(value) else Lookup(f, k)
  {
    LookupMissing(f, key);
    if f.Field? && !Less(key, f.key) { InsertKeys(key, value, f.rest); }
  }

  lemma {:induction false} InsertSorted(key: string, value: Json, f: Fields)
    requires !HasKey(f, key) && Sorted(f)
    ensures Sorted(Insert(key, value, f))
  {
    if f.Field? && !Less(key, f.key) {
      LessTotal(key, f.key);
      InsertSorted(key, value, f.rest);
    }
  }

  lemma {:induction false} SortKeeps(f: Fields)
    requires DistinctKeys(f)
    ensures Sorted(Sort(f)) && DistinctKeys(Sort(f))
    ensures forall k :: HasKey(Sort(f), k) <==> HasKey(f, k)
    ensures AreFieldValues(f) ==> AreFieldValues(Sort(f))
    ensures forall k :: Lookup(Sort(f), k) == Lookup(f, k)
  {
    if f.Field? {
      SortKeeps(f.rest);
      InsertKeys(f.key, f.value, Sort(f.rest));
      InsertSorted(f.key, f.value, Sort(f.rest));
    }
  }

  lemma {:induction false} SortOfSorted(f: Fields)
    requires Sorted(f)
    ensures Sort(f) == f
  {
    if f.Field? { SortOfSorted(f.rest); }
  }

  function MapCanon(v: Option<Json>): Option<Json> {
    match v
    case None => None
    case Some(j) => Some(Canon(j))
  }

  lemma {:induction false} CanonFieldsKeeps(f: Fields)
    ensures forall k :: HasKey(CanonFields(f), k) <==> HasKey(f, k)
    ensures DistinctKeys(f) ==> DistinctKeys(CanonFields(f))
    ensures forall k :: Lookup(CanonFields(f), k) == MapCanon(Lookup(f, k))
  {
    if f.Field? { CanonFieldsKeeps(f.rest); }
  }

  /** Canon keeps a value a value, and is stable. */
  lemma {:induction false} CanonIsValue(j: Json)
    requires IsValue(j)
    ensures IsValue(Canon(j)) && Canon(Canon(j)) == Canon(j)
    decreases j
  {
    match j
    case Arr(items) => CanonItemsAreValues(items);
    case Obj(fields) =>
      CanonFieldsAreValues(fields);
      var c := CanonFields(fields);
      CanonFieldsKeeps(fields);
      SortKeeps(c);
      CanonOfSort(c);
      SortOfSorted(Sort(c));
    case _ =>
  }

  lemma {:induction false} CanonItemsAreValues(items: Items)
    requires AreValues(items)
    ensures AreValues(CanonItems(items)) && CanonItems(CanonItems(items)) == CanonItems(items)
    decreases items
  {
    if items.Item? {
      CanonIsValue(items.head);
      CanonItemsAreValues(items.tail);
    }
  }

  lemma {:induction false} CanonFieldsAreValues(f: Fields)
    requires AreFieldValues(f)
    ensures AreFieldValues(CanonFields(f)) && CanonFields(CanonFields(f)) == CanonFields(f)
    decreases f
  {
    if f.Field? {
      CanonIsValue(f.value);
      CanonFieldsAreValues(f.rest);
    }
  }

  lemma {:induction false} CanonOfInsert(key: string, value: Json, f: Fields)
    ensures CanonFields(Insert(key, value, f)) == Insert(key, Canon(value), CanonFields(f))
  {
    if f.Field? && !Less(key, f.key) { CanonOfInsert(key, value, f.rest); }
  }

  lemma {:induction false} CanonOfSort(f: Fields)
    requires CanonFields(f) == f
    ensures CanonFields(Sort(f)) == Sort(f)
  {
    if f.Field? {
      CanonOfSort(f.rest);
      CanonOfInsert(f.key, f.value, Sort(f.rest));
    }
  }

  // ----- the codec ----------------------------------------------------------

  /** Reading a canonical text back gives the value it was printed from, its
      dicts in key order. */
  lemma ParsePrint(j: Json)
    requires IsValue(j)
    ensures Parse(Print(j)) == Some(Canon(j))
  {
    CanonIsValue(j);
    EmitStart(Canon(j), []);
    ParseEmit(Canon(j), []);
  }

  /** Printing what was read from a canonical text gives that text again. */
  lemma PrintStable(j: Json)
    requires IsValue(j)
    ensures Parse(Print(j)).Some? && Print(Parse(Print(j)).value) == Print(j)
  {
    ParsePrint(j);
    CanonIsValue(j);
  }

  /** Equal up to the order of dict entries. On strings and dicts of strings this
      is Python's ==, which otherwise also holds of True and 1. */
  predicate Same(a: Json, b: Json) {
    Canon(a) == Canon(b)
  }

  /** Two values have one canonical text exactly when they are equal in this sense. */
  lemma PrintInjective(a: Json, b: Json)
    requires IsValue(a) && IsValue(b)
    ensures Print(a) == Print(b) <==> Same(a, b)
  {
    ParsePrint(a);
    ParsePrint(b);
  }

  lemma PrintBytesInjective(a: Json, b: Json)
    requires IsValue(a) && IsValue(b)
    ensures PrintBytes(a) == PrintBytes(b) <==> Same(a, b)
  {
    PrintInjective(a, b);
    if PrintBytes(a) == PrintBytes(b) { AsciiInjective(Print(a), Print(b)); }
  }

  lemma {:induction false} KeysAboveFirst(f: Fields, key: string)
    requires f.Field? && Sorted(f) && HasKey(f, key)
    ensures key == f.key || Less(f.key, key)
  {
    if key != f.key {
      KeysAboveFirst(f.rest, key);
      if key != f.rest.key { LessTransitive(f.key, f.rest.key, key); }
    }
  }

  lemma {:induction false} SortedUnique(f: Fields, g: Fields)
    requires Sorted(f) && Sorted(g) && DistinctKeys(f) && DistinctKeys(g)
    requires forall k :: Lookup(f, k) == Lookup(g, k)
    ensures f == g
  {
    if f.Field? { assert Lookup(g, f.key).Some?; LookupMissing(g, f.key); }
    if g.Field? { assert Lookup(f, g.key).Some?; LookupMissing(f, g.key); }
    if f.Field? && g.Field? {
      KeysAboveFirst(g, f.key);
      KeysAboveFirst(f, g.key);
      if f.key != g.key {
        LessTransitive(f.key, g.key, f.key);
        LessIrreflexive(f.key);
      }
      forall k ensures Lookup(f.rest, k) == Lookup(g.rest, k) {
        LookupMissing(f.rest, k);
        LookupMissing(g.rest, k);
        assert Lookup(f, k) == Lookup(g, k);
      }
      SortedUnique(f.rest, g.rest);
    }
  }

  /** The same keys, with equal values. */
  ghost predicate SameEntries(f: Fields, g: Fields) {
    forall k :: MapCanon(Lookup(f, k)) == MapCanon(Lookup(g, k))
  }

  lemma LookupCanon(f: Fields, key: string)
    requires IsValue(Obj(f))
    ensures Lookup(Canon(Obj(f)).fields, key) == MapCanon(Lookup(f, key))
  {
    CanonFieldsKeeps(f);
    SortKeeps(CanonFields(f));
  }

  /** Same on dicts is dict equality. */
  lemma SameDicts(f: Fields, g: Fields)
    requires IsValue(Obj(f)) && IsValue(Obj(g))
    ensures Same(Obj(f), Obj(g)) <==> SameEntries(f, g)
  {
    var cf, cg := Canon(Obj(f)).fields, Canon(Obj(g)).fields;
    forall k ensures Lookup(cf, k) == MapCanon(Lookup(f, k)) && Lookup(cg, k) == MapCanon(Lookup(g, k)) {
      LookupCanon(f, k);
      LookupCanon(g, k);
    }
    CanonFieldsKeeps(f);
    CanonFieldsKeeps(g);
    SortKeeps(CanonFields(f));
    SortKeeps(CanonFields(g));
    if SameEntries(f, g) {
      forall k ensures Lookup(cf, k) == Lookup(cg, k) {
        assert MapCanon(Lookup(f, k)) == MapCanon(Lookup(g, k));
      }
      SortedUnique(cf, cg);
    }
  }

  // ----- the last character -------------------------------------------------

  lemma {:induction false} EmitCharsAppend(s: string, a: string, b: string)
    ensures EmitChars(s, a + b) == EmitChars(s, a) + b
  {
    if s != [] { EmitCharsAppend(s[1..], a, b); }
  }

  lemma {:induction false} EmitNatAppend(n: nat, a: string, b: string)
    ensures EmitNat(n, a + b) == EmitNat(n, a) + b
  {
    var d := [(48 + n % 10) as char];
    assert d + (a + b) == (d + a) + b;
    if n >= 10 { EmitNatAppend(n / 10, d + a, b); }
  }

  lemma {:induction false} EmitAppend(j: Json, a: string, b: string)
    ensures Emit(j, a + b) == Emit(j, a) + b
    decreases j
  {
    hide IsAscii, EmitNat, EmitChars, EmitItems, EmitFields;
    match j
    case Int(n) =>
      if n < 0 {
        EmitNatAppend(-n, a, b);
        assert ['-'] + (EmitNat(-n, a) + b) == (['-'] + EmitNat(-n, a)) + b;
      } else {
        EmitNatAppend(n, a, b);
      }
    case Str(s) =>
      EmitCharsAppend(s, a, b);
      assert ['"'] + (EmitChars(s, a) + b) == (['"'] + EmitChars(s, a)) + b;
    case Arr(items) =>
      assert [']'] + (a + b) == ([']'] + a) + b;
      if items.Item? { EmitItemsAppend(items, [']'] + a, b); }
    case Obj(fields) =>
      assert ['}'] + (a + b) == (['}'] + a) + b;
      if fields.Field? { EmitFieldsAppend(fields, ['}'] + a, b); }
    case _ =>
  }

  lemma {:induction false} EmitItemsAppend(items: Items, a: string, b: string)
    requires items.Item?
    ensures EmitItems(items, a + b) == EmitItems(items, a) + b
    decreases items
  {
    if items.tail.NoItems? {
      EmitAppend(items.head, a, b);
    } else {
      EmitItemsAppend(items.tail, a, b);
      var more := [','] + EmitItems(items.tail, a);
      assert [','] + EmitItems(items.tail, a + b) == more + b;
      EmitAppend(items.head, more, b);
    }
  }

  lemma {:induction false} EmitFieldsAppend(f: Fields, a: string, b: string)
    requires f.Field?
    ensures EmitFields(f, a + b) == EmitFields(f, a) + b
    decreases f
  {
    var after := if f.rest.NoFields? then a else [','] + EmitFields(f.rest, a);
    if f.rest.Field? { EmitFieldsAppend(f.rest, a, b); }
    assert (if f.rest.NoFields? then a + b else [','] + EmitFields(f.rest, a + b)) == after + b;
    EmitAppend(f.value, after, b);
    var v := [':'] + Emit(f.value, after);
    assert [':'] + Emit(f.value, after + b) == v + b;
    EmitCharsAppend(f.key, v, b);
    assert ['"'] + (EmitChars(f.key, v) + b) == (['"'] + EmitChars(f.key, v)) + b;
  }

  /** A printed dict ends with its closing brace. */
  lemma PrintDictEnd(f: Fields)
    ensures var p := Print(Obj(f)); |p| >= 2 && p[|p| - 1] == '}'
  {
    var c := Canon(Obj(f)).fields;
    var nothing: string := [];
    assert ['}'] + nothing == nothing + ['}'];
    if c.Field? { EmitFieldsAppend(c, nothing, ['}']); }
  }

  // ----- how long the text can be -------------------------------------------

  /** At most twelve characters for each one that is escaped. */
  lemma {:induction false} EmitCharsLength(s: string, rest: string)
    ensures |EmitChars(s, rest)| <= 12 * |s| + 1 + |rest|
  {
    if s != [] {
      EmitCharsLength(s[1..], rest);
      assert |Escape(s[0])| <= 12;
    }
  }

  /** The characters in the keys and string values of a dict, and its size. */
  function Characters(f: Fields): nat {
    match f
    case NoFields => 0
    case Field(k, v, rest) => |k| + (if v.Str? then |v.s| else 0) + Characters(rest)
  }

  function Count(f: Fields): nat {
    match f case NoFields => 0 case Field(_, _, rest) => 1 + Count(rest)
  }

  predicate StringsOnly(f: Fields) {
    f.Field? ==> f.value.Str? && StringsOnly(f.rest)
  }

  lemma {:induction false} EmitFieldsLength(f: Fields, rest: string)
    requires f.Field? && StringsOnly(f)
    ensures |EmitFields(f, rest)| <= 12 * Characters(f) + 6 * Count(f) + |rest|
  {
    var after := if f.rest.NoFields? then rest else [','] + EmitFields(f.rest, rest);
    if f.rest.Field? { EmitFieldsLength(f.rest, rest); }
    EmitCharsLength(f.value.s, after);
    EmitCharsLength(f.key, [':'] + Emit(f.value, after));
  }

  /** A dict of strings prints in proportion to its characters. */
  lemma PrintLength(f: Fields)
    requires f.Field? && IsValue(Obj(f)) && StringsOnly(f)
    ensures |PrintBytes(Obj(f))| <= 12 * Characters(f) + 6 * Count(f) + 2
  {
    var c := CanonFields(f);
    CanonKeepsSize(f);
    SortKeepsSize(c);
    EmitFieldsLength(Sort(c), ['}'] + []);
  }

  lemma {:induction false} CanonKeepsSize(f: Fields)
    requires StringsOnly(f)
    ensures StringsOnly(CanonFields(f)) && Characters(CanonFields(f)) == Characters(f)
            && Count(CanonFields(f)) == Count(f)
  {
    if f.Field? { CanonKeepsSize(f.rest); }
  }

  lemma {:induction false} InsertKeepsSize(key: string, value: Json, f: Fields)
    requires value.Str? && StringsOnly(f)
    ensures var g := Insert(key, value, f);
            StringsOnly(g) && Characters(g) == |key| + |value.s| + Characters(f) && Count(g) == 1 + Count(f)
  {
    if f.Field? && !Less(key, f.key) { InsertKeepsSize(key, value, f.rest); }
  }

  lemma {:induction false} SortKeepsSize(f: Fields)
    requires StringsOnly(f)
    ensures StringsOnly(Sort(f)) && Characters(Sort(f)) == Characters(f) && Count(Sort(f)) == Count(f)
  {
    if f.Field? {
      SortKeepsSize(f.rest);
      InsertKeepsSize(f.key, f.value, Sort(f.rest));
    }
  }
}
