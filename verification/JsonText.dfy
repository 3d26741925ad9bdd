/** What canonical JSON looks like on the page: the order of the keys, the
    escapes and the punctuation, stated without the printer's own functions. */
module JsonText {
  import opened Results
  import opened Bytes
  import opened CanonicalJson

  // ----- the order of strings -----------------------------------------------

  /** a is a proper prefix of b, or has the smaller code point where they first
      differ. */
  ghost predicate Before(a: string, b: string) {
    || (|a| < |b| && a == b[..|a|])
    || (exists i :: DifferAt(a, b, i) && a[i] as int < b[i] as int)
  }

  predicate DifferAt(a: string, b: string, i: int) {
    0 <= i < |a| && i < |b| && a[..i] == b[..i] && a[i] != b[i]
  }

  lemma {:induction false} LessExactly(a: string, b: string)
    ensures Less(a, b) <==> Before(a, b)
  {
    if a == [] {
      assert b != [] ==> a == b[..0];
    } else if b == [] {
    } else if a[0] != b[0] {
      assert a[..0] == b[..0] && DifferAt(a, b, 0);
      FirstDifference(a, b);
    } else {
      LessExactly(a[1..], b[1..]);
      SameHead(a, b);
    }
  }

  /** Where the first characters differ, nothing else decides. */
  lemma FirstDifference(a: string, b: string)
    requires a != [] && b != [] && a[0] != b[0]
    ensures forall i | DifferAt(a, b, i) :: i == 0
    ensures |a| <= |b| ==> a != b[..|a|]
  {
    LaterDifference(a, b);
  }

  lemma LaterDifference(a: string, b: string)
    ensures forall i | DifferAt(a, b, i) && i > 0 :: a[0] == b[0]
  {
    forall i | DifferAt(a, b, i) && i > 0 ensures a[0] == b[0] {
      assert a[..i][0] == b[..i][0];
    }
  }

  lemma SameHead(a: string, b: string)
    requires a != [] && b != [] && a[0] == b[0]
    ensures Before(a, b) <==> Before(a[1..], b[1..])
  {
    var s, t := a[1..], b[1..];
    if |a| <= |b| {
      Rejoin(a, b[..|a|]);
      assert t[..|s|] == b[..|a|][1..];
    }
    forall i | 0 < i < |a| && i < |b| ensures DifferAt(a, b, i) <==> DifferAt(s, t, i - 1) {
      Rejoin(a[..i], b[..i]);
      assert a[..i][1..] == s[..i - 1] && b[..i][1..] == t[..i - 1];
    }
    if i :| DifferAt(s, t, i) && s[i] as int < t[i] as int { assert DifferAt(a, b, i + 1); }
    if i :| DifferAt(a, b, i) && a[i] as int < b[i] as int { assert DifferAt(s, t, i - 1); }
  }

  lemma Rejoin(a: string, b: string)
    requires a != [] && b != [] && a[0] == b[0]
    ensures a == b <==> a[1..] == b[1..]
  {
    assert a == [a[0]] + a[1..] && b == [b[0]] + b[1..];
  }

  // ----- sorted keys --------------------------------------------------------

  function Keys(f: Fields): seq<string> {
    match f case NoFields => [] case Field(k, _, rest) => [k] + Keys(rest)
  }

  /** Every dict of the value, at any depth, lists its keys in ascending order. */
  ghost predicate Ascending(j: Json) {
    match j
    case Arr(items) => ItemsAscend(items)
    case Obj(fields) =>
      (forall m, n | 0 <= m < n < |Keys(fields)| :: Before(Keys(fields)[m], Keys(fields)[n])) && FieldsAscend(fields)
    case _ => true
  }

  ghost predicate ItemsAscend(items: Items) {
    items.Item? ==> Ascending(items.head) && ItemsAscend(items.tail)
  }

  ghost predicate FieldsAscend(f: Fields) {
    f.Field? ==> Ascending(f.value) && FieldsAscend(f.rest)
  }

  lemma {:induction false} SortedKeysAscend(f: Fields, m: nat, n: nat)
    requires Sorted(f) && m < n < |Keys(f)|
    ensures Less(Keys(f)[m], Keys(f)[n])
    decreases f
  {
    if m > 0 {
      SortedKeysAscend(f.rest, m - 1, n - 1);
    } else if n > 1 {
      SortedKeysAscend(f.rest, 0, n - 1);
      LessTransitive(f.key, f.rest.key, Keys(f)[n]);
    }
  }

  lemma {:induction false} InsertAscends(key: string, value: Json, f: Fields)
    requires Ascending(value) && FieldsAscend(f)
    ensures FieldsAscend(Insert(key, value, f))
  {
    if f.Field? && !Less(key, f.key) { InsertAscends(key, value, f.rest); }
  }

  lemma {:induction false} SortAscends(f: Fields)
    requires FieldsAscend(f)
    ensures FieldsAscend(Sort(f))
  {
    if f.Field? {
      SortAscends(f.rest);
      InsertAscends(f.key, f.value, Sort(f.rest));
    }
  }

  /** What is printed, and so what is read back from the text, has its keys in
      ascending order of code points everywhere. */
  lemma {:induction false} CanonAscends(j: Json)
    requires IsValue(j)
    ensures Ascending(Canon(j))
    decreases j
  {
    match j
    case Arr(items) => CanonItemsAscend(items);
    case Obj(fields) =>
      var c := CanonFields(fields);
      CanonFieldsAscend(fields);
      SortAscends(c);
      CanonFieldsKeeps(fields);
      SortKeeps(c);
      var keys := Keys(Sort(c));
      forall m, n | 0 <= m < n < |keys| ensures Before(keys[m], keys[n]) {
        SortedKeysAscend(Sort(c), m, n);
        LessExactly(keys[m], keys[n]);
      }
    case _ =>
  }

  lemma {:induction false} CanonItemsAscend(items: Items)
    requires AreValues(items)
    ensures ItemsAscend(CanonItems(items))
    decreases items
  {
    if items.Item? {
      CanonAscends(items.head);
      CanonItemsAscend(items.tail);
    }
  }

  lemma {:induction false} CanonFieldsAscend(f: Fields)
    requires AreFieldValues(f)
    ensures FieldsAscend(CanonFields(f))
    decreases f
  {
    if f.Field? {
      CanonAscends(f.value);
      CanonFieldsAscend(f.rest);
    }
  }

  /** Parsing canonical text gives a value whose keys ascend everywhere. */
  lemma ParsedTextAscends(j: Json)
    requires IsValue(j)
    ensures Parse(Print(j)).Some? && Ascending(Parse(Print(j)).value)
  {
    ParsePrint(j);
    CanonAscends(j);
  }

  // ----- strings ------------------------------------------------------------

  /** A character json.dumps writes as itself. */
  predicate Plain(c: char) {
    0x20 <= c as int < 0x7F && c != '"' && c != '\\'
  }

  predicate AllPlain(s: string) {
    forall i | 0 <= i < |s| :: Plain(s[i])
  }

  lemma {:induction false} PlainChars(s: string, rest: string)
    requires AllPlain(s)
    ensures EmitChars(s, rest) == s + "\"" + rest
  {
    if s == [] {
      assert s + "\"" + rest == ['"'] + rest;
    } else {
      PlainChars(s[1..], rest);
      assert Escape(s[0]) == [s[0]];
      assert [s[0]] + (s[1..] + "\"" + rest) == s + "\"" + rest;
    }
  }

  /** The text of a string without characters that need escaping. */
  lemma PlainText(s: string)
    requires AllPlain(s)
    ensures Print(Str(s)) == "\"" + s + "\""
  {
    PlainChars(s, []);
    assert ['"'] + (s + "\"" + []) == "\"" + s + "\"";
  }

  /** A code unit as json.dumps escapes it: four lower-case hex digits. */
  predicate IsUnicodeEscape(s: string, n: nat) {
    && |s| == 6 && s[0] == '\\' && s[1] == 'u'
    && (forall i | 2 <= i < 6 :: '0' <= s[i] <= '9' || 'a' <= s[i] <= 'f')
    && Number(16, [Nibble(s[2]), Nibble(s[3]), Nibble(s[4]), Nibble(s[5])]) == n
  }

  function Nibble(c: char): nat {
    if '0' <= c <= '9' then c as int - '0' as int
    else if 'a' <= c <= 'f' then 10 + (c as int - 'a' as int)
    else 0
  }

  lemma UnicodeEscapeSpells(n: nat)
    requires n < 0x1_0000
    ensures IsUnicodeEscape(UnicodeEscape(n), n)
  {
    HexDigitsSum(n);
    FourDigits(16, n / 4096, n / 256 % 16, n / 16 % 16, n % 16);
  }

  /** Every character is written in exactly one of four ways: as itself, with a
      short escape, as \uXXXX, or as a surrogate pair of two. */
  lemma EscapeExactly(c: char)
    ensures Plain(c) ==> Escape(c) == [c]
    ensures c == '"' ==> Escape(c) == "\\\""
    ensures c == '\\' ==> Escape(c) == "\\\\"
    ensures c == '\n' ==> Escape(c) == "\\n"
    ensures c == '\r' ==> Escape(c) == "\\r"
    ensures c == '\t' ==> Escape(c) == "\\t"
    ensures c as int == 12 ==> Escape(c) == "\\f"
    ensures c as int == 8 ==> Escape(c) == "\\b"
    ensures !Plain(c) && c !in "\"\\\n\r\t" && c as int !in {8, 12} && c as int < 0x1_0000 ==>
              IsUnicodeEscape(Escape(c), c as int)
    ensures c as int >= 0x1_0000 ==>
              exists hi: nat, lo: nat | 0xD800 <= hi < 0xDC00 <= lo < 0xE000 ::
                && c as int == 0x1_0000 + (hi - 0xD800) * 1024 + (lo - 0xDC00)
                && |Escape(c)| == 12 && IsUnicodeEscape(Escape(c)[..6], hi) && IsUnicodeEscape(Escape(c)[6..], lo)
  {
    hide IsUnicodeEscape, UnicodeEscape;
    if c as int < 0x1_0000 { UnicodeEscapeSpells(c as int); } else { PairSpells(c); }
  }

  lemma PairSpells(c: char)
    requires c as int >= 0x1_0000
    ensures var hi: nat, lo: nat := 0xD800 + (c as int - 0x1_0000) / 1024, 0xDC00 + (c as int - 0x1_0000) % 1024;
            && 0xD800 <= hi < 0xDC00 <= lo < 0xE000 && c as int == 0x1_0000 + (hi - 0xD800) * 1024 + (lo - 0xDC00)
            && |Escape(c)| == 12 && IsUnicodeEscape(Escape(c)[..6], hi) && IsUnicodeEscape(Escape(c)[6..], lo)
  {
    hide IsUnicodeEscape, UnicodeEscape;
    var n := c as int;
    SurrogateSum(n);
    var hi, lo := 0xD800 + (n - 0x1_0000) / 1024, 0xDC00 + (n - 0x1_0000) % 1024;
    UnicodeEscapeSpells(hi);
    UnicodeEscapeSpells(lo);
    assert Escape(c)[..6] == UnicodeEscape(hi) && Escape(c)[6..] == UnicodeEscape(lo);
  }

  // ----- numbers and the other tokens ---------------------------------------

  lemma PrintedTokens()
    ensures Print(Null) == "null" && Print(Bool(true)) == "true" && Print(Bool(false)) == "false"
    ensures Print(Arr(NoItems)) == "[]" && Print(Obj(NoFields)) == "{}"
    ensures Print(Arr(Item(Int(-20), Item(Null, NoItems)))) == "[-20,null]"
  {
    assert Emit(Int(-20), ",null]") == "-20,null]" by { MinusTwenty(",null]"); }
    assert EmitItems(Item(Null, NoItems), "]") == "null]";
    assert [']'] + [] == "]" && [','] + "null]" == ",null]";
  }

  lemma MinusTwenty(rest: string)
    ensures Emit(Int(-20), rest) == "-20" + rest
  {
    assert EmitNat(20, rest) == EmitNat(2, ['0'] + rest);
    assert ['-'] + (['2'] + (['0'] + rest)) == "-20" + rest;
  }

  predicate IsDecimal(s: string) {
    s != [] && (s[0] == '0' ==> |s| == 1) && forall i | 0 <= i < |s| :: '0' <= s[i] <= '9'
  }

  function DecimalValues(s: string): seq<nat>
    requires forall i | 0 <= i < |s| :: '0' <= s[i] <= '9'
  {
    seq(|s|, i requires 0 <= i < |s| => s[i] as int - '0' as int)
  }

  /** A number is its decimal digits without a leading zero. */
  lemma {:induction false} NumberText(n: nat, rest: string) returns (digits: string)
    ensures EmitNat(n, rest) == digits + rest && IsDecimal(digits) && Number(10, DecimalValues(digits)) == n
    decreases n
  {
    var last := (48 + n % 10) as char;
    if n < 10 {
      digits := [last];
      assert DecimalValues(digits) == [n];
      ThreeDigits(10, n, 0, 0);
    } else {
      var front := NumberText(n / 10, [last] + rest);
      digits := front + [last];
      assert front + ([last] + rest) == digits + rest;
      assert DecimalValues(digits) == DecimalValues(front) + [n % 10];
      NextDigit(10, DecimalValues(front), n % 10);
      LeadingZero(front);
    }
  }

  lemma LeadingZero(s: string)
    requires IsDecimal(s)
    ensures s[0] == '0' ==> Number(10, DecimalValues(s)) == 0
  {
    if s[0] == '0' {
      assert DecimalValues(s) == [0];
      ThreeDigits(10, 0, 0, 0);
    }
  }

  // ----- what json.loads makes of text around a value -----------------------

  predicate AllWhitespace(s: string) {
    forall i | 0 <= i < |s| :: IsWhitespace(s[i])
  }

  lemma {:induction false} SkipsSpace(before: string, s: string)
    requires AllWhitespace(before) && (s == [] || !IsWhitespace(s[0]))
    ensures SkipSpace(before + s) == s
  {
    if before == [] {
      assert before + s == s;
    } else {
      assert (before + s)[1..] == before[1..] + s;
      SkipsSpace(before[1..], s);
    }
  }

  /** Spaces around the text do not matter, and nothing else may follow it. */
  lemma ParseAround(j: Json, before: string, after: string, c: char, more: string)
    requires IsValue(j) && AllWhitespace(before) && AllWhitespace(after) && !IsWhitespace(c)
    ensures Parse(before + Print(j) + after) == Some(Canon(j))
    ensures EndsNumber([c] + more) ==> Parse(before + Print(j) + ([c] + more)) == None
  {
    CanonIsValue(j);
    ParsesFront(Canon(j), before, after);
    SkipsSpace(after, []);
    assert after + [] == after;
    if EndsNumber([c] + more) { ParsesFront(Canon(j), before, [c] + more); }
  }

  lemma ParsesFront(j: Json, before: string, end: string)
    requires IsValue(j) && AllWhitespace(before) && EndsNumber(end)
    ensures ParseValue(SkipSpace(before + Emit(j, []) + end)) == Some((j, end))
  {
    EmitAppend(j, [], end);
    assert [] + end == end;
    EmitStart(j, end);
    SkipsSpace(before, Emit(j, end));
    assert before + Emit(j, []) + end == before + Emit(j, end);
    ParseEmit(j, end);
  }

  /** A dict that repeats a key in the text has its last value. */
  lemma RepeatedKey(key: string, first: Json, last: Json)
    requires IsValue(first) && IsValue(last)
    ensures ParseFields(EmitFields(Field(key, first, Field(key, last, NoFields)), "}"))
         == Some((Field(key, last, NoFields), ""))
  {
    hide ParseChars, EmitChars, ParseValue, Emit, ParseFields;
    OnlyField(key, last);
    var more := EmitFields(Field(key, last, NoFields), "}");
    var after := [','] + more;
    assert after[1..] == more && SkipSpace(more) == more;
    ParseOneField(key, first, after);
    FieldsAfterComma(EmitFields(Field(key, first, Field(key, last, NoFields)), "}"), key, first, after, last);
  }

  lemma OnlyField(key: string, value: Json)
    requires IsValue(value)
    ensures ParseFields(EmitFields(Field(key, value, NoFields), "}")) == Some((Field(key, value, NoFields), ""))
  {
    hide ParseChars, EmitChars, ParseValue, Emit;
    assert "}" == ['}'] + [];
    ParseOneField(key, value, "}");
  }

  /** The parser's step at a field whose key comes again later. */
  lemma FieldsAfterComma(s: string, key: string, value: Json, after: string, last: Json)
    requires s != [] && s[0] == '"' && after != [] && after[0] == ','
    requires ParseChars(s[1..]) == Some((key, [':'] + Emit(value, after)))
    requires SkipSpace([':'] + Emit(value, after)) == [':'] + Emit(value, after)
    requires SkipSpace(Emit(value, after)) == Emit(value, after)
    requires ParseValue(Emit(value, after)) == Some((value, after)) && SkipSpace(after) == after
    requires ParseFields(SkipSpace(after[1..])) == Some((Field(key, last, NoFields), ""))
    ensures ParseFields(s) == Some((Field(key, last, NoFields), ""))
  {
    hide ParseChars, ParseValue, Emit, SkipSpace;
    assert ([':'] + Emit(value, after))[1..] == Emit(value, after);
    assert Lookup(Field(key, last, NoFields), key) == Some(last);
  }
}
