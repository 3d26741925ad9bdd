/** Byte strings: XOR, big-endian lengths, and the ASCII / UTF-8 text codec. */
module Bytes {
  import opened Results

  type byte = x: int | 0 <= x < 256
  type bytes = seq<byte>

  // ----- XOR, bit by bit ----------------------------------------------------

  function Pow2(n: nat): (r: nat)
    ensures r > 0
  {
    if n == 0 then 1 else 2 * Pow2(n - 1)
  }

  function XorBits(a: nat, b: nat, width: nat): (r: nat)
    ensures r < Pow2(width)
  {
    if width == 0 then 0
    else (a + b) % 2 + 2 * XorBits(a / 2, b / 2, width - 1)
  }

  lemma LowestBit(a: nat, b: nat, rest: nat)
    ensures var r := (a + b) % 2 + 2 * rest; r / 2 == rest && (r + b) % 2 == a % 2
  {}

  lemma {:induction false} XorBitsTwice(a: nat, b: nat, width: nat)
    requires a < Pow2(width)
    ensures XorBits(XorBits(a, b, width), b, width) == a
  {
    if width > 0 {
      XorBitsTwice(a / 2, b / 2, width - 1);
      LowestBit(a, b, XorBits(a / 2, b / 2, width - 1));
    }
  }

  function Xor(a: byte, b: byte): (r: byte)
  {
    assert Pow2(8) == 256 by { Pow2Of8(); }
    XorBits(a, b, 8)
  }

  lemma Pow2Of8()
    ensures Pow2(8) == 256
  {}

  /** XOR with the same key byte undoes itself. */
  lemma XorTwice(a: byte, b: byte)
    ensures Xor(Xor(a, b), b) == a
  {
    Pow2Of8();
    XorBitsTwice(a, b, 8);
  }

  /** Whether bit i of n is set. */
  predicate Bit(n: nat, i: nat) {
    if i == 0 then n % 2 == 1 else Bit(n / 2, i - 1)
  }

  /** A bit of the XOR is set where exactly one of the operands has it. */
  lemma {:induction false} XorBitsAt(a: nat, b: nat, width: nat, i: nat)
    requires i < width
    ensures Bit(XorBits(a, b, width), i) <==> Bit(a, i) != Bit(b, i)
  {
    var rest := XorBits(a / 2, b / 2, width - 1);
    LowestBit(a, b, rest);
    if i > 0 { XorBitsAt(a / 2, b / 2, width - 1, i - 1); }
  }

  lemma XorAt(a: byte, b: byte, i: nat)
    requires i < 8
    ensures Bit(Xor(a, b), i) <==> Bit(a, i) != Bit(b, i)
  {
    XorBitsAt(a, b, 8, i);
  }

  // ----- numbers in any base ------------------------------------------------

  /** The number a row of digits spells, the most significant first. */
  function Number(base: nat, digits: seq<nat>): nat {
    if digits == [] then 0 else Number(base, digits[..|digits| - 1]) * base + digits[|digits| - 1]
  }

  function Pow(base: nat, n: nat): nat {
    if n == 0 then 1 else Pow(base, n - 1) * base
  }

  lemma {:induction false} NumberAppend(base: nat, a: seq<nat>, b: seq<nat>)
    ensures Number(base, a + b) == Number(base, a) * Pow(base, |b|) + Number(base, b)
  {
    if b == [] {
      assert a + b == a;
    } else {
      var n := |b| - 1;
      assert (a + b)[..|a + b| - 1] == a + b[..n];
      NumberAppend(base, a, b[..n]);
      Distribute(Number(base, a), Pow(base, n), Number(base, b[..n]), base);
    }
  }

  lemma Distribute(x: nat, p: nat, y: nat, base: nat)
    ensures (x * p + y) * base == x * (p * base) + y * base
  {}

  // ----- struct.pack(">I") / struct.unpack(">I") ----------------------------

  function BigEndian32(n: nat): (r: bytes)
    requires n < 0x1_0000_0000
    ensures |r| == 4
  {
    [n / 0x100_0000, n / 0x1_0000 % 256, n / 0x100 % 256, n % 256]
  }

  function FromBigEndian32(b: bytes): (r: nat)
    requires |b| == 4
  {
    b[0] as int * 0x100_0000 + b[1] as int * 0x1_0000 + b[2] as int * 0x100 + b[3] as int
  }

  lemma BigEndian32RoundTrip(n: nat)
    requires n < 0x1_0000_0000
    ensures FromBigEndian32(BigEndian32(n)) == n
  {
    var a, b := n / 0x1_0000, n % 0x1_0000;
    assert n == a * 0x1_0000 + b;
    assert a / 256 == n / 0x100_0000 && a == a / 256 * 256 + a % 256;
    assert n / 0x100 % 256 == b / 256 && n % 256 == b % 256 && b == b / 256 * 256 + b % 256;
  }

  /** The four bytes spell the number in base 256, the most significant first. */
  lemma BigEndian32Spells(n: nat)
    requires n < 0x1_0000_0000
    ensures Number(256, BigEndian32(n)) == n
  {
    BigEndian32RoundTrip(n);
    var b := BigEndian32(n);
    FourDigits(256, b[0], b[1], b[2], b[3]);
    assert b == [b[0], b[1], b[2], b[3]];
  }

  lemma FourDigits(base: nat, a: nat, b: nat, c: nat, d: nat)
    ensures Number(base, [a, b, c, d]) == ((a * base + b) * base + c) * base + d
  {
    hide Number;
    NextDigit(base, [a, b, c], d);
    assert [a, b, c] + [d] == [a, b, c, d];
    ThreeDigits(base, a, b, c);
  }

  lemma ThreeDigits(base: nat, a: nat, b: nat, c: nat)
    ensures Number(base, [a, b, c]) == (a * base + b) * base + c
    ensures Number(base, [a, b]) == a * base + b && Number(base, [a]) == a
  {
    hide Number;
    NextDigit(base, [a, b], c);
    NextDigit(base, [a], b);
    NextDigit(base, [], a);
    assert [a, b] + [c] == [a, b, c] && [a] + [b] == [a, b] && [] + [a] == [a];
    assert Number(base, []) == 0 by { NoDigits(base); }
  }

  lemma NoDigits(base: nat)
    ensures Number(base, []) == 0
  {}

  lemma NextDigit(base: nat, digits: seq<nat>, d: nat)
    ensures Number(base, digits + [d]) == Number(base, digits) * base + d
  {
    assert (digits + [d])[..|digits|] == digits;
  }

  // ----- text ---------------------------------------------------------------

  predicate IsAscii(s: string) {
    forall i | 0 <= i < |s| :: s[i] as int < 128
  }

  function Ascii(s: string): (r: bytes)
    requires IsAscii(s)
    ensures |r| == |s|
  {
    seq(|s|, i requires 0 <= i < |s| => s[i] as int)
  }

  lemma AsciiInjective(a: string, b: string)
    requires IsAscii(a) && IsAscii(b) && Ascii(a) == Ascii(b)
    ensures a == b
  {
    assert forall i | 0 <= i < |a| :: Ascii(a)[i] == a[i] as int && Ascii(b)[i] == b[i] as int;
  }

  predicate Continuation(b: byte) { 0x80 <= b < 0xC0 }

  function Low6(b: byte): (r: nat)
    requires Continuation(b)
    ensures r < 64
  {
    b as int - 0x80
  }

  /** The first code point of a UTF-8 byte string and its length; None where
      CPython's strict decoder raises UnicodeDecodeError. */
  function Utf8First(b: bytes): (r: Option<(char, nat)>)
    requires b != []
    ensures r.Some? ==> 1 <= r.value.1 <= |b|
  {
    var c: int := b[0];
    if c < 0x80 then Some((c as char, 1))
    else if 0xC2 <= c < 0xE0 && |b| >= 2 && Continuation(b[1]) then
      var n: int := (c - 0xC0) * 64 + Low6(b[1]);
      Some((n as char, 2))
    else if 0xE0 <= c < 0xF0 && |b| >= 3 && Continuation(b[1]) && Continuation(b[2]) then
      var n: int := (c - 0xE0) * 4096 + Low6(b[1]) * 64 + Low6(b[2]);
      if n < 0x800 || 0xD800 <= n < 0xE000 then None else Some((n as char, 3))
    else if 0xF0 <= c < 0xF5 && |b| >= 4 && Continuation(b[1]) && Continuation(b[2]) && Continuation(b[3]) then
      var n: int := (c - 0xF0) * 262144 + Low6(b[1]) * 4096 + Low6(b[2]) * 64 + Low6(b[3]);
      if n < 0x1_0000 || n >= 0x11_0000 then None else Some((n as char, 4))
    else None
  }

  function Utf8Decode(b: bytes): (r: Option<string>)
    ensures r.Some? ==> |r.value| <= |b|
  {
    if b == [] then Some([])
    else
      var first :- Utf8First(b);
      var rest :- Utf8Decode(b[first.1..]);
      Some([first.0] + rest)
  }

  /** ASCII text survives the UTF-8 codec unchanged. */
  lemma {:induction false} Utf8DecodeAscii(s: string)
    requires IsAscii(s)
    ensures Utf8Decode(Ascii(s)) == Some(s)
  {
    if s != [] {
      assert Ascii(s)[1..] == Ascii(s[1..]);
      Utf8DecodeAscii(s[1..]);
      assert s == [s[0]] + s[1..];
    }
  }

  // ----- str.encode("utf-8") ------------------------------------------------

  function Utf8Char(c: char): (b: bytes)
    ensures 1 <= |b| <= 4
  {
    var n := c as int;
    if n < 0x80 then [n]
    else if n < 0x800 then [0xC0 + n / 64, 0x80 + n % 64]
    else if n < 0x1_0000 then [0xE0 + n / 4096, 0x80 + n / 64 % 64, 0x80 + n % 64]
    else [0xF0 + n / 262144, 0x80 + n / 4096 % 64, 0x80 + n / 64 % 64, 0x80 + n % 64]
  }

  function Utf8Encode(s: string): bytes {
    if s == [] then [] else Utf8Char(s[0]) + Utf8Encode(s[1..])
  }

  lemma SixBitGroups(n: nat)
    ensures n == n / 4096 * 4096 + n / 64 % 64 * 64 + n % 64
    ensures n / 4096 == n / 262144 * 64 + n / 4096 % 64
  {
    var a, b := n / 64, n / 4096;
    assert n == a * 64 + n % 64 && b == a / 64 && a == b * 64 + a % 64;
    assert n / 262144 == b / 64;
  }

  lemma Utf8FirstOfChar(c: char, rest: bytes)
    ensures Utf8First(Utf8Char(c) + rest) == Some((c, |Utf8Char(c)|))
  {
    var n := c as int;
    var b := Utf8Char(c) + rest;
    SixBitGroups(n);
    if n < 0x80 {
    } else if n < 0x800 {
      assert b[0] == 0xC0 + n / 64 && b[1] == 0x80 + n % 64;
    } else if n < 0x1_0000 {
      assert b[0] == 0xE0 + n / 4096 && b[1] == 0x80 + n / 64 % 64 && b[2] == 0x80 + n % 64;
    } else {
      assert b[0] == 0xF0 + n / 262144 && b[1] == 0x80 + n / 4096 % 64;
      assert b[2] == 0x80 + n / 64 % 64 && b[3] == 0x80 + n % 64;
    }
  }

  /** Every text survives UTF-8. */
  lemma {:induction false} Utf8RoundTrip(s: string)
    ensures Utf8Decode(Utf8Encode(s)) == Some(s)
  {
    if s != [] {
      var head, tail := Utf8Char(s[0]), Utf8Encode(s[1..]);
      Utf8FirstOfChar(s[0], tail);
      Utf8RoundTrip(s[1..]);
      assert (head + tail)[|head|..] == tail;
      assert s == [s[0]] + s[1..];
    }
  }

  /** The decoder is strict: it accepts only what encoding a text gives, so no
      overlong form, no surrogate and nothing truncated. */
  lemma {:induction false} Utf8Strict(b: bytes)
    requires Utf8Decode(b).Some?
    ensures Utf8Encode(Utf8Decode(b).value) == b
    decreases |b|
  {
    hide Utf8First, Utf8Char;
    if b != [] {
      var (c, n) := Utf8First(b).value;
      Utf8CharOfFirst(b);
      Utf8Strict(b[n..]);
      Utf8Cons(c, Utf8Decode(b[n..]).value);
      assert b == b[..n] + b[n..];
    }
  }

  lemma Utf8Cons(c: char, s: string)
    ensures Utf8Encode([c] + s) == Utf8Char(c) + Utf8Encode(s)
  {
    assert ([c] + s)[1..] == s;
  }

  lemma Utf8CharOfFirst(b: bytes)
    requires b != [] && Utf8First(b).Some?
    ensures var (c, n) := Utf8First(b).value; Utf8Char(c) == b[..n]
  {
    var (c, n) := Utf8First(b).value;
    if n == 2 {
      SixLowBits(b[0] as int - 0xC0, Low6(b[1]));
    } else if n == 3 {
      var high := (b[0] as int - 0xE0) * 64 + Low6(b[1]);
      SixLowBits(high, Low6(b[2]));
      SixLowBits(b[0] as int - 0xE0, Low6(b[1]));
      SixBitGroups(c as int);
    } else if n == 4 {
      var high := (b[0] as int - 0xF0) * 64 + Low6(b[1]);
      SixLowBits(high * 64 + Low6(b[2]), Low6(b[3]));
      SixLowBits(high, Low6(b[2]));
      SixLowBits(b[0] as int - 0xF0, Low6(b[1]));
      SixBitGroups(c as int);
    }
  }

  lemma SixLowBits(high: nat, low: nat)
    requires low < 64
    ensures (high * 64 + low) / 64 == high && (high * 64 + low) % 64 == low
  {}

  /** What the encoding looks like, one text of each length (section 4 of RFC
      3629). */
  lemma Utf8Samples()
    ensures Utf8Encode("A") == [0x41] && Utf8Encode("\U{E9}") == [0xC3, 0xA9]
    ensures Utf8Encode("\U{20AC}") == [0xE2, 0x82, 0xAC] && Utf8Encode("\U{1F600}") == [0xF0, 0x9F, 0x98, 0x80]
  {}
}
