/** base64.urlsafe_b64encode and base64.urlsafe_b64decode (sections 4 and 5 of
    RFC 4648), the decoder with the leniency of CPython's binascii.a2b_base64:
    characters outside the alphabet are skipped, and input ends at the first
    padding that completes a quantum. */
module Base64Url {
  import opened Results
  import opened Bytes

  function Digit(d: nat): (c: char)
    requires d < 64
    ensures c as int < 128 && c != '='
  {
    if d < 26 then (65 + d) as char
    else if d < 52 then (97 + d - 26) as char
    else if d < 62 then (48 + d - 52) as char
    else if d == 62 then '-' else '_'
  }

  /** '-' and '_' are translated to '+' and '/' first, so both spellings decode. */
  function Value(c: char): (r: Option<nat>)
    ensures r.Some? ==> r.value < 64
  {
    if 'A' <= c <= 'Z' then Some(c as int - 65)
    else if 'a' <= c <= 'z' then Some(c as int - 97 + 26)
    else if '0' <= c <= '9' then Some(c as int - 48 + 52)
    else if c == '-' || c == '+' then Some(62)
    else if c == '_' || c == '/' then Some(63)
    else None
  }

  lemma ValueOfDigit(d: nat)
    requires d < 64
    ensures Value(Digit(d)) == Some(d)
  {}

  /** Three bytes as four digits. */
  function Quantum(a: byte, b: byte, c: byte): (s: string)
    ensures |s| == 4
  {
    [Digit(a / 4), Digit(a % 4 * 16 + b / 16), Digit(b % 16 * 4 + c / 64), Digit(c % 64)]
  }

  /** The digits that carry the data, without padding. */
  function Unpadded(b: bytes): (s: string)
  {
    if |b| == 0 then []
    else if |b| == 1 then [Digit(b[0] / 4), Digit(b[0] % 4 * 16)]
    else if |b| == 2 then [Digit(b[0] / 4), Digit(b[0] % 4 * 16 + b[1] / 16), Digit(b[1] % 16 * 4)]
    else Quantum(b[0], b[1], b[2]) + Unpadded(b[3..])
  }

  /** Encoding with padding, as urlsafe_b64encode produces it. */
  function Encode(b: bytes): (s: string)
  {
    if |b| == 0 then []
    else if |b| == 1 then [Digit(b[0] / 4), Digit(b[0] % 4 * 16), '=', '=']
    else if |b| == 2 then [Digit(b[0] / 4), Digit(b[0] % 4 * 16 + b[1] / 16), Digit(b[1] % 16 * 4), '=']
    else Quantum(b[0], b[1], b[2]) + Encode(b[3..])
  }

  /** str.rstrip("="). */
  function StripPadding(s: string): (r: string)
    ensures r <= s
  {
    if s != [] && s[|s| - 1] == '=' then StripPadding(s[..|s| - 1]) else s
  }

  function Padding(n: nat): string {
    seq(n, _ => '=')
  }

  /** The padding recovery.py adds back: "=" * ((4 - len % 4) % 4). */
  function Repad(s: string): string {
    s + Padding((4 - |s| % 4) % 4)
  }

  /** The decoder's loop, started with `quad` digits of the current quantum
      read, their low bits in `left`, and `pads` padding characters seen. */
  function Scan(s: string, quad: nat, left: nat, pads: nat): (r: Option<bytes>)
    requires quad < 4 && (quad == 1 ==> left < 64) && (quad == 2 ==> left < 16) && (quad == 3 ==> left < 4)
  {
    if s == [] then (if quad == 0 then Some([]) else None)
    else if s[0] == '=' then
      if quad >= 2 && quad + pads + 1 >= 4 then Some([])
      else Scan(s[1..], quad, left, if quad >= 2 then pads + 1 else pads)
    else match Value(s[0])
      case None => Scan(s[1..], quad, left, pads)
      case Some(v) =>
        if quad == 0 then Scan(s[1..], 1, v, 0)
        else
          var out := if quad == 1 then left * 4 + v / 16 else if quad == 2 then left * 16 + v / 4 else left * 64 + v;
          var rest :- Scan(s[1..], (quad + 1) % 4, if quad == 1 then v % 16 else if quad == 2 then v % 4 else 0, 0);
          Some([out] + rest)
  }

  /** str.encode("ascii") refuses non-ASCII text before the decoder runs. */
  function Decode(s: string): Option<bytes> {
    if IsAscii(s) then Scan(s, 0, 0, 0) else None
  }

  /** One complete quantum decodes to its three bytes. */
  lemma ScanQuantum(a: byte, b: byte, c: byte, rest: string)
    requires Scan(rest, 0, 0, 0).Some?
    ensures Scan(Quantum(a, b, c) + rest, 0, 0, 0)
         == Some([a, b, c] + Scan(rest, 0, 0, 0).value)
  {
    var d0, d1, d2, d3 := a / 4, a % 4 * 16 + b / 16, b % 16 * 4 + c / 64, c % 64;
    ValueOfDigit(d0); ValueOfDigit(d1); ValueOfDigit(d2); ValueOfDigit(d3);
    var s := [Digit(d0), Digit(d1), Digit(d2), Digit(d3)] + rest;
    assert s[1..][1..][1..][1..] == rest;
    assert s[1..][0] == Digit(d1) && s[1..][1..][0] == Digit(d2) && s[1..][1..][1..][0] == Digit(d3);
    assert d0 * 4 + d1 / 16 == a && d1 % 16 * 16 + d2 / 4 == b && d2 % 4 * 64 + d3 == c;
    assert Scan(s[1..][1..][1..], 3, d2 % 4, 0) == Some([c] + Scan(rest, 0, 0, 0).value);
    assert Scan(s[1..][1..], 2, d1 % 16, 0) == Some([b] + ([c] + Scan(rest, 0, 0, 0).value));
    assert Scan(s[1..], 1, d0, 0) == Some([a] + ([b] + ([c] + Scan(rest, 0, 0, 0).value)));
    assert [a] + ([b] + ([c] + Scan(rest, 0, 0, 0).value)) == [a, b, c] + Scan(rest, 0, 0, 0).value;
  }

  /** The two partial final quanta. */
  lemma ScanLastByte(a: byte)
    ensures Scan([Digit(a / 4), Digit(a % 4 * 16), '=', '='], 0, 0, 0) == Some([a])
  {
    var d0, d1 := a / 4, a % 4 * 16;
    ValueOfDigit(d0); ValueOfDigit(d1);
    var s := [Digit(d0), Digit(d1), '=', '='];
    assert s[1..] == [Digit(d1), '=', '='] && s[1..][1..] == ['=', '='] && s[1..][1..][1..] == ['='];
    assert d0 * 4 + d1 / 16 == a && d1 % 16 == 0;
    assert Scan(['='], 2, 0, 1) == Some([]);
    assert Scan(['=', '='], 2, 0, 0) == Some([]);
    assert Scan(s[1..], 1, d0, 0) == Some([a] + []);
    assert [a] + [] == [a];
  }

  lemma ScanLastTwoBytes(a: byte, b: byte)
    ensures Scan([Digit(a / 4), Digit(a % 4 * 16 + b / 16), Digit(b % 16 * 4), '='], 0, 0, 0) == Some([a, b])
  {
    var d0, d1, d2 := a / 4, a % 4 * 16 + b / 16, b % 16 * 4;
    ValueOfDigit(d0); ValueOfDigit(d1); ValueOfDigit(d2);
    var s := [Digit(d0), Digit(d1), Digit(d2), '='];
    assert s[1..] == [Digit(d1), Digit(d2), '='] && s[1..][1..] == [Digit(d2), '='] && s[1..][1..][1..] == ['='];
    assert d0 * 4 + d1 / 16 == a && d1 % 16 * 16 + d2 / 4 == b;
    assert Scan(['='], 3, 0, 0) == Some([]);
    assert Scan(s[1..][1..], 2, d1 % 16, 0) == Some([b] + []);
    assert Scan(s[1..], 1, d0, 0) == Some([a] + ([b] + []));
    assert [a] + ([b] + []) == [a, b];
  }

  lemma {:induction false} ScanEncode(b: bytes)
    ensures Scan(Encode(b), 0, 0, 0) == Some(b)
  {
    if |b| == 1 {
      ScanLastByte(b[0]);
      assert b == [b[0]];
    } else if |b| == 2 {
      ScanLastTwoBytes(b[0], b[1]);
      assert b == [b[0], b[1]];
    } else if |b| > 2 {
      ScanEncode(b[3..]);
      ScanQuantum(b[0], b[1], b[2], Encode(b[3..]));
      assert b == [b[0], b[1], b[2]] + b[3..];
    }
  }

  lemma {:induction false} EncodeAscii(b: bytes)
    ensures IsAscii(Encode(b)) && IsAscii(Unpadded(b))
  {
    if |b| > 2 { EncodeAscii(b[3..]); }
  }

  /** Base64url round trip for byte strings of every length. */
  lemma DecodeEncode(b: bytes)
    ensures Decode(Encode(b)) == Some(b)
  {
    EncodeAscii(b);
    ScanEncode(b);
  }

  /** Encoding is injective. */
  lemma EncodeInjective(a: bytes, b: bytes)
    requires Encode(a) == Encode(b)
    ensures a == b
  {
    DecodeEncode(a);
    DecodeEncode(b);
  }

  // ----- stripping and restoring the padding --------------------------------

  function PadCount(n: nat): nat { (3 - n % 3) % 3 }

  lemma {:induction false} EncodeIsPadded(b: bytes)
    ensures Encode(b) == Unpadded(b) + Padding(PadCount(|b|))
  {
    hide Digit, Quantum;
    if |b| == 1 {
      assert Padding(2) == ['=', '='];
    } else if |b| == 2 {
      assert Padding(1) == ['='];
    } else if |b| > 2 {
      EncodeIsPadded(b[3..]);
      assert PadCount(|b|) == PadCount(|b[3..]|);
    }
  }

  lemma {:induction false} UnpaddedLength(b: bytes)
    ensures (4 - |Unpadded(b)| % 4) % 4 == PadCount(|b|)
  {
    if |b| > 2 {
      UnpaddedLength(b[3..]);
      assert PadCount(|b|) == PadCount(|b[3..]|);
    }
  }

  lemma {:induction false} UnpaddedHasNoPadding(b: bytes)
    ensures '=' !in Unpadded(b)
  {
    if |b| > 2 { UnpaddedHasNoPadding(b[3..]); }
  }

  lemma {:induction false} StripAdded(s: string, n: nat)
    requires s == [] || s[|s| - 1] != '='
    ensures StripPadding(s + Padding(n)) == s
  {
    var t := s + Padding(n);
    if n == 0 {
      assert t == s;
    } else {
      assert t[..|t| - 1] == s + Padding(n - 1);
      StripAdded(s, n - 1);
    }
  }

  /** Stripping the padding and recomputing it from the length alone gives the
      encoding back, for byte strings of every length. */
  lemma RepadStripped(b: bytes)
    ensures StripPadding(Encode(b)) == Unpadded(b)
    ensures Repad(StripPadding(Encode(b))) == Encode(b)
  {
    EncodeIsPadded(b);
    UnpaddedLength(b);
    UnpaddedHasNoPadding(b);
    var s := Unpadded(b);
    assert s == [] || s[|s| - 1] in s;
    StripAdded(s, PadCount(|b|));
  }

  // ----- what the digits mean -----------------------------------------------

  /** Table 2 of RFC 4648. */
  const ALPHABET: string := "ABCDEFGHIJKLMNOPQRSTUVWXYZ" + "abcdefghijklmnopqrstuvwxyz" + "0123456789" + "-_"

  lemma DigitsAreTheAlphabet(d: nat)
    requires d < 64
    ensures |ALPHABET| == 64 && Digit(d) == ALPHABET[d]
  {
    var upper, lower, digits := "ABCDEFGHIJKLMNOPQRSTUVWXYZ", "abcdefghijklmnopqrstuvwxyz", "0123456789";
    assert ALPHABET == upper + lower + digits + "-_";
    if d < 26 {
      Letters(d);
      assert ALPHABET[d] == upper[d];
    } else if d < 52 {
      Letters(d - 26);
      assert ALPHABET[d] == lower[d - 26];
    } else if d < 62 {
      assert ALPHABET[d] == digits[d - 52];
    } else {
      assert ALPHABET[d] == "-_"[d - 62];
    }
  }

  lemma Letters(d: nat)
    requires d < 26
    ensures "ABCDEFGHIJKLMNOPQRSTUVWXYZ"[d] as int == 65 + d && "abcdefghijklmnopqrstuvwxyz"[d] as int == 97 + d
  {}

  /** Nothing else is ever in an encoding, but for the padding. */
  lemma {:induction false} UnpaddedAlphabet(b: bytes)
    ensures forall c | c in Unpadded(b) :: c in ALPHABET
  {
    if b != [] {
      DigitInAlphabet(b[0] / 4);
      DigitInAlphabet(b[0] % 4 * 16);
    }
    if |b| > 1 {
      DigitInAlphabet(b[0] % 4 * 16 + b[1] / 16);
      DigitInAlphabet(b[1] % 16 * 4);
    }
    if |b| > 2 {
      DigitInAlphabet(b[1] % 16 * 4 + b[2] / 64);
      DigitInAlphabet(b[2] % 64);
      UnpaddedAlphabet(b[3..]);
    }
  }

  lemma DigitInAlphabet(d: nat)
    requires d < 64
    ensures Digit(d) in ALPHABET
  {
    DigitsAreTheAlphabet(d);
  }

  predicate AllDigits(s: string) {
    forall i | 0 <= i < |s| :: Value(s[i]).Some?
  }

  /** The values of a row of digits. */
  function Values(s: string): (v: seq<nat>)
    requires AllDigits(s)
    ensures |v| == |s|
  {
    seq(|s|, i requires 0 <= i < |s| => Value(s[i]).value)
  }

  /** The digits spell, in base 64, the number the bytes spell in base 256,
      followed by the zero bits that fill up the last digit. */
  lemma {:induction false} EncodingSpells(b: bytes)
    ensures AllDigits(Unpadded(b))
    ensures Number(64, Values(Unpadded(b))) == Number(256, b) * Pow(4, PadCount(|b|))
  {
    hide Number, Pow, Values, Value, Quantum, AllDigits;
    if |b| == 1 {
      SpellsOne(b[0]);
      assert b == [b[0]];
    } else if |b| == 2 {
      SpellsTwo(b[0], b[1]);
      assert b == [b[0], b[1]];
    } else if |b| > 2 {
      EncodingSpells(b[3..]);
      SpellsOn(b[0], b[1], b[2], b[3..]);
      assert b == [b[0], b[1], b[2]] + b[3..] && PadCount(|b|) == PadCount(|b[3..]|);
    } else {
      NothingSpelled();
      assert b == [];
    }
  }

  lemma NothingSpelled()
    ensures AllDigits(Unpadded([])) && Number(64, Values(Unpadded([]))) == 0 == Number(256, [])
  {}

  lemma SpellsOn(a: byte, b: byte, c: byte, rest: bytes)
    requires AllDigits(Unpadded(rest))
    requires Number(64, Values(Unpadded(rest))) == Number(256, rest) * Pow(4, PadCount(|rest|))
    ensures var s := Quantum(a, b, c) + Unpadded(rest);
            AllDigits(s) && Number(64, Values(s)) == Number(256, [a, b, c] + rest) * Pow(4, PadCount(|rest|))
  {
    hide Number, Pow, Unpadded, PadCount, Quantum, Value, AllDigits;
    SpellsThree(a, b, c);
    var q, r := Quantum(a, b, c), Unpadded(rest);
    ValuesAppend(q, r);
    NumberAppend(64, Values(q), Values(r));
    NumberAppend(256, [a, b, c], rest);
    UnpaddedWidth(rest);
    Regroup(Number(64, Values(q)), Pow(64, |r|), Pow(256, |rest|), Pow(4, PadCount(|rest|)), Number(256, rest));
  }

  lemma ValuesAppend(a: string, b: string)
    requires AllDigits(a) && AllDigits(b)
    ensures AllDigits(a + b) && Values(a + b) == Values(a) + Values(b)
  {}

  lemma Regroup(x: nat, w: nat, p: nat, q: nat, y: nat)
    requires w == p * q
    ensures x * w + y * q == (x * p + y) * q
  {}

  lemma {:induction false} UnpaddedWidth(b: bytes)
    ensures Pow(64, |Unpadded(b)|) == Pow(256, |b|) * Pow(4, PadCount(|b|))
  {
    SmallPowers();
    if |b| > 2 {
      UnpaddedWidth(b[3..]);
      assert PadCount(|b|) == PadCount(|b[3..]|);
      PowStep(64, |Unpadded(b[3..])|);
      PowStep(256, |b[3..]|);
    }
  }

  lemma SmallPowers()
    ensures Pow(64, 0) == 1 && Pow(64, 2) == 4096 && Pow(64, 3) == 262144
    ensures Pow(256, 0) == 1 && Pow(256, 1) == 256 && Pow(256, 2) == 65536
    ensures Pow(4, 0) == 1 && Pow(4, 1) == 4 && Pow(4, 2) == 16
  {}

  lemma PowStep(base: nat, n: nat)
    ensures Pow(base, n + 3) == Pow(base, n) * base * base * base
    ensures Pow(base, n + 4) == Pow(base, n) * base * base * base * base
  {
    hide Pow;
    NextPow(base, n);
    NextPow(base, n + 1);
    NextPow(base, n + 2);
    NextPow(base, n + 3);
  }

  lemma NextPow(base: nat, n: nat)
    ensures Pow(base, n + 1) == Pow(base, n) * base
  {}

  lemma SpellsOne(a: byte)
    ensures var s := Unpadded([a]);
            AllDigits(s) && Number(64, Values(s)) == Number(256, [a]) * Pow(4, PadCount(1))
  {
    SmallPowers();
    ValueOfDigit(a / 4); ValueOfDigit(a % 4 * 16);
    assert Values(Unpadded([a])) == [a as nat / 4, a % 4 * 16];
    ThreeDigits(64, a / 4, a % 4 * 16, 0);
    ThreeDigits(256, a, 0, 0);
  }

  lemma SpellsTwo(a: byte, b: byte)
    ensures var s := Unpadded([a, b]);
            AllDigits(s) && Number(64, Values(s)) == Number(256, [a, b]) * Pow(4, PadCount(2))
  {
    SmallPowers();
    ValueOfDigit(a / 4); ValueOfDigit(a % 4 * 16 + b / 16); ValueOfDigit(b % 16 * 4);
    assert Values(Unpadded([a, b])) == [a as nat / 4, a % 4 * 16 + b / 16, b % 16 * 4];
    ThreeDigits(64, a / 4, a % 4 * 16 + b / 16, b % 16 * 4);
    ThreeDigits(256, a, b, 0);
  }

  lemma SpellsThree(a: byte, b: byte, c: byte)
    ensures var s := Quantum(a, b, c);
            AllDigits(s) && Number(64, Values(s)) == Number(256, [a, b, c])
  {
    var d0, d1, d2, d3 := a / 4, a % 4 * 16 + b / 16, b % 16 * 4 + c / 64, c % 64;
    ValueOfDigit(d0); ValueOfDigit(d1); ValueOfDigit(d2); ValueOfDigit(d3);
    assert Values([Digit(d0), Digit(d1), Digit(d2), Digit(d3)]) == [d0 as nat, d1, d2, d3];
    FourDigits(64, d0, d1, d2, d3);
    ThreeDigits(256, a, b, c);
  }

  // ----- the decoder's leniency ---------------------------------------------

  /** Characters that are neither digits nor padding are skipped wherever they
      stand. */
  lemma {:induction false} NoiseIsSkipped(before: string, noise: char, after: string)
    requires IsAscii([noise]) && Value(noise).None? && noise != '='
    ensures Decode(before + [noise] + after) == Decode(before + after)
  {
    assert IsAscii(before + [noise] + after) <==> IsAscii(before + after) by {
      assert forall i | 0 <= i < |before| :: (before + after)[i] == before[i] == (before + [noise] + after)[i];
      assert forall i | 0 <= i < |after| ::
          (before + after)[|before| + i] == after[i] == (before + [noise] + after)[|before| + 1 + i];
    }
    ScanSkips(before, noise, after, 0, 0, 0);
  }

  lemma {:induction false} ScanSkips(before: string, noise: char, after: string, quad: nat, left: nat, pads: nat)
    requires quad < 4 && (quad == 1 ==> left < 64) && (quad == 2 ==> left < 16) && (quad == 3 ==> left < 4)
    requires Value(noise).None? && noise != '='
    ensures Scan(before + [noise] + after, quad, left, pads) == Scan(before + after, quad, left, pads)
    decreases |before|
  {
    if before == [] {
      assert ([noise] + after)[1..] == after && before + [noise] + after == [noise] + after && before + after == after;
    } else {
      var b := before[1..];
      assert (before + [noise] + after)[1..] == b + [noise] + after && (before + after)[1..] == b + after;
      var c := before[0];
      if c == '=' {
        ScanSkips(b, noise, after, quad, left, if quad >= 2 then pads + 1 else pads);
      } else if Value(c).None? {
        ScanSkips(b, noise, after, quad, left, pads);
      } else {
        var v := Value(c).value;
        ScanSkips(b, noise, after, (quad + 1) % 4,
                  if quad == 0 then v else if quad == 1 then v % 16 else if quad == 2 then v % 4 else 0, 0);
      }
    }
  }

  /** An encoding whose padding is missing is refused. */
  lemma PaddingIsNeeded(b: bytes)
    ensures Decode(Unpadded(b)).Some? <==> |b| % 3 == 0
  {
    EncodeAscii(b);
    ScanUnpadded(b);
  }

  lemma {:induction false} ScanUnpadded(b: bytes)
    ensures Scan(Unpadded(b), 0, 0, 0) == if |b| % 3 == 0 then Some(b) else None
  {
    hide Scan, Digit, Quantum;
    assert Scan([], 0, 0, 0) == Some([]) by { NothingLeft(); }
    if |b| == 1 {
      UnfinishedQuantum(b[0] / 4, b[0] % 4 * 16, 0);
      assert b == [b[0]];
    } else if |b| == 2 {
      UnfinishedQuantum(b[0] / 4, b[0] % 4 * 16 + b[1] / 16, b[1] % 16 * 4);
      assert b == [b[0], b[1]];
    } else if |b| > 2 {
      ScanUnpadded(b[3..]);
      ScanQuantumOf(b[0], b[1], b[2], Unpadded(b[3..]));
      assert b == [b[0], b[1], b[2]] + b[3..];
    }
  }

  lemma NothingLeft()
    ensures Scan([], 0, 0, 0) == Some([])
  {}

  lemma UnfinishedQuantum(d0: nat, d1: nat, d2: nat)
    requires d0 < 64 && d1 < 64 && d2 < 64
    ensures Scan([Digit(d0), Digit(d1)], 0, 0, 0).None? && Scan([Digit(d0), Digit(d1), Digit(d2)], 0, 0, 0).None?
  {
    ValueOfDigit(d0); ValueOfDigit(d1); ValueOfDigit(d2);
    assert [Digit(d0), Digit(d1)][1..] == [Digit(d1)] && [Digit(d1)][1..] == [];
    assert [Digit(d0), Digit(d1), Digit(d2)][1..] == [Digit(d1), Digit(d2)];
    assert [Digit(d1), Digit(d2)][1..] == [Digit(d2)] && [Digit(d2)][1..] == [];
    assert Scan([Digit(d1)], 1, d0, 0).None?;
    assert Scan([Digit(d2)], 2, d1 % 16, 0).None?;
    assert Scan([Digit(d1), Digit(d2)], 1, d0, 0).None?;
  }

  /** A complete quantum, whether or not the rest decodes. */
  lemma ScanQuantumOf(a: byte, b: byte, c: byte, rest: string)
    ensures var s := Quantum(a, b, c) + rest;
            Scan(s, 0, 0, 0) == match Scan(rest, 0, 0, 0) case None => None case Some(r) => Some([a, b, c] + r)
  {
    if Scan(rest, 0, 0, 0).Some? {
      ScanQuantum(a, b, c, rest);
    } else {
      var d0, d1, d2, d3 := a / 4, a % 4 * 16 + b / 16, b % 16 * 4 + c / 64, c % 64;
      ValueOfDigit(d0); ValueOfDigit(d1); ValueOfDigit(d2); ValueOfDigit(d3);
      var s := [Digit(d0), Digit(d1), Digit(d2), Digit(d3)] + rest;
      assert s[1..][1..][1..][1..] == rest;
      assert s[1..][0] == Digit(d1) && s[1..][1..][0] == Digit(d2) && s[1..][1..][1..][0] == Digit(d3);
      assert Scan(s[1..][1..][1..], 3, d2 % 4, 0).None?;
      assert Scan(s[1..][1..], 2, d1 % 16, 0).None?;
      assert Scan(s[1..], 1, d0, 0).None?;
    }
  }
}
