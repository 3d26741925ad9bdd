/** The text form of a recovery key (minit/recovery.py): a prefix and unpadded
    base64url, decoded after trimming whitespace. */
module RecoveryText {
  import opened Results
  import opened Bytes
  import Base64Url

  const KEY_BYTES: nat := 32
  const RECOVERY_PREFIX: string := "minit-recovery-v1:"

  datatype TextError = BadPrefix | NotBase64 | BadLength

  /** The characters str.strip() removes. */
  predicate IsSpace(c: char) {
    var n := c as int;
    || 0x09 <= n <= 0x0D || 0x1C <= n <= 0x20 || n == 0x85 || n == 0xA0 || n == 0x1680
    || 0x2000 <= n <= 0x200A || n == 0x2028 || n == 0x2029 || n == 0x202F || n == 0x205F || n == 0x3000
  }

  predicate AllSpace(s: string) {
    forall i | 0 <= i < |s| :: IsSpace(s[i])
  }

  function TrimLeft(s: string): string {
    if s != [] && IsSpace(s[0]) then TrimLeft(s[1..]) else s
  }

  function TrimRight(s: string): string {
    if s != [] && IsSpace(s[|s| - 1]) then TrimRight(s[..|s| - 1]) else s
  }

  function Strip(s: string): string {
    TrimRight(TrimLeft(s))
  }

  /** encode_recovery_key; None is the ValueError for a wrong length. */
  function EncodeRecoveryKey(key: bytes): Option<string> {
    if |key| != KEY_BYTES then None
    else Some(RECOVERY_PREFIX + Base64Url.StripPadding(Base64Url.Encode(key)))
  }

  /** decode_recovery_key. */
  function DecodeRecoveryKey(value: string): (r: Result<bytes, TextError>)
    ensures r.Ok? ==> |r.value| == KEY_BYTES
  {
    var candidate := Strip(value);
    if !(RECOVERY_PREFIX <= candidate) then Err(BadPrefix)
    else match Base64Url.Decode(Base64Url.Repad(candidate[|RECOVERY_PREFIX|..]))
      case None => Err(NotBase64)
      case Some(key) => if |key| != KEY_BYTES then Err(BadLength) else Ok(key)
  }

  // ----- trimming -----------------------------------------------------------

  lemma {:induction false} TrimLeftSpaces(w: string, s: string)
    requires AllSpace(w) && (s == [] || !IsSpace(s[0]))
    ensures TrimLeft(w + s) == s
  {
    if w == [] {
      assert w + s == s;
    } else {
      assert (w + s)[1..] == w[1..] + s;
      TrimLeftSpaces(w[1..], s);
    }
  }

  lemma {:induction false} TrimRightSpaces(s: string, w: string)
    requires AllSpace(w) && (s == [] || !IsSpace(s[|s| - 1]))
    ensures TrimRight(s + w) == s
  {
    if w == [] {
      assert s + w == s;
    } else {
      assert (s + w)[..|s + w| - 1] == s + w[..|w| - 1];
      TrimRightSpaces(s, w[..|w| - 1]);
    }
  }

  lemma StripSurrounded(w1: string, s: string, w2: string)
    requires AllSpace(w1) && AllSpace(w2)
    requires s != [] && !IsSpace(s[0]) && !IsSpace(s[|s| - 1])
    ensures Strip(w1 + s + w2) == s
  {
    assert w1 + s + w2 == w1 + (s + w2);
    TrimLeftSpaces(w1, s + w2);
    TrimRightSpaces(s, w2);
  }

  lemma {:induction false} DigitsAreNotSpace(b: bytes)
    ensures forall c | c in Base64Url.Unpadded(b) :: !IsSpace(c)
  {
    if |b| > 2 { DigitsAreNotSpace(b[3..]); }
  }

  // ----- the round trip -----------------------------------------------------

  /** Every 32-byte key survives its text form, whatever whitespace surrounds
      the text the user pastes back. */
  lemma RecoveryKeyRoundTrip(key: bytes, before: string, after: string)
    requires |key| == KEY_BYTES && AllSpace(before) && AllSpace(after)
    ensures DecodeRecoveryKey(before + EncodeRecoveryKey(key).value + after) == Ok(key)
  {
    var digits := Base64Url.Unpadded(key);
    Base64Url.RepadStripped(key);
    Base64Url.DecodeEncode(key);
    DigitsAreNotSpace(key);
    var text := RECOVERY_PREFIX + digits;
    assert text[|text| - 1] == if digits == [] then ':' else digits[|digits| - 1];
    StripSurrounded(before, text, after);
    assert text[|RECOVERY_PREFIX|..] == digits;
  }

  /** Two keys never share a text form. */
  lemma RecoveryTextInjective(a: bytes, b: bytes)
    requires |a| == KEY_BYTES && |b| == KEY_BYTES
    requires EncodeRecoveryKey(a) == EncodeRecoveryKey(b)
    ensures a == b
  {
    RecoveryKeyRoundTrip(a, [], []);
    RecoveryKeyRoundTrip(b, [], []);
  }

  /** Whatever text is accepted, printing the key again gives a text that is
      accepted as the same key. */
  lemma AcceptedTextReprints(value: string)
    requires DecodeRecoveryKey(value).Ok?
    ensures EncodeRecoveryKey(DecodeRecoveryKey(value).value).Some?
    ensures DecodeRecoveryKey(EncodeRecoveryKey(DecodeRecoveryKey(value).value).value) == DecodeRecoveryKey(value)
  {
    var text := EncodeRecoveryKey(DecodeRecoveryKey(value).value).value;
    RecoveryKeyRoundTrip(DecodeRecoveryKey(value).value, [], []);
    assert [] + text + [] == text;
  }

  // ----- the form of the text -----------------------------------------------

  lemma {:induction false} UnpaddedCount(b: bytes)
    ensures |Base64Url.Unpadded(b)| == (4 * |b| + 2) / 3
  {
    if |b| > 2 { UnpaddedCount(b[3..]); }
  }

  /** A recovery key's text: the prefix, then 43 digits of the URL-safe alphabet
      that spell the key followed by two zero bits. */
  lemma RecoveryTextForm(key: bytes)
    requires |key| == 32
    ensures EncodeRecoveryKey(key).Some?
    ensures var text := EncodeRecoveryKey(key).value;
            && |text| == 18 + 43 && text[..18] == "minit-recovery-v1:"
            && (forall c | c in text[18..] :: c in Base64Url.ALPHABET)
            && Base64Url.AllDigits(text[18..])
            && Number(64, Base64Url.Values(text[18..])) == Number(256, key) * 4
  {
    hide Base64Url.Unpadded, Base64Url.Encode, Base64Url.StripPadding, Number, Base64Url.Values;
    hide Base64Url.AllDigits;
    Base64Url.RepadStripped(key);
    Base64Url.UnpaddedAlphabet(key);
    Base64Url.EncodingSpells(key);
    Base64Url.SmallPowers();
    UnpaddedCount(key);
    var text := EncodeRecoveryKey(key).value;
    assert |RECOVERY_PREFIX| == 18 && text[18..] == Base64Url.Unpadded(key);
  }

  /** A text with other than 32 bytes behind it is never issued. */
  lemma OnlyKeysAreIssued(key: bytes)
    ensures EncodeRecoveryKey(key).Some? <==> |key| == 32
  {}

  // ----- trimming -----------------------------------------------------------

  lemma {:induction false} TrimmedLeft(s: string) returns (w: string)
    ensures AllSpace(w) && s == w + TrimLeft(s) && (TrimLeft(s) != [] ==> !IsSpace(TrimLeft(s)[0]))
  {
    w := [];
    if s != [] && IsSpace(s[0]) {
      w := TrimmedLeft(s[1..]);
      w := [s[0]] + w;
      assert s == [s[0]] + s[1..];
    }
  }

  lemma {:induction false} TrimmedRight(s: string) returns (w: string)
    ensures AllSpace(w) && s == TrimRight(s) + w
    ensures TrimRight(s) != [] ==> !IsSpace(TrimRight(s)[|TrimRight(s)| - 1])
  {
    w := [];
    if s != [] && IsSpace(s[|s| - 1]) {
      w := TrimmedRight(s[..|s| - 1]);
      w := w + [s[|s| - 1]];
    }
  }

  /** strip() removes spaces at both ends and nothing else. */
  lemma StripExactly(s: string) returns (before: string, after: string)
    ensures AllSpace(before) && AllSpace(after) && s == before + Strip(s) + after
    ensures Strip(s) != [] ==> !IsSpace(Strip(s)[0]) && !IsSpace(Strip(s)[|Strip(s)| - 1])
  {
    before := TrimmedLeft(s);
    after := TrimmedRight(TrimLeft(s));
    var t := TrimLeft(s);
    assert t == TrimRight(t) + after;
    assert TrimRight(t) != [] ==> TrimRight(t)[0] == t[0];
  }

  /** The code points str.isspace() holds of. */
  lemma SpaceCharacters(c: char)
    ensures IsSpace(c) <==>
              c as int in {0x09, 0x0A, 0x0B, 0x0C, 0x0D, 0x1C, 0x1D, 0x1E, 0x1F, 0x20, 0x85, 0xA0, 0x1680,
                           0x2000, 0x2001, 0x2002, 0x2003, 0x2004, 0x2005, 0x2006, 0x2007, 0x2008, 0x2009, 0x200A,
                           0x2028, 0x2029, 0x202F, 0x205F, 0x3000}
  {}

  /** A text is refused for its prefix exactly when it does not start with it,
      once trimmed. */
  lemma PrefixIsNeeded(before: string, s: string, after: string)
    requires AllSpace(before) && AllSpace(after) && s != [] && !IsSpace(s[0]) && !IsSpace(s[|s| - 1])
    ensures DecodeRecoveryKey(before + s + after) == Err(BadPrefix) <==> !("minit-recovery-v1:" <= s)
  {
    StripSurrounded(before, s, after);
  }
}
