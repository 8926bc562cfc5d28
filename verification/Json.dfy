/**
 JSON strings: the agent's escaper, and a decoder of string contents written from section 7 of RFC 8259. Text is bytes in
 UTF-8; the escaper only looks at the bit patterns of lead and continuation bytes.
 */
module Json {
  import opened Bytes

  const QUOTE: Byte := 0x22
  const BACKSLASH: Byte := 0x5C
  /** U+FFFD in UTF-8. */
  const REPLACEMENT: ByteString := [0xEF, 0xBF, 0xBD]
  const ESCAPED_REPLACEMENT: ByteString := [BACKSLASH, 0x75, 0x66, 0x66, 0x66, 0x64]  // \ufffd

  // ----- Multi-byte patterns -----

  predicate Continuation(b: Byte) { 0x80 <= b < 0xC0 }

  /** The length a lead byte announces: 110xxxxx, 1110xxxx and 11110xxx. */
  function LeadWidth(c: Byte): nat {
    if 0xC0 <= c < 0xE0 then 2 else if 0xE0 <= c < 0xF0 then 3 else if 0xF0 <= c < 0xF8 then 4 else 0
  }

  predicate AcceptedSequence(s: ByteString) {
    && s != [] && 2 <= LeadWidth(s[0]) <= |s|
    && forall j :: 1 <= j < LeadWidth(s[0]) ==> Continuation(s[j])
  }

  /** The bytes the escaper handles together at the head of its input. */
  function HeadWidth(s: ByteString): (n: nat)
    requires s != []
    ensures 1 <= n <= |s|
  {
    if s[0] >= 0x80 && AcceptedSequence(s) then LeadWidth(s[0]) else 1
  }

  predicate HeadAccepted(s: ByteString)
    requires s != []
  {
    s[0] < 0x80 || AcceptedSequence(s)
  }

  // ----- Escaping -----

  function HexDigit(n: nat): Byte
    requires n < 16
  {
    if n < 10 then 0x30 + n else 0x61 + (n - 10)
  }

  function EscapedHead(s: ByteString): ByteString
    requires s != []
  {
    var c := s[0];
    if c == QUOTE then [BACKSLASH, QUOTE]
    else if c == BACKSLASH then [BACKSLASH, BACKSLASH]
    else if c == 0x08 then [BACKSLASH, 0x62]
    else if c == 0x0C then [BACKSLASH, 0x66]
    else if c == 0x0A then [BACKSLASH, 0x6E]
    else if c == 0x0D then [BACKSLASH, 0x72]
    else if c == 0x09 then [BACKSLASH, 0x74]
    else if c < 0x20 then [BACKSLASH, 0x75, 0x30, 0x30, HexDigit(c / 16), HexDigit(c % 16)]
    else if c < 0x80 then [c]
    else if AcceptedSequence(s) then s[..LeadWidth(c)]
    else ESCAPED_REPLACEMENT
  }

  function Escape(s: ByteString): ByteString {
    if s == [] then [] else EscapedHead(s) + Escape(s[HeadWidth(s)..])
  }

  /** The input with every byte that is not part of an accepted sequence replaced by U+FFFD. */
  function Sanitize(s: ByteString): ByteString {
    if s == [] then []
    else (if HeadAccepted(s) then s[..HeadWidth(s)] else REPLACEMENT) + Sanitize(s[HeadWidth(s)..])
  }

  predicate Accepted(s: ByteString) {
    s == [] || (HeadAccepted(s) && Accepted(s[HeadWidth(s)..]))
  }

  lemma {:induction false} SanitizeGrows(s: ByteString)
    ensures |Sanitize(s)| >= |s|
    ensures |Sanitize(s)| == |s| <==> Accepted(s)
  {
    if s != [] {
      SanitizeGrows(s[HeadWidth(s)..]);
    }
  }

  /** Exactly the inputs made of accepted sequences are left alone. */
  lemma {:induction false} SanitizeIdentityIffAccepted(s: ByteString)
    ensures Sanitize(s) == s <==> Accepted(s)
  {
    SanitizeGrows(s);
    if s != [] && Accepted(s) {
      SanitizeIdentityIffAccepted(s[HeadWidth(s)..]);
      assert s == s[..HeadWidth(s)] + s[HeadWidth(s)..];
    }
  }

  /** What the escaper takes for a sequence, bit pattern by bit pattern. */
  lemma AcceptedSequenceIff(s: ByteString)
    ensures AcceptedSequence(s) <==> (
              || (|s| >= 2 && 0xC0 <= s[0] <= 0xDF && Trails(s, 2))
              || (|s| >= 3 && 0xE0 <= s[0] <= 0xEF && Trails(s, 3))
              || (|s| >= 4 && 0xF0 <= s[0] <= 0xF7 && Trails(s, 4)))
  {}

  /** The bytes behind the first, up to position n, are of the form 10xxxxxx. */
  predicate Trails(s: ByteString, n: nat)
    requires n <= |s|
  {
    forall j :: 1 <= j < n ==> s[j] / 64 == 2
  }

  /** A byte from 0x80 on that starts no sequence is replaced by the three bytes of U+FFFD, and only that byte. */
  lemma BadByteReplaced(s: ByteString)
    requires s != [] && s[0] >= 0x80 && !AcceptedSequence(s)
    ensures Sanitize(s) == [0xEF, 0xBF, 0xBD] + Sanitize(s[1..])
    ensures Escape(s) == Spelt("\\ufffd") + Escape(s[1..])
  {
    ReplacementSpelt();
  }

  lemma ReplacementSpelt()
    ensures ESCAPED_REPLACEMENT == Spelt("\\ufffd")
  {}

  lemma EscapesSpelt(t: ByteString)
    ensures EscapedHead(Spelt("\"") + t) == Spelt("\\\"") && EscapedHead(Spelt("\\") + t) == Spelt("\\\\")
    ensures EscapedHead([8] + t) == Spelt("\\b") && EscapedHead([12] + t) == Spelt("\\f")
    ensures EscapedHead([10] + t) == Spelt("\\n") && EscapedHead([13] + t) == Spelt("\\r")
    ensures EscapedHead([9] + t) == Spelt("\\t")
  {}

  /** The other control characters are written with two hexadecimal digits in lower case. */
  lemma ControlsSpelt(c: Byte, t: ByteString)
    requires c < 32 && c != 8 && c != 9 && c != 10 && c != 12 && c != 13
    ensures EscapedHead([c] + t)
         == Spelt("\\u00") + [Spelt("0123456789abcdef")[c / 16], Spelt("0123456789abcdef")[c % 16]]
  {}

  /** Growth by escaping is at most sixfold. */
  lemma {:induction false} EscapeGrowth(s: ByteString)
    ensures |Escape(s)| <= 6 * |s|
  {
    if s != [] {
      EscapeGrowth(s[HeadWidth(s)..]);
    }
  }

  lemma {:induction false} EscapeHasNoControls(s: ByteString)
    ensures forall b :: b in Escape(s) ==> b >= 0x20
  {
    if s != [] {
      EscapeHasNoControls(s[HeadWidth(s)..]);
    }
  }

  /** Whether the lead byte at i is followed by the continuation bytes it announces. */
  method ValidSequence(s: ByteString, i: nat) returns (seqLen: nat, valid: bool)
    requires i < |s|
    ensures seqLen == LeadWidth(s[i])
    ensures valid <==> AcceptedSequence(s[i..])
  {
    ghost var rest := s[i..];
    seqLen := LeadWidth(s[i]);
    valid := seqLen >= 2 && i + seqLen <= |s|;
    if valid {
      var j := 1;
      while j < seqLen
        invariant 1 <= j <= seqLen
        invariant forall k :: 1 <= k < j ==> Continuation(rest[k])
      {
        assert s[i + j] == rest[j];
        if !Continuation(s[i + j]) {
          valid := false;
          break;
        }
        j := j + 1;
      }
    }
  }

  /** The escape of the bytes at i, and how many of them it covers. */
  method EscapeAt(s: ByteString, i: nat) returns (text: ByteString, width: nat)
    requires i < |s|
    ensures text == EscapedHead(s[i..]) && width == HeadWidth(s[i..])
  {
    var c := s[i];
    width := 1;
    if c == QUOTE {
      text := [BACKSLASH, QUOTE];
    } else if c == BACKSLASH {
      text := [BACKSLASH, BACKSLASH];
    } else if c == 0x08 {
      text := [BACKSLASH, 0x62];
    } else if c == 0x0C {
      text := [BACKSLASH, 0x66];
    } else if c == 0x0A {
      text := [BACKSLASH, 0x6E];
    } else if c == 0x0D {
      text := [BACKSLASH, 0x72];
    } else if c == 0x09 {
      text := [BACKSLASH, 0x74];
    } else if c < 0x20 {
      text := [BACKSLASH, 0x75, 0x30, 0x30, HexDigit(c / 16), HexDigit(c % 16)];
    } else if c < 0x80 {
      text := [c];
    } else {
      var seqLen, valid := ValidSequence(s, i);
      if valid {
        text := s[i..i + seqLen];
        width := seqLen;
      } else {
        text := ESCAPED_REPLACEMENT;
      }
    }
  }

  method JsonEscape(out: ByteString, s: ByteString) returns (r: ByteString)
    ensures r == out + Escape(s)
  {
    ghost var whole := out + Escape(s);
    r := out;
    var i := 0;
    NothingEscapedYet(out, s);
    while i < |s|
      invariant 0 <= i <= |s|
      invariant Progress(r, s, i, whole)
    {
      var text, width := EscapeAt(s, i);
      EscapeStep(r, s, i, text, width, whole);
      r := r + text;
      i := i + width;
    }
    AllEscaped(r, s, whole);
  }

  ghost predicate Progress(r: ByteString, s: ByteString, i: nat, whole: ByteString)
    requires i <= |s|
  {
    r + Escape(s[i..]) == whole
  }

  lemma NothingEscapedYet(out: ByteString, s: ByteString)
    ensures Progress(out, s, 0, out + Escape(s))
  {
    assert s[0..] == s;
  }

  lemma AllEscaped(r: ByteString, s: ByteString, whole: ByteString)
    requires Progress(r, s, |s|, whole)
    ensures r == whole
  {
    assert s[|s|..] == [] && r + [] == r;
  }

  lemma EscapeStep(r: ByteString, s: ByteString, i: nat, text: ByteString, width: nat, whole: ByteString)
    requires i < |s| && text == EscapedHead(s[i..]) && width == HeadWidth(s[i..])
    requires Progress(r, s, i, whole)
    ensures i + width <= |s| && Progress(r + text, s, i + width, whole)
  {
    assert s[i..][width..] == s[i + width..];
  }

  // ----- Decoding -----

  function HexValue(b: Byte): Option<nat> {
    if 0x30 <= b <= 0x39 then Some(b - 0x30)
    else if 0x41 <= b <= 0x46 then Some(b - 0x41 + 10)
    else if 0x61 <= b <= 0x66 then Some(b - 0x61 + 10)
    else None
  }

  /** Four hexadecimal digits. */
  function CodeUnit(t: ByteString): (code: Option<nat>)
    ensures code.Some? ==> |t| >= 4 && code.value < 0x1_0000
  {
    if |t| < 4 then None
    else
      match (HexValue(t[0]), HexValue(t[1]), HexValue(t[2]), HexValue(t[3]))
      case (Some(a), Some(b), Some(c), Some(d)) => Some(((a * 16 + b) * 16 + c) * 16 + d)
      case _ => None
  }

  function Utf8(code: nat): ByteString
    requires code < 0x11_0000
  {
    if code < 0x80 then [code]
    else if code < 0x800 then [0xC0 + code / 64, 0x80 + code % 64]
    else if code < 0x1_0000 then [0xE0 + code / 4096, 0x80 + code / 64 % 64, 0x80 + code % 64]
    else [0xF0 + code / 0x4_0000, 0x80 + code / 4096 % 64, 0x80 + code / 64 % 64, 0x80 + code % 64]
  }

  /** The low half of a surrogate pair, if an escape for one follows. */
  function LowSurrogate(t: ByteString): Option<nat> {
    if |t| < 6 || t[0] != BACKSLASH || t[1] != 0x75 then None
    else
      match CodeUnit(t[2..])
      case Some(low) => if 0xDC00 <= low < 0xE000 then Some(low) else None
      case None => None
  }

  /** The character at the head of string contents, and how many bytes it takes. */
  function DecodedHead(t: ByteString): (r: Option<(ByteString, nat)>)
    requires t != []
    ensures r.Some? ==> 1 <= r.value.1 <= |t|
  {
    if t[0] < 0x20 then None
    else if t[0] != BACKSLASH then Some(([t[0]], 1))
    else if |t| < 2 then None
    else if t[1] == QUOTE || t[1] == BACKSLASH || t[1] == 0x2F then Some(([t[1]], 2))
    else if t[1] == 0x62 then Some(([0x08], 2))
    else if t[1] == 0x66 then Some(([0x0C], 2))
    else if t[1] == 0x6E then Some(([0x0A], 2))
    else if t[1] == 0x72 then Some(([0x0D], 2))
    else if t[1] == 0x74 then Some(([0x09], 2))
    else if t[1] != 0x75 then None
    else
      match CodeUnit(t[2..])
      case None => None
      case Some(code) =>
        if 0xD800 <= code < 0xDC00 && LowSurrogate(t[6..]).Some? then
          Some((Utf8(0x1_0000 + (code - 0xD800) * 0x400 + (LowSurrogate(t[6..]).value - 0xDC00)), 12))
        else Some((Utf8(code), 6))
  }

  function Prepend(v: ByteString, r: Option<(ByteString, ByteString)>): Option<(ByteString, ByteString)> {
    if r.None? then None else Some((v + r.value.0, r.value.1))
  }

  /** Reads string contents up to and over the closing quote: the value and what follows. */
  function ParseString(t: ByteString): (r: Option<(ByteString, ByteString)>)
    ensures r.Some? ==> |r.value.1| < |t|
    decreases |t|
  {
    if t == [] then None
    else if t[0] == QUOTE then Some(([], t[1..]))
    else
      match DecodedHead(t)
      case None => None
      case Some((v, n)) => Prepend(v, ParseString(t[n..]))
  }

  lemma HexDigitValue(n: nat)
    requires n < 16
    ensures HexValue(HexDigit(n)) == Some(n)
  {}

  lemma EscapedHeadDecodes(s: ByteString, t: ByteString)
    requires s != [] && (s[0] < 0x80 || !AcceptedSequence(s))
    ensures var text := EscapedHead(s);
            && |text| > 0 && (text + t)[0] != QUOTE
            && DecodedHead(text + t) == Some((if s[0] < 0x80 then [s[0]] else REPLACEMENT, |text|))
  {
    var text := EscapedHead(s);
    if |text| == 6 {
      assert (text + t)[2..][..4] == text[2..];
      if s[0] < 0x20 {
        HexDigitValue(s[0] / 16);
        HexDigitValue(s[0] % 16);
        assert CodeUnit((text + t)[2..]) == Some(s[0]);
      } else {
        assert CodeUnit((text + t)[2..]) == Some(0xFFFD);
        assert Utf8(0xFFFD) == REPLACEMENT;
      }
    }
  }

  predicate Plain(s: ByteString) {
    forall k :: 0 <= k < |s| ==> s[k] >= 0x20 && s[k] != QUOTE && s[k] != BACKSLASH
  }

  lemma PrependConcat(a: ByteString, b: ByteString, r: Option<(ByteString, ByteString)>)
    ensures Prepend(a, Prepend(b, r)) == Prepend(a + b, r)
    ensures Prepend([], r) == r
  {
    if r.Some? {
      assert a + (b + r.value.0) == a + b + r.value.0;
      assert [] + r.value.0 == r.value.0;
    }
  }

  /** Bytes that stand for themselves are read one by one. */
  lemma {:induction false} PlainBytesDecode(plain: ByteString, t: ByteString)
    requires Plain(plain)
    ensures ParseString(plain + t) == Prepend(plain, ParseString(t))
    decreases |plain|
  {
    PrependConcat([], [], ParseString(t));
    if plain == [] {
      assert plain + t == t;
    } else {
      var first, rest := plain[..1], plain[1..];
      PlainBytesDecode(rest, t);
      PrependConcat(first, rest, ParseString(t));
      assert (plain + t)[1..] == rest + t;
      assert plain == first + rest && first == [plain[0]];
      assert DecodedHead(plain + t) == Some((first, 1));
    }
  }

  lemma HeadDecodes(s: ByteString, t: ByteString)
    requires s != []
    ensures ParseString(EscapedHead(s) + t)
         == Prepend(if HeadAccepted(s) then s[..HeadWidth(s)] else REPLACEMENT, ParseString(t))
  {
    var text := EscapedHead(s);
    if s[0] >= 0x80 && AcceptedSequence(s) {
      PlainBytesDecode(text, t);
    } else {
      EscapedHeadDecodes(s, t);
      assert (text + t)[|text|..] == t;
      assert s[..1] == [s[0]];
    }
  }

  /** Decoding an escaped string gives it back, with U+FFFD for the bytes outside accepted sequences. */
  lemma {:induction false} EscapeRoundTrip(s: ByteString, rest: ByteString)
    ensures ParseString(Escape(s) + [QUOTE] + rest) == Some((Sanitize(s), rest))
    decreases |s|
  {
    if s == [] {
      assert Escape(s) + [QUOTE] + rest == [QUOTE] + rest;
    } else {
      var tail := s[HeadWidth(s)..];
      EscapeRoundTrip(tail, rest);
      HeadDecodes(s, Escape(tail) + [QUOTE] + rest);
      assert Escape(s) + [QUOTE] + rest == EscapedHead(s) + (Escape(tail) + [QUOTE] + rest);
    }
  }

  // ----- The decoder on its own -----

  /** Every escape of two characters, whatever follows. */
  lemma ShortEscapesRead(t: ByteString)
    ensures DecodedHead(Spelt("\\\"") + t) == Some(([34], 2)) && DecodedHead(Spelt("\\\\") + t) == Some(([92], 2))
    ensures DecodedHead(Spelt("\\/") + t) == Some(([47], 2))
    ensures DecodedHead(Spelt("\\b") + t) == Some(([8], 2)) && DecodedHead(Spelt("\\f") + t) == Some(([12], 2))
    ensures DecodedHead(Spelt("\\n") + t) == Some(([10], 2)) && DecodedHead(Spelt("\\r") + t) == Some(([13], 2))
    ensures DecodedHead(Spelt("\\t") + t) == Some(([9], 2))
  {}

  /** Hexadecimal digits in either case. */
  lemma HexDigitsRead(n: nat)
    requires n < 16
    ensures HexValue(Spelt("0123456789abcdef")[n]) == HexValue(Spelt("0123456789ABCDEF")[n]) == Some(n)
  {}

  lemma CodeUnitRead(t: ByteString, a: nat, b: nat, c: nat, d: nat)
    requires |t| >= 4 && a < 16 && b < 16 && c < 16 && d < 16
    requires HexValue(t[0]) == Some(a) && HexValue(t[1]) == Some(b) && HexValue(t[2]) == Some(c) && HexValue(t[3]) == Some(d)
    ensures CodeUnit(t) == Some(4096 * a + 256 * b + 16 * c + d)
  {}

  /** U+20AC, the euro sign. */
  lemma UnitEscapeRead(t: ByteString)
    ensures DecodedHead(Spelt("\\u20aC") + t) == Some(([0xE2, 0x82, 0xAC], 6))
  {
    var text := Spelt("\\u20aC") + t;
    CodeUnitRead(text[2..], 2, 0, 10, 12);
    assert CodeUnit(text[2..]) == Some(0x20AC);
  }

  /** U+1F600, outside the 16-bit range, as a surrogate pair. */
  lemma PairEscapeRead(t: ByteString)
    ensures DecodedHead(Spelt("\\ud83d\\ude00") + t) == Some(([0xF0, 0x9F, 0x98, 0x80], 12))
  {
    var text := Spelt("\\ud83d\\ude00") + t;
    CodeUnitRead(text[2..], 13, 8, 3, 13);
    LowSurrogateRead(text[6..]);
  }

  lemma LowSurrogateRead(t: ByteString)
    requires |t| >= 6 && t[..6] == Spelt("\\ude00")
    ensures LowSurrogate(t) == Some(0xDE00)
  {
    CodeUnitRead(t[2..], 13, 14, 0, 0);
  }

  // ----- Strict UTF-8 -----

  /**
   The well-formed sequences of section 3 of RFC 3629, except that encoded surrogates pass: what json.loads accepts when
   it decodes bytes.
   */
  predicate StrictSequence(s: ByteString) {
    && AcceptedSequence(s)
    && 0xC2 <= s[0] <= 0xF4
    && (s[0] == 0xE0 ==> s[1] >= 0xA0)
    && (s[0] == 0xF0 ==> s[1] >= 0x90)
    && (s[0] == 0xF4 ==> s[1] < 0x90)
  }

  predicate Decodable(s: ByteString) {
    s == [] || ((s[0] < 0x80 || StrictSequence(s)) && Decodable(s[HeadWidth(s)..]))
  }

  /** Of the sequences the escaper accepts, all are well-formed. */
  predicate AcceptedAreStrict(s: ByteString) {
    s == [] || ((s[0] >= 0x80 && AcceptedSequence(s) ==> StrictSequence(s)) && AcceptedAreStrict(s[HeadWidth(s)..]))
  }

  lemma SequenceIgnoresTail(a: ByteString, b: ByteString)
    requires a != [] && (a[0] < 0x80 || AcceptedSequence(a))
    ensures HeadWidth(a + b) == HeadWidth(a)
    ensures a[0] >= 0x80 ==> (StrictSequence(a + b) <==> StrictSequence(a))
    ensures (a + b)[HeadWidth(a)..] == a[HeadWidth(a)..] + b
  {}

  lemma {:induction false} DecodableConcat(a: ByteString, b: ByteString)
    requires Decodable(a)
    ensures Decodable(a + b) <==> Decodable(b)
    decreases |a|
  {
    if a == [] {
      assert a + b == b;
    } else {
      SequenceIgnoresTail(a, b);
      DecodableConcat(a[HeadWidth(a)..], b);
    }
  }

  predicate Ascii(s: ByteString) {
    forall k :: 0 <= k < |s| ==> s[k] < 0x80
  }

  lemma {:induction false} AsciiDecodable(s: ByteString)
    requires Ascii(s)
    ensures Decodable(s)
  {
    if s != [] {
      AsciiDecodable(s[1..]);
    }
  }

  lemma EscapedHeadDecodable(s: ByteString, t: ByteString)
    requires s != []
    ensures Decodable(EscapedHead(s) + t) <==> (s[0] >= 0x80 && AcceptedSequence(s) ==> StrictSequence(s)) && Decodable(t)
  {
    var text := EscapedHead(s);
    if s[0] >= 0x80 && AcceptedSequence(s) {
      assert s == text + s[HeadWidth(s)..];
      SequenceIgnoresTail(text, s[HeadWidth(s)..]);
      SequenceIgnoresTail(text, t);
      assert text[HeadWidth(text)..] + t == t;
    } else {
      AsciiDecodable(text);
      DecodableConcat(text, t);
    }
  }

  /** Escaped text followed by t is decodable exactly when t is, and no malformed sequence was let through. */
  lemma {:induction false} EscapeDecodable(s: ByteString, t: ByteString)
    ensures Decodable(Escape(s) + t) <==> AcceptedAreStrict(s) && Decodable(t)
    decreases |s|
  {
    if s == [] {
      assert Escape(s) + t == t;
    } else {
      var tail := s[HeadWidth(s)..];
      assert Escape(s) + t == EscapedHead(s) + (Escape(tail) + t);
      EscapeDecodable(tail, t);
      EscapedHeadDecodable(s, Escape(tail) + t);
    }
  }

  // ----- UTF-8 proper -----

  /** The well-formed sequences of section 3 of RFC 3629: no encoded surrogates either. */
  predicate Utf8Sequence(s: ByteString) {
    StrictSequence(s) && (s[0] == 0xED ==> s[1] < 0xA0)
  }

  predicate Utf8Text(s: ByteString) {
    s == [] || ((s[0] < 0x80 || Utf8Sequence(s)) && Utf8Text(s[HeadWidth(s)..]))
  }

  /** Of the sequences the escaper accepts, all are well-formed and none is a surrogate. */
  predicate AcceptedAreUtf8(s: ByteString) {
    s == [] || ((s[0] >= 0x80 && AcceptedSequence(s) ==> Utf8Sequence(s)) && AcceptedAreUtf8(s[HeadWidth(s)..]))
  }

  lemma HeadThenText(head: ByteString, t: ByteString)
    requires head != [] && HeadAccepted(head) && HeadWidth(head) == |head|
    ensures Utf8Text(head + t) <==> (head[0] < 0x80 || Utf8Sequence(head)) && Utf8Text(t)
  {
    SequenceIgnoresTail(head, t);
    assert head[|head|..] + t == t;
  }

  /** What the consumer decodes of an escaped string is UTF-8 exactly when no accepted sequence violates it. */
  lemma {:induction false} SanitizedUtf8Iff(s: ByteString)
    ensures Utf8Text(Sanitize(s)) <==> AcceptedAreUtf8(s)
  {
    if s != [] {
      var n := HeadWidth(s);
      SanitizedUtf8Iff(s[n..]);
      if HeadAccepted(s) {
        assert s == s[..n] + s[n..];
        SequenceHead(s, n);
        HeadThenText(s[..n], Sanitize(s[n..]));
      } else {
        HeadThenText(REPLACEMENT, Sanitize(s[n..]));
      }
    }
  }

  lemma {:induction false} Utf8IsStrict(s: ByteString)
    requires AcceptedAreUtf8(s)
    ensures AcceptedAreStrict(s)
  {
    if s != [] {
      Utf8IsStrict(s[HeadWidth(s)..]);
    }
  }

  lemma SequenceHead(s: ByteString, n: nat)
    requires s != [] && HeadAccepted(s) && n == HeadWidth(s)
    ensures HeadAccepted(s[..n]) && HeadWidth(s[..n]) == n
    ensures s[0] >= 0x80 ==> (Utf8Sequence(s[..n]) <==> Utf8Sequence(s))
  {}

  // ----- Sequences and code points -----

  function CodePoint(s: ByteString): (code: nat)
    requires StrictSequence(s)
    ensures 0x80 <= code < 0x11_0000 && Utf8(code) == s[..HeadWidth(s)]
  {
    assert AcceptedSequence(s) && Continuation(s[1]);
    if s[0] < 0xE0 then
      TwoBytes(s[0], s[1]);
      (s[0] as int - 0xC0) * 64 + (s[1] as int - 0x80)
    else if s[0] < 0xF0 then
      assert Continuation(s[2]);
      ThreeBytes(s[0], s[1], s[2]);
      ((s[0] as int - 0xE0) * 64 + (s[1] as int - 0x80)) * 64 + (s[2] as int - 0x80)
    else
      assert Continuation(s[2]) && Continuation(s[3]);
      FourBytes(s[0], s[1], s[2], s[3]);
      (((s[0] as int - 0xF0) * 64 + (s[1] as int - 0x80)) * 64 + (s[2] as int - 0x80)) * 64 + (s[3] as int - 0x80)
  }

  lemma TwoBytes(a: Byte, b: Byte)
    requires 0xC2 <= a < 0xE0 && Continuation(b)
    ensures var code := (a as int - 0xC0) * 64 + (b as int - 0x80); 0x80 <= code < 0x800 && Utf8(code) == [a, b]
  {}

  lemma ThreeBytes(a: Byte, b: Byte, c: Byte)
    requires 0xE0 <= a < 0xF0 && Continuation(b) && Continuation(c) && (a == 0xE0 ==> b >= 0xA0)
    ensures var code := ((a as int - 0xE0) * 64 + (b as int - 0x80)) * 64 + (c as int - 0x80);
            0x800 <= code < 0x1_0000 && Utf8(code) == [a, b, c]
  {
    var high := (a as int - 0xE0) * 64 + (b as int - 0x80);
    var code := high * 64 + (c as int - 0x80);
    assert code / 64 == high && code / 4096 == high / 64;
  }

  lemma FourBytes(a: Byte, b: Byte, c: Byte, d: Byte)
    requires 0xF0 <= a <= 0xF4 && Continuation(b) && Continuation(c) && Continuation(d)
    requires (a == 0xF0 ==> b >= 0x90) && (a == 0xF4 ==> b < 0x90)
    ensures var code := (((a as int - 0xF0) * 64 + (b as int - 0x80)) * 64 + (c as int - 0x80)) * 64 + (d as int - 0x80);
            0x1_0000 <= code < 0x11_0000 && Utf8(code) == [a, b, c, d]
  {
    var top := (a as int - 0xF0) * 64 + (b as int - 0x80);
    var high := top * 64 + (c as int - 0x80);
    var code := high * 64 + (d as int - 0x80);
    assert code / 64 == high && code / 4096 == high / 64 && high / 64 == top && code / 0x4_0000 == top / 64;
  }

  predicate Surrogate(code: nat) { 0xD800 <= code < 0xE000 }

  /** Each code point beyond ASCII is one sequence for the escaper, as long as it is encoded, whatever follows. */
  lemma CodePointIsSequence(code: nat, t: ByteString)
    requires 0x80 <= code < 0x11_0000
    ensures AcceptedSequence(Utf8(code) + t) && StrictSequence(Utf8(code) + t)
    ensures HeadWidth(Utf8(code) + t) == |Utf8(code)| == if code < 0x800 then 2 else if code < 0x1_0000 then 3 else 4
    ensures Utf8Sequence(Utf8(code) + t) <==> !Surrogate(code)
  {
    if code < 0x800 {
    } else if code < 0x1_0000 {
      assert code / 64 % 64 == code / 64 - 64 * (code / 4096);
    } else {
      assert code / 4096 % 64 == code / 4096 - 64 * (code / 0x4_0000);
    }
  }

  /** The strict sequences are exactly the encoded code points beyond ASCII, the proper ones those of no surrogate. */
  lemma SequenceIffCodePoint(s: ByteString)
    ensures StrictSequence(s) <==> exists code :: 0x80 <= code < 0x11_0000 && Utf8(code) <= s
    ensures Utf8Sequence(s) <==> exists code :: 0x80 <= code < 0x11_0000 && !Surrogate(code) && Utf8(code) <= s
  {
    forall code | 0x80 <= code < 0x11_0000 && Utf8(code) <= s
      ensures StrictSequence(s) && (Utf8Sequence(s) <==> !Surrogate(code))
    {
      CodePointIsSequence(code, s[|Utf8(code)|..]);
      assert s == Utf8(code) + s[|Utf8(code)|..];
    }
    if StrictSequence(s) {
      assert Utf8(CodePoint(s)) <= s;
    }
  }

  type Code = n: nat | n < 0x11_0000

  predicate NoSurrogates(codes: seq<Code>) {
    forall i :: 0 <= i < |codes| ==> !Surrogate(codes[i])
  }

  /** A text of code points in UTF-8. */
  function Encoded(codes: seq<Code>): ByteString {
    if codes == [] then [] else Utf8(codes[0]) + Encoded(codes[1..])
  }

  /** Text in UTF-8 is escaped without a replacement, up to its last character. */
  lemma {:induction false} EncodedIsText(codes: seq<Code>)
    ensures Sanitize(Encoded(codes)) == Encoded(codes) && Decodable(Encoded(codes))
    ensures Utf8Text(Encoded(codes)) <==> NoSurrogates(codes)
  {
    if codes != [] {
      EncodedIsText(codes[1..]);
      CodeFirst(codes[0], Encoded(codes[1..]));
      assert forall i :: 0 < i < |codes| ==> codes[i] == codes[1..][i - 1];
    }
  }

  lemma CodeFirst(code: Code, t: ByteString)
    ensures var s := Utf8(code) + t;
            && Sanitize(s) == Utf8(code) + Sanitize(t)
            && (Decodable(s) <==> Decodable(t))
            && (Utf8Text(s) <==> !Surrogate(code) && Utf8Text(t))
  {
    var s := Utf8(code) + t;
    if code >= 0x80 {
      CodePointIsSequence(code, t);
    }
    assert HeadWidth(s) == |Utf8(code)| && s[..HeadWidth(s)] == Utf8(code) && s[HeadWidth(s)..] == t;
  }

  /** The code points of a text that decodes. */
  function Codes(s: ByteString): (codes: seq<Code>)
    requires Decodable(s)
    ensures Encoded(codes) == s
    decreases |s|
  {
    if s == [] then []
    else
      var code: Code := if s[0] < 0x80 then s[0] else CodePoint(s);
      assert Utf8(code) == s[..HeadWidth(s)];
      [code] + Codes(s[HeadWidth(s)..])
  }

  ghost predicate Spells(codes: seq<Code>, s: ByteString) {
    Encoded(codes) == s
  }

  /** Decodable bytes are exactly those that spell code points. */
  lemma DecodableIffEncoded(s: ByteString)
    ensures Decodable(s) <==> exists codes :: Spells(codes, s)
  {
    forall codes | Spells(codes, s) ensures Decodable(s) {
      EncodedIsText(codes);
    }
    if Decodable(s) {
      assert Spells(Codes(s), s);
    }
  }

  /** Proper UTF-8 are exactly those that spell code points without surrogates. */
  lemma TextIffEncoded(s: ByteString)
    ensures Utf8Text(s) <==> exists codes :: Spells(codes, s) && NoSurrogates(codes)
  {
    forall codes | Spells(codes, s) ensures Utf8Text(s) <==> NoSurrogates(codes) {
      EncodedIsText(codes);
    }
    if Utf8Text(s) {
      TextDecodable(s);
      assert Spells(Codes(s), s);
    }
  }

  lemma {:induction false} TextDecodable(s: ByteString)
    requires Utf8Text(s)
    ensures Decodable(s)
  {
    if s != [] {
      TextDecodable(s[HeadWidth(s)..]);
    }
  }

  // ----- Numbers -----

  predicate Digit(b: Byte) { 0x30 <= b <= 0x39 }

  predicate AllDigits(t: ByteString) {
    forall k :: 0 <= k < |t| ==> Digit(t[k])
  }

  function Digits(n: nat): (text: ByteString)
    ensures text != [] && AllDigits(text)
  {
    if n < 10 then [0x30 + n] else Digits(n / 10) + [0x30 + n % 10]
  }

  function Decimal(n: int): ByteString {
    if n < 0 then [0x2D] + Digits(-n) else Digits(n)
  }

  function DigitsValue(t: ByteString): nat
    requires AllDigits(t)
  {
    if t == [] then 0
    else
      assert Digit(t[|t| - 1]);
      10 * DigitsValue(t[..|t| - 1]) + (t[|t| - 1] as int - 0x30)
  }

  function LeadingDigits(t: ByteString): (n: nat)
    ensures n <= |t| && AllDigits(t[..n])
  {
    if t == [] || !Digit(t[0]) then 0
    else
      var n := LeadingDigits(t[1..]);
      assert t[..n + 1] == [t[0]] + t[1..][..n];
      n + 1
  }

  /** Digits without a leading zero: their value and what follows. */
  function ParseDigits(t: ByteString): (r: Option<(nat, ByteString)>)
    ensures r.Some? ==> |r.value.1| < |t|
  {
    var n := LeadingDigits(t);
    if n == 0 || (n > 1 && t[0] == 0x30) then None else Some((DigitsValue(t[..n]), t[n..]))
  }

  /** An integer: its value and what follows. */
  function ParseNumber(t: ByteString): (r: Option<(int, ByteString)>)
    ensures r.Some? ==> |r.value.1| < |t|
  {
    if t != [] && t[0] == 0x2D then
      match ParseDigits(t[1..])
      case None => None
      case Some((n, rest)) =>
        var value: int := n;
        Some((-value, rest))
    else
      match ParseDigits(t)
      case None => None
      case Some((n, rest)) =>
        var value: int := n;
        Some((value, rest))
  }

  lemma {:induction false} DigitsRoundTrip(n: nat)
    ensures DigitsValue(Digits(n)) == n
    ensures n > 0 ==> Digits(n)[0] != 0x30
  {
    if n >= 10 {
      DigitsRoundTrip(n / 10);
      assert Digits(n)[..|Digits(n)| - 1] == Digits(n / 10);
    }
  }

  lemma {:induction false} LeadingDigitsOf(text: ByteString, t: ByteString)
    requires AllDigits(text) && (t == [] || !Digit(t[0]))
    ensures LeadingDigits(text + t) == |text|
  {
    if text == [] {
      assert text + t == t;
    } else {
      assert (text + t)[1..] == text[1..] + t;
      LeadingDigitsOf(text[1..], t);
    }
  }

  lemma NumberRoundTrip(n: int, t: ByteString)
    requires t == [] || !Digit(t[0])
    ensures ParseNumber(Decimal(n) + t) == Some((n, t))
  {
    if n < 0 {
      DigitsParse(-n, t);
      MinusFirst(Digits(-n), t);
    } else {
      DigitsParse(n, t);
      assert Digit(Digits(n)[0]);
    }
  }

  lemma MinusFirst(digits: ByteString, t: ByteString)
    ensures ([0x2D] + digits + t)[1..] == digits + t
  {}

  lemma DigitsParse(n: nat, t: ByteString)
    requires t == [] || !Digit(t[0])
    ensures ParseDigits(Digits(n) + t) == Some((n, t))
  {
    var digits := Digits(n);
    DigitsRoundTrip(n);
    LeadingDigitsOf(digits, t);
    assert (digits + t)[..|digits|] == digits && (digits + t)[|digits|..] == t;
  }

  /** The digits are decimal ones, with a minus sign in front if need be. */
  lemma DecimalSpelt()
    ensures Decimal(1203456789) == Spelt("1203456789") && Decimal(-40) == Spelt("-40") && Decimal(0) == Spelt("0")
  {
    OneMoreDigit(1, 2);
    OneMoreDigit(12, 0);
    OneMoreDigit(120, 3);
    OneMoreDigit(1203, 4);
    OneMoreDigit(12034, 5);
    OneMoreDigit(120345, 6);
    OneMoreDigit(1203456, 7);
    OneMoreDigit(12034567, 8);
    OneMoreDigit(120345678, 9);
    OneMoreDigit(4, 0);
  }

  lemma OneMoreDigit(n: nat, digit: nat)
    requires n > 0 && digit < 10
    ensures Digits(10 * n + digit) == Digits(n) + [Spelt("0123456789")[digit]]
  {}

  function Power10(k: nat): nat {
    if k == 0 then 1 else 10 * Power10(k - 1)
  }

  lemma {:induction false} DigitsLength(n: nat, k: nat)
    requires n < Power10(k) && k > 0
    ensures |Digits(n)| <= k
    decreases k
  {
    if n >= 10 {
      DigitsLength(n / 10, k - 1);
    }
  }
}
