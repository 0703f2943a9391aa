/**
 The two text encoders of `libs/common/src/operation_log.rs`: escaping a search text for SQL LIKE and
 decoding a percent-encoded header value.
 */
module OperationLog {
  import opened Basics

  // ---------------------------------------------------------------- escaping for LIKE

  /** `str::replace` of one character. */
  function ReplaceAll(s: string, c: char, with: string): string {
    if s == [] then [] else (if s[0] == c then with else [s[0]]) + ReplaceAll(s[1..], c, with)
  }

  function LikePattern(raw: Option<string>): Option<string> {
    match raw
    case None => None
    case Some(s) => Some("%" + ReplaceAll(ReplaceAll(ReplaceAll(s, '\\', "\\\\"), '%', "\\%"), '_', "\\_") + "%")
  }

  /** One pass: each special character gets a backslash. */
  function Escaped(s: string): string {
    if s == [] then []
    else (if s[0] in {'\\', '%', '_'} then ['\\', s[0]] else [s[0]]) + Escaped(s[1..])
  }

  lemma {:induction false} ReplaceAppend(a: string, b: string, c: char, with: string)
    ensures ReplaceAll(a + b, c, with) == ReplaceAll(a, c, with) + ReplaceAll(b, c, with)
  {
    if a == [] {
      assert a + b == b;
    } else {
      ReplaceAppend(a[1..], b, c, with);
      assert (a + b)[0] == a[0] && (a + b)[1..] == a[1..] + b;
      var head, left, right := if a[0] == c then with else [a[0]], ReplaceAll(a[1..], c, with), ReplaceAll(b, c, with);
      assert head + (left + right) == head + left + right;
    }
  }

  lemma ReplaceShort(x: char, y: char, c: char, with: string)
    ensures ReplaceAll([x], c, with) == if x == c then with else [x]
    ensures ReplaceAll([x, y], c, with) == (if x == c then with else [x]) + if y == c then with else [y]
  {
    assert [x][1..] == [] && [y][1..] == [] && [x, y][1..] == [y];
    assert ReplaceAll([y], c, with) == if y == c then with else [y];
  }

  /** The three replacements in sequence never touch each other's backslashes. */
  lemma {:induction false} ThreeReplacementsAreOnePass(s: string)
    ensures ReplaceAll(ReplaceAll(ReplaceAll(s, '\\', "\\\\"), '%', "\\%"), '_', "\\_") == Escaped(s)
  {
    if s != [] {
      ThreeReplacementsAreOnePass(s[1..]);
      var first := if s[0] == '\\' then "\\\\" else [s[0]];
      var rest := ReplaceAll(s[1..], '\\', "\\\\");
      ReplaceAppend(first, rest, '%', "\\%");
      var second := ReplaceAll(first, '%', "\\%");
      ReplaceAppend(second, ReplaceAll(rest, '%', "\\%"), '_', "\\_");
      ReplaceShort(s[0], s[0], '%', "\\%");
      ReplaceShort('\\', '\\', '%', "\\%");
      ReplaceShort(s[0], s[0], '_', "\\_");
      ReplaceShort('\\', '\\', '_', "\\_");
      ReplaceShort('\\', '%', '_', "\\_");
    }
  }

  // ---------------------------------------------------------------- the meaning of LIKE

  /** SQLite compares ASCII letters without case. */
  function Fold(c: char): char {
    if 'A' <= c <= 'Z' then ((c as int) + 32) as char else c
  }

  predicate Same(a: char, b: char) {
    Fold(a) == Fold(b)
  }

  /** Two characters compare equal exactly if they are the same or the two cases of one ASCII letter. */
  lemma SameIsCaseless(a: char, b: char)
    ensures Same(a, b) <==>
            || a == b
            || ('A' <= a <= 'Z' && b as int == a as int + 32)
            || ('A' <= b <= 'Z' && a as int == b as int + 32)
  {
  }

  /** `text LIKE pattern ESCAPE '\'`: % is any text, _ any character, an escaped character is itself. */
  predicate Like(pattern: string, text: string)
    decreases |pattern|, |text|
  {
    if pattern == [] then text == []
    else if pattern[0] == '\\' then
      |pattern| >= 2 && text != [] && Same(pattern[1], text[0]) && Like(pattern[2..], text[1..])
    else if pattern[0] == '%' then
      Like(pattern[1..], text) || (text != [] && Like(pattern, text[1..]))
    else if pattern[0] == '_' then text != [] && Like(pattern[1..], text[1..])
    else text != [] && Same(pattern[0], text[0]) && Like(pattern[1..], text[1..])
  }

  predicate StartsWith(text: string, s: string) {
    |s| <= |text| && forall i | 0 <= i < |s| :: Same(s[i], text[i])
  }

  predicate Contains(text: string, s: string) {
    exists k | 0 <= k <= |text| :: StartsWith(text[k..], s)
  }

  lemma {:induction false} PercentMatchesAll(text: string)
    ensures Like("%", text)
    decreases |text|
  {
    assert "%"[1..] == [];
    if text != [] {
      PercentMatchesAll(text[1..]);
    }
  }

  lemma {:induction false} EscapedMatchesPrefix(s: string, text: string)
    ensures Like(Escaped(s) + "%", text) <==> StartsWith(text, s)
    decreases |s|
  {
    if s == [] {
      assert Escaped(s) + "%" == "%";
      PercentMatchesAll(text);
    } else {
      var p := Escaped(s) + "%";
      var special := s[0] in {'\\', '%', '_'};
      assert if special then p[0] == '\\' && p[1] == s[0] && p[2..] == Escaped(s[1..]) + "%"
             else p[0] == s[0] && p[1..] == Escaped(s[1..]) + "%";
      if text != [] {
        EscapedMatchesPrefix(s[1..], text[1..]);
        StartsWithStep(text, s);
      }
    }
  }

  lemma StartsWithStep(text: string, s: string)
    requires s != [] && text != []
    ensures StartsWith(text, s) <==> Same(s[0], text[0]) && StartsWith(text[1..], s[1..])
  {
    if Same(s[0], text[0]) && StartsWith(text[1..], s[1..]) {
      forall i | 0 <= i < |s|
        ensures Same(s[i], text[i])
      {
        if i > 0 {
          assert Same(s[1..][i - 1], text[1..][i - 1]);
        }
      }
    }
    if StartsWith(text, s) {
      forall i | 0 <= i < |s[1..]|
        ensures Same(s[1..][i], text[1..][i])
      {
        assert Same(s[i + 1], text[i + 1]);
      }
    }
  }

  lemma {:induction false} LeadingPercent(s: string, text: string)
    ensures Like("%" + Escaped(s) + "%", text) <==> Contains(text, s)
    decreases |text|
  {
    var p := "%" + Escaped(s) + "%";
    assert p[1..] == Escaped(s) + "%";
    EscapedMatchesPrefix(s, text);
    assert text[0..] == text;
    if text != [] {
      LeadingPercent(s, text[1..]);
      assert forall k | 0 < k <= |text| :: text[1..][k - 1..] == text[k..];
      assert forall k | 0 <= k <= |text[1..]| :: text[1..][k..] == text[k + 1..];
      if Contains(text[1..], s) {
        var k :| 0 <= k <= |text[1..]| && StartsWith(text[1..][k..], s);
        assert StartsWith(text[k + 1..], s);
      }
      if Contains(text, s) && !StartsWith(text, s) {
        var k :| 0 <= k <= |text| && StartsWith(text[k..], s);
        assert StartsWith(text[1..][k - 1..], s);
      }
    } 
  }

  /** The pattern finds exactly the texts that contain the search text, whatever characters it holds. */
  lemma LikePatternMeansContains(s: string, text: string)
    ensures LikePattern(Some(s)).Some? && (Like(LikePattern(Some(s)).value, text) <==> Contains(text, s))
  {
    ThreeReplacementsAreOnePass(s);
    LeadingPercent(s, text);
  }

  // ---------------------------------------------------------------- percent-decoding

  type byte = x: nat | x < 0x100

  const PERCENT: byte := 0x25

  function HexDigit(b: byte): Option<nat> {
    if 0x30 <= b <= 0x39 then Some(b - 0x30)
    else if 0x41 <= b <= 0x46 then Some(b - 0x41 + 10)
    else if 0x61 <= b <= 0x66 then Some(b - 0x61 + 10)
    else None
  }

  /** A percent sign followed by two hexadecimal digits. */
  predicate Triplet(bytes: seq<byte>, i: nat) {
    i + 2 < |bytes| && bytes[i] == PERCENT && HexDigit(bytes[i + 1]).Some? && HexDigit(bytes[i + 2]).Some?
  }

  function TripletValue(bytes: seq<byte>, i: nat): byte
    requires Triplet(bytes, i)
  {
    HexDigit(bytes[i + 1]).value * 16 + HexDigit(bytes[i + 2]).value
  }

  function Decoded(bytes: seq<byte>): seq<byte> {
    if bytes == [] then []
    else if Triplet(bytes, 0) then [TripletValue(bytes, 0)] + Decoded(bytes[3..])
    else [bytes[0]] + Decoded(bytes[1..])
  }

  predicate Continuation(b: byte) {
    0x80 <= b <= 0xBF
  }

  /** The length of the well-formed sequence at the start (table 3-7 of the Unicode Standard), or 0. */
  function SequenceLength(b: seq<byte>): (n: nat)
    ensures n <= |b|
  {
    if b == [] then 0
    else if b[0] <= 0x7F then 1
    else if |b| < 2 then 0
    else if 0xC2 <= b[0] <= 0xDF then if Continuation(b[1]) then 2 else 0
    else if |b| < 3 || !Continuation(b[2]) then 0
    else if b[0] == 0xE0 then if 0xA0 <= b[1] <= 0xBF then 3 else 0
    else if b[0] == 0xED then if 0x80 <= b[1] <= 0x9F then 3 else 0
    else if 0xE1 <= b[0] <= 0xEF then if Continuation(b[1]) then 3 else 0
    else if |b| < 4 || !Continuation(b[3]) then 0
    else if b[0] == 0xF0 then if 0x90 <= b[1] <= 0xBF then 4 else 0
    else if 0xF1 <= b[0] <= 0xF3 then if Continuation(b[1]) then 4 else 0
    else if b[0] == 0xF4 then if 0x80 <= b[1] <= 0x8F then 4 else 0
    else 0
  }

  predicate ValidUtf8(b: seq<byte>) {
    b == [] || (SequenceLength(b) > 0 && ValidUtf8(b[SequenceLength(b)..]))
  }

  lemma {:induction false} DecodedStep(value: seq<byte>, i: nat, done: seq<byte>)
    requires i < |value| && done + Decoded(value[i..]) == Decoded(value)
    ensures Triplet(value, i) ==> (done + [TripletValue(value, i)]) + Decoded(value[i + 3..]) == Decoded(value)
    ensures !Triplet(value, i) ==> (done + [value[i]]) + Decoded(value[i + 1..]) == Decoded(value)
  {
    var rest := value[i..];
    assert Triplet(rest, 0) <==> Triplet(value, i);
    if Triplet(value, i) {
      assert rest[3..] == value[i + 3..];
      Regroup(done, TripletValue(value, i), Decoded(value[i + 3..]));
    } else {
      assert rest[1..] == value[i + 1..];
      Regroup(done, value[i], Decoded(value[i + 1..]));
    }
  }

  lemma Regroup(a: seq<byte>, x: byte, b: seq<byte>)
    ensures a + ([x] + b) == (a + [x]) + b
  {
  }

  /** A Rust string is valid UTF-8, and so is the result: an invalid decoding falls back to the input. */
  method DecodeHeaderValue(value: seq<byte>) returns (r: seq<byte>)
    requires ValidUtf8(value)
    ensures r == if ValidUtf8(Decoded(value)) then Decoded(value) else value
    ensures ValidUtf8(r)
  {
    var decoded: seq<byte> := [];
    var index := 0;
    assert value[0..] == value;
    while index < |value|
      invariant index <= |value|
      invariant decoded + Decoded(value[index..]) == Decoded(value)
    {
      DecodedStep(value, index, decoded);
      if value[index] == PERCENT && index + 2 < |value| {
        var hi, lo := HexDigit(value[index + 1]), HexDigit(value[index + 2]);
        if hi.Some? && lo.Some? {
          decoded := decoded + [hi.value * 16 + lo.value];
          index := index + 3;
          continue;
        }
      }
      decoded := decoded + [value[index]];
      index := index + 1;
    }
    assert value[index..] == [] && decoded == Decoded(value);
    r := if ValidUtf8(decoded) then decoded else value;
  }

  /**
   The percent-encodings of a text in the sense of section 2.1 of RFC 3986: every byte is either literal
   or a triplet of its value in either case, and a percent sign is never literal.
   */
  predicate Encodes(encoded: seq<byte>, text: seq<byte>)
    decreases |text|
  {
    if text == [] then encoded == []
    else
      || (encoded != [] && encoded[0] == text[0] != PERCENT && Encodes(encoded[1..], text[1..]))
      || (Triplet(encoded, 0) && TripletValue(encoded, 0) == text[0] && Encodes(encoded[3..], text[1..]))
  }

  lemma {:induction false} DecodedInverts(encoded: seq<byte>, text: seq<byte>)
    requires Encodes(encoded, text)
    ensures Decoded(encoded) == text
    decreases |text|
  {
    if text != [] {
      if encoded[0] == text[0] != PERCENT && Encodes(encoded[1..], text[1..]) {
        DecodedInverts(encoded[1..], text[1..]);
      } else {
        DecodedInverts(encoded[3..], text[1..]);
      }
    }
  }

  /** The digit of a number below sixteen, in either case. */
  function HexChar(d: nat, lower: bool): byte
    requires d < 16
  {
    if d < 10 then 0x30 + d else (if lower then 0x61 else 0x41) + (d - 10)
  }

  /** A byte is read as a digit exactly if it is the lower-case or the upper-case digit of that number. */
  lemma HexDigitsAreRead(b: byte, d: nat)
    ensures HexDigit(b) == Some(d) <==> d < 16 && (b == HexChar(d, true) || b == HexChar(d, false))
  {
    if 0x61 <= b <= 0x66 && d == b - 0x61 + 10 {
      assert b == HexChar(d, true);
    }
  }

  /** The encoder of the other side: bytes outside `literal` become triplets of the chosen case. */
  function PercentEncode(text: seq<byte>, literal: set<byte>, lower: bool): seq<byte> {
    if text == [] then []
    else
      (if text[0] in literal then [text[0]]
       else [PERCENT, HexChar(text[0] / 16, lower), HexChar(text[0] % 16, lower)])
      + PercentEncode(text[1..], literal, lower)
  }

  lemma {:induction false} PercentEncodeEncodes(text: seq<byte>, literal: set<byte>, lower: bool)
    requires PERCENT !in literal && forall b | b in literal :: b <= 0x7F
    ensures var e := PercentEncode(text, literal, lower);
            Encodes(e, text) && Ascii(e) && Decoded(e) == text
  {
    var e := PercentEncode(text, literal, lower);
    if text != [] {
      PercentEncodeEncodes(text[1..], literal, lower);
      if text[0] in literal {
        assert e[1..] == PercentEncode(text[1..], literal, lower);
      } else {
        assert e[3..] == PercentEncode(text[1..], literal, lower);
        HexDigitsAreRead(HexChar(text[0] / 16, lower), text[0] / 16);
        HexDigitsAreRead(HexChar(text[0] % 16, lower), text[0] % 16);
      }
    }
    DecodedInverts(e, text);
  }

  predicate Ascii(bytes: seq<byte>) {
    forall i | 0 <= i < |bytes| :: bytes[i] <= 0x7F
  }

  lemma {:induction false} AsciiIsValid(bytes: seq<byte>)
    requires Ascii(bytes)
    ensures ValidUtf8(bytes)
  {
    if bytes != [] {
      AsciiIsValid(bytes[1..]);
    }
  }

  /** Every ASCII-only encoding of a text is accepted and decodes to exactly that text. */
  lemma HeaderRoundTrip(encoded: seq<byte>, text: seq<byte>)
    requires Encodes(encoded, text) && Ascii(encoded) && ValidUtf8(text)
    ensures ValidUtf8(encoded) && ValidUtf8(Decoded(encoded)) && Decoded(encoded) == text
  {
    AsciiIsValid(encoded);
    DecodedInverts(encoded, text);
  }

  /** Decoding changes the bytes exactly when some well-formed triplet occurs. */
  lemma {:induction false} UnchangedIffNoTriplet(bytes: seq<byte>)
    ensures |Decoded(bytes)| <= |bytes|
    ensures Decoded(bytes) == bytes <==> forall i | 0 <= i < |bytes| :: !Triplet(bytes, i)
    decreases |bytes|
  {
    if bytes != [] {
      if Triplet(bytes, 0) {
        UnchangedIffNoTriplet(bytes[3..]);
        assert |Decoded(bytes)| < |bytes|;
      } else {
        UnchangedIffNoTriplet(bytes[1..]);
        assert forall i | 0 < i < |bytes| :: Triplet(bytes, i) <==> Triplet(bytes[1..], i - 1);
        assert bytes == [bytes[0]] + bytes[1..];
        if Decoded(bytes) == bytes {
          assert Decoded(bytes)[1..] == bytes[1..];
        }
        if i :| 0 <= i < |bytes| && Triplet(bytes, i) {
          assert Triplet(bytes[1..], i - 1);
        }
        if i :| 0 <= i < |bytes[1..]| && Triplet(bytes[1..], i) {
          assert Triplet(bytes, i + 1);
        }
      }
    }
  }
}
