/** JSON strings: valueToQuotedString (json_writer.cpp), decodeString and the unicode escapes
    (json_reader.cpp). Bit masks are written as arithmetic: `x & 0x3f` is `x % 0x40`, `x >> 6` is
    `x / 0x40`, and `|` adds because the operands have no bit in common. */
module Strings {
  import opened Options
  import opened JsonValue
  import opened Tokens
  import opened Numbers

  // ---- UTF-8 ----

  function Byte(b: nat): (c: char)
    requires b < 256
    ensures c as int == b
  {
    b as char
  }

  /** codePointToUTF8; a code point above 0x10FFFF would give the empty string. */
  function CodePointToUtf8(cp: nat): (s: string)
    ensures forall i | 0 <= i < |s| :: s[i] as int < 256
    ensures s == [] <==> cp > 0x10FFFF
  {
    if cp <= 0x7F then [Byte(cp)]
    else if cp <= 0x7FF then [Byte(0xC0 + cp / 0x40 % 0x20), Byte(0x80 + cp % 0x40)]
    else if cp <= 0xFFFF then
      [Byte(0xE0 + cp / 0x1000 % 0x10), Byte(0x80 + cp / 0x40 % 0x40), Byte(0x80 + cp % 0x40)]
    else if cp <= 0x10FFFF then
      [Byte(0xF0 + cp / 0x4_0000 % 0x8), Byte(0x80 + cp / 0x1000 % 0x40),
       Byte(0x80 + cp / 0x40 % 0x40), Byte(0x80 + cp % 0x40)]
    else []
  }

  predicate IsSurrogate(cp: nat) {
    0xD800 <= cp <= 0xDFFF
  }

  predicate IsScalarValue(cp: nat) {
    cp <= 0x10FFFF && !IsSurrogate(cp)
  }

  predicate Continuation(c: char) {
    0x80 <= c as int <= 0xBF
  }

  /** The first character of a UTF-8 text, following sections 3 and 4 of RFC 3629: the shortest form
      only, no surrogates, nothing above 0x10FFFF. */
  function Utf8Decode(s: string): (r: Option<(nat, nat)>)
    ensures r.Some? ==> IsScalarValue(r.value.0) && 1 <= r.value.1 <= |s|
  {
    if s == [] then None
    else
      var a := s[0] as int;
      if a <= 0x7F then Some((a, 1))
      else if 0xC2 <= a <= 0xDF && |s| >= 2 && Continuation(s[1]) then
        Some(((a - 0xC0) * 0x40 + (s[1] as int - 0x80), 2))
      else if 0xE0 <= a <= 0xEF && |s| >= 3 && Continuation(s[1]) && Continuation(s[2]) then
        var cp := (a - 0xE0) * 0x1000 + (s[1] as int - 0x80) * 0x40 + (s[2] as int - 0x80);
        if cp >= 0x800 && !IsSurrogate(cp) then Some((cp, 3)) else None
      else if 0xF0 <= a <= 0xF4 && |s| >= 4
              && Continuation(s[1]) && Continuation(s[2]) && Continuation(s[3]) then
        var cp := (a - 0xF0) * 0x4_0000 + (s[1] as int - 0x80) * 0x1000
                  + (s[2] as int - 0x80) * 0x40 + (s[3] as int - 0x80);
        if 0x1_0000 <= cp <= 0x10FFFF then Some((cp, 4)) else None
      else None
  }

  /** Base-64 digits of a code point of at most 21 bits. */
  lemma SixBitDigits(cp: nat)
    ensures cp / 0x1000 == cp / 0x40 / 0x40 && cp / 0x4_0000 == cp / 0x1000 / 0x40
    ensures cp == cp / 0x40 * 0x40 + cp % 0x40
    ensures cp / 0x40 == cp / 0x1000 * 0x40 + cp / 0x40 % 0x40
    ensures cp / 0x1000 == cp / 0x4_0000 * 0x40 + cp / 0x1000 % 0x40
  {}

  lemma Utf8RoundTrip2(cp: nat, rest: string)
    requires 0x7F < cp <= 0x7FF
    ensures Utf8Decode(CodePointToUtf8(cp) + rest) == Some((cp, 2))
  {
    var s := CodePointToUtf8(cp) + rest;
    assert s[0] == Byte(0xC0 + cp / 0x40) && s[1] == Byte(0x80 + cp % 0x40);
  }

  lemma Utf8RoundTrip3(cp: nat, rest: string)
    requires 0x7FF < cp <= 0xFFFF && !IsSurrogate(cp)
    ensures Utf8Decode(CodePointToUtf8(cp) + rest) == Some((cp, 3))
  {
    var s := CodePointToUtf8(cp) + rest;
    SixBitDigits(cp);
    assert s[0] == Byte(0xE0 + cp / 0x1000);
    assert s[1] == Byte(0x80 + cp / 0x40 % 0x40) && s[2] == Byte(0x80 + cp % 0x40);
  }

  lemma Utf8RoundTrip4(cp: nat, rest: string)
    requires 0xFFFF < cp <= 0x10FFFF
    ensures Utf8Decode(CodePointToUtf8(cp) + rest) == Some((cp, 4))
  {
    var s := CodePointToUtf8(cp) + rest;
    SixBitDigits(cp);
    assert s[0] == Byte(0xF0 + cp / 0x4_0000) && s[1] == Byte(0x80 + cp / 0x1000 % 0x40);
    assert s[2] == Byte(0x80 + cp / 0x40 % 0x40) && s[3] == Byte(0x80 + cp % 0x40);
  }

  /** The encoder and the RFC 3629 decoder are inverse to each other, whatever text follows. */
  lemma Utf8RoundTrip(cp: nat, rest: string)
    requires IsScalarValue(cp)
    ensures Utf8Decode(CodePointToUtf8(cp) + rest) == Some((cp, |CodePointToUtf8(cp)|))
  {
    if cp <= 0x7F {
      assert (CodePointToUtf8(cp) + rest)[0] == Byte(cp);
    } else if cp <= 0x7FF {
      Utf8RoundTrip2(cp, rest);
    } else if cp <= 0xFFFF {
      Utf8RoundTrip3(cp, rest);
    } else {
      Utf8RoundTrip4(cp, rest);
    }
  }

  lemma Utf8Shortest2(s: string)
    requires Utf8Decode(s).Some? && Utf8Decode(s).value.1 == 2
    ensures CodePointToUtf8(Utf8Decode(s).value.0) == [s[0], s[1]]
  {}

  lemma SixBitPack(d3: nat, d2: nat, d1: nat, d0: nat)
    requires d2 < 0x40 && d1 < 0x40 && d0 < 0x40
    ensures var cp := d3 * 0x4_0000 + d2 * 0x1000 + d1 * 0x40 + d0;
      cp % 0x40 == d0 && cp / 0x40 % 0x40 == d1 && cp / 0x1000 % 0x40 == d2 && cp / 0x4_0000 == d3
      && cp / 0x1000 == d3 * 0x40 + d2
  {
    var cp := d3 * 0x4_0000 + d2 * 0x1000 + d1 * 0x40 + d0;
    assert cp / 0x40 == d3 * 0x1000 + d2 * 0x40 + d1;
    assert cp / 0x1000 == d3 * 0x40 + d2;
  }

  lemma Utf8Shortest3(s: string)
    requires Utf8Decode(s).Some? && Utf8Decode(s).value.1 == 3
    ensures CodePointToUtf8(Utf8Decode(s).value.0) == [s[0], s[1], s[2]]
  {
    SixBitPack(0, s[0] as int - 0xE0, s[1] as int - 0x80, s[2] as int - 0x80);
  }

  lemma Utf8Shortest4(s: string)
    requires Utf8Decode(s).Some? && Utf8Decode(s).value.1 == 4
    ensures CodePointToUtf8(Utf8Decode(s).value.0) == [s[0], s[1], s[2], s[3]]
  {
    SixBitPack(s[0] as int - 0xF0, s[1] as int - 0x80, s[2] as int - 0x80, s[3] as int - 0x80);
  }

  /** Only the shortest form is accepted: what decodes is what the encoder writes. */
  lemma Utf8Shortest(s: string)
    requires Utf8Decode(s).Some?
    ensures var (cp, length) := Utf8Decode(s).value; CodePointToUtf8(cp) == s[..length]
  {
    match Utf8Decode(s).value.1
    case 1 => assert s[..1] == [s[0]];
    case 2 => Utf8Shortest2(s); assert s[..2] == [s[0], s[1]];
    case 3 => Utf8Shortest3(s); assert s[..3] == [s[0], s[1], s[2]];
    case _ => Utf8Shortest4(s); assert s[..4] == [s[0], s[1], s[2], s[3]];
  }

  // ---- \uXXXX ----

  const FOUR_DIGITS_EXPECTED := "Bad unicode escape sequence in string: four digits expected."
  const HEX_DIGIT_EXPECTED := "Bad unicode escape sequence in string: hexadecimal digit expected."
  const SIX_MORE_EXPECTED := "additional six characters expected to parse unicode surrogate pair."
  const EMPTY_ESCAPE := "Empty escape sequence in string"
  const BAD_ESCAPE := "Bad escape sequence in string"
  const SECOND_HALF_EXPECTED := "expecting another \\u token to begin the second half of a unicode surrogate pair"

  datatype Code = Code(value: nat, next: nat) | BadCode(message: string, extra: nat)

  function HexValue(c: char): (r: Option<nat>)
    ensures r.Some? ==> r.value < 16
  {
    if '0' <= c <= '9' then Some(c as int - '0' as int)
    else if 'a' <= c <= 'f' then Some(c as int - 'a' as int + 10)
    else if 'A' <= c <= 'F' then Some(c as int - 'A' as int + 10)
    else None
  }

  /** Place `d` of one of the two alphabets. */
  predicate IsHexDigit(c: char, d: nat) {
    d < 16 && (c == "0123456789abcdef"[d] || c == "0123456789ABCDEF"[d])
  }

  /** A digit of either case stands for its place in the alphabet, and no other character for anything. */
  lemma HexValueIsPlace(c: char, d: nat)
    ensures HexValue(c) == Some(d) <==> d < 16 && (c == "0123456789abcdef"[d] || c == "0123456789ABCDEF"[d])
    ensures HexValue(c) == None <==> c !in "0123456789abcdef" && c !in "0123456789ABCDEF"
  {
    match HexValue(c)
    case Some(v) => assert c == "0123456789abcdef"[v] || c == "0123456789ABCDEF"[v];
    case None =>
  }

  /** The loop of decodeUnicodeEscapeSequence with `left` digits to go. */
  function HexLoop(doc: string, current: nat, left: nat, unicode: nat): (r: Code)
    requires current + left <= |doc|
    ensures r.Code? ==> r.next == current + left
    decreases left
  {
    if left == 0 then Code(unicode, current)
    else match HexValue(doc[current])
      case Some(d) => HexLoop(doc, current + 1, left - 1, unicode * 16 + d)
      case None => BadCode(HEX_DIGIT_EXPECTED, current + 1)
  }

  lemma HexRound(doc: string, current: nat, left: nat, unicode: nat)
    requires current + left <= |doc|
    ensures left == 0 ==> HexLoop(doc, current, left, unicode) == Code(unicode, current)
    ensures left > 0 && HexValue(doc[current]).Some? ==>
      HexLoop(doc, current, left, unicode)
      == HexLoop(doc, current + 1, left - 1, unicode * 16 + HexValue(doc[current]).value)
    ensures left > 0 && HexValue(doc[current]).None? ==>
      HexLoop(doc, current, left, unicode)
      == BadCode(HEX_DIGIT_EXPECTED, current + 1)
  {}

  /** decodeUnicodeEscapeSequence. */
  function DecodeEscapeSequence(doc: string, current: nat, end: nat): (r: Code)
    requires current <= end <= |doc|
    ensures r.Code? ==> r.next == current + 4 <= end && r.value <= 0xFFFF
  {
    if end - current < 4 then BadCode(FOUR_DIGITS_EXPECTED, current)
    else
      var r := HexLoop(doc, current, 4, 0);
      HexLoopBound(doc, current, 4, 0, 1);
      r
  }

  lemma {:induction false} HexLoopBound(doc: string, current: nat, left: nat, unicode: nat, bound: nat)
    requires current + left <= |doc| && unicode < bound
    ensures var r := HexLoop(doc, current, left, unicode);
      r.Code? ==> r.value < bound * Pow16(left)
    decreases left
  {
    hide HexLoop, HexValue, Pow16;
    HexRound(doc, current, left, unicode);
    Pow16Step(left, bound);
    if left > 0 && HexValue(doc[current]).Some? {
      HexLoopBound(doc, current + 1, left - 1, unicode * 16 + HexValue(doc[current]).value, bound * 16);
    }
  }

  function Pow16(k: nat): nat {
    if k == 0 then 1 else 16 * Pow16(k - 1)
  }

  lemma Pow16Step(left: nat, bound: nat)
    ensures left == 0 ==> bound * Pow16(left) == bound
    ensures left > 0 ==> bound * 16 * Pow16(left - 1) == bound * Pow16(left)
  {}

  /** decodeUnicodeCodePoint: no accepted code point exceeds 0x10FFFF. */
  function DecodeCodePoint(doc: string, current: nat, end: nat): (r: Code)
    requires current <= end <= |doc|
    ensures r.Code? ==> current < r.next <= end && r.value <= 0x10FFFF
  {
    var first := DecodeEscapeSequence(doc, current, end);
    if first.BadCode? || !(0xD800 <= first.value <= 0xDBFF) then first
    else if end - first.next < 6 then
      BadCode(SIX_MORE_EXPECTED, first.next)
    else if doc[first.next] != '\\' then BadCode(SECOND_HALF_EXPECTED, first.next + 1)
    else if doc[first.next + 1] != 'u' then BadCode(SECOND_HALF_EXPECTED, first.next + 2)
    else
      var second := DecodeEscapeSequence(doc, first.next + 2, end);
      if second.BadCode? then second
      else Code(0x1_0000 + first.value % 0x400 * 0x400 + second.value % 0x400, second.next)
  }

  // ---- decodeString ----

  /** The character a one-letter escape stands for. */
  function SimpleEscape(c: char): Option<char> {
    match c
    case '"' => Some('"')
    case '/' => Some('/')
    case '\\' => Some('\\')
    case 'b' => Some('\U{08}')
    case 'f' => Some('\U{0C}')
    case 'n' => Some('\n')
    case 'r' => Some('\r')
    case 't' => Some('\t')
    case _ => None
  }

  /** One round of the decoding loop: text appended and where to go on, the end, or an error. */
  datatype Step = Emit(text: string, next: nat) | Stop | Fail(message: string, extra: nat)

  function DecodeStep(doc: string, current: nat, end: nat): (r: Step)
    requires current < end <= |doc|
    ensures r.Emit? ==> current < r.next <= end
  {
    var c := doc[current];
    if c == '"' then Stop
    else if c != '\\' then Emit([c], current + 1)
    else if current + 1 == end then Fail(EMPTY_ESCAPE, current + 1)
    else
      var escape, next := doc[current + 1], current + 2;
      if escape == 'u' then
        match DecodeCodePoint(doc, next, end)
        case Code(unicode, after) => Emit(CodePointToUtf8(unicode), after)
        case BadCode(message, extra) => Fail(message, extra)
      else
        match SimpleEscape(escape)
        case Some(e) => Emit([e], next)
        case None => Fail(BAD_ESCAPE, next)
  }

  /** The decoding loop with `decoded` collected so far; `end` is the closing quote. */
  function DecodeChars(doc: string, current: nat, end: nat, decoded: string): Decoded<string>
    requires current <= end <= |doc|
    decreases end - current
  {
    if current == end then Good(decoded)
    else
      match DecodeStep(doc, current, end)
      case Emit(text, next) => DecodeChars(doc, next, end, decoded + text)
      case Stop => Good(decoded)
      case Fail(message, extra) => Bad(message, Some(extra))
  }

  lemma DecodeEnd(doc: string, end: nat, decoded: string)
    requires end <= |doc|
    ensures DecodeChars(doc, end, end, decoded) == Good(decoded)
  {}

  lemma UnescapedStep(doc: string, current: nat, end: nat)
    requires current < end <= |doc| && doc[current] != '\\'
    ensures DecodeStep(doc, current, end) == if doc[current] == '"' then Stop else Emit([doc[current]], current + 1)
  {}

  lemma DecodeRound(doc: string, current: nat, end: nat, decoded: string)
    requires current < end <= |doc|
    ensures var step := DecodeStep(doc, current, end);
      && (step.Emit? ==>
            DecodeChars(doc, current, end, decoded) == DecodeChars(doc, step.next, end, decoded + step.text))
      && (step.Stop? ==> DecodeChars(doc, current, end, decoded) == Good(decoded))
      && (step.Fail? ==> DecodeChars(doc, current, end, decoded) == Bad(step.message, Some(step.extra)))
  {}

  /** decodeString on a string token. */
  function DecodeString(doc: string, t: Token): Decoded<string>
    requires t.start + 2 <= t.end <= |doc|
  {
    DecodeChars(doc, t.start + 1, t.end - 1, [])
  }

  // ---- Every unicode escape decodes to its UTF-8 bytes ----

  /** `text` is four hexadecimal digits, of either case, for `n`. */
  ghost predicate SpellsHex(text: string, n: nat) {
    && |text| == 4 && n < 0x1_0000
    && IsHexDigit(text[0], n / 0x1000) && IsHexDigit(text[1], n / 0x100 % 0x10)
    && IsHexDigit(text[2], n / 0x10 % 0x10) && IsHexDigit(text[3], n % 0x10)
  }

  lemma HexSpelled(text: string, n: nat)
    requires SpellsHex(text, n)
    ensures |text| == 4
    ensures HexValue(text[0]) == Some(n / 0x1000) && HexValue(text[1]) == Some(n / 0x100 % 0x10)
    ensures HexValue(text[2]) == Some(n / 0x10 % 0x10) && HexValue(text[3]) == Some(n % 0x10)
  {
    hide HexValue;
    HexValueIsPlace(text[0], n / 0x1000);
    HexValueIsPlace(text[1], n / 0x100 % 0x10);
    HexValueIsPlace(text[2], n / 0x10 % 0x10);
    HexValueIsPlace(text[3], n % 0x10);
  }

  /** The escapes of section 7 of RFC 8259: one sequence, or a surrogate pair above 0xFFFF. */
  ghost predicate SpellsEscape(text: string, cp: nat) {
    if cp <= 0xFFFF then |text| == 6 && text[..2] == "\\u" && SpellsHex(text[2..], cp)
    else |text| == 12 && text[..2] == "\\u" && text[6..8] == "\\u"
         && SpellsHex(text[2..6], 0xD800 + (cp - 0x1_0000) / 0x400)
         && SpellsHex(text[8..], 0xDC00 + (cp - 0x1_0000) % 0x400)
  }

  lemma FourRounds(doc: string, current: nat, a: nat, b: nat, c: nat, d: nat)
    requires current + 4 <= |doc|
    requires HexValue(doc[current]) == Some(a) && HexValue(doc[current + 1]) == Some(b)
    requires HexValue(doc[current + 2]) == Some(c) && HexValue(doc[current + 3]) == Some(d)
    ensures HexLoop(doc, current, 4, 0) == Code(((a * 16 + b) * 16 + c) * 16 + d, current + 4)
  {
    hide HexValue, HexLoop, HEX_DIGIT_EXPECTED;
    HexRound(doc, current, 4, 0);
    HexRound(doc, current + 1, 3, a);
    HexRound(doc, current + 2, 2, a * 16 + b);
    HexRound(doc, current + 3, 1, (a * 16 + b) * 16 + c);
    HexRound(doc, current + 4, 0, ((a * 16 + b) * 16 + c) * 16 + d);
  }

  lemma HexPlaces(n: nat)
    ensures ((n / 0x1000 * 16 + n / 0x100 % 0x10) * 16 + n / 0x10 % 0x10) * 16 + n % 0x10 == n
  {
    assert n / 0x1000 * 16 + n / 0x100 % 0x10 == n / 0x100;
    assert n / 0x100 * 16 + n / 0x10 % 0x10 == n / 0x10;
  }

  lemma HexSequence(doc: string, current: nat, end: nat, text: string, n: nat)
    requires At(doc, current, text) && SpellsHex(text, n) && current + 4 <= end <= |doc|
    ensures DecodeEscapeSequence(doc, current, end) == Code(n, current + 4)
  {
    HexSpelled(text, n);
    HexPlaces(n);
    hide SpellsHex, HexValue, HexLoop, At, HEX_DIGIT_EXPECTED, FOUR_DIGITS_EXPECTED;
    AtChar(doc, current, text, 0);
    AtChar(doc, current, text, 1);
    AtChar(doc, current, text, 2);
    AtChar(doc, current, text, 3);
    FourRounds(doc, current, n / 0x1000, n / 0x100 % 0x10, n / 0x10 % 0x10, n % 0x10);
  }

  lemma EscapePrefix(doc: string, current: nat, text: string)
    requires At(doc, current, text) && |text| >= 2 && text[..2] == "\\u"
    ensures doc[current] == '\\' && doc[current + 1] == 'u'
    ensures At(doc, current + 2, text[2..])
  {
    assert text == text[..2] + text[2..];
    AtConcat(doc, current, text[..2], text[2..]);
    AtChar(doc, current, text[..2], 0);
    AtChar(doc, current, text[..2], 1);
  }

  lemma CodePointSpelled(doc: string, current: nat, end: nat, text: string, cp: nat)
    requires IsScalarValue(cp) && SpellsEscape(text, cp)
    requires At(doc, current, text) && current + |text| <= end <= |doc|
    ensures doc[current] == '\\' && doc[current + 1] == 'u'
    ensures DecodeCodePoint(doc, current + 2, end) == Code(cp, current + |text|)
  {
    EscapePrefix(doc, current, text);
    if cp <= 0xFFFF {
      HexSequence(doc, current + 2, end, text[2..], cp);
    } else {
      SurrogatePairSpelled(doc, current, end, text, cp);
    }
  }

  lemma SurrogatePairSpelled(doc: string, current: nat, end: nat, text: string, cp: nat)
    requires 0xFFFF < cp <= 0x10FFFF && SpellsEscape(text, cp)
    requires At(doc, current, text) && current + |text| <= end <= |doc|
    ensures DecodeCodePoint(doc, current + 2, end) == Code(cp, current + |text|)
  {
    assert text == text[..6] + text[6..] && text[..6][2..] == text[2..6] && text[..6][..2] == text[..2];
    assert text[6..][..2] == text[6..8] && text[6..][2..] == text[8..];
    AtConcat(doc, current, text[..6], text[6..]);
    EscapePrefix(doc, current, text[..6]);
    EscapePrefix(doc, current + 6, text[6..]);
    SurrogateHalves(doc, current, end, text[2..6], text[8..], cp);
  }

  lemma SurrogateArithmetic(cp: nat)
    requires 0xFFFF < cp <= 0x10FFFF
    ensures var high, low := 0xD800 + (cp - 0x1_0000) / 0x400, 0xDC00 + (cp - 0x1_0000) % 0x400;
      0xD800 <= high <= 0xDBFF && 0x1_0000 + high % 0x400 * 0x400 + low % 0x400 == cp
  {
    var q, r := (cp - 0x1_0000) / 0x400, (cp - 0x1_0000) % 0x400;
    assert (0xD800 + q) % 0x400 == q && (0xDC00 + r) % 0x400 == r;
  }

  lemma SurrogateHalves(doc: string, current: nat, end: nat, first: string, second: string, cp: nat)
    requires 0xFFFF < cp <= 0x10FFFF && current + 12 <= end <= |doc|
    requires At(doc, current + 2, first) && SpellsHex(first, 0xD800 + (cp - 0x1_0000) / 0x400)
    requires doc[current + 6] == '\\' && doc[current + 7] == 'u'
    requires At(doc, current + 8, second) && SpellsHex(second, 0xDC00 + (cp - 0x1_0000) % 0x400)
    ensures DecodeCodePoint(doc, current + 2, end) == Code(cp, current + 12)
  {
    var high, low := 0xD800 + (cp - 0x1_0000) / 0x400, 0xDC00 + (cp - 0x1_0000) % 0x400;
    HexSequence(doc, current + 2, end, first, high);
    HexSequence(doc, current + 8, end, second, low);
    SurrogateArithmetic(cp);
  }

  /** Every Unicode scalar value, escaped in any of the ways RFC 8259 allows, decodes to its UTF-8 bytes. */
  lemma UnicodeEscapeDecodes(doc: string, current: nat, end: nat, decoded: string, text: string, cp: nat)
    requires IsScalarValue(cp) && SpellsEscape(text, cp)
    requires At(doc, current, text) && current + |text| <= end <= |doc|
    ensures DecodeChars(doc, current, end, decoded)
         == DecodeChars(doc, current + |text|, end, decoded + CodePointToUtf8(cp))
  {
    CodePointSpelled(doc, current, end, text, cp);
  }

  // ---- valueToQuotedString ----

  predicate IsControlCharacter(c: char) {
    '\0' < c <= '\U{1F}'
  }

  /** The set given to `strpbrk`. */
  predicate IsSpecial(c: char) {
    c == '"' || c == '\\' || c == '\U{08}' || c == '\U{0C}' || c == '\n' || c == '\r' || c == '\t'
  }

  function HexDigit(d: nat): (c: char)
    requires d < 16
    ensures c == "0123456789ABCDEF"[d]
  {
    if d < 10 then ('0' as int + d) as char else ('A' as int + d - 10) as char
  }

  function EscapeChar(c: char): (s: string)
    ensures s != []
  {
    match c
    case '"' => "\\\""
    case '\\' => "\\\\"
    case '\U{08}' => "\\b"
    case '\U{0C}' => "\\f"
    case '\n' => "\\n"
    case '\r' => "\\r"
    case '\t' => "\\t"
    case _ =>
      if IsControlCharacter(c) then "\\u00" + [HexDigit(c as int / 16), HexDigit(c as int % 16)] else [c]
  }

  function Escape(s: string): string {
    if s == [] then [] else EscapeChar(s[0]) + Escape(s[1..])
  }

  function Quoted(s: string): string {
    "\"" + Escape(s) + "\""
  }

  lemma {:induction false} EscapePlain(s: string)
    requires forall i | 0 <= i < |s| :: !IsSpecial(s[i]) && !IsControlCharacter(s[i])
    ensures Escape(s) == s
  {
    if s != [] {
      EscapePlain(s[1..]);
    }
  }

  lemma {:induction false} EscapeAppend(s: string, c: char)
    ensures Escape(s + [c]) == Escape(s) + EscapeChar(c)
  {
    hide EscapeChar;
    if s == [] {
      assert [c][1..] == [];
    } else {
      EscapeAppend(s[1..], c);
      assert (s + [c])[1..] == s[1..] + [c];
    }
  }

  method ContainsControlCharacter(str: string) returns (found: bool)
    ensures found <==> exists i | 0 <= i < |str| :: IsControlCharacter(str[i])
  {
    for i := 0 to |str|
      invariant forall j | 0 <= j < i :: !IsControlCharacter(str[j])
    {
      if IsControlCharacter(str[i]) { return true; }
    }
    return false;
  }

  /** valueToQuotedString: both the fast path and the escaping loop give the same bytes. */
  method ValueToQuotedString(value: string) returns (result: string)
    requires NulFree(value)
    ensures result == Quoted(value)
  {
    hide EscapeChar, IsSpecial, IsControlCharacter;
    var control := ContainsControlCharacter(value);
    assert Escape(value[..0]) == [];
    if (forall i | 0 <= i < |value| :: !IsSpecial(value[i])) && !control {
      EscapePlain(value);
      return "\"" + value + "\"";
    }
    result := "\"";
    for i := 0 to |value|
      invariant result == "\"" + Escape(value[..i])
    {
      EscapeAppend(value[..i], value[i]);
      assert value[..i + 1] == value[..i] + [value[i]];
      result := result + EscapeChar(value[i]);
    }
    assert value[..|value|] == value;
    result := result + "\"";
  }

  // ---- Reading back what was quoted ----

  lemma HexSkipped(doc: string, pos: nat)
    requires pos + 6 <= |doc| && doc[pos] == '\\'
    requires forall i | pos + 2 <= i < pos + 6 :: doc[i] != '\\' && doc[i] != '"'
    ensures StringEnd(doc, pos) == StringEnd(doc, pos + 6)
  {
    assert StringEnd(doc, pos + 5) == StringEnd(doc, pos + 6);
    assert StringEnd(doc, pos + 4) == StringEnd(doc, pos + 5);
    assert StringEnd(doc, pos + 3) == StringEnd(doc, pos + 4);
    assert StringEnd(doc, pos + 2) == StringEnd(doc, pos + 3);
  }

  /** The scan for the closing quote passes over an escaped character as a whole. */
  lemma EscapedCharSkipped(doc: string, pos: nat, c: char)
    requires At(doc, pos, EscapeChar(c))
    ensures StringEnd(doc, pos) == StringEnd(doc, pos + |EscapeChar(c)|)
  {
    var text := EscapeChar(c);
    AtChar(doc, pos, text, 0);
    if !IsSpecial(c) && IsControlCharacter(c) {
      assert text[0] == '\\';
      forall i | pos + 2 <= i < pos + 6
        ensures doc[i] != '\\' && doc[i] != '"'
      {
        var d := text[i - pos];
        AtChar(doc, pos, text, i - pos);
        assert d == '0' || d == HexDigit(c as int / 16) || d == HexDigit(c as int % 16);
      }
      HexSkipped(doc, pos);
    }
  }

  lemma QuoteEnds(doc: string, pos: nat)
    requires At(doc, pos, "\"")
    ensures StringEnd(doc, pos) == Scan(true, pos + 1)
  {
    AtHead(doc, pos, "\"");
  }

  lemma {:induction false} QuotedEnds(doc: string, pos: nat, s: string)
    requires At(doc, pos, Escape(s) + "\"")
    ensures StringEnd(doc, pos) == Scan(true, pos + |Escape(s)| + 1)
    decreases s
  {
    hide StringEnd, EscapeChar, At;
    if s == [] {
      assert Escape(s) + "\"" == "\"";
      QuoteEnds(doc, pos);
    } else {
      var head := EscapeChar(s[0]);
      assert Escape(s) + "\"" == head + (Escape(s[1..]) + "\"");
      AtConcat(doc, pos, head, Escape(s[1..]) + "\"");
      EscapedCharSkipped(doc, pos, s[0]);
      QuotedEnds(doc, pos + |head|, s[1..]);
    }
  }

  lemma PlainStep(doc: string, pos: nat, end: nat, c: char)
    requires At(doc, pos, EscapeChar(c)) && pos + |EscapeChar(c)| <= end <= |doc|
    requires !IsSpecial(c) && !IsControlCharacter(c)
    ensures DecodeStep(doc, pos, end) == Emit([c], pos + |EscapeChar(c)|)
  {
    AtChar(doc, pos, [c], 0);
  }

  lemma SpecialStep(doc: string, pos: nat, end: nat, c: char)
    requires At(doc, pos, EscapeChar(c)) && pos + |EscapeChar(c)| <= end <= |doc| && IsSpecial(c)
    ensures DecodeStep(doc, pos, end) == Emit([c], pos + |EscapeChar(c)|)
  {
    var text := EscapeChar(c);
    AtChar(doc, pos, text, 0);
    AtChar(doc, pos, text, 1);
    assert text[0] == '\\' && SimpleEscape(text[1]) == Some(c) && text[1] != 'u';
  }

  lemma ControlSpelling(c: char)
    requires IsControlCharacter(c) && !IsSpecial(c)
    ensures SpellsEscape(EscapeChar(c), c as int)
  {
    var text := EscapeChar(c);
    assert text[..2] == "\\u";
    assert text[2..] == ['0', '0', HexDigit(c as int / 16), HexDigit(c as int % 16)];
  }

  lemma ControlStep(doc: string, pos: nat, end: nat, c: char)
    requires At(doc, pos, EscapeChar(c)) && pos + |EscapeChar(c)| <= end <= |doc|
    requires IsControlCharacter(c) && !IsSpecial(c)
    ensures DecodeStep(doc, pos, end) == Emit([c], pos + |EscapeChar(c)|)
  {
    ControlSpelling(c);
    CodePointSpelled(doc, pos, end, EscapeChar(c), c as int);
    assert CodePointToUtf8(c as int) == [c];
  }

  /** Every escaped character is decoded to itself in one round of the loop. */
  lemma EscapedCharStep(doc: string, pos: nat, end: nat, c: char)
    requires At(doc, pos, EscapeChar(c)) && c != '\0' && pos + |EscapeChar(c)| <= end <= |doc|
    ensures DecodeStep(doc, pos, end) == Emit([c], pos + |EscapeChar(c)|)
  {
    if IsSpecial(c) {
      SpecialStep(doc, pos, end, c);
    } else if IsControlCharacter(c) {
      ControlStep(doc, pos, end, c);
    } else {
      PlainStep(doc, pos, end, c);
    }
  }

  lemma {:induction false} EscapeDecodes(doc: string, pos: nat, end: nat, decoded: string, s: string)
    requires NulFree(s) && At(doc, pos, Escape(s)) && end == pos + |Escape(s)|
    ensures DecodeChars(doc, pos, end, decoded) == Good(decoded + s)
    decreases s
  {
    hide DecodeStep, EscapeChar;
    if s == [] {
      assert decoded + s == decoded;
    } else {
      var head := EscapeChar(s[0]);
      AtConcat(doc, pos, head, Escape(s[1..]));
      EscapedCharStep(doc, pos, end, s[0]);
      EscapeDecodes(doc, pos + |head|, end, decoded + [s[0]], s[1..]);
      assert decoded + [s[0]] + s[1..] == decoded + s;
    }
  }

  lemma ReadTokenString(doc: string, pos: nat)
    requires pos < |doc| && doc[pos] == '"'
    ensures ReadToken(doc, pos) == Classified(StringToken, pos, StringEnd(doc, pos + 1))
  {}

  lemma QuotedParts(doc: string, pos: nat, s: string)
    requires At(doc, pos, Quoted(s))
    ensures doc[pos] == '"' && At(doc, pos + 1, Escape(s)) && At(doc, pos + 1, Escape(s) + "\"")
  {
    assert Quoted(s)[1..] == Escape(s) + "\"";
    AtHead(doc, pos, Quoted(s));
    AtConcat(doc, pos + 1, Escape(s), "\"");
  }

  lemma QuotedLength(s: string)
    ensures |Quoted(s)| == |Escape(s)| + 2
  {}

  lemma QuotedToken(doc: string, pos: nat, s: string)
    requires At(doc, pos, Quoted(s))
    ensures ReadToken(doc, pos) == Token(StringToken, pos, pos + |Quoted(s)|)
  {
    QuotedParts(doc, pos, s);
    ReadTokenString(doc, pos);
    QuotedEnds(doc, pos + 1, s);
  }

  /** Tokenizing a quoted string stops exactly at its closing quote, whatever follows, and decoding the
      token gives the string back. */
  lemma QuotedRoundTrip(doc: string, pos: nat, s: string)
    requires NulFree(s) && At(doc, pos, Quoted(s))
    ensures ReadToken(doc, pos) == Token(StringToken, pos, pos + |Quoted(s)|)
    ensures DecodeString(doc, Token(StringToken, pos, pos + |Quoted(s)|)) == Good(s)
  {
    hide ReadToken, Escape, DecodeChars, StringEnd, At;
    QuotedToken(doc, pos, s);
    QuotedParts(doc, pos, s);
    QuotedLength(s);
    EscapeDecodes(doc, pos + 1, pos + 1 + |Escape(s)|, [], s);
    assert [] + s == s;
  }
}
