/** Escape sequences, character by character: what the writers write for a character, and what the reader makes of
    every sequence behind a backslash, well formed or not. */
module Escapes {
  import opened Options
  import opened JsonValue
  import opened Tokens
  import opened Numbers
  import opened Strings

  // ---- Writing ----

  /** Five control characters, the quote and the backslash are written with one letter, the other control characters
      with their two upper-case digits, everything else as it is. */
  lemma EscapeTable(c: char)
    ensures forall i | 0 <= i < 7 :: c == "\"\\\U{08}\U{0C}\n\r\t"[i] ==> EscapeChar(c) == ['\\', "\"\\bfnrt"[i]]
    ensures 1 <= c as int < 0x20 && c !in "\U{08}\U{0C}\n\r\t" ==>
      EscapeChar(c) == "\\u00" + ["0123456789ABCDEF"[c as int / 16], "0123456789ABCDEF"[c as int % 16]]
    ensures (c == '\0' || c as int >= 0x20) && c != '"' && c != '\\' ==> EscapeChar(c) == [c]
  {
    hide HexValue, HexDigit;
  }

  // ---- Reading: one letter ----

  lemma SimpleEscapeTable(c: char)
    ensures forall i | 0 <= i < 8 :: c == "\"\\/bfnrt"[i] ==> SimpleEscape(c) == Some("\"\\/\U{08}\U{0C}\n\r\t"[i])
    ensures c !in "\"\\/bfnrt" <==> SimpleEscape(c) == None
  {}

  /** The eight one-letter escapes. */
  lemma LetterDecodes(doc: string, current: nat, end: nat, decoded: string, i: nat)
    requires current + 2 <= end <= |doc| && i < 8 && doc[current] == '\\' && doc[current + 1] == "\"\\/bfnrt"[i]
    ensures DecodeChars(doc, current, end, decoded)
         == DecodeChars(doc, current + 2, end, decoded + ["\"\\/\U{08}\U{0C}\n\r\t"[i]])
  {
    SimpleEscapeTable(doc[current + 1]);
    hide SimpleEscape, DecodeCodePoint, CodePointToUtf8, DecodeChars, EMPTY_ESCAPE, BAD_ESCAPE;
    DecodeRound(doc, current, end, decoded);
  }

  /** Any other letter but `u`, or none, is an error behind which the text is not decoded. */
  lemma OtherLetterRefused(doc: string, current: nat, end: nat, decoded: string)
    requires current < end <= |doc| && doc[current] == '\\'
    ensures current + 1 == end ==>
      DecodeChars(doc, current, end, decoded) == Bad("Empty escape sequence in string", Some(current + 1))
    ensures current + 1 < end && doc[current + 1] !in "\"\\/bfnrtu" ==>
      DecodeChars(doc, current, end, decoded) == Bad("Bad escape sequence in string", Some(current + 2))
  {
    if current + 1 < end {
      SimpleEscapeTable(doc[current + 1]);
    }
    hide SimpleEscape, DecodeCodePoint, CodePointToUtf8, DecodeChars;
    DecodeRound(doc, current, end, decoded);
  }

  // ---- Reading: four digits ----

  predicate IsHigh(n: nat) {
    0xD800 <= n < 0xDC00
  }

  lemma UnicodeRound(doc: string, current: nat, end: nat, decoded: string)
    requires current + 2 <= end <= |doc| && doc[current] == '\\' && doc[current + 1] == 'u'
    ensures var r := DecodeCodePoint(doc, current + 2, end);
      DecodeChars(doc, current, end, decoded)
      == if r.Code? then DecodeChars(doc, r.next, end, decoded + CodePointToUtf8(r.value))
         else Bad(r.message, Some(r.extra))
  {
    hide SimpleEscape, DecodeCodePoint, CodePointToUtf8, DecodeChars, EMPTY_ESCAPE, BAD_ESCAPE;
    DecodeRound(doc, current, end, decoded);
  }

  /** Four digits that are no high surrogate stand for themselves. */
  lemma FourDigitsDecode(doc: string, current: nat, end: nat, decoded: string, digits: string, n: nat)
    requires current + 6 <= end <= |doc| && doc[current] == '\\' && doc[current + 1] == 'u'
    requires At(doc, current + 2, digits) && SpellsHex(digits, n) && !IsHigh(n)
    ensures DecodeChars(doc, current, end, decoded)
         == DecodeChars(doc, current + 6, end, decoded + CodePointToUtf8(n))
  {
    HexSequence(doc, current + 2, end, digits, n);
    UnicodeRound(doc, current, end, decoded);
    hide DecodeEscapeSequence, DecodeChars, CodePointToUtf8, SpellsHex, At;
  }

  lemma PairCodePoint(doc: string, current: nat, end: nat, n: nat, m: nat)
    requires current + 10 <= end <= |doc| && doc[current + 4] == '\\' && doc[current + 5] == 'u' && IsHigh(n)
    requires DecodeEscapeSequence(doc, current, end) == Code(n, current + 4)
    requires DecodeEscapeSequence(doc, current + 6, end) == Code(m, current + 10)
    ensures DecodeCodePoint(doc, current, end) == Code(0x1_0000 + (n - 0xD800) * 0x400 + m % 0x400, current + 10)
  {
    hide DecodeEscapeSequence, SIX_MORE_EXPECTED, SECOND_HALF_EXPECTED;
    assert n % 0x400 == n - 0xD800;
  }

  /** A high surrogate takes the ten low bits of the sequence behind it, whether or not that is a low surrogate. */
  lemma PairDecodes(doc: string, current: nat, end: nat, decoded: string, first: string, n: nat, second: string, m: nat)
    requires current + 12 <= end <= |doc| && doc[current] == '\\' && doc[current + 1] == 'u'
    requires At(doc, current + 2, first) && SpellsHex(first, n) && IsHigh(n)
    requires doc[current + 6] == '\\' && doc[current + 7] == 'u'
    requires At(doc, current + 8, second) && SpellsHex(second, m)
    ensures DecodeChars(doc, current, end, decoded)
         == DecodeChars(doc, current + 12, end,
                        decoded + CodePointToUtf8(0x1_0000 + (n - 0xD800) * 0x400 + m % 0x400))
  {
    hide DecodeEscapeSequence, DecodeCodePoint, DecodeChars, CodePointToUtf8, SpellsHex, At, IsHigh;
    HexSequence(doc, current + 2, end, first, n);
    HexSequence(doc, current + 8, end, second, m);
    PairCodePoint(doc, current + 2, end, n, m);
    UnicodeRound(doc, current, end, decoded);
  }

  /** A high surrogate with anything else behind it is an error. */
  lemma LoneHighRefused(doc: string, current: nat, end: nat, decoded: string, digits: string, n: nat)
    requires current + 6 <= end <= |doc| && doc[current] == '\\' && doc[current + 1] == 'u'
    requires At(doc, current + 2, digits) && SpellsHex(digits, n) && IsHigh(n)
    ensures end - current < 12 ==>
      DecodeChars(doc, current, end, decoded)
      == Bad("additional six characters expected to parse unicode surrogate pair.", Some(current + 6))
    ensures end - current >= 12 && (doc[current + 6] != '\\' || doc[current + 7] != 'u') ==>
      DecodeChars(doc, current, end, decoded)
      == Bad("expecting another \\u token to begin the second half of a unicode surrogate pair",
             Some(if doc[current + 6] != '\\' then current + 7 else current + 8))
  {
    hide DecodeEscapeSequence, DecodeCodePoint, DecodeChars, CodePointToUtf8, SpellsHex, At, IsHigh;
    HexSequence(doc, current + 2, end, digits, n);
    LoneHighCode(doc, current + 2, end, n);
    UnicodeRound(doc, current, end, decoded);
  }

  lemma LoneHighCode(doc: string, current: nat, end: nat, n: nat)
    requires current + 4 <= end <= |doc| && IsHigh(n)
    requires DecodeEscapeSequence(doc, current, end) == Code(n, current + 4)
    ensures end - current < 10 ==>
      DecodeCodePoint(doc, current, end)
      == BadCode("additional six characters expected to parse unicode surrogate pair.", current + 4)
    ensures end - current >= 10 && (doc[current + 4] != '\\' || doc[current + 5] != 'u') ==>
      DecodeCodePoint(doc, current, end)
      == BadCode("expecting another \\u token to begin the second half of a unicode surrogate pair",
                 if doc[current + 4] != '\\' then current + 5 else current + 6)
  {
    hide DecodeEscapeSequence;
  }

  /** Fewer than four characters, or one that is no digit, are an error. */
  lemma BadDigitsRefused(doc: string, current: nat, end: nat, decoded: string, k: nat)
    requires current + 2 <= end <= |doc| && doc[current] == '\\' && doc[current + 1] == 'u'
    ensures end - current < 6 ==>
      DecodeChars(doc, current, end, decoded)
      == Bad("Bad unicode escape sequence in string: four digits expected.", Some(current + 2))
    ensures end - current >= 6 && FirstBad(doc, current + 2, k) && k < 4 ==>
      DecodeChars(doc, current, end, decoded)
      == Bad("Bad unicode escape sequence in string: hexadecimal digit expected.", Some(current + 3 + k))
  {
    hide DecodeChars, CodePointToUtf8, DecodeEscapeSequence, FirstBad, SIX_MORE_EXPECTED, SECOND_HALF_EXPECTED;
    UnicodeRound(doc, current, end, decoded);
    BadSequence(doc, current + 2, end, k);
  }

  lemma BadSequence(doc: string, current: nat, end: nat, k: nat)
    requires current <= end <= |doc|
    ensures end - current < 4 ==>
      DecodeEscapeSequence(doc, current, end)
      == BadCode("Bad unicode escape sequence in string: four digits expected.", current)
    ensures end - current >= 4 && FirstBad(doc, current, k) && k < 4 ==>
      DecodeEscapeSequence(doc, current, end)
      == BadCode("Bad unicode escape sequence in string: hexadecimal digit expected.", current + k + 1)
  {
    hide HexLoop, FirstBad;
    if end - current >= 4 && FirstBad(doc, current, k) && k < 4 {
      FirstBadStops(doc, current, 4, 0, k);
    }
  }

  /** Digits up to the character at distance `k`, which is none. */
  ghost predicate FirstBad(doc: string, current: nat, k: nat) {
    current + k < |doc| && doc[current + k] !in "0123456789abcdefABCDEF"
    && forall i | current <= i < current + k :: doc[i] in "0123456789abcdefABCDEF"
  }

  lemma {:induction false} FirstBadStops(doc: string, current: nat, left: nat, unicode: nat, k: nat)
    requires current + left <= |doc| && k < left && FirstBad(doc, current, k)
    ensures HexLoop(doc, current, left, unicode)
         == BadCode("Bad unicode escape sequence in string: hexadecimal digit expected.", current + k + 1)
    decreases k
  {
    hide *;
    HexRound(doc, current, left, unicode);
    FirstBadHere(doc, current, k);
    DigitExpected();
    if k > 0 {
      FirstBadStops(doc, current + 1, left - 1, unicode * 16 + HexValue(doc[current]).value, k - 1);
    }
  }

  lemma DigitOrNot(c: char)
    ensures HexValue(c).Some? <==> c in "0123456789abcdefABCDEF"
  {
    HexValueIsPlace(c, 0);
    hide HexValue;
    assert "0123456789abcdefABCDEF" == "0123456789abcdef" + "ABCDEF";
    assert "0123456789ABCDEF" == "0123456789" + "ABCDEF" && "0123456789abcdef" == "0123456789" + "abcdef";
  }

  lemma FirstBadHere(doc: string, current: nat, k: nat)
    requires FirstBad(doc, current, k)
    ensures current < |doc| && (HexValue(doc[current]).Some? <==> k > 0)
    ensures k > 0 ==> FirstBad(doc, current + 1, k - 1)
  {
    DigitOrNot(doc[current]);
    hide HexValue;
  }

  lemma DigitExpected()
    ensures HEX_DIGIT_EXPECTED == "Bad unicode escape sequence in string: hexadecimal digit expected."
  {}
}
