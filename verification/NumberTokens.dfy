/** Number tokens anywhere in a document: how far they reach, and what a token that is no plain integer is read as. */
module NumberTokens {
  import opened Options
  import opened JsonValue
  import opened Tokens
  import opened Numbers
  import opened Parser
  import opened Layout
  import opened ReadBack
  import opened Translation

  /** The characters that continue a number. */
  predicate Continues(c: char) {
    c in "0123456789.eE+-"
  }

  lemma NumberCharacters(c: char)
    ensures IsNumberChar(c) <==> Continues(c)
  {
    var all := "0123456789.eE+-";
    assert all[10] == '.' && all[11] == 'e' && all[12] == 'E' && all[13] == '+' && all[14] == '-';
    if '0' <= c <= '9' {
      assert all[c as int - '0' as int] == c;
    }
  }

  /** A digit or a minus, then characters that continue a number. */
  ghost predicate NumberText(text: string) {
    text != "" && ('0' <= text[0] <= '9' || text[0] == '-') && forall i | 0 < i < |text| :: Continues(text[i])
  }

  /** Behind a text the number does not go on. */
  predicate Stopped(rest: string) {
    rest == "" || !Continues(rest[0])
  }

  /** A number token reaches as far as it can. */
  lemma NumberTokenExtent(before: string, text: string, rest: string)
    requires NumberText(text) && Stopped(rest)
    ensures ReadToken(before + (text + rest), |before|) == Token(Number, |before|, |before| + |text|)
  {
    var doc := text + rest;
    forall i | 1 <= i < |text|
      ensures IsNumberChar(doc[i])
    {
      NumberCharacters(text[i]);
    }
    if rest != "" {
      NumberCharacters(rest[0]);
      assert doc[|text|] == rest[0];
    }
    NumberRunEnds(doc, 1, |text|);
    assert doc[0] == text[0] && SkipSpaces(doc, 0) == 0;
    assert ReadToken(doc, 0) == Token(Number, 0, |text|);
    TokenMoves(before, doc, 0);
  }

  /** A point, an exponent, a plus, or a minus that is not the first character. */
  ghost predicate Fractional(text: string) {
    exists i | 0 <= i < |text| ::
      text[i] == '.' || text[i] == 'e' || text[i] == 'E' || text[i] == '+' || (text[i] == '-' && i > 0)
  }

  lemma FractionalIs(scan: DoubleScanner, text: string)
    requires text != ""
    ensures Fractional(text) ==>
      DecodeNumber(scan, text)
      == match scan(text) case Some(r) => Good(Real(r)) case None => Bad("'" + text + "' is not a number.", None)
  {
    hide Accumulate;
    if Fractional(text) {
      var i :| 0 <= i < |text| && (text[i] == '.' || text[i] == 'e' || text[i] == 'E' || text[i] == '+'
                                   || (text[i] == '-' && i > 0));
      assert IsDoubleMark(text[i]) || (text[i] == '-' && i != 0);
    }
  }

  lemma NumberIsRead(cfg: Config, before: string, text: string, rest: string, old_: Value)
    requires NumberText(text) && Stopped(rest)
    ensures var t := Token(Number, |before|, |before| + |text|);
      ReadValue(cfg, before + (text + rest), |before|, old_) == Leaf(t, DecodeNumber(cfg.scan, text), old_)
  {
    hide ReadToken, DecodeNumber, NumberText, ReadScalar, Leaf, Stopped;
    NumberTokenExtent(before, text, rest);
    FirstTokenIs(cfg, before + (text + rest), |before|);
    NumberSpelled(before, text, rest);
    ScalarCases(cfg, before + (text + rest), Token(Number, |before|, |before| + |text|), old_);
  }

  lemma NumberSpelled(before: string, text: string, rest: string)
    requires NumberText(text)
    ensures text != "" && Text(before + (text + rest), Token(Number, |before|, |before| + |text|)) == text
  {}

  /** A token with such a mark is what `sscanf` makes of exactly its characters, or the one error. */
  lemma FractionalReads(cfg: Config, before: string, text: string, rest: string, old_: Value)
    requires NumberText(text) && Stopped(rest) && Fractional(text)
    ensures ReadValue(cfg, before + (text + rest), |before|, old_)
         == Scanned(cfg, text, Token(Number, |before|, |before| + |text|), old_)
  {
    hide ReadValue, DecodeNumber, NumberText, Fractional;
    NotEmpty(text);
    NumberIsRead(cfg, before, text, rest, old_);
    FractionalIs(cfg.scan, text);
  }

  /** What the double scanner decides: a real, or an error that quotes the text. */
  function Scanned(cfg: Config, text: string, t: Token, old_: Value): Reading {
    match cfg.scan(text)
    case Some(r) => Reading(true, t.end, Real(r), [])
    case None => Reading(false, t.end, old_, [ErrorInfo("'" + text + "' is not a number.", t, None)])
  }

  /** Without one, a token is an integer, exact or handed to `sscanf`. */
  lemma IntegerReads(cfg: Config, before: string, text: string, rest: string, old_: Value)
    requires NumberText(text) && Stopped(rest) && !Fractional(text)
    ensures AllDigits(Magnitude(text))
    ensures var end, n, negative := |before| + |text|, DecimalValue(Magnitude(text)), text[0] == '-';
      ReadValue(cfg, before + (text + rest), |before|, old_)
      == if PrefixReaches(Magnitude(text), if negative then 214748364 else 429496729) then
           Scanned(cfg, text, Token(Number, |before|, end), old_)
         else Reading(true, end, if negative then Int(0 - n) else if n <= 2147483647 then Int(n) else UInt(n), [])
  {
    PlainDigits(text);
    hide ReadValue, DecodeNumber, NumberText, Fractional, PrefixReaches, DecimalValue, Magnitude;
    NotEmpty(text);
    NumberIsRead(cfg, before, text, rest, old_);
    DecodeInteger(cfg.scan, text);
  }

  lemma NotEmpty(text: string)
    requires NumberText(text)
    ensures text != ""
  {}

  lemma PlainDigits(text: string)
    requires NumberText(text) && !Fractional(text)
    ensures AllDigits(Magnitude(text))
  {
    forall i | 0 <= i < |text| && !(i == 0 && text[0] == '-')
      ensures '0' <= text[i] <= '9'
    {
      NumberCharacters(text[i]);
    }
  }

  /** The notation is decimal. */
  lemma DecimalNotation()
    ensures IntText(-1970) == "-1970" && DecimalValue("1970") == 1970
  {
    assert Digits(1) == "1" && Digits(19) == "19" && Digits(197) == "197" && Digits(1970) == "1970";
    DigitsValue(1970);
  }
}
