/** What the parser refuses, and where and how it says so: text that starts no token, broken literals, strings and
    comments, closing brackets, and a strict root. */
module Refused {
  import opened Options
  import opened JsonValue
  import opened Tokens
  import opened Numbers
  import opened Parser
  import opened Layout
  import opened ReadBack
  import opened FastWriter
  import StyledText = StyledWriter
  import opened RoundTrip
  import opened ParsedValues
  import opened Translation
  import opened NumberTokens
  import opened Leading

  // ---- Tokens that are errors ----

  /** A character at which no token starts. */
  predicate StartsNothing(c: char) {
    && c != ' ' && c != '\t' && c != '\r' && c != '\n' && c != '\0'
    && c != '{' && c != '}' && c != '[' && c != ']' && c != ',' && c != ':' && c != '"' && c != '/' && c != '-'
    && c != 't' && c != 'f' && c != 'n' && !('0' <= c <= '9')
  }

  /** The first character starts nothing, or a literal that is not completed: an error of that one character. */
  ghost predicate BadCharacter(text: string) {
    text != "" &&
    (StartsNothing(text[0]) || (text[0] == 't' && !("true" <= text)) || (text[0] == 'f' && !("false" <= text))
     || (text[0] == 'n' && !("null" <= text)))
  }

  /** A slash that starts no comment: an error that takes the character behind it too. */
  predicate LoneSlash(text: string) {
    text != "" && text[0] == '/' && (|text| > 1 ==> text[1] != '/' && text[1] != '*')
  }

  /** A string or block comment that does not end: an error that takes all that is left. */
  ghost predicate Unfinished(text: string) {
    (|text| >= 1 && text[0] == '"' && forall i | 1 <= i < |text| :: text[i] != '"')
    || (|text| >= 2 && text[0] == '/' && text[1] == '*'
        && forall i | 2 <= i < |text| - 1 :: !(text[i] == '*' && text[i + 1] == '/'))
  }

  lemma LiteralMissing(text: string, word: string, rest: string)
    requires |word| >= 1 && rest == word[1..] && text != "" && text[0] == word[0]
    ensures At(text, 1, rest) ==> word <= text
  {
    if At(text, 1, rest) {
      assert text[..|word|] == [text[0]] + text[1..1 + |rest|] == word;
    }
  }

  lemma BadCharacterToken(text: string)
    requires BadCharacter(text)
    ensures ReadToken(text, 0) == Token(Error, 0, 1)
  {
    assert SkipSpaces(text, 0) == 0;
    if text[0] == 't' {
      LiteralMissing(text, "true", "rue");
    } else if text[0] == 'f' {
      LiteralMissing(text, "false", "alse");
    } else if text[0] == 'n' {
      LiteralMissing(text, "null", "ull");
    }
    hide At, StringEnd, NumberEnd, CommentEnd;
  }

  lemma LoneSlashToken(text: string)
    requires LoneSlash(text)
    ensures ReadToken(text, 0) == Token(Error, 0, if |text| > 1 then 2 else 1)
  {
    assert SkipSpaces(text, 0) == 0;
    hide StringEnd, NumberEnd, CStyleCommentEnd, CppStyleCommentEnd;
  }

  lemma {:induction false} NoQuote(text: string, pos: nat)
    requires pos <= |text| && forall i | pos <= i < |text| :: text[i] != '"'
    ensures StringEnd(text, pos) == Scan(false, |text|)
    decreases |text| - pos
  {
    if pos < |text| {
      NoQuote(text, if text[pos] == '\\' && pos + 1 < |text| then pos + 2 else pos + 1);
    }
  }

  lemma UnfinishedToken(text: string)
    requires Unfinished(text)
    ensures ReadToken(text, 0) == Token(Error, 0, |text|)
  {
    assert SkipSpaces(text, 0) == 0;
    if text[0] == '"' {
      NoQuote(text, 1);
    } else {
      CStyleCommentExtent(text, 2);
      assert forall i | 2 <= i < |text| - 1 :: !ClosesComment(text, i);
      assert CommentEnd(text, 1) == CStyleCommentEnd(text, 2);
      assert !CStyleCommentEnd(text, 2).ok;
    }
    hide StringEnd, CStyleCommentEnd, CommentEnd;
  }

  /** How much of the text the error takes. */
  ghost function ErrorLength(text: string): nat {
    if BadCharacter(text) then 1 else if LoneSlash(text) then (if |text| > 1 then 2 else 1) else |text|
  }

  lemma ErrorToken(before: string, text: string)
    requires BadCharacter(text) || LoneSlash(text) || Unfinished(text)
    ensures ErrorLength(text) <= |text|
    ensures ReadToken(before + text, |before|) == Token(Error, |before|, |before| + ErrorLength(text))
  {
    hide ReadToken;
    TokenMoves(before, text, 0);
    if BadCharacter(text) {
      BadCharacterToken(text);
    } else if LoneSlash(text) {
      LoneSlashToken(text);
    } else {
      UnfinishedToken(text);
    }
  }

  // ---- Where a value is expected ----

  /** Such a text is refused wherever a value is expected: one error, on those characters, and the current value is
      kept. */
  lemma ErrorRefused(cfg: Config, before: string, text: string, old_: Value)
    requires BadCharacter(text) || LoneSlash(text) || Unfinished(text)
    ensures var t := Token(Error, |before|, |before| + ErrorLength(text));
      ReadValue(cfg, before + text, |before|, old_)
      == Reading(false, t.end, old_, [ErrorInfo("Syntax error: value, object or array expected.", t, None)])
  {
    hide ReadToken, BadCharacter, LoneSlash, Unfinished, ErrorLength;
    ErrorToken(before, text);
    FirstTokenIs(cfg, before + text, |before|);
    ScalarCases(cfg, before + text, Token(Error, |before|, |before| + ErrorLength(text)), old_);
    hide ReadScalar;
  }

  /** The other tokens that are no value: a closing brace or bracket, a comma, a colon, and the end of the text. */
  lemma PunctuationRefused(cfg: Config, before: string, text: string, old_: Value)
    requires text == "" || text[0] == '}' || text[0] == ']' || text[0] == ',' || text[0] == ':' || text[0] == '\0'
    ensures var r := ReadValue(cfg, before + text, |before|, old_);
      && !r.ok && r.value == old_ && r.pos == |before| + (if text == "" then 0 else 1)
      && |r.errors| == 1 && r.errors[0].message == "Syntax error: value, object or array expected."
      && r.errors[0].token.start == |before| && r.errors[0].token.end == r.pos
  {
    hide *;
    var t := ReadToken(text, 0);
    PunctuationToken(text);
    TokenMoves(before, text, 0);
    MovedParts(t, |before|);
    FirstTokenIs(cfg, before + text, |before|);
    ReadValueCases(cfg, before + text, |before|, old_);
    ScalarCases(cfg, before + text, Moved(t, |before|), old_);
    ValueExpected();
  }

  lemma ValueExpected()
    ensures VALUE_EXPECTED == "Syntax error: value, object or array expected."
  {}

  lemma PunctuationToken(text: string)
    requires text == "" || text[0] == '}' || text[0] == ']' || text[0] == ',' || text[0] == ':' || text[0] == '\0'
    ensures var t := ReadToken(text, 0);
      t.start == 0 && t.end == (if text == "" then 0 else 1)
      && (t.kind == ObjectEnd || t.kind == ArrayEnd || t.kind == ArraySeparator || t.kind == MemberSeparator
          || t.kind == EndOfStream)
  {
    assert SkipSpaces(text, 0) == 0;
    hide SkipSpaces, StringEnd, NumberEnd, CommentEnd, Match;
  }

  // ---- Whole documents ----

  /** A printed value with any text behind it is read as that value, whatever the text, unless it continues a number.
      Under `strictRoot_` the document is accepted exactly if the value is null, an array or an object, and refused
      with one error that covers all of it. */
  lemma StrictRootExactly(print_: DoublePrinter, yaml: bool, cfg: Config, v: Value, behind: string, root: Value)
    requires WellFormed(v) && InDomain(v)
    requires Stopped(behind)
    ensures Accepted(cfg, Compact(print_, yaml, "", v) + behind, v, root)
    ensures Accepted(cfg, StyledText.Styled(print_, "", "", v) + behind, v, root)
  {
    hide *;
    DomainIsPrintable(v);
    RereadIdentity(cfg.scan, v);
    var compact, styled := Compact(print_, yaml, "", v), StyledText.Styled(print_, "", "", v);
    EndsThere(compact, behind);
    EndsThere(styled, behind);
    CompactEmbedded(print_, yaml, cfg, "", v, compact + behind, root);
    StyledEmbedded(print_, cfg, "", v, styled + behind, root);
    WhenAccepted(cfg, compact + behind, v, root, |compact|);
    WhenAccepted(cfg, styled + behind, v, root, |styled|);
  }

  ghost predicate Accepted(cfg: Config, doc: string, v: Value, root: Value) {
    var r := Parse(cfg, doc, root);
    && r.value == v
    && (r.ok <==> !cfg.strictRoot || v.Null? || v.Array? || v.Object?)
    && r.errors == if r.ok then []
                   else [ErrorInfo("A valid JSON document must be either an array or an object value.",
                                   Token(Error, 0, |doc|), None)]
  }

  lemma WhenAccepted(cfg: Config, doc: string, v: Value, root: Value, end: nat)
    requires ReadValue(cfg, doc, 0, root) == Reading(true, end, v, [])
    ensures Accepted(cfg, doc, v, root)
  {
    ParseCases(cfg, doc, root);
    hide Parse, ReadValue, FirstToken;
  }

  lemma EndsThere(text: string, behind: string)
    requires Stopped(behind)
    ensures Ends(text + behind, |text|) && text <= text + behind
  {
    if behind != "" {
      assert (text + behind)[|text|] == behind[0];
      NumberCharacters(behind[0]);
    }
  }
}
