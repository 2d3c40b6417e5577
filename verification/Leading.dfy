/** What may stand in front of a value: white space always, comments when the features allow them. */
module Leading {
  import opened Options
  import opened JsonValue
  import opened Tokens
  import opened Numbers
  import opened Parser
  import opened Layout
  import opened ReadBack
  import opened Translation

  /** Text of the four characters of skipSpaces. */
  predicate AllSpaces(w: string) {
    forall i | 0 <= i < |w| :: w[i] == ' ' || w[i] == '\t' || w[i] == '\r' || w[i] == '\n'
  }

  /** Spaces, tabs, carriage returns and line feeds are skipped, and nothing else. */
  lemma SpacesSkipped(w: string, text: string)
    requires AllSpaces(w)
    ensures SkipSpaces(w + text, 0) == |w| + SkipSpaces(text, 0)
    ensures text != "" && text[0] != ' ' && text[0] != '\t' && text[0] != '\r' && text[0] != '\n' ==>
              SkipSpaces(w + text, 0) == |w|
  {
    assert forall i | 0 <= i < |w| :: IsSpace((w + text)[i]);
    SkipSpacesOver(w + text, 0, |w|);
    SpacesMove(w, text, 0);
  }

  /** The first token behind white space is that of the text, moved. */
  lemma TokenBehindSpaces(w: string, text: string)
    requires AllSpaces(w)
    ensures ReadToken(w + text, 0) == Moved(ReadToken(text, 0), |w|)
  {
    hide ReadToken, AllSpaces;
    SpacesSkipped(w, text);
    SkipSpacesFirst(w + text, 0);
    SkipSpacesFirst(w + text, |w|);
    SpacesMove(w, text, 0);
    TokenMoves(w, text, 0);
  }

  /** The same outcome, value and messages, each position `offset` further on. */
  predicate SameOutcome(r: Reading, moved: Reading, offset: nat) {
    && moved.ok == r.ok && moved.value == r.value && moved.pos == r.pos + offset
    && SameMessages(r.errors, moved.errors)
  }

  /** A document in whose front the first token of `text` is found unchanged is read like `text`. */
  lemma ParseBehind(cfg: Config, w: string, text: string, root: Value)
    requires FirstToken(cfg, w + text, 0) == FirstToken(cfg, w + text, |w|)
    ensures SameOutcome(Parse(cfg, text, root), Parse(cfg, w + text, root), |w|)
  {
    hide *;
    var r := ReadValue(cfg, text, 0, root);
    SameStart(cfg, w + text, |w|, root);
    ValueMoves(cfg, w, text, 0, root);
    ProgressMade(r, text, 0);
    MovedFields(r, |w|);
    FirstTokenMoves(cfg, w, text, r.pos);
    MovedParts(FirstToken(cfg, text, r.pos), |w|);
    ParseCases(cfg, text, root);
    ParseCases(cfg, w + text, root);
    OutcomeOf(r.errors, |w|, ErrorInfo(ROOT_EXPECTED, Token(Error, 0, |text|), None),
              ErrorInfo(ROOT_EXPECTED, Token(Error, 0, |w + text|), None));
    SameOutcomeIs(Parse(cfg, text, root), Parse(cfg, w + text, root), |w|);
  }

  lemma SameStart(cfg: Config, doc: string, pos: nat, root: Value)
    requires pos <= |doc| && FirstToken(cfg, doc, 0) == FirstToken(cfg, doc, pos)
    ensures ReadValue(cfg, doc, 0, root) == ReadValue(cfg, doc, pos, root)
  {
    hide FirstToken, ReadMembers, ReadArray, ReadScalar;
  }

  /** What parse adds to the reading of the root. */
  lemma ParseCases(cfg: Config, doc: string, root: Value)
    ensures var r, p := ReadValue(cfg, doc, 0, root), Parse(cfg, doc, root);
      && r.pos <= |doc| && p.value == r.value && p.pos == FirstToken(cfg, doc, r.pos).end
      && (if cfg.strictRoot && !(r.value.Array? || r.value.Object? || r.value.Null?) then
            !p.ok && p.errors == r.errors + [ErrorInfo(ROOT_EXPECTED, Token(Error, 0, |doc|), None)]
          else p.ok == r.ok && p.errors == r.errors)
  {
    hide ReadValue, FirstToken, ROOT_EXPECTED;
  }

  predicate SameMessages(a: seq<ErrorInfo>, b: seq<ErrorInfo>) {
    |a| == |b| && forall i | 0 <= i < |a| :: b[i].message == a[i].message
  }

  lemma OutcomeOf(errors: seq<ErrorInfo>, n: nat, x: ErrorInfo, y: ErrorInfo)
    requires x.message == y.message
    ensures SameMessages(errors, MovedErrors(errors, n))
    ensures SameMessages(errors + [x], MovedErrors(errors, n) + [y])
  {}

  lemma SameOutcomeIs(r: Reading, moved: Reading, offset: nat)
    requires moved.ok == r.ok && moved.value == r.value && moved.pos == r.pos + offset
    requires SameMessages(r.errors, moved.errors)
    ensures SameOutcome(r, moved, offset)
  {}

  /** White space in front of a document changes nothing but positions. */
  lemma ParseBehindSpaces(cfg: Config, w: string, text: string, root: Value)
    requires AllSpaces(w)
    ensures SameOutcome(Parse(cfg, text, root), Parse(cfg, w + text, root), |w|)
  {
    hide *;
    SpacesBefore(cfg, w, text);
    ParseBehind(cfg, w, text, root);
  }

  lemma SpacesBefore(cfg: Config, w: string, text: string)
    requires AllSpaces(w)
    ensures FirstToken(cfg, w + text, 0) == FirstToken(cfg, w + text, |w|)
  {
    TokenBehindSpaces(w, text);
    TokenMoves(w, text, 0);
    hide ReadToken, AllSpaces;
    SkipCommentsRound(w + text, 0);
    SkipCommentsRound(w + text, |w|);
    hide SkipComments;
  }

  /** `"\r\n1"` is the number 1. */
  lemma LineBreakBefore(cfg: Config, root: Value)
    requires !cfg.strictRoot
    ensures var r := Parse(cfg, "\r\n1", root); r.ok && r.value == Int(1) && r.pos == 3
  {
    hide DecodeNumber;
    assert "\r\n" + "1" == "\r\n1";
    ParseBehindSpaces(cfg, "\r\n", "1", root);
    OneParses(cfg, root);
  }

  lemma OneParses(cfg: Config, root: Value)
    requires !cfg.strictRoot
    ensures var r := Parse(cfg, "1", root); r.ok && r.value == Int(1) && r.pos == 1
  {
    IntReadBack(cfg.scan, 1);
    hide DecodeNumber, DecodeDouble;
    OneIsToken();
    FirstTokenIs(cfg, "1", 0);
    FirstTokenIs(cfg, "1", 1);
    hide ReadToken;
    NumberReadsBack(cfg, "1", 0, "1", root);
    hide ReadValue;
  }

  lemma OneIsToken()
    ensures IntText(1) == "1"
    ensures ReadToken("1", 0) == Token(Number, 0, 1) && ReadToken("1", 1) == Token(EndOfStream, 1, 1)
  {
    assert NumberEnd("1", 1) == 1;
  }

  // ---- Comments ----

  /** `//` up to and with the first line break, or a block up to and with the first closing mark. */
  predicate IsComment(c: string) {
    || (|c| >= 3 && c[..2] == "//" && (c[|c| - 1] == '\n' || c[|c| - 1] == '\r')
        && forall i | 2 <= i < |c| - 1 :: c[i] != '\n' && c[i] != '\r')
    || (|c| >= 4 && c[..2] == "/*" && c[|c| - 2..] == "*/"
        && forall i | 2 <= i < |c| - 2 :: !(c[i] == '*' && c[i + 1] == '/'))
  }

  lemma {:induction false} LineCommentEnd(doc: string, pos: nat, end: nat)
    requires pos < end <= |doc| && (doc[end - 1] == '\n' || doc[end - 1] == '\r')
    requires forall i | pos <= i < end - 1 :: doc[i] != '\n' && doc[i] != '\r'
    ensures CppStyleCommentEnd(doc, pos) == end
    decreases end - pos
  {
    if pos < end - 1 {
      LineCommentEnd(doc, pos + 1, end);
    }
  }

  lemma {:induction false} BlockCommentEnd(doc: string, pos: nat, end: nat)
    requires pos + 2 <= end <= |doc| && doc[end - 2] == '*' && doc[end - 1] == '/'
    requires forall i | pos <= i < end - 2 :: !(doc[i] == '*' && doc[i + 1] == '/')
    ensures CStyleCommentEnd(doc, pos) == Scan(true, end)
    decreases end - pos
  {
    if pos < end - 2 {
      BlockCommentEnd(doc, pos + 1, end);
    }
  }

  /** A comment is one token, of exactly its characters. */
  lemma CommentIsToken(c: string, text: string)
    requires IsComment(c)
    ensures ReadToken(c + text, 0) == Token(Comment, 0, |c|)
  {
    var doc := c + text;
    assert c[..2][0] == c[0] == doc[0] && c[..2][1] == c[1] == doc[1];
    assert forall i | 0 <= i < |c| :: doc[i] == c[i];
    if c[..2] == "//" {
      LineCommentEnd(doc, 2, |c|);
    } else {
      assert c[|c| - 2..][0] == c[|c| - 2] && c[|c| - 2..][1] == c[|c| - 1];
      BlockCommentEnd(doc, 2, |c|);
    }
    hide CStyleCommentEnd, CppStyleCommentEnd;
  }

  /** With comments allowed, a comment in front of a document changes nothing but positions. */
  lemma ParseBehindComment(cfg: Config, c: string, text: string, root: Value)
    requires IsComment(c) && cfg.allowComments
    ensures SameOutcome(Parse(cfg, text, root), Parse(cfg, c + text, root), |c|)
  {
    CommentIsToken(c, text);
    hide ReadToken, IsComment;
    SkipCommentsRound(c + text, 0);
    hide SkipComments;
    assert FirstToken(cfg, c + text, 0) == FirstToken(cfg, c + text, |c|);
    hide *;
    ParseBehind(cfg, c, text, root);
  }

  /** Without, it is a syntax error. */
  lemma CommentRefused(cfg: Config, c: string, text: string, root: Value)
    requires IsComment(c) && !cfg.allowComments
    ensures var r := Parse(cfg, c + text, root);
      && !r.ok && r.value == root && r.errors != []
      && r.errors[0] == ErrorInfo("Syntax error: value, object or array expected.", Token(Comment, 0, |c|), None)
  {
    CommentIsToken(c, text);
    hide ReadToken, IsComment, DecodeNumber, ROOT_EXPECTED;
    assert FirstToken(cfg, c + text, 0) == Token(Comment, 0, |c|);
    ScalarCases(cfg, c + text, Token(Comment, 0, |c|), root);
  }
}
