/** The tokenizer of json_reader.cpp as functions of the document and a position.

    A `Location` is an offset from `begin_`; reading at `end_` yields the 0 sentinel. `readToken` always
    returns true in the source, so the branches that test its result are not represented. */
module Tokens {
  datatype TokenType =
    | EndOfStream | ObjectBegin | ObjectEnd | ArrayBegin | ArrayEnd | StringToken | Number
    | True | False | NullToken | ArraySeparator | MemberSeparator | Comment | Error

  datatype Token = Token(kind: TokenType, start: nat, end: nat)

  /** How far a scanning loop got, and whether it found its terminator. */
  datatype Scan = Scan(ok: bool, end: nat)

  // ---- Text inside a document ----

  /** `*location`. */
  function Peek(doc: string, pos: nat): char {
    if pos < |doc| then doc[pos] else '\0'
  }

  predicate At(doc: string, pos: nat, text: string) {
    pos + |text| <= |doc| && doc[pos..pos + |text|] == text
  }

  lemma AtConcat(doc: string, pos: nat, a: string, b: string)
    ensures At(doc, pos, a + b) <==> At(doc, pos, a) && At(doc, pos + |a|, b)
  {
    if pos + |a + b| <= |doc| {
      var whole := doc[pos..pos + |a + b|];
      assert whole[..|a|] == doc[pos..pos + |a|];
      assert whole[|a|..] == doc[pos + |a|..pos + |a| + |b|];
      assert (a + b)[..|a|] == a && (a + b)[|a|..] == b;
      assert whole == whole[..|a|] + whole[|a|..];
    }
  }

  lemma AtChar(doc: string, pos: nat, text: string, i: nat)
    requires At(doc, pos, text) && i < |text|
    ensures doc[pos + i] == text[i]
  {
    assert doc[pos..pos + |text|][i] == text[i];
  }

  lemma AtHead(doc: string, pos: nat, text: string)
    requires At(doc, pos, text) && text != []
    ensures doc[pos] == text[0] && At(doc, pos + 1, text[1..])
  {
    assert text == [text[0]] + text[1..];
    AtConcat(doc, pos, [text[0]], text[1..]);
    AtChar(doc, pos, text, 0);
  }

  // ---- Scanning loops ----

  predicate IsSpace(c: char) {
    c == ' ' || c == '\t' || c == '\r' || c == '\n'
  }

  function SkipSpaces(doc: string, pos: nat): (q: nat)
    requires pos <= |doc|
    ensures pos <= q <= |doc|
    ensures forall i | pos <= i < q :: IsSpace(doc[i])
    ensures q == |doc| || !IsSpace(doc[q])
    decreases |doc| - pos
  {
    if pos < |doc| && IsSpace(doc[pos]) then SkipSpaces(doc, pos + 1) else pos
  }

  predicate IsNumberChar(c: char) {
    '0' <= c <= '9' || c == '.' || c == 'e' || c == 'E' || c == '+' || c == '-'
  }

  function NumberEnd(doc: string, pos: nat): (q: nat)
    requires pos <= |doc|
    ensures pos <= q <= |doc|
    ensures forall i | pos <= i < q :: IsNumberChar(doc[i])
    ensures q == |doc| || !IsNumberChar(doc[q])
    decreases |doc| - pos
  {
    if pos < |doc| && IsNumberChar(doc[pos]) then NumberEnd(doc, pos + 1) else pos
  }

  /** readString, entered behind the opening quote: a backslash hides the character after it. */
  function StringEnd(doc: string, pos: nat): (r: Scan)
    requires pos <= |doc|
    ensures pos <= r.end <= |doc|
    ensures r.ok ==> pos < r.end && doc[r.end - 1] == '"'
    decreases |doc| - pos
  {
    if pos == |doc| then Scan(false, pos)
    else if doc[pos] == '\\' then StringEnd(doc, if pos + 1 < |doc| then pos + 2 else pos + 1)
    else if doc[pos] == '"' then Scan(true, pos + 1)
    else StringEnd(doc, pos + 1)
  }

  /** readCStyleComment, entered behind the opening star. */
  function CStyleCommentEnd(doc: string, pos: nat): (r: Scan)
    requires pos <= |doc|
    ensures pos <= r.end <= |doc|
    decreases |doc| - pos
  {
    if pos == |doc| then Scan(false, pos)
    else if doc[pos] == '*' && Peek(doc, pos + 1) == '/' then Scan(true, pos + 2)
    else CStyleCommentEnd(doc, pos + 1)
  }

  /** readCppStyleComment: up to and including the line break. */
  function CppStyleCommentEnd(doc: string, pos: nat): (q: nat)
    requires pos <= |doc|
    ensures pos <= q <= |doc|
    decreases |doc| - pos
  {
    if pos == |doc| then pos
    else if doc[pos] == '\r' || doc[pos] == '\n' then pos + 1
    else CppStyleCommentEnd(doc, pos + 1)
  }

  /** readComment, entered behind the slash. */
  function CommentEnd(doc: string, pos: nat): (r: Scan)
    requires pos <= |doc|
    ensures pos <= r.end <= |doc|
  {
    if pos == |doc| then Scan(false, pos)
    else if doc[pos] == '*' then CStyleCommentEnd(doc, pos + 1)
    else if doc[pos] == '/' then Scan(true, CppStyleCommentEnd(doc, pos + 1))
    else Scan(false, pos + 1)
  }

  /** match: the rest of a literal is consumed only when all of it is there. */
  function Match(doc: string, pos: nat, pattern: string): (r: Scan)
    requires pos <= |doc|
    ensures pos <= r.end <= |doc|
  {
    if At(doc, pos, pattern) then Scan(true, pos + |pattern|) else Scan(false, pos)
  }

  function Classified(kind: TokenType, start: nat, scan: Scan): Token {
    Token(if scan.ok then kind else Error, start, scan.end)
  }

  /** readToken. Every token but the end of the stream advances. */
  function ReadToken(doc: string, pos: nat): (t: Token)
    requires pos <= |doc|
    ensures t.start == SkipSpaces(doc, pos) && t.start <= t.end <= |doc|
    ensures t.kind != EndOfStream ==> t.start < t.end
    ensures t.kind == EndOfStream <==> Peek(doc, t.start) == '\0'
    ensures t.kind == StringToken ==> t.start + 2 <= t.end && doc[t.start] == '"' && doc[t.end - 1] == '"'
    ensures t.kind == Number ==>
      ('0' <= doc[t.start] <= '9' || doc[t.start] == '-') && forall i | t.start <= i < t.end :: IsNumberChar(doc[i])
  {
    var start := SkipSpaces(doc, pos);
    if start == |doc| then Token(EndOfStream, start, start)
    else
      var c, next := doc[start], start + 1;
      if c == '{' then Token(ObjectBegin, start, next)
      else if c == '}' then Token(ObjectEnd, start, next)
      else if c == '[' then Token(ArrayBegin, start, next)
      else if c == ']' then Token(ArrayEnd, start, next)
      else if c == '"' then Classified(StringToken, start, StringEnd(doc, next))
      else if c == '/' then Classified(Comment, start, CommentEnd(doc, next))
      else if '0' <= c <= '9' || c == '-' then Token(Number, start, NumberEnd(doc, next))
      else if c == 't' then Classified(True, start, Match(doc, next, "rue"))
      else if c == 'f' then Classified(False, start, Match(doc, next, "alse"))
      else if c == 'n' then Classified(NullToken, start, Match(doc, next, "ull"))
      else if c == ',' then Token(ArraySeparator, start, next)
      else if c == ':' then Token(MemberSeparator, start, next)
      else if c == '\0' then Token(EndOfStream, start, next)
      else Token(Error, start, next)
  }

  /** The loops that read tokens until one is not a comment. */
  function SkipComments(doc: string, pos: nat): (t: Token)
    requires pos <= |doc|
    ensures pos <= t.start <= t.end <= |doc|
    ensures t.kind != Comment
    ensures t.kind != EndOfStream ==> t.start < t.end
    ensures t.kind == StringToken ==> t.start + 2 <= t.end && doc[t.start] == '"' && doc[t.end - 1] == '"'
    ensures t.kind == Number ==>
      ('0' <= doc[t.start] <= '9' || doc[t.start] == '-') && forall i | t.start <= i < t.end :: IsNumberChar(doc[i])
    decreases |doc| - pos
  {
    var t := ReadToken(doc, pos);
    if t.kind == Comment then SkipComments(doc, t.end) else t
  }

  lemma SkipCommentsRound(doc: string, pos: nat)
    requires pos <= |doc|
    ensures var t := ReadToken(doc, pos);
      SkipComments(doc, pos) == if t.kind == Comment then SkipComments(doc, t.end) else t
  {}

  /** recoverFromError: tokens are dropped up to the first one of type `until` or the end of the stream. */
  function Recover(doc: string, pos: nat, until: TokenType): (q: nat)
    requires pos <= |doc|
    ensures pos <= q <= |doc|
    decreases |doc| - pos
  {
    var t := ReadToken(doc, pos);
    if t.kind == until || t.kind == EndOfStream then t.end else Recover(doc, t.end, until)
  }

  // ---- What the scans find ----

  predicate ClosesComment(doc: string, i: nat) {
    i + 1 < |doc| && doc[i] == '*' && doc[i + 1] == '/'
  }

  predicate IsLineBreak(c: char) {
    c == '\r' || c == '\n'
  }

  /** A block comment ends right behind the first closing mark; without one it is an error that takes the rest of
      the document. */
  lemma {:induction false} CStyleCommentExtent(doc: string, pos: nat)
    requires pos <= |doc|
    ensures
      var r := CStyleCommentEnd(doc, pos);
      if r.ok then
        pos + 2 <= r.end && ClosesComment(doc, r.end - 2)
        && forall i | pos <= i < r.end - 2 :: !ClosesComment(doc, i)
      else r.end == |doc| && forall i | pos <= i < |doc| :: !ClosesComment(doc, i)
    decreases |doc| - pos
  {
    if pos < |doc| && !(doc[pos] == '*' && Peek(doc, pos + 1) == '/') {
      CStyleCommentExtent(doc, pos + 1);
    }
  }

  /** A line comment ends right behind the first line break, or with the document. */
  lemma {:induction false} CppStyleCommentExtent(doc: string, pos: nat)
    requires pos <= |doc|
    ensures
      var q := CppStyleCommentEnd(doc, pos);
      && (forall i | pos <= i < q - 1 :: !IsLineBreak(doc[i]))
      && (q < |doc| ==> pos < q && IsLineBreak(doc[q - 1]))
    decreases |doc| - pos
  {
    if pos < |doc| && !IsLineBreak(doc[pos]) {
      CppStyleCommentExtent(doc, pos + 1);
    }
  }

  /** A string without backslashes ends right behind the first quote; without one it is an error that takes the
      rest of the document. */
  lemma {:induction false} PlainStringExtent(doc: string, pos: nat, stop: nat)
    requires pos <= stop <= |doc| && forall i | pos <= i < stop :: doc[i] != '\\' && doc[i] != '"'
    ensures stop == |doc| ==> StringEnd(doc, pos) == Scan(false, stop)
    ensures stop < |doc| && doc[stop] == '"' ==> StringEnd(doc, pos) == Scan(true, stop + 1)
    decreases stop - pos
  {
    if pos < stop {
      PlainStringExtent(doc, pos + 1, stop);
    }
  }

  /** `n` tokens on from `pos`. */
  function Tokenwise(doc: string, pos: nat, n: nat): (q: nat)
    requires pos <= |doc|
    ensures pos <= q <= |doc|
    decreases n
  {
    if n == 0 then pos else Tokenwise(doc, ReadToken(doc, pos).end, n - 1)
  }

  predicate Stops(t: Token, until: TokenType) {
    t.kind == until || t.kind == EndOfStream
  }

  lemma RecoverRound(doc: string, pos: nat, until: TokenType, n: nat)
    requires pos <= |doc|
    ensures var t := ReadToken(doc, pos);
      && Tokenwise(doc, pos, 0) == pos && (n > 0 ==> Tokenwise(doc, pos, n) == Tokenwise(doc, t.end, n - 1))
      && Recover(doc, pos, until) == (if Stops(t, until) then t.end else Recover(doc, t.end, until))
      && (!Stops(t, until) ==> pos < t.end)
  {
    hide ReadToken;
  }

  /** Recovery stops behind the first token of the wanted type, or behind the end of the stream: some number of
      other tokens is dropped before it. */
  lemma {:induction false} RecoverStops(doc: string, pos: nat, until: TokenType) returns (dropped: nat)
    requires pos <= |doc|
    ensures Recover(doc, pos, until) == ReadToken(doc, Tokenwise(doc, pos, dropped)).end
    ensures Stops(ReadToken(doc, Tokenwise(doc, pos, dropped)), until)
    ensures forall k | 0 <= k < dropped :: !Stops(ReadToken(doc, Tokenwise(doc, pos, k)), until)
    decreases |doc| - pos
  {
    hide ReadToken, SkipSpaces, Peek, Stops, Tokenwise, Recover;
    var t := ReadToken(doc, pos);
    RecoverRound(doc, pos, until, 0);
    dropped := 0;
    if !Stops(t, until) {
      var rest := RecoverStops(doc, t.end, until);
      dropped := rest + 1;
      RecoverRound(doc, pos, until, dropped);
      forall k | 0 <= k < dropped
        ensures !Stops(ReadToken(doc, Tokenwise(doc, pos, k)), until)
      {
        RecoverRound(doc, pos, until, k);
      }
    }
  }
}
