/** Text in front of the cursor does not matter: what the tokenizer, the decoders and the parser do from a position
    on depends only on the text from there on, and moves with it. */
module Translation {
  import opened Options
  import opened JsonValue
  import opened Tokens
  import opened Numbers
  import opened Strings
  import opened Parser
  import opened Layout
  import opened ReadBack
  import opened ParsedValues

  function Moved(t: Token, offset: nat): Token {
    Token(t.kind, t.start + offset, t.end + offset)
  }

  function MovedScan(s: Scan, offset: nat): Scan {
    Scan(s.ok, s.end + offset)
  }

  function MovedCode(c: Code, offset: nat): Code {
    match c
    case Code(value, next) => Code(value, next + offset)
    case BadCode(message, extra) => BadCode(message, extra + offset)
  }

  function MovedStep(s: Step, offset: nat): Step {
    match s
    case Emit(text, next) => Emit(text, next + offset)
    case Stop => Stop
    case Fail(message, extra) => Fail(message, extra + offset)
  }

  function MovedDecoded<T>(d: Decoded<T>, offset: nat): Decoded<T> {
    match d
    case Good(v) => Good(v)
    case Bad(message, Some(extra)) => Bad(message, Some(extra + offset))
    case Bad(message, None) => Bad(message, None)
  }

  function MovedError(e: ErrorInfo, offset: nat): ErrorInfo {
    ErrorInfo(e.message, Moved(e.token, offset), if e.extra.Some? then Some(e.extra.value + offset) else None)
  }

  function MovedErrors(errors: seq<ErrorInfo>, offset: nat): (r: seq<ErrorInfo>)
    ensures |r| == |errors| && forall i | 0 <= i < |r| :: r[i] == MovedError(errors[i], offset)
  {
    seq(|errors|, i requires 0 <= i < |errors| => MovedError(errors[i], offset))
  }

  /** The same value and the same errors, everything that is a position moved. */
  function MovedReading(r: Reading, offset: nat): Reading {
    Reading(r.ok, r.pos + offset, r.value, MovedErrors(r.errors, offset))
  }

  // ---- The tokenizer ----

  lemma Shift(w: string, doc: string, pos: nat)
    requires pos <= |doc|
    ensures |w + doc| == |w| + |doc| && (pos < |doc| ==> (w + doc)[|w| + pos] == doc[pos])
    ensures (w + doc)[|w| + pos..] == doc[pos..]
  {}

  lemma {:induction false} SpacesMove(w: string, doc: string, pos: nat)
    requires pos <= |doc|
    ensures SkipSpaces(w + doc, |w| + pos) == |w| + SkipSpaces(doc, pos)
    decreases |doc| - pos
  {
    Shift(w, doc, pos);
    hide IsSpace;
    if pos < |doc| && IsSpace(doc[pos]) {
      SpacesMove(w, doc, pos + 1);
    }
  }

  lemma {:induction false} NumberMoves(w: string, doc: string, pos: nat)
    requires pos <= |doc|
    ensures NumberEnd(w + doc, |w| + pos) == |w| + NumberEnd(doc, pos)
    decreases |doc| - pos
  {
    Shift(w, doc, pos);
    hide IsNumberChar;
    if pos < |doc| && IsNumberChar(doc[pos]) {
      NumberMoves(w, doc, pos + 1);
    }
  }

  lemma {:induction false} StringMoves(w: string, doc: string, pos: nat)
    requires pos <= |doc|
    ensures StringEnd(w + doc, |w| + pos) == MovedScan(StringEnd(doc, pos), |w|)
    decreases |doc| - pos
  {
    Shift(w, doc, pos);
    if pos < |doc| {
      if doc[pos] == '\\' {
        StringMoves(w, doc, if pos + 1 < |doc| then pos + 2 else pos + 1);
      } else if doc[pos] != '"' {
        StringMoves(w, doc, pos + 1);
      }
    }
  }

  lemma {:induction false} CStyleMoves(w: string, doc: string, pos: nat)
    requires pos <= |doc|
    ensures CStyleCommentEnd(w + doc, |w| + pos) == MovedScan(CStyleCommentEnd(doc, pos), |w|)
    decreases |doc| - pos
  {
    Shift(w, doc, pos);
    if pos < |doc| {
      Shift(w, doc, pos + 1);
      if !(doc[pos] == '*' && Peek(doc, pos + 1) == '/') {
        CStyleMoves(w, doc, pos + 1);
      }
    }
  }

  lemma {:induction false} CppStyleMoves(w: string, doc: string, pos: nat)
    requires pos <= |doc|
    ensures CppStyleCommentEnd(w + doc, |w| + pos) == |w| + CppStyleCommentEnd(doc, pos)
    decreases |doc| - pos
  {
    Shift(w, doc, pos);
    if pos < |doc| && doc[pos] != '\r' && doc[pos] != '\n' {
      CppStyleMoves(w, doc, pos + 1);
    }
  }

  lemma CommentMoves(w: string, doc: string, pos: nat)
    requires pos <= |doc|
    ensures CommentEnd(w + doc, |w| + pos) == MovedScan(CommentEnd(doc, pos), |w|)
  {
    Shift(w, doc, pos);
    if pos < |doc| {
      hide CStyleCommentEnd, CppStyleCommentEnd;
      CStyleMoves(w, doc, pos + 1);
      CppStyleMoves(w, doc, pos + 1);
    }
  }

  lemma AtMoves(w: string, doc: string, pos: nat, text: string)
    requires pos <= |doc|
    ensures At(w + doc, |w| + pos, text) == At(doc, pos, text)
  {
    if pos + |text| <= |doc| {
      assert (w + doc)[|w| + pos..|w| + pos + |text|] == doc[pos..pos + |text|];
    }
  }

  lemma MatchMoves(w: string, doc: string, pos: nat, text: string)
    requires pos <= |doc|
    ensures Match(w + doc, |w| + pos, text) == MovedScan(Match(doc, pos, text), |w|)
  {
    AtMoves(w, doc, pos, text);
    hide At;
  }

  lemma SpanMoves(start: nat, end: nat, n: nat)
    ensures forall kind :: Moved(Token(kind, start, end), n) == Token(kind, start + n, end + n)
  {}

  lemma ClassifiedMoves(start: nat, n: nat)
    ensures forall kind, scan ::
      Classified(kind, start + n, MovedScan(scan, n)) == Moved(Classified(kind, start, scan), n)
  {}

  /** A token that starts at `pos`. */
  lemma TokenHereMoves(w: string, doc: string, pos: nat)
    requires pos <= |doc| && SkipSpaces(doc, pos) == pos && SkipSpaces(w + doc, |w| + pos) == |w| + pos
    ensures ReadToken(w + doc, |w| + pos) == Moved(ReadToken(doc, pos), |w|)
  {
    hide SkipSpaces, StringEnd, CommentEnd, NumberEnd, Match, Classified, Moved, MovedScan;
    Shift(w, doc, pos);
    SpanMoves(pos, pos, |w|);
    if pos < |doc| {
      SpanMoves(pos, pos + 1, |w|);
      SpanMoves(pos, NumberEnd(doc, pos + 1), |w|);
      ClassifiedMoves(pos, |w|);
      StringMoves(w, doc, pos + 1);
      CommentMoves(w, doc, pos + 1);
      NumberMoves(w, doc, pos + 1);
      MatchMoves(w, doc, pos + 1, "rue");
      MatchMoves(w, doc, pos + 1, "alse");
      MatchMoves(w, doc, pos + 1, "ull");
    }
  }

  /** readToken behind any text is readToken without it, moved. */
  lemma TokenMoves(w: string, doc: string, pos: nat)
    requires pos <= |doc|
    ensures ReadToken(w + doc, |w| + pos) == Moved(ReadToken(doc, pos), |w|)
  {
    hide *;
    var start := SkipSpaces(doc, pos);
    SpacesMove(w, doc, pos);
    SkipSpacesFirst(doc, pos);
    SkipSpacesFirst(w + doc, |w| + pos);
    TokenHereMoves(w, doc, start);
  }

  lemma MovedParts(t: Token, n: nat)
    ensures Moved(t, n).kind == t.kind && Moved(t, n).start == t.start + n && Moved(t, n).end == t.end + n
  {}

  lemma {:induction false} CommentsMove(w: string, doc: string, pos: nat)
    requires pos <= |doc|
    ensures SkipComments(w + doc, |w| + pos) == Moved(SkipComments(doc, pos), |w|)
    decreases |doc| - pos
  {
    hide *;
    var t := ReadToken(doc, pos);
    TokenMoves(w, doc, pos);
    MovedParts(t, |w|);
    SkipCommentsRound(doc, pos);
    SkipCommentsRound(w + doc, |w| + pos);
    if t.kind == Comment {
      CommentsMove(w, doc, t.end);
    }
  }

  lemma FirstTokenMoves(cfg: Config, w: string, doc: string, pos: nat)
    requires pos <= |doc|
    ensures FirstToken(cfg, w + doc, |w| + pos) == Moved(FirstToken(cfg, doc, pos), |w|)
  {
    hide ReadToken, SkipComments;
    TokenMoves(w, doc, pos);
    CommentsMove(w, doc, pos);
  }

  lemma StopsMoved(t: Token, n: nat, until: TokenType)
    ensures Stops(Moved(t, n), until) == Stops(t, until)
  {}

  lemma {:induction false} RecoveryMoves(w: string, doc: string, pos: nat, until: TokenType)
    requires pos <= |doc|
    ensures Recover(w + doc, |w| + pos, until) == |w| + Recover(doc, pos, until)
    decreases |doc| - pos
  {
    hide *;
    var t := ReadToken(doc, pos);
    TokenMoves(w, doc, pos);
    MovedParts(t, |w|);
    StopsMoved(t, |w|, until);
    RecoverRound(doc, pos, until, 0);
    RecoverRound(w + doc, |w| + pos, until, 0);
    if !Stops(t, until) {
      RecoveryMoves(w, doc, t.end, until);
    }
  }

  // ---- The decoders ----

  lemma {:induction false} HexMoves(w: string, doc: string, current: nat, left: nat, unicode: nat)
    requires current + left <= |doc|
    ensures HexLoop(w + doc, |w| + current, left, unicode) == MovedCode(HexLoop(doc, current, left, unicode), |w|)
    decreases left
  {
    Shift(w, doc, current);
    hide HexLoop, HexValue, HEX_DIGIT_EXPECTED;
    HexRound(doc, current, left, unicode);
    HexRound(w + doc, |w| + current, left, unicode);
    if left > 0 && HexValue(doc[current]).Some? {
      HexMoves(w, doc, current + 1, left - 1, unicode * 16 + HexValue(doc[current]).value);
    }
  }

  lemma EscapeMoves(w: string, doc: string, current: nat, end: nat)
    requires current <= end <= |doc|
    ensures DecodeEscapeSequence(w + doc, |w| + current, |w| + end)
         == MovedCode(DecodeEscapeSequence(doc, current, end), |w|)
  {
    hide HexLoop, FOUR_DIGITS_EXPECTED;
    if end - current >= 4 {
      HexMoves(w, doc, current, 4, 0);
    }
  }

  lemma CodePointMoves(w: string, doc: string, current: nat, end: nat)
    requires current <= end <= |doc|
    ensures DecodeCodePoint(w + doc, |w| + current, |w| + end) == MovedCode(DecodeCodePoint(doc, current, end), |w|)
  {
    hide DecodeEscapeSequence, SIX_MORE_EXPECTED, SECOND_HALF_EXPECTED;
    EscapeMoves(w, doc, current, end);
    var first := DecodeEscapeSequence(doc, current, end);
    if first.Code? && end - first.next >= 6 {
      Shift(w, doc, first.next);
      Shift(w, doc, first.next + 1);
      EscapeMoves(w, doc, first.next + 2, end);
    }
  }

  lemma StepMoves(w: string, doc: string, current: nat, end: nat)
    requires current < end <= |doc|
    ensures DecodeStep(w + doc, |w| + current, |w| + end) == MovedStep(DecodeStep(doc, current, end), |w|)
  {
    hide DecodeCodePoint, CodePointToUtf8, SimpleEscape, EMPTY_ESCAPE, BAD_ESCAPE;
    Shift(w, doc, current);
    if current + 1 < end {
      Shift(w, doc, current + 1);
      CodePointMoves(w, doc, current + 2, end);
    }
  }

  lemma {:induction false} CharsMove(w: string, doc: string, current: nat, end: nat, decoded: string)
    requires current <= end <= |doc|
    ensures DecodeChars(w + doc, |w| + current, |w| + end, decoded)
         == MovedDecoded(DecodeChars(doc, current, end, decoded), |w|)
    decreases end - current
  {
    hide *;
    MovedGood(decoded, |w|);
    if current == end {
      DecodeEnd(doc, end, decoded);
      DecodeEnd(w + doc, |w| + end, decoded);
    } else {
      StepMoves(w, doc, current, end);
      MovedSteps(DecodeStep(doc, current, end), |w|);
      DecodeRound(doc, current, end, decoded);
      DecodeRound(w + doc, |w| + current, |w| + end, decoded);
      var step := DecodeStep(doc, current, end);
      if step.Emit? {
        CharsMove(w, doc, step.next, end, decoded + step.text);
      }
    }
  }

  lemma MovedGood(decoded: string, n: nat)
    ensures MovedDecoded(Good(decoded), n) == Good(decoded)
  {}

  lemma MovedSteps(step: Step, n: nat)
    ensures step.Emit? ==> MovedStep(step, n) == Emit(step.text, step.next + n)
    ensures step.Stop? ==> MovedStep(step, n) == Stop
    ensures step.Fail? ==>
      MovedStep(step, n) == Fail(step.message, step.extra + n)
      && MovedDecoded<string>(Bad(step.message, Some(step.extra)), n) == Bad(step.message, Some(step.extra + n))
  {}

  lemma StringTokenMoves(w: string, doc: string, t: Token)
    requires t.start + 2 <= t.end <= |doc|
    ensures DecodeString(w + doc, Moved(t, |w|)) == MovedDecoded(DecodeString(doc, t), |w|)
  {
    hide *;
    MovedParts(t, |w|);
    DecodeStringIs(doc, t);
    DecodeStringIs(w + doc, Moved(t, |w|));
    CharsMove(w, doc, t.start + 1, t.end - 1, []);
  }

  lemma DecodeStringIs(doc: string, t: Token)
    requires t.start + 2 <= t.end <= |doc|
    ensures DecodeString(doc, t) == DecodeChars(doc, t.start + 1, t.end - 1, [])
  {
    hide DecodeChars;
  }

  lemma TextMoves(w: string, doc: string, t: Token)
    requires t.start <= t.end <= |doc|
    ensures Text(w + doc, Moved(t, |w|)) == Text(doc, t) && (t.start < t.end ==> Text(doc, t) != [])
  {}

  lemma ScalarMoves(cfg: Config, w: string, doc: string, t: Token, old_: Value)
    requires t.start <= t.end <= |doc|
    requires t.kind == StringToken ==> t.start + 2 <= t.end
    requires t.kind == Number ==> t.start < t.end
    ensures ReadScalar(cfg, w + doc, Moved(t, |w|), old_) == MovedReading(ReadScalar(cfg, doc, t, old_), |w|)
  {
    hide *;
    MovedParts(t, |w|);
    ScalarCases(cfg, doc, t, old_);
    ScalarCases(cfg, w + doc, Moved(t, |w|), old_);
    if t.kind == Number {
      TextMoves(w, doc, t);
      NoPosition(cfg.scan, Text(doc, t));
      LeafMoves(t, DecodeNumber(cfg.scan, Text(doc, t)), old_, |w|);
    } else if t.kind == StringToken {
      StringTokenMoves(w, doc, t);
      StringValueMoves(w, doc, t);
      LeafMoves(t, DecodeStringValue(doc, t), old_, |w|);
    } else {
      SimpleMoves(t, old_, |w|);
    }
  }

  lemma StringValueMoves(w: string, doc: string, t: Token)
    requires t.start + 2 <= t.end <= |doc|
    requires DecodeString(w + doc, Moved(t, |w|)) == MovedDecoded(DecodeString(doc, t), |w|)
    ensures DecodeStringValue(w + doc, Moved(t, |w|)) == MovedDecoded(DecodeStringValue(doc, t), |w|)
  {
    hide DecodeString, CString;
  }

  lemma LeafMoves(t: Token, d: Decoded<Value>, old_: Value, n: nat)
    ensures Leaf(Moved(t, n), MovedDecoded(d, n), old_) == MovedReading(Leaf(t, d, old_), n)
  {}

  lemma SimpleMoves(t: Token, old_: Value, n: nat)
    ensures forall v :: MovedReading(Reading(true, t.end, v, []), n) == Reading(true, t.end + n, v, [])
    ensures MovedReading(Reading(false, t.end, old_, [ErrorInfo(VALUE_EXPECTED, t, None)]), n)
         == Reading(false, t.end + n, old_, [ErrorInfo(VALUE_EXPECTED, Moved(t, n), None)])
  {
    hide VALUE_EXPECTED;
  }

  lemma NoPosition(scan: DoubleScanner, text: string)
    requires text != []
    ensures forall n :: MovedDecoded(DecodeNumber(scan, text), n) == DecodeNumber(scan, text)
  {}

  // ---- The parser ----

  lemma {:induction false} ValueMoves(cfg: Config, w: string, doc: string, pos: nat, old_: Value)
    requires pos <= |doc|
    ensures ReadValue(cfg, w + doc, |w| + pos, old_) == MovedReading(ReadValue(cfg, doc, pos, old_), |w|)
    decreases |doc| - pos, 0
  {
    hide ReadValue, ReadMembers, ReadArray, ReadScalar, FirstToken;
    FirstTokenMoves(cfg, w, doc, pos);
    ReadValueCases(cfg, doc, pos, old_);
    ReadValueCases(cfg, w + doc, |w| + pos, old_);
    var t := FirstToken(cfg, doc, pos);
    if t.kind == ObjectBegin {
      MembersMove(cfg, w, doc, t.end, "", []);
    } else if t.kind == ArrayBegin {
      ArrayMoves(cfg, w, doc, t.end);
    } else {
      ScalarMoves(cfg, w, doc, t, old_);
    }
  }

  lemma FailMoves(message: string, t: Token, w: string, doc: string, until: TokenType, v: Value)
    requires t.end <= |doc|
    ensures FailAndRecover(message, Moved(t, |w|), w + doc, until, v)
         == MovedReading(FailAndRecover(message, t, doc, until, v), |w|)
  {
    hide Recover;
    RecoveryMoves(w, doc, t.end, until);
  }

  lemma BadNameMoves(t: Token, bad: Decoded<string>, pos: nat, v: Value, n: nat)
    requires bad.Bad?
    ensures MovedDecoded(bad, n).Bad?
    ensures var moved := MovedDecoded(bad, n);
      Reading(false, pos + n, v, [ErrorInfo(moved.message, Moved(t, n), moved.extra)])
      == MovedReading(Reading(false, pos, v, [ErrorInfo(bad.message, t, bad.extra)]), n)
  {}

  lemma GoodNameMoves(good: Decoded<string>, n: nat)
    ensures good.Good? ==> MovedDecoded(good, n) == good
    ensures good.Good? <==> MovedDecoded(good, n).Good?
  {}

  /** The name of a member, and the exits on the way to it. */
  lemma NameMoves(cfg: Config, w: string, doc: string, pos: nat, name: string, members: seq<Entry>)
    requires pos <= |doc|
    ensures var t := SkipComments(doc, pos);
      t.kind != StringToken || DecodeString(doc, t).Bad? ==>
        ReadMembers(cfg, w + doc, |w| + pos, name, members)
        == MovedReading(ReadMembers(cfg, doc, pos, name, members), |w|)
  {
    hide *;
    var t := SkipComments(doc, pos);
    CommentsMove(w, doc, pos);
    MovedParts(t, |w|);
    MembersName(cfg, doc, pos, name, members);
    MembersName(cfg, w + doc, |w| + pos, name, members);
    SimpleMoves(t, Null, |w|);
    FailMoves(NAME_EXPECTED, t, w, doc, ObjectEnd, Object(members));
    if t.kind == StringToken {
      StringTokenMoves(w, doc, t);
      GoodNameMoves(DecodeString(doc, t), |w|);
      if DecodeString(doc, t).Bad? {
        RecoveryMoves(w, doc, t.end, ObjectEnd);
        BadNameMoves(t, DecodeString(doc, t), Recover(doc, t.end, ObjectEnd), Object(members), |w|);
      }
    }
  }

  lemma {:induction false} MembersMove(cfg: Config, w: string, doc: string, pos: nat, name: string,
                                       members: seq<Entry>)
    requires pos <= |doc|
    ensures ReadMembers(cfg, w + doc, |w| + pos, name, members)
         == MovedReading(ReadMembers(cfg, doc, pos, name, members), |w|)
    decreases |doc| - pos, 1
  {
    hide *;
    NameMoves(cfg, w, doc, pos, name, members);
    var t := SkipComments(doc, pos);
    if t.kind == StringToken && DecodeString(doc, t).Good? {
      ColonMoves(cfg, w, doc, pos, name, members);
      var n, colon := DecodeString(doc, t).value, ReadToken(doc, t.end);
      if colon.kind == MemberSeparator {
        var key := Name(CString(n));
        var r := ReadValue(cfg, doc, colon.end, Get(members, key));
        ValueMoves(cfg, w, doc, colon.end, Get(members, key));
        SeparatorMoves(cfg, w, doc, pos, name, members, n, r);
        ProgressMade(r, doc, colon.end);
        var separator := SkipComments(doc, r.pos);
        if r.ok && separator.kind != ObjectEnd {
          MembersMove(cfg, w, doc, separator.end, n, Put(members, key, r.value));
        }
      }
    }
  }

  lemma ProgressMade(r: Reading, doc: string, pos: nat)
    requires Sound(r, doc, pos)
    ensures pos <= r.pos <= |doc|
  {}

  lemma ColonMoves(cfg: Config, w: string, doc: string, pos: nat, name: string, members: seq<Entry>)
    requires pos <= |doc|
    requires var t := SkipComments(doc, pos); t.kind == StringToken && DecodeString(doc, t).Good?
    ensures var t := SkipComments(doc, pos);
      ReadToken(w + doc, |w| + t.end) == Moved(ReadToken(doc, t.end), |w|)
      && (ReadToken(doc, t.end).kind != MemberSeparator ==>
            ReadMembers(cfg, w + doc, |w| + pos, name, members)
            == MovedReading(ReadMembers(cfg, doc, pos, name, members), |w|))
  {
    hide *;
    var t := SkipComments(doc, pos);
    CommentsMove(w, doc, pos);
    MovedParts(t, |w|);
    StringTokenMoves(w, doc, t);
    GoodNameMoves(DecodeString(doc, t), |w|);
    TokenMoves(w, doc, t.end);
    MovedParts(ReadToken(doc, t.end), |w|);
    FailMoves(COLON_EXPECTED, ReadToken(doc, t.end), w, doc, ObjectEnd, Object(members));
    MembersColon(cfg, doc, pos, name, members);
    MembersColon(cfg, w + doc, |w| + pos, name, members);
  }

  /** Behind a member's value: the exits move, and the loop goes on at the moved position. */
  lemma SeparatorMoves(cfg: Config, w: string, doc: string, pos: nat, name: string, members: seq<Entry>, n: string,
                       r: Reading)
    requires pos <= |doc|
    requires var t := SkipComments(doc, pos); t.kind == StringToken && DecodeString(doc, t) == Good(n)
    requires var colon := ReadToken(doc, SkipComments(doc, pos).end);
      colon.kind == MemberSeparator
      && r == ReadValue(cfg, doc, colon.end, Get(members, Name(CString(n))))
      && ReadValue(cfg, w + doc, |w| + colon.end, Get(members, Name(CString(n)))) == MovedReading(r, |w|)
    ensures r.pos <= |doc|
    ensures var all, read := ReadMembers(cfg, doc, pos, name, members), Put(members, Name(CString(n)), r.value);
      var moved, separator := ReadMembers(cfg, w + doc, |w| + pos, name, members), SkipComments(doc, r.pos);
      moved == MovedReading(all, |w|)
      || (r.ok && separator.kind != ObjectEnd && all == ReadMembers(cfg, doc, separator.end, n, read)
          && moved == ReadMembers(cfg, w + doc, |w| + separator.end, n, read))
  {
    hide *;
    var read := Object(Put(members, Name(CString(n)), r.value));
    MembersValue(cfg, doc, pos, name, members, n, r);
    var comma, separator := ReadToken(doc, r.pos), SkipComments(doc, r.pos);
    MovedMembersValue(cfg, w, doc, pos, name, members, n, r);
    RecoveryMoves(w, doc, r.pos, ObjectEnd);
    FailMoves(COMMA_EXPECTED, comma, w, doc, ObjectEnd, read);
    ReadingMoves(false, Recover(doc, r.pos, ObjectEnd), read, r.errors, |w|);
    NoErrorMoves(separator.end, read, |w|);
  }

  lemma ReadingMoves(ok: bool, pos: nat, v: Value, errors: seq<ErrorInfo>, n: nat)
    ensures MovedReading(Reading(ok, pos, v, errors), n) == Reading(ok, pos + n, v, MovedErrors(errors, n))
  {}

  lemma NoErrorMoves(pos: nat, v: Value, n: nat)
    ensures MovedReading(Reading(true, pos, v, []), n) == Reading(true, pos + n, v, [])
  {}

  /** The exits behind a member's value in the longer document, in terms of the shorter one. */
  lemma MovedMembersValue(cfg: Config, w: string, doc: string, pos: nat, name: string, members: seq<Entry>, n: string,
                          r: Reading)
    requires pos <= |doc|
    requires var t := SkipComments(doc, pos); t.kind == StringToken && DecodeString(doc, t) == Good(n)
    requires var colon := ReadToken(doc, SkipComments(doc, pos).end);
      colon.kind == MemberSeparator
      && ReadValue(cfg, w + doc, |w| + colon.end, Get(members, Name(CString(n)))) == MovedReading(r, |w|)
      && r.pos <= |doc|
    ensures
      var all, read := ReadMembers(cfg, w + doc, |w| + pos, name, members), Put(members, Name(CString(n)), r.value);
      var comma, separator := ReadToken(doc, r.pos), SkipComments(doc, r.pos);
      && (!r.ok ==> all == Reading(false, Recover(w + doc, |w| + r.pos, ObjectEnd), Object(read),
                                   MovedErrors(r.errors, |w|)))
      && (r.ok && comma.kind != ObjectEnd && comma.kind != ArraySeparator && comma.kind != Comment ==>
            all == FailAndRecover(COMMA_EXPECTED, Moved(comma, |w|), w + doc, ObjectEnd, Object(read)))
      && (r.ok && (comma.kind == ObjectEnd || comma.kind == ArraySeparator || comma.kind == Comment) ==>
            all == if separator.kind == ObjectEnd then Reading(true, |w| + separator.end, Object(read), [])
                   else ReadMembers(cfg, w + doc, |w| + separator.end, n, read))
  {
    hide *;
    var t := SkipComments(doc, pos);
    CommentsMove(w, doc, pos);
    MovedParts(t, |w|);
    StringTokenMoves(w, doc, t);
    GoodNameMoves(DecodeString(doc, t), |w|);
    TokenMoves(w, doc, t.end);
    MovedParts(ReadToken(doc, t.end), |w|);
    TokenMoves(w, doc, r.pos);
    MovedParts(ReadToken(doc, r.pos), |w|);
    CommentsMove(w, doc, r.pos);
    MovedParts(SkipComments(doc, r.pos), |w|);
    MovedFields(r, |w|);
    MembersValue(cfg, w + doc, |w| + pos, name, members, n, MovedReading(r, |w|));
  }

  lemma MovedFields(r: Reading, n: nat)
    ensures MovedReading(r, n).ok == r.ok && MovedReading(r, n).pos == r.pos + n && MovedReading(r, n).value == r.value
    ensures MovedReading(r, n).errors == MovedErrors(r.errors, n)
  {}

  lemma {:induction false} ArrayMoves(cfg: Config, w: string, doc: string, pos: nat)
    requires pos <= |doc|
    ensures ReadArray(cfg, w + doc, |w| + pos) == MovedReading(ReadArray(cfg, doc, pos), |w|)
    decreases |doc| - pos, 2
  {
    hide ReadArray, ReadElements, ReadToken, SkipSpaces, ReadValue;
    SpacesMove(w, doc, pos);
    TokenMoves(w, doc, pos);
    Shift(w, doc, SkipSpaces(doc, pos));
    ReadArrayStarts(cfg, doc, pos);
    ReadArrayStarts(cfg, w + doc, |w| + pos);
    if Peek(doc, SkipSpaces(doc, pos)) != ']' {
      ElementsMove(cfg, w, doc, SkipSpaces(doc, pos), 0, []);
    }
  }

  lemma {:induction false} ElementsMove(cfg: Config, w: string, doc: string, pos: nat, index: nat, items: seq<Entry>)
    requires pos <= |doc|
    ensures ReadElements(cfg, w + doc, |w| + pos, index, items)
         == MovedReading(ReadElements(cfg, doc, pos, index, items), |w|)
    decreases |doc| - pos, 1
  {
    hide BadSeparator, ReadElements, ReadValue, ReadToken, SkipComments, Recover, Put, Get, SEPARATOR_EXPECTED;
    var r := ReadValue(cfg, doc, pos, Get(items, Index(index)));
    ValueMoves(cfg, w, doc, pos, Get(items, Index(index)));
    ElementsRound(cfg, doc, pos, index, items, r);
    ElementsRound(cfg, w + doc, |w| + pos, index, items, MovedReading(r, |w|));
    RecoveryMoves(w, doc, r.pos, ArrayEnd);
    CommentsMove(w, doc, r.pos);
    var t := SkipComments(doc, r.pos);
    RecoveryMoves(w, doc, t.end, ArrayEnd);
    if r.ok && !BadSeparator(t.kind) && t.kind != ArrayEnd {
      ElementsMove(cfg, w, doc, t.end, index + 1, Put(items, Index(index), r.value));
    }
  }
}
