/** class Reader (json_reader.cpp): the imperative tokenizer and parser, each method proved against the
    functions of Tokens, Strings, Numbers and Parser.

    `nodes_` holds paths into `root`; assigning through the top node changes only the subtree there. The
    collection of comments is not modelled. */
module Reader {
  import opened Options
  import opened JsonValue
  import opened Tokens
  import opened Numbers
  import opened Strings
  import opened Parser
  import opened Nodes

  class Reader {
    const features_: Config
    var document_: string
    var current_: nat
    var errors_: seq<ErrorInfo>
    var nodes_: seq<Path>
    var root: Value

    constructor (features: Config)
      ensures features_ == features
    {
      features_ := features;
      document_, current_, errors_, nodes_, root := "", 0, [], [], Null;
    }

    predicate InBounds()
      reads this`document_, this`current_
    {
      current_ <= |document_|
    }

    // ---- Tokenizer ----

    method GetNextChar() returns (c: char)
      requires InBounds()
      modifies this`current_
      ensures c == Peek(document_, old(current_)) && InBounds()
      ensures current_ == if old(current_) < |document_| then old(current_) + 1 else old(current_)
    {
      if current_ == |document_| { return '\0'; }
      c := document_[current_];
      current_ := current_ + 1;
    }

    method SkipWhiteSpace()
      requires InBounds()
      modifies this`current_
      ensures current_ == SkipSpaces(document_, old(current_))
    {
      while current_ != |document_|
        invariant InBounds() && SkipSpaces(document_, current_) == SkipSpaces(document_, old(current_))
        decreases |document_| - current_
      {
        var c := document_[current_];
        if c == ' ' || c == '\t' || c == '\r' || c == '\n' {
          current_ := current_ + 1;
        } else {
          break;
        }
      }
    }

    method MatchPattern(pattern: string) returns (ok: bool)
      requires InBounds()
      modifies this`current_
      ensures Scan(ok, current_) == Match(document_, old(current_), pattern)
    {
      if |document_| - current_ < |pattern| { return false; }
      var index: nat := |pattern|;
      while index > 0
        invariant index <= |pattern|
        invariant forall i | index <= i < |pattern| :: document_[current_ + i] == pattern[i]
      {
        index := index - 1;
        if document_[current_ + index] != pattern[index] {
          assert document_[current_..current_ + |pattern|][index] != pattern[index];
          return false;
        }
      }
      assert document_[current_..current_ + |pattern|] == pattern;
      current_ := current_ + |pattern|;
      return true;
    }

    method ReadComment() returns (ok: bool)
      requires InBounds()
      modifies this`current_
      ensures Scan(ok, current_) == CommentEnd(document_, old(current_))
    {
      var c := GetNextChar();
      ok := false;
      if c == '*' {
        ok := ReadCStyleComment();
      } else if c == '/' {
        ReadCppStyleComment();
        ok := true;
      }
    }

    method ReadCStyleComment() returns (ok: bool)
      requires InBounds()
      modifies this`current_
      ensures Scan(ok, current_) == CStyleCommentEnd(document_, old(current_))
    {
      while current_ != |document_|
        invariant InBounds() && CStyleCommentEnd(document_, current_) == CStyleCommentEnd(document_, old(current_))
        decreases |document_| - current_
      {
        ghost var before := current_;
        var c := GetNextChar();
        if c == '*' && Peek(document_, current_) == '/' {
          assert CStyleCommentEnd(document_, before) == Scan(true, before + 2);
          break;
        }
      }
      var last := GetNextChar();
      ok := last == '/';
    }

    method ReadCppStyleComment()
      requires InBounds()
      modifies this`current_
      ensures current_ == CppStyleCommentEnd(document_, old(current_))
    {
      while current_ != |document_|
        invariant InBounds() && CppStyleCommentEnd(document_, current_) == CppStyleCommentEnd(document_, old(current_))
        decreases |document_| - current_
      {
        var c := GetNextChar();
        if c == '\r' || c == '\n' { break; }
      }
    }

    method ReadNumber()
      requires InBounds()
      modifies this`current_
      ensures current_ == NumberEnd(document_, old(current_))
    {
      while current_ != |document_|
        invariant InBounds() && NumberEnd(document_, current_) == NumberEnd(document_, old(current_))
        decreases |document_| - current_
      {
        if !IsNumberChar(document_[current_]) { break; }
        current_ := current_ + 1;
      }
    }

    method ReadString() returns (ok: bool)
      requires InBounds()
      modifies this`current_
      ensures Scan(ok, current_) == StringEnd(document_, old(current_))
    {
      var c := '\0';
      while current_ != |document_|
        invariant InBounds() && c != '"' && StringEnd(document_, current_) == StringEnd(document_, old(current_))
        decreases |document_| - current_
      {
        c := GetNextChar();
        if c == '\\' {
          var _ := GetNextChar();
        } else if c == '"' {
          break;
        }
      }
      ok := c == '"';
    }

    /** readToken, which always returns true in the source. */
    method ReadToken() returns (token: Token)
      requires InBounds()
      modifies this`current_
      ensures token == Tokens.ReadToken(document_, old(current_)) && current_ == token.end
      ensures old(current_) <= current_ && InBounds()
      ensures token.kind != EndOfStream ==> old(current_) < current_
    {
      hide NumberEnd, StringEnd, CommentEnd, Match, SkipSpaces;
      SkipWhiteSpace();
      var start := current_;
      var c := GetNextChar();
      var ok, kind := true, Error;
      if c == '{' { kind := ObjectBegin; }
      else if c == '}' { kind := ObjectEnd; }
      else if c == '[' { kind := ArrayBegin; }
      else if c == ']' { kind := ArrayEnd; }
      else if c == '"' { kind := StringToken; ok := ReadString(); }
      else if c == '/' { kind := Comment; ok := ReadComment(); }
      else if '0' <= c <= '9' || c == '-' { kind := Number; ReadNumber(); }
      else if c == 't' { kind := True; ok := MatchPattern("rue"); }
      else if c == 'f' { kind := False; ok := MatchPattern("alse"); }
      else if c == 'n' { kind := NullToken; ok := MatchPattern("ull"); }
      else if c == ',' { kind := ArraySeparator; }
      else if c == ':' { kind := MemberSeparator; }
      else if c == '\0' { kind := EndOfStream; }
      else { ok := false; }
      if !ok { kind := Error; }
      token := Token(kind, start, current_);
    }

    /** The loops that read on while the token is a comment. */
    method ReadTokenBehindComments() returns (token: Token)
      requires InBounds()
      modifies this`current_
      ensures token == SkipComments(document_, old(current_)) && current_ == token.end && InBounds()
    {
      token := ReadToken();
      while token.kind == Comment
        invariant InBounds() && current_ == token.end
        invariant SkipComments(document_, old(current_))
               == if token.kind == Comment then SkipComments(document_, token.end) else token
        decreases |document_| - current_, if token.kind == Comment then 1 else 0
      {
        token := ReadToken();
      }
    }

    method SkipCommentTokens() returns (token: Token)
      requires InBounds()
      modifies this`current_
      ensures token == FirstToken(features_, document_, old(current_)) && current_ == token.end && InBounds()
    {
      if features_.allowComments {
        token := ReadTokenBehindComments();
      } else {
        token := ReadToken();
      }
    }

    // ---- Errors ----

    method AddError(message: string, token: Token, extra: Option<nat>) returns (ok: bool)
      modifies this`errors_
      ensures !ok && errors_ == old(errors_) + [ErrorInfo(message, token, extra)]
    {
      errors_ := errors_ + [ErrorInfo(message, token, extra)];
      ok := false;
    }

    method RecoverFromError(skipUntilToken: TokenType) returns (ok: bool)
      requires InBounds()
      modifies this`current_
      ensures !ok && current_ == Recover(document_, old(current_), skipUntilToken) && InBounds()
    {
      while true
        invariant InBounds()
        invariant Recover(document_, current_, skipUntilToken) == Recover(document_, old(current_), skipUntilToken)
        decreases |document_| - current_
      {
        var skip := ReadToken();
        if skip.kind == skipUntilToken || skip.kind == EndOfStream { break; }
      }
      ok := false;
    }

    method AddErrorAndRecover(message: string, token: Token, skipUntilToken: TokenType) returns (ok: bool)
      requires InBounds()
      modifies this`current_, this`errors_
      ensures !ok && current_ == Recover(document_, old(current_), skipUntilToken) && InBounds()
      ensures errors_ == old(errors_) + [ErrorInfo(message, token, None)]
    {
      ok := AddError(message, token, None);
      ok := RecoverFromError(skipUntilToken);
    }

    // ---- Strings ----

    ghost predicate Reported<T>(expected: Decoded<T>, token: Token, before: seq<ErrorInfo>, ok: bool, result: T)
      reads this`errors_
    {
      match expected
      case Good(v) => ok && result == v && errors_ == before
      case Bad(message, extra) => !ok && errors_ == before + [ErrorInfo(message, token, extra)]
    }

    ghost predicate CodeReported(expected: Code, token: Token, before: seq<ErrorInfo>, ok: bool, next: nat, code: nat)
      reads this`errors_
    {
      match expected
      case Code(v, n) => ok && code == v && next == n && errors_ == before
      case BadCode(message, extra) => !ok && errors_ == before + [ErrorInfo(message, token, Some(extra))]
    }

    /** decodeUnicodeEscapeSequence. */
    method DecodeUnicodeEscapeSequence(token: Token, current: nat, end: nat)
      returns (ok: bool, next: nat, unicode: nat)
      requires current <= end <= |document_|
      modifies this`errors_
      ensures CodeReported(DecodeEscapeSequence(document_, current, end), token, old(errors_), ok, next, unicode)
    {
      hide HexLoop, FOUR_DIGITS_EXPECTED, HEX_DIGIT_EXPECTED;
      next, unicode := current, 0;
      if end - current < 4 {
        ok := AddError(FOUR_DIGITS_EXPECTED, token, Some(current));
        return;
      }
      for index := 0 to 4
        invariant next == current + index && errors_ == old(errors_)
        invariant HexLoop(document_, current, 4, 0) == HexLoop(document_, next, 4 - index, unicode)
      {
        HexRound(document_, next, 4 - index, unicode);
        var c := document_[next];
        next := next + 1;
        unicode := unicode * 16;
        if '0' <= c <= '9' {
          unicode := unicode + (c as int - '0' as int);
        } else if 'a' <= c <= 'f' {
          unicode := unicode + (c as int - 'a' as int + 10);
        } else if 'A' <= c <= 'F' {
          unicode := unicode + (c as int - 'A' as int + 10);
        } else {
          ok := AddError(HEX_DIGIT_EXPECTED, token, Some(next));
          return;
        }
      }
      HexRound(document_, next, 0, unicode);
      ok := true;
    }

    /** decodeUnicodeCodePoint. */
    method DecodeUnicodeCodePoint(token: Token, current: nat, end: nat) returns (ok: bool, next: nat, unicode: nat)
      requires current <= end <= |document_|
      modifies this`errors_
      ensures CodeReported(DecodeCodePoint(document_, current, end), token, old(errors_), ok, next, unicode)
    {
      hide DecodeEscapeSequence, SIX_MORE_EXPECTED, SECOND_HALF_EXPECTED;
      ok, next, unicode := DecodeUnicodeEscapeSequence(token, current, end);
      if !ok { return; }
      if 0xD800 <= unicode <= 0xDBFF {
        if end - next < 6 {
          ok := AddError(SIX_MORE_EXPECTED, token, Some(next));
          return;
        }
        next := next + 1;
        var second := document_[next - 1] == '\\';
        if second {
          next := next + 1;
          second := document_[next - 1] == 'u';
        }
        if second {
          var surrogatePair;
          ok, next, surrogatePair := DecodeUnicodeEscapeSequence(token, next, end);
          if !ok { return; }
          unicode := 0x1_0000 + unicode % 0x400 * 0x400 + surrogatePair % 0x400;
        } else {
          ok := AddError(SECOND_HALF_EXPECTED, token, Some(next));
        }
      }
    }

    /** What stands behind a backslash at `current - 1`. */
    method DecodeEscape(token: Token, current: nat, end: nat) returns (ok: bool, next: nat, text: string)
      requires 0 < current <= end <= |document_| && document_[current - 1] == '\\'
      modifies this`errors_
      ensures var step := DecodeStep(document_, current - 1, end);
        && (step.Emit? ==> ok && text == step.text && next == step.next && errors_ == old(errors_))
        && (step.Fail? ==> !ok && errors_ == old(errors_) + [ErrorInfo(step.message, token, Some(step.extra))])
        && !step.Stop?
    {
      hide DecodeCodePoint, CodePointToUtf8, EMPTY_ESCAPE, BAD_ESCAPE;
      next, text := current, "";
      if current == end {
        ok := AddError(EMPTY_ESCAPE, token, Some(current));
        return;
      }
      var escape := document_[current];
      next := current + 1;
      ok := true;
      if escape == 'u' {
        var unicode;
        ok, next, unicode := DecodeUnicodeCodePoint(token, next, end);
        if ok {
          text := CodePointToUtf8(unicode);
        }
      } else {
        var plain := SimpleEscape(escape);
        if plain.Some? {
          text := [plain.value];
        } else {
          ok := AddError(BAD_ESCAPE, token, Some(next));
        }
      }
    }

    /** decodeString(Token &, std::string &). */
    method DecodeStringToken(token: Token) returns (ok: bool, decoded: string)
      requires token.start + 2 <= token.end <= |document_|
      modifies this`errors_
      ensures Reported(Strings.DecodeString(document_, token), token, old(errors_), ok, decoded)
    {
      hide DecodeChars, DecodeStep;
      decoded := "";
      var current, end := token.start + 1, token.end - 1;
      while current != end
        invariant token.start < current <= end && errors_ == old(errors_)
        invariant DecodeChars(document_, token.start + 1, end, "") == DecodeChars(document_, current, end, decoded)
        decreases end - current
      {
        DecodeRound(document_, current, end, decoded);
        var c := document_[current];
        if c != '\\' { UnescapedStep(document_, current, end); }
        current := current + 1;
        if c == '"' {
          break;
        } else if c == '\\' {
          var text;
          ok, current, text := DecodeEscape(token, current, end);
          if !ok { return; }
          decoded := decoded + text;
        } else {
          decoded := decoded + [c];
        }
      }
      DecodeEnd(document_, end, decoded);
      ok := true;
    }

    // ---- Parser ----

    function Top(): Path
      requires nodes_ != []
      reads this`nodes_
    {
      nodes_[|nodes_| - 1]
    }

    /** The top of `nodes_` points to an existing node of the document being built. */
    ghost predicate Ready()
      reads this
    {
      InBounds() && nodes_ != [] && Valid(root, Top())
    }

    /** `currentValue() = v`. */
    method SetCurrentValue(v: Value)
      requires nodes_ != []
      modifies this`root
      ensures root == SetAt(old(root), Top(), v)
    {
      root := SetAt(root, nodes_[|nodes_| - 1], v);
    }

    /** The state after a read: only the subtree at `path` differs from `before`. */
    ghost predicate After(r: Reading, before: Value, path: Path, errors: seq<ErrorInfo>, ok: bool)
      reads this
    {
      ok == r.ok && current_ == r.pos && errors_ == errors + r.errors && root == SetAt(before, path, r.value)
    }

    /** readValue. */
    method ReadValue() returns (ok: bool)
      requires Ready()
      modifies this`current_, this`errors_, this`nodes_, this`root
      ensures nodes_ == old(nodes_)
      ensures After(Parser.ReadValue(features_, document_, old(current_), GetAt(old(root), Top())),
                    old(root), Top(), old(errors_), ok)
      decreases |document_| - current_, 0
    {
      var token := SkipCommentTokens();
      AssignSame(root, Top());
      if token.kind == ObjectBegin {
        ok := ReadObject();
      } else if token.kind == ArrayBegin {
        ok := ReadArray();
      } else {
        ok := ReadScalar(token);
      }
    }

    /** The cases of readValue that read no further tokens. */
    method ReadScalar(token: Token) returns (ok: bool)
      requires Ready() && token.start <= token.end <= |document_|
      requires token.kind == StringToken ==> token.start + 2 <= token.end
      requires token.kind == Number ==> token.start < token.end
      requires token.kind != ObjectBegin && token.kind != ArrayBegin
      modifies this`errors_, this`root
      ensures After(Parser.ReadScalar(features_, document_, token, GetAt(old(root), Top())).(pos := current_),
                    old(root), Top(), old(errors_), ok)
    {
      ScalarCases(features_, document_, token, GetAt(root, Top()));
      hide SetAt, GetAt, Valid, Parser.ReadScalar, Numbers.DecodeNumber, DecodeStringValue, Leaf;
      if token.kind == Number {
        ok := DecodeNumber(token);
      } else if token.kind == StringToken {
        ok := DecodeString(token);
      } else {
        ok := ReadLiteral(token);
      }
    }

    /** The cases of readValue that decode nothing. */
    method ReadLiteral(token: Token) returns (ok: bool)
      requires Ready() && token.start <= token.end <= |document_|
      requires token.kind != ObjectBegin && token.kind != ArrayBegin
      requires token.kind != StringToken && token.kind != Number
      modifies this`errors_, this`root
      ensures After(Parser.ReadScalar(features_, document_, token, GetAt(old(root), Top())).(pos := current_),
                    old(root), Top(), old(errors_), ok)
    {
      AssignSame(root, Top());
      ScalarCases(features_, document_, token, GetAt(root, Top()));
      hide SetAt, GetAt, Valid, Parser.ReadScalar, VALUE_EXPECTED;
      ok := true;
      if token.kind == True {
        SetCurrentValue(Bool(true));
      } else if token.kind == False {
        SetCurrentValue(Bool(false));
      } else if token.kind == NullToken {
        SetCurrentValue(Null);
      } else {
        ok := AddError(VALUE_EXPECTED, token, None);
      }
    }

    /** decodeString(Token &). */
    method DecodeString(token: Token) returns (ok: bool)
      requires Ready() && token.start + 2 <= token.end <= |document_|
      modifies this`errors_, this`root
      ensures After(Leaf(token, DecodeStringValue(document_, token), GetAt(old(root), Top())).(pos := current_),
                    old(root), Top(), old(errors_), ok)
    {
      AssignSame(root, Top());
      hide SetAt, GetAt, Valid, Strings.DecodeString, CString;
      var decoded;
      ok, decoded := DecodeStringToken(token);
      if ok {
        SetCurrentValue(String(CString(decoded)));
      }
    }

    /** decodeNumber: one pass to spot a double, then the guarded accumulation on 32 bits. */
    method DecodeNumber(token: Token) returns (ok: bool)
      requires Ready() && token.start < token.end <= |document_|
      modifies this`errors_, this`root
      ensures After(Leaf(token, Numbers.DecodeNumber(features_.scan, Text(document_, token)),
                         GetAt(old(root), Top())).(pos := current_),
                    old(root), Top(), old(errors_), ok)
    {
      var isDouble := SpotDouble(token);
      if isDouble {
        ok := DecodeDouble(token);
      } else {
        ok := DecodeInteger(token);
      }
    }

    /** The pass that spots a double. */
    method SpotDouble(token: Token) returns (isDouble: bool)
      requires token.start < token.end <= |document_|
      ensures isDouble == LooksDouble(Text(document_, token))
    {
      hide IsDoubleMark;
      ghost var text := Text(document_, token);
      isDouble := false;
      for inspect := token.start to token.end
        invariant isDouble <==> exists i | 0 <= i < inspect - token.start ::
                                  IsDoubleMark(text[i]) || (text[i] == '-' && i != 0)
      {
        var c := document_[inspect];
        assert c == text[inspect - token.start];
        isDouble := isDouble || IsDoubleMark(c) || (c == '-' && inspect != token.start);
      }
    }

    /** The sign, the guarded accumulation on 32 bits and the type of the result. */
    method DecodeInteger(token: Token) returns (ok: bool)
      requires Ready() && token.start < token.end <= |document_| && !LooksDouble(Text(document_, token))
      modifies this`errors_, this`root
      ensures After(Leaf(token, Numbers.DecodeNumber(features_.scan, Text(document_, token)),
                         GetAt(old(root), Top())).(pos := current_),
                    old(root), Top(), old(errors_), ok)
    {
      AssignSame(root, Top());
      hide SetAt, GetAt, Valid, Accumulate, LooksDouble, Threshold, Numbers.DecodeDouble;
      var isNegative := document_[token.start] == '-';
      var current := if isNegative then token.start + 1 else token.start;
      ghost var text := Text(document_, token);
      assert (if isNegative then text[1..] else text) == document_[current..token.end];
      var total := AccumulateDigits(current, token.end, Threshold(isNegative));
      if total.NotADigit? {
        ok := AddError(NotANumber(document_[token.start..token.end]), token, None);
      } else if total.TooBig? {
        ok := DecodeDouble(token);
      } else {
        if isNegative {
          SetCurrentValue(Int(-total.value));
        } else if total.value <= MAX_INT {
          SetCurrentValue(Int(total.value));
        } else {
          SetCurrentValue(UInt(total.value));
        }
        ok := true;
      }
    }

    /** The accumulation loop. */
    method AccumulateDigits(begin: nat, end: nat, threshold: nat) returns (total: Accumulated)
      requires begin <= end <= |document_|
      ensures total == Accumulate(document_[begin..end], 0, threshold)
    {
      var current, value := begin, 0;
      while current < end
        invariant begin <= current <= end && 0 <= value
        invariant Accumulate(document_[begin..end], 0, threshold)
               == Accumulate(document_[current..end], value, threshold)
      {
        ghost var rest := document_[current..end];
        var c := document_[current];
        assert rest[0] == c && rest[1..] == document_[current + 1..end];
        current := current + 1;
        if c < '0' || c > '9' {
          return NotADigit;
        }
        if value >= threshold {
          return TooBig;
        }
        value := (value * 10 + (c as int - '0' as int)) % WORD;
      }
      assert document_[current..end] == [];
      total := Total(value);
    }

    /** decodeDouble, with the C library's scanner as a parameter. */
    method DecodeDouble(token: Token) returns (ok: bool)
      requires Ready() && token.start <= token.end <= |document_|
      modifies this`errors_, this`root
      ensures After(Leaf(token, Numbers.DecodeDouble(features_.scan, Text(document_, token)),
                         GetAt(old(root), Top())).(pos := current_),
                    old(root), Top(), old(errors_), ok)
    {
      AssignSame(root, Top());
      var text := document_[token.start..token.end];
      var scanned := features_.scan(text);
      if scanned.None? {
        ok := AddError(NotANumber(text), token, None);
        return;
      }
      SetCurrentValue(Real(scanned.value));
      ok := true;
    }

    /** `Value &value = currentValue()[key]; nodes_.push(&value); ok = readValue(); nodes_.pop()`. */
    method ReadChild(key: Key) returns (ok: bool)
      requires Ready()
      requires var here := GetAt(root, Top()); (here.Array? || here.Object?) && Sorted(Entries(here))
      modifies this`current_, this`errors_, this`nodes_, this`root
      ensures nodes_ == old(nodes_)
      ensures var here := GetAt(old(root), Top());
        var r := Parser.ReadValue(features_, document_, old(current_), Get(Entries(here), key));
        After(r.(value := WithEntries(here, Put(Entries(here), key, r.value))), old(root), Top(), old(errors_), ok)
      decreases |document_| - current_, 1
    {
      hide SetAt, GetAt, Valid, Put, Get, Resolve, Parser.ReadValue;
      var top := nodes_[|nodes_| - 1];
      var here := GetAt(root, top);
      ghost var r := Parser.ReadValue(features_, document_, current_, Get(Entries(here), key));
      ResolveChild(root, top, key, r.value);
      SetCurrentValue(WithEntries(here, Resolve(Entries(here), key)));
      nodes_ := nodes_ + [top + [key]];
      ok := ReadValue();
      nodes_ := nodes_[..|nodes_| - 1];
    }

    /** The node at the top holds this container, and nothing else differs from `before`. */
    ghost predicate Building(v: Value, before: Value)
      reads this`root, this`nodes_
    {
      && nodes_ != [] && Valid(before, Top()) && Valid(root, Top())
      && root == SetAt(before, Top(), v) && GetAt(root, Top()) == v
    }

    /** `currentValue() = v`, at the start of a container. */
    method StartContainer(v: Value)
      requires Ready()
      modifies this`root
      ensures Ready() && Building(v, old(root)) && root == SetAt(old(root), Top(), v)
    {
      Assign(root, Top(), v, v);
      hide SetAt, GetAt, Valid;
      SetCurrentValue(v);
    }

    /** readObject, entered behind the opening brace. */
    method ReadObject() returns (ok: bool)
      requires Ready()
      modifies this`current_, this`errors_, this`nodes_, this`root
      ensures nodes_ == old(nodes_)
      ensures After(ReadMembers(features_, document_, old(current_), "", []), old(root), Top(), old(errors_), ok)
      decreases |document_| - current_, 4
    {
      hide SetAt, GetAt, Valid, Put, Get, SkipComments, Tokens.ReadToken, Parser.ReadValue, ReadMembers, Recover,
           Strings.DecodeString, CString, KeyLess, Building, NAME_EXPECTED, COMMA_EXPECTED;
      var name := "";
      ghost var members: seq<Entry> := [];
      ghost var start, before, errors := current_, root, errors_;
      StartContainer(Object([]));
      while true
        invariant nodes_ == old(nodes_) && Building(Object(members), before) && Sorted(members)
        invariant root == SetAt(before, Top(), Object(members))
        invariant InBounds() && errors_ == errors
        invariant ReadMembers(features_, document_, start, "", [])
               == ReadMembers(features_, document_, current_, name, members)
        decreases |document_| - current_
      {
        MembersName(features_, document_, current_, name, members);
        ghost var here := current_;
        var tokenName := ReadTokenBehindComments();
        if tokenName.kind == ObjectEnd && name == "" {
          return true;
        }
        if tokenName.kind != StringToken {
          ok := AddErrorAndRecover(NAME_EXPECTED, tokenName, ObjectEnd);
          return;
        }
        ghost var previous := name;
        ok, name := ReadMemberName(tokenName, here, name, members);
        if !ok { return; }
        ghost var key := Name(CString(name));
        ghost var r := Parser.ReadValue(features_, document_, current_, Get(members, key));
        var done;
        ok, done := ReadMember(name, tokenName, here, previous, members, before);
        members := Put(members, key, r.value);
        if done { return; }
      }
    }

    /** The rest of a round of the loop, behind the colon: the member's value, and how the loop goes on. */
    method ReadMember(name: string, ghost tokenName: Token, ghost here: nat, ghost previous: string,
                      ghost members: seq<Entry>, ghost before: Value) returns (ok: bool, done: bool)
      requires InBounds() && Building(Object(members), before) && Sorted(members)
      requires here <= |document_| && tokenName == SkipComments(document_, here) && tokenName.kind == StringToken
      requires Strings.DecodeString(document_, tokenName) == Good(name)
      requires Tokens.ReadToken(document_, tokenName.end).kind == MemberSeparator
      requires current_ == Tokens.ReadToken(document_, tokenName.end).end
      modifies this`current_, this`errors_, this`nodes_, this`root
      ensures nodes_ == old(nodes_) && old(current_) <= current_ <= |document_|
      ensures done ==>
        After(ReadMembers(features_, document_, here, previous, members), before, Top(), old(errors_), ok)
      ensures
        var key := Name(CString(name));
        var r := Parser.ReadValue(features_, document_, old(current_), Get(members, key));
        var read := Put(members, key, r.value);
        && Building(Object(read), before) && Sorted(read) && root == SetAt(before, Top(), Object(read))
        && (!done ==> errors_ == old(errors_)
                      && ReadMembers(features_, document_, here, previous, members)
                      == ReadMembers(features_, document_, current_, name, read))
      decreases |document_| - current_, 3
    {
      hide SetAt, GetAt, Valid, Put, Get, SkipComments, Tokens.ReadToken, Parser.ReadValue, ReadMembers, Recover,
           Strings.DecodeString, CString, KeyLess, COMMA_EXPECTED;
      ghost var key := Name(CString(name));
      ghost var r := Parser.ReadValue(features_, document_, current_, Get(members, key));
      MembersValue(features_, document_, here, previous, members, name, r);
      PutSorted(members, key, r.value);
      ok, done := ReadMemberValue(CString(name), r, members, before);
    }

    /** The part of the loop that reads a member's name and its colon. */
    method ReadMemberName(tokenName: Token, ghost here: nat, ghost previous: string, ghost members: seq<Entry>)
      returns (ok: bool, name: string)
      requires InBounds() && here <= |document_| && current_ == tokenName.end
      requires tokenName == SkipComments(document_, here) && tokenName.kind == StringToken
      modifies this`current_, this`errors_
      ensures InBounds() && tokenName.end <= current_
      ensures !ok ==>
        var r := ReadMembers(features_, document_, here, previous, members);
        !r.ok && r.value == Object(members) && current_ == r.pos && errors_ == old(errors_) + r.errors
      ensures ok ==> Strings.DecodeString(document_, tokenName) == Good(name) && errors_ == old(errors_)
      ensures ok ==> Tokens.ReadToken(document_, tokenName.end).kind == MemberSeparator
      ensures ok ==> current_ == Tokens.ReadToken(document_, tokenName.end).end
    {
      hide SkipComments, Tokens.ReadToken, Parser.ReadValue, ReadMembers, Recover, Strings.DecodeString,
           NAME_EXPECTED, COLON_EXPECTED;
      MembersName(features_, document_, here, previous, members);
      ok, name := DecodeStringToken(tokenName);
      if !ok {
        ok := RecoverFromError(ObjectEnd);
        return;
      }
      MembersColon(features_, document_, here, previous, members);
      var colon := ReadToken();
      if colon.kind != MemberSeparator {
        ok := AddErrorAndRecover(COLON_EXPECTED, colon, ObjectEnd);
      }
    }

    /** The part of the loop that reads a member's value and what separates it from the next member. */
    method ReadMemberValue(key: string, ghost r: Reading, ghost members: seq<Entry>, ghost before: Value)
      returns (ok: bool, done: bool)
      requires InBounds() && Building(Object(members), before) && Sorted(members)
      requires r == Parser.ReadValue(features_, document_, current_, Get(members, Name(key)))
      modifies this`current_, this`errors_, this`nodes_, this`root
      ensures nodes_ == old(nodes_) && r.pos <= |document_| && old(current_) <= current_ <= |document_|
      ensures Building(Object(Put(members, Name(key), r.value)), before)
      ensures var comma, separator := Tokens.ReadToken(document_, r.pos), SkipComments(document_, r.pos);
        if !r.ok then
          done && !ok && current_ == Recover(document_, r.pos, ObjectEnd) && errors_ == old(errors_) + r.errors
        else if comma.kind != ObjectEnd && comma.kind != ArraySeparator && comma.kind != Comment then
          done && !ok && current_ == Recover(document_, comma.end, ObjectEnd)
          && errors_ == old(errors_) + [ErrorInfo(COMMA_EXPECTED, comma, None)]
        else ok && errors_ == old(errors_) && current_ == separator.end && done == (separator.kind == ObjectEnd)
      decreases |document_| - current_, 2
    {
      hide SetAt, GetAt, Valid, Put, Get, SkipComments, Tokens.ReadToken, Parser.ReadValue, Recover, Resolve, KeyLess,
           COMMA_EXPECTED;
      done := true;
      Assign(before, Top(), Object(members), Object(Put(members, Name(key), r.value)));
      Assign(before, Top(), Object(Put(members, Name(key), r.value)), Null);
      ok := ReadChild(Name(key));
      if !ok {
        ok := RecoverFromError(ObjectEnd);
        return;
      }
      var comma := ReadToken();
      if comma.kind != ObjectEnd && comma.kind != ArraySeparator && comma.kind != Comment {
        ok := AddErrorAndRecover(COMMA_EXPECTED, comma, ObjectEnd);
        return;
      }
      SkipCommentsRound(document_, r.pos);
      if comma.kind == Comment {
        comma := ReadTokenBehindComments();
      }
      done := comma.kind == ObjectEnd;
    }

    /** readArray, entered behind the opening bracket. */
    method ReadArray() returns (ok: bool)
      requires Ready()
      modifies this`current_, this`errors_, this`nodes_, this`root
      ensures nodes_ == old(nodes_)
      ensures After(Parser.ReadArray(features_, document_, old(current_)), old(root), Top(), old(errors_), ok)
      decreases |document_| - current_, 3
    {
      hide SetAt, GetAt, Valid, Put, Get, SkipComments, Tokens.ReadToken, Parser.ReadValue, ReadElements, Recover,
           SkipSpaces, KeyLess, Building, BadSeparator, SEPARATOR_EXPECTED;
      ghost var before, errors := root, errors_;
      StartContainer(Array([]));
      SkipWhiteSpace();
      if Peek(document_, current_) == ']' {
        var endArray := ReadToken();
        return true;
      }
      var index := 0;
      ghost var start, items: seq<Entry> := current_, [];
      while true
        invariant nodes_ == old(nodes_) && Building(Array(items), before) && Sorted(items)
        invariant root == SetAt(before, Top(), Array(items))
        invariant InBounds() && errors_ == errors
        invariant ReadElements(features_, document_, start, 0, [])
               == ReadElements(features_, document_, current_, index, items)
        decreases |document_| - current_
      {
        ghost var r := Parser.ReadValue(features_, document_, current_, Get(items, Index(index)));
        ElementsRound(features_, document_, current_, index, items, r);
        ok := ReadElement(index, items, before);
        index := index + 1;
        items := Put(items, Index(index - 1), r.value);
        if !ok {
          ok := RecoverFromError(ArrayEnd);
          return;
        }
        var token := ReadTokenBehindComments();
        if BadSeparator(token.kind) {
          ok := AddErrorAndRecover(SEPARATOR_EXPECTED, token, ArrayEnd);
          return;
        }
        if token.kind == ArrayEnd {
          return true;
        }
      }
    }

    /** The part of the loop that reads an element. */
    method ReadElement(index: nat, ghost items: seq<Entry>, ghost before: Value) returns (ok: bool)
      requires InBounds() && Building(Array(items), before) && Sorted(items)
      modifies this`current_, this`errors_, this`nodes_, this`root
      ensures nodes_ == old(nodes_)
      ensures
        var r := Parser.ReadValue(features_, document_, old(current_), Get(items, Index(index)));
        var read := Put(items, Index(index), r.value);
        && ok == r.ok && current_ == r.pos && errors_ == old(errors_) + r.errors
        && Building(Array(read), before) && Sorted(read) && root == SetAt(before, Top(), Array(read))
      decreases |document_| - current_, 2
    {
      hide SetAt, GetAt, Valid, Put, Get, Parser.ReadValue, Resolve, KeyLess;
      ghost var r := Parser.ReadValue(features_, document_, current_, Get(items, Index(index)));
      ghost var read := Put(items, Index(index), r.value);
      Assign(before, Top(), Array(items), Array(read));
      Assign(before, Top(), Array(read), Null);
      PutSorted(items, Index(index), r.value);
      ok := ReadChild(Index(index));
    }

    /** parse: the previous contents of the reader do not matter. */
    method Parse(document: string, rootValue: Value) returns (ok: bool, result: Value)
      modifies this
      ensures var r := Parser.Parse(features_, document, rootValue);
        ok == r.ok && result == r.value && errors_ == r.errors && current_ == r.pos
      ensures document_ == document && nodes_ == [[]]
    {
      hide Parser.ReadValue, FirstToken, ROOT_EXPECTED;
      document_, current_, errors_ := document, 0, [];
      nodes_ := [];
      root := rootValue;
      nodes_ := nodes_ + [[]];
      var successful := ReadValue();
      var token := SkipCommentTokens();
      result := root;
      if features_.strictRoot && !IsContainer(root) {
        ok := AddError(ROOT_EXPECTED, Token(Error, 0, |document|), None);
        return;
      }
      ok := successful;
    }
  }
}
