/** What stands between two elements or two members. The test of readArray for a missing separator compares one token
    with two kinds at once (json_reader.cpp:566-567), so the error behind it is never reported and any token separates
    elements. In readObject a comment behind a value makes any token separate members (json_reader.cpp:517-531). */
module Separators {
  import opened Options
  import opened JsonValue
  import opened Tokens
  import opened Numbers
  import opened Strings
  import opened Parser
  import opened Layout
  import opened ReadBack
  import opened ParsedValues

  // ---- The error is never reported ----

  predicate Unreported(errors: seq<ErrorInfo>) {
    forall e | e in errors :: e.message != SEPARATOR_EXPECTED
  }

  lemma OtherMessages(text: string)
    ensures NotANumber(text) != SEPARATOR_EXPECTED
    ensures VALUE_EXPECTED != SEPARATOR_EXPECTED
    ensures NAME_EXPECTED != SEPARATOR_EXPECTED
    ensures COLON_EXPECTED != SEPARATOR_EXPECTED
    ensures COMMA_EXPECTED != SEPARATOR_EXPECTED
    ensures ROOT_EXPECTED != SEPARATOR_EXPECTED
  {
    assert SEPARATOR_EXPECTED[0] == 'M' && SEPARATOR_EXPECTED[8] == '\'' && SEPARATOR_EXPECTED[9] == ',';
    assert NotANumber(text)[0] == '\'';
    assert |VALUE_EXPECTED| == 46 && |ROOT_EXPECTED| == 65;
    assert NAME_EXPECTED[9] == '}' && COLON_EXPECTED[9] == ':';
    assert SEPARATOR_EXPECTED[16] == ']' && COMMA_EXPECTED[16] == '}';
  }

  lemma EscapeTexts()
    ensures FOUR_DIGITS_EXPECTED != SEPARATOR_EXPECTED && HEX_DIGIT_EXPECTED != SEPARATOR_EXPECTED
    ensures SIX_MORE_EXPECTED != SEPARATOR_EXPECTED && SECOND_HALF_EXPECTED != SEPARATOR_EXPECTED
    ensures EMPTY_ESCAPE != SEPARATOR_EXPECTED && BAD_ESCAPE != SEPARATOR_EXPECTED
  {
    assert |SEPARATOR_EXPECTED| == 39 && SEPARATOR_EXPECTED[0] == 'M';
    assert |FOUR_DIGITS_EXPECTED| > 39 && |HEX_DIGIT_EXPECTED| > 39;
    assert |SIX_MORE_EXPECTED| > 39 && |SECOND_HALF_EXPECTED| > 39;
    assert EMPTY_ESCAPE[0] == 'E' && BAD_ESCAPE[0] == 'B';
  }

  lemma StepMessages(doc: string, current: nat, end: nat)
    requires current < end <= |doc|
    ensures var step := DecodeStep(doc, current, end); step.Fail? ==> step.message != SEPARATOR_EXPECTED
  {
    hide DecodeCodePoint, CodePointToUtf8, SEPARATOR_EXPECTED, EMPTY_ESCAPE, BAD_ESCAPE;
    EscapeTexts();
    if doc[current] == '\\' && current + 2 <= end {
      CodeMessages(doc, current + 2, end);
    }
  }

  lemma CodeMessages(doc: string, current: nat, end: nat)
    requires current <= end <= |doc|
    ensures var r := DecodeCodePoint(doc, current, end); r.BadCode? ==> r.message != SEPARATOR_EXPECTED
  {
    hide DecodeEscapeSequence, SEPARATOR_EXPECTED, SIX_MORE_EXPECTED, SECOND_HALF_EXPECTED;
    EscapeTexts();
    EscapeMessages(doc, current, end);
    if current + 6 <= end {
      EscapeMessages(doc, current + 6, end);
    }
  }

  lemma EscapeMessages(doc: string, current: nat, end: nat)
    requires current <= end <= |doc|
    ensures var r := DecodeEscapeSequence(doc, current, end); r.BadCode? ==> r.message != SEPARATOR_EXPECTED
  {
    hide HexLoop, SEPARATOR_EXPECTED, FOUR_DIGITS_EXPECTED;
    EscapeTexts();
    if current + 4 <= end {
      HexMessages(doc, current, 4, 0);
    }
  }

  lemma {:induction false} HexMessages(doc: string, current: nat, left: nat, unicode: nat)
    requires current + left <= |doc|
    ensures var r := HexLoop(doc, current, left, unicode); r.BadCode? ==> r.message != SEPARATOR_EXPECTED
    decreases left
  {
    hide SEPARATOR_EXPECTED, HEX_DIGIT_EXPECTED, HexValue;
    EscapeTexts();
    if left > 0 && HexValue(doc[current]).Some? {
      HexMessages(doc, current + 1, left - 1, unicode * 16 + HexValue(doc[current]).value);
    }
  }

  lemma {:induction false} StringMessages(doc: string, current: nat, end: nat, decoded: string)
    requires current <= end <= |doc|
    ensures var d := DecodeChars(doc, current, end, decoded); d.Bad? ==> d.message != SEPARATOR_EXPECTED
    decreases end - current
  {
    hide DecodeStep;
    if current < end {
      StepMessages(doc, current, end);
      var step := DecodeStep(doc, current, end);
      if step.Emit? {
        StringMessages(doc, step.next, end, decoded + step.text);
      }
    }
  }

  lemma NumberMessages(scan: DoubleScanner, text: string)
    requires text != []
    ensures var d := DecodeNumber(scan, text); d.Bad? ==> d.message != SEPARATOR_EXPECTED
  {
    OtherMessages(text);
  }

  lemma ScalarUnreported(cfg: Config, doc: string, t: Token, old_: Value)
    requires t.start <= t.end <= |doc|
    requires t.kind == StringToken ==> t.start + 2 <= t.end
    requires t.kind == Number ==> t.start < t.end
    ensures Unreported(ReadScalar(cfg, doc, t, old_).errors)
  {
    hide ReadScalar, DecodeChars, DecodeNumber, VALUE_EXPECTED, SEPARATOR_EXPECTED, CString, NotANumber;
    ScalarCases(cfg, doc, t, old_);
    OtherMessages("");
    if t.kind == Number {
      NumberMessages(cfg.scan, Text(doc, t));
    } else if t.kind == StringToken {
      StringMessages(doc, t.start + 1, t.end - 1, []);
    }
  }

  lemma {:induction false} ValueUnreported(cfg: Config, doc: string, pos: nat, old_: Value)
    requires pos <= |doc|
    ensures Unreported(ReadValue(cfg, doc, pos, old_).errors)
    decreases |doc| - pos, 0
  {
    hide *;
    ReadValueCases(cfg, doc, pos, old_);
    var t := FirstToken(cfg, doc, pos);
    if t.kind == ObjectBegin {
      MembersUnreported(cfg, doc, t.end, "", []);
    } else if t.kind == ArrayBegin {
      ArrayUnreported(cfg, doc, t.end);
    } else {
      ScalarUnreported(cfg, doc, t, old_);
    }
  }

  lemma {:induction false} MembersUnreported(cfg: Config, doc: string, pos: nat, name: string, members: seq<Entry>)
    requires pos <= |doc|
    ensures Unreported(ReadMembers(cfg, doc, pos, name, members).errors)
    decreases |doc| - pos, 1
  {
    hide ReadMembers, ReadValue, ReadToken, SkipComments, DecodeChars, Recover, Put, Get, CString, SEPARATOR_EXPECTED,
         NotANumber, ROOT_EXPECTED, VALUE_EXPECTED, NAME_EXPECTED, COLON_EXPECTED, COMMA_EXPECTED;
    OtherMessages("");
    MembersName(cfg, doc, pos, name, members);
    var t := SkipComments(doc, pos);
    if t.kind == StringToken {
      StringMessages(doc, t.start + 1, t.end - 1, []);
      if DecodeString(doc, t).Good? {
        MembersColon(cfg, doc, pos, name, members);
        var n, colon := DecodeString(doc, t).value, ReadToken(doc, t.end);
        if colon.kind == MemberSeparator {
          var key := Name(CString(n));
          var r := ReadValue(cfg, doc, colon.end, Get(members, key));
          MembersValue(cfg, doc, pos, name, members, n, r);
          ValueUnreported(cfg, doc, colon.end, Get(members, key));
          var separator := SkipComments(doc, r.pos);
          if r.ok && separator.kind != ObjectEnd {
            MembersUnreported(cfg, doc, separator.end, n, Put(members, key, r.value));
          }
        }
      }
    }
  }

  lemma {:induction false} ArrayUnreported(cfg: Config, doc: string, pos: nat)
    requires pos <= |doc|
    ensures Unreported(ReadArray(cfg, doc, pos).errors)
    decreases |doc| - pos, 2
  {
    hide ReadValue, ReadElements, ReadToken, SEPARATOR_EXPECTED;
    ReadArrayStarts(cfg, doc, pos);
    if Peek(doc, SkipSpaces(doc, pos)) != ']' {
      ElementsUnreported(cfg, doc, SkipSpaces(doc, pos), 0, []);
    }
  }

  lemma {:induction false} ElementsUnreported(cfg: Config, doc: string, pos: nat, index: nat, items: seq<Entry>)
    requires pos <= |doc|
    ensures Unreported(ReadElements(cfg, doc, pos, index, items).errors)
    decreases |doc| - pos, 1
  {
    hide BadSeparator, ReadElements, ReadValue, ReadToken, SkipComments, Recover, Put, Get, SEPARATOR_EXPECTED;
    var r := ReadValue(cfg, doc, pos, Get(items, Index(index)));
    ElementsRound(cfg, doc, pos, index, items, r);
    ValueUnreported(cfg, doc, pos, Get(items, Index(index)));
    var t := SkipComments(doc, r.pos);
    NoBadSeparator(t.kind);
    if r.ok && t.kind != ArrayEnd {
      ElementsUnreported(cfg, doc, t.end, index + 1, Put(items, Index(index), r.value));
    }
  }

  /** No document makes the parser report a missing array separator. */
  lemma SeparatorNeverMissed(cfg: Config, doc: string, root: Value)
    ensures forall e | e in Parse(cfg, doc, root).errors ::
              e.message != "Missing ',' or ']' in array declaration"
  {
    hide ReadValue, FirstToken, SEPARATOR_EXPECTED, NotANumber, ROOT_EXPECTED, VALUE_EXPECTED, NAME_EXPECTED,
         COLON_EXPECTED, COMMA_EXPECTED;
    OtherMessages("");
    ValueUnreported(cfg, doc, 0, root);
    assert Unreported(Parse(cfg, doc, root).errors);
    SameText();
  }

  lemma SameText()
    ensures SEPARATOR_EXPECTED == "Missing ',' or ']' in array declaration"
  {}

  // ---- Any token separates ----

  /** The tokens of the values with one of `separators` after each but the last, and the closing bracket. */
  function Separated(values: seq<Value>, separators: seq<Lexeme>): (r: seq<Lexeme>)
    requires |values| == |separators| + 1
    ensures r != []
  {
    ValueLexemes(values[0])
    + if separators == [] then [RBRACKET] else [separators[0]] + Separated(values[1..], separators[1..])
  }

  function Elements(scan: DoubleScanner, values: seq<Value>, index: nat): seq<Entry> {
    if values == [] then []
    else [Entry(Index(index), Reread(scan, values[0]))] + Elements(scan, values[1..], index + 1)
  }

  ghost predicate ReadableAll(scan: DoubleScanner, values: seq<Value>) {
    forall k | 0 <= k < |values| :: WellFormed(values[k]) && Readable(scan, values[k])
  }

  /** Single tokens, none of them the closing bracket. */
  ghost predicate AnySeparators(separators: seq<Lexeme>) {
    forall k | 0 <= k < |separators| :: ValidLexeme(separators[k]) && separators[k].kind != ArrayEnd
  }

  lemma SeparatorKind(l: Lexeme)
    requires ValidLexeme(l)
    ensures l.kind != Comment
  {}

  lemma SeparatedStep(cfg: Config, doc: string, pos: nat, values: seq<Value>, separators: seq<Lexeme>, end: nat)
    returns (mid: nat)
    requires pos <= |doc| && |values| == |separators| + 1 && ReadableAll(cfg.scan, values)
    requires LayEnd(doc, pos, Separated(values, separators)) == Some(end)
    ensures pos <= mid <= |doc| && LayEnd(doc, pos, ValueLexemes(values[0])) == Some(mid)
    ensures separators == [] ==> LayEnd(doc, mid, [RBRACKET] + []) == Some(end)
    ensures separators != [] ==>
      LayEnd(doc, mid, [separators[0]] + Separated(values[1..], separators[1..])) == Some(end)
    ensures separators != [] ==> ReadableAll(cfg.scan, values[1..])
  {
    hide LayEnd, ValueLexemes;
    var rest := if separators == [] then [RBRACKET] else [separators[0]] + Separated(values[1..], separators[1..]);
    LayConcat(doc, pos, ValueLexemes(values[0]), rest);
    mid := LayEnd(doc, pos, ValueLexemes(values[0])).value;
    assert [RBRACKET] + [] == [RBRACKET];
  }

  lemma ElementsFirst(scan: DoubleScanner, values: seq<Value>, index: nat)
    requires values != []
    ensures Elements(scan, values, index)
         == [Entry(Index(index), Reread(scan, values[0]))] + Elements(scan, values[1..], index + 1)
    ensures |values| == 1 ==> Elements(scan, values[1..], index + 1) == []
  {}

  lemma FirstReadable(scan: DoubleScanner, values: seq<Value>, separators: seq<Lexeme>)
    requires ReadableAll(scan, values) && values != [] && AnySeparators(separators)
    ensures WellFormed(values[0]) && Readable(scan, values[0])
    ensures separators != [] ==>
      ValidLexeme(separators[0]) && separators[0].kind != ArrayEnd && AnySeparators(separators[1..])
  {}

  lemma {:induction false} SeparatedReadBack(cfg: Config, doc: string, pos: nat, values: seq<Value>,
                                             separators: seq<Lexeme>, done: seq<Entry>, end: nat)
    requires pos <= |doc| && |values| == |separators| + 1 && ReadableAll(cfg.scan, values)
    requires AnySeparators(separators) && Dense(done)
    requires LayEnd(doc, pos, Separated(values, separators)) == Some(end)
    ensures ReadElements(cfg, doc, pos, |done|, done)
         == Reading(true, end, Array(done + Elements(cfg.scan, values, |done|)), [])
    decreases |values|
  {
    hide *;
    PunctuationIsValid();
    var v, index := values[0], |done|;
    FirstReadable(cfg.scan, values, separators);
    var mid := SeparatedStep(cfg, doc, pos, values, separators, end);
    ReadsBack(cfg, doc, pos, v, Get(done, Index(index)), mid);
    var entry := Entry(Index(index), Reread(cfg.scan, v));
    DenseAppend(done, entry.value);
    ElementsFirst(cfg.scan, values, index);
    assert done + Elements(cfg.scan, values, index) == done + [entry] + Elements(cfg.scan, values[1..], index + 1);
    if separators == [] {
      var after := LayHead(doc, mid, RBRACKET, [], end);
      LayNothing(doc, after);
      ReadElementsRound(cfg, doc, pos, index, done, entry.value, mid);
      assert done + [entry] + [] == done + [entry];
    } else {
      SeparatorKind(separators[0]);
      var after := LayHead(doc, mid, separators[0], Separated(values[1..], separators[1..]), end);
      ReadElementsRound(cfg, doc, pos, index, done, entry.value, mid);
      SeparatedReadBack(cfg, doc, after, values[1..], separators[1..], done + [entry], end);
    }
  }

  /** An array text whose elements are separated by any tokens but closing brackets, also by numbers, strings or
      braces, is read without an error as the array of those elements; the separating tokens are dropped. */
  lemma AnyTokenSeparates(cfg: Config, doc: string, pos: nat, values: seq<Value>, separators: seq<Lexeme>, old_: Value,
                          end: nat)
    requires pos <= |doc| && |values| == |separators| + 1 && ReadableAll(cfg.scan, values)
    requires AnySeparators(separators)
    requires LayEnd(doc, pos, [LBRACKET] + Separated(values, separators)) == Some(end)
    ensures ReadValue(cfg, doc, pos, old_) == Reading(true, end, Array(Elements(cfg.scan, values, 0)), [])
  {
    hide *;
    PunctuationIsValid();
    var lexemes := Separated(values, separators);
    var after := LayHead(doc, pos, LBRACKET, lexemes, end);
    ReadContainer(cfg, doc, pos, old_);
    ReadArrayStarts(cfg, doc, after);
    FirstReadable(cfg.scan, values, separators);
    SeparatedHead(cfg.scan, values, separators);
    NoBracketAhead(doc, after, values[0], lexemes, end);
    DenseEmpty();
    SeparatedReadBack(cfg, doc, SkipSpaces(doc, after), values, separators, [], end);
    assert [] + Elements(cfg.scan, values, 0) == Elements(cfg.scan, values, 0);
  }

  lemma SeparatedHead(scan: DoubleScanner, values: seq<Value>, separators: seq<Lexeme>)
    requires |values| == |separators| + 1 && Readable(scan, values[0])
    ensures !values[0].Real? && |ValueLexemes(values[0])| <= |Separated(values, separators)|
    ensures Separated(values, separators)[0] == ValueLexemes(values[0])[0]
  {
    hide ValueLexemes;
  }

  /** `[1 2 3]` is read as the array of 1 and 3. */
  lemma NumberSeparates(cfg: Config, root: Value)
    ensures Parse(cfg, "[1 2 3]", root)
         == Reading(true, 7, Array([Entry(Index(0), Int(1)), Entry(Index(1), Int(3))]), [])
  {
    hide ReadValue, DecodeNumber, ReadToken;
    var doc, values, separators := "[1 2 3]", [Int(1), Int(3)], [Lexeme(Number, "2")];
    assert IntText(1) == "1" && IntText(3) == "3";
    OneThree(cfg, values);
    assert separators[1..] == [] && values[1..] == [Int(3)];
    assert Separated([Int(3)], []) == [Lexeme(Number, "3"), RBRACKET];
    assert [LBRACKET] + Separated(values, separators)
        == [LBRACKET, Lexeme(Number, "1"), Lexeme(Number, "2"), Lexeme(Number, "3"), RBRACKET];
    LaysOut(doc);
    assert AnySeparators(separators);
    AnyTokenSeparates(cfg, doc, 0, values, separators, root, 7);
    AtEnd(cfg, doc);
  }

  lemma OneThree(cfg: Config, values: seq<Value>)
    requires values == [Int(1), Int(3)]
    ensures ReadableAll(cfg.scan, values)
    ensures Elements(cfg.scan, values, 0) == [Entry(Index(0), Int(1)), Entry(Index(1), Int(3))]
  {
    hide DecodeNumber;
    IntReadBack(cfg.scan, 1);
    IntReadBack(cfg.scan, 3);
    assert values[1..] == [Int(3)] && [Int(3)][1..] == [];
  }

  lemma LaysOut(doc: string)
    requires doc == "[1 2 3]"
    ensures LayEnd(doc, 0, [LBRACKET, Lexeme(Number, "1"), Lexeme(Number, "2"), Lexeme(Number, "3"), RBRACKET])
         == Some(7)
  {
    var five := [LBRACKET, Lexeme(Number, "1"), Lexeme(Number, "2"), Lexeme(Number, "3"), RBRACKET];
    assert five[1..][1..][1..][1..] == [RBRACKET] && five[1..][1..][1..] == [five[3], RBRACKET];
    assert LayEnd(doc, 6, [RBRACKET]) == Some(7);
    assert SkipSpaces(doc, 2) == 3 && SkipSpaces(doc, 4) == 5 && SkipSpaces(doc, 6) == 6;
    assert At(doc, 3, "2") && At(doc, 5, "3") && Ends(doc, 6);
    assert LayEnd(doc, 4, five[1..][1..][1..]) == Some(7);
    assert LayEnd(doc, 2, five[1..][1..]) == Some(7);
    assert LayEnd(doc, 1, five[1..]) == Some(7);
  }

  lemma AtEnd(cfg: Config, doc: string)
    ensures FirstToken(cfg, doc, |doc|) == Token(EndOfStream, |doc|, |doc|)
  {
    assert ReadToken(doc, |doc|) == Token(EndOfStream, |doc|, |doc|);
  }

  // ---- Behind a comment any token separates members ----

  /** Where the text of an object ends that stands from `pos` on: names, colons and values laid out as usual, and
      between two members a comma, or a comment and then whatever token comes next but a closing brace. */
  function SeparatedEnd(doc: string, pos: nat, members: seq<Entry>): (r: Option<nat>)
    requires pos <= |doc| && members != []
    decreases |members|
  {
    match LayEnd(doc, pos, MemberLexeme(members[0]))
    case None => None
    case Some(mid) =>
      if |members| == 1 then LayEnd(doc, mid, [RBRACE] + [])
      else if !SeparatesMembers(doc, mid) then None
      else SeparatedEnd(doc, SkipComments(doc, mid).end, members[1..])
  }

  function MemberLexeme(member: Entry): seq<Lexeme> {
    [Lexeme(StringToken, Quoted(KeyText(member)))] + ([COLON] + (ValueLexemes(member.value) + []))
  }

  predicate SeparatesMembers(doc: string, pos: nat)
    requires pos <= |doc|
  {
    var t := ReadToken(doc, pos);
    (t.kind == ArraySeparator || t.kind == Comment) && SkipComments(doc, pos).kind != ObjectEnd
  }

  /** The members put into the map one by one, as they are read back. */
  function PutAll(scan: DoubleScanner, done: seq<Entry>, members: seq<Entry>): seq<Entry>
    decreases |members|
  {
    if members == [] then done
    else PutAll(scan, Put(done, members[0].key, Reread(scan, members[0].value)), members[1..])
  }

  ghost predicate ReadableMember(scan: DoubleScanner, member: Entry) {
    member.key.Name? && NulFree(member.key.name) && WellFormed(member.value) && Readable(scan, member.value)
  }

  ghost predicate ReadableMembers(scan: DoubleScanner, members: seq<Entry>) {
    forall k | 0 <= k < |members| :: ReadableMember(scan, members[k])
  }

  lemma SeparatedEndCases(scan: DoubleScanner, doc: string, pos: nat, members: seq<Entry>, end: nat)
    returns (mid: nat)
    requires pos <= |doc| && members != [] && ReadableMembers(scan, members)
    requires SeparatedEnd(doc, pos, members) == Some(end)
    ensures ReadableMember(scan, members[0]) && ReadableMembers(scan, members[1..])
    ensures mid <= |doc| && LayEnd(doc, pos, MemberLexeme(members[0])) == Some(mid)
    ensures |members| == 1 ==> LayEnd(doc, mid, [RBRACE] + []) == Some(end)
    ensures |members| > 1 ==> SeparatesMembers(doc, mid)
                              && SeparatedEnd(doc, SkipComments(doc, mid).end, members[1..]) == Some(end)
  {
    hide LayEnd, MemberLexeme, SkipComments, SeparatesMembers;
    mid := LayEnd(doc, pos, MemberLexeme(members[0])).value;
  }

  lemma PutAllStep(scan: DoubleScanner, done: seq<Entry>, members: seq<Entry>)
    requires members != []
    ensures var read := Put(done, members[0].key, Reread(scan, members[0].value));
      && PutAll(scan, done, members) == PutAll(scan, read, members[1..])
      && (|members| == 1 ==> PutAll(scan, done, members) == read)
  {
    hide Put, Reread;
  }

  /** What follows a member that was read. */
  lemma NextMember(cfg: Config, doc: string, pos: nat, name: string, done: seq<Entry>, key: string, v: Value, mid: nat)
    requires pos <= |doc| && mid <= |doc| && NulFree(key) && SeparatesMembers(doc, mid)
    requires var t := ReadToken(doc, pos); t.kind == StringToken && DecodeString(doc, t) == Good(key)
    requires ReadToken(doc, ReadToken(doc, pos).end).kind == MemberSeparator
    requires ReadValue(cfg, doc, ReadToken(doc, ReadToken(doc, pos).end).end, Get(done, Name(key)))
          == Reading(true, mid, v, [])
    ensures ReadMembers(cfg, doc, pos, name, done)
         == ReadMembers(cfg, doc, SkipComments(doc, mid).end, key, Put(done, Name(key), v))
  {
    SkipCommentsIs(doc, pos);
    hide ReadMembers, ReadValue, SkipComments, ReadToken, DecodeString, Put, Get, COMMA_EXPECTED;
    MembersValue(cfg, doc, pos, name, done, key, Reading(true, mid, v, []));
  }

  lemma {:induction false} SeparatedMembersReadBack(cfg: Config, doc: string, pos: nat, name: string, done: seq<Entry>,
                                                    members: seq<Entry>, end: nat)
    requires pos <= |doc| && members != [] && ReadableMembers(cfg.scan, members)
    requires SeparatedEnd(doc, pos, members) == Some(end)
    ensures ReadMembers(cfg, doc, pos, name, done) == Reading(true, end, Object(PutAll(cfg.scan, done, members)), [])
    decreases |members|
  {
    hide *;
    var member := members[0];
    var after := SeparatedEndCases(cfg.scan, doc, pos, members, end);
    var mid := OneMemberReadsBack(cfg, doc, pos, done, member, after);
    var key, v := member.key.name, Reread(cfg.scan, member.value);
    PutAllStep(cfg.scan, done, members);
    if |members| == 1 {
      LastMemberReadBack(cfg, doc, pos, name, done, key, v, mid, end);
    } else {
      NextMember(cfg, doc, pos, name, done, key, v, mid);
      SeparatedMembersReadBack(cfg, doc, SkipComments(doc, mid).end, key, Put(done, Name(key), v), members[1..], end);
    }
  }

  lemma OneMemberReadsBack(cfg: Config, doc: string, pos: nat, done: seq<Entry>, member: Entry, after: nat)
    returns (mid: nat)
    requires pos <= |doc| && ReadableMember(cfg.scan, member)
    requires LayEnd(doc, pos, MemberLexeme(member)) == Some(after)
    ensures mid == after <= |doc| && member.key.Name? && NulFree(member.key.name) && member.key == Name(member.key.name)
    ensures var t := ReadToken(doc, pos); t.kind == StringToken && DecodeString(doc, t) == Good(member.key.name)
    ensures ReadToken(doc, ReadToken(doc, pos).end).kind == MemberSeparator
    ensures ReadValue(cfg, doc, ReadToken(doc, ReadToken(doc, pos).end).end, Get(done, member.key))
         == Reading(true, mid, Reread(cfg.scan, member.value), [])
  {
    hide LayEnd, ReadToken, ReadValue, DecodeString, ValueLexemes, Reread, WellFormed, Readable, NulFree, Get;
    mid := MemberReadsBack(cfg, doc, pos, done, member, [], after);
    LayNothing(doc, mid);
  }

  /** An object text whose members are separated by commas, or by comments each with any one token behind it, is read
      without an error; the separating tokens are dropped. */
  lemma AnyTokenSeparatesMembers(cfg: Config, doc: string, pos: nat, members: seq<Entry>, old_: Value, end: nat)
    requires pos <= |doc| && members != [] && ReadableMembers(cfg.scan, members)
    requires ReadToken(doc, pos).kind == ObjectBegin
    requires SeparatedEnd(doc, ReadToken(doc, pos).end, members) == Some(end)
    ensures ReadValue(cfg, doc, pos, old_) == Reading(true, end, Object(PutAll(cfg.scan, [], members)), [])
  {
    hide *;
    ReadContainer(cfg, doc, pos, old_);
    SeparatedMembersReadBack(cfg, doc, ReadToken(doc, pos).end, "", [], members, end);
  }

  const COMMENTED := "{\"a\":1/**/2\"b\":3}"

  /** `{"a":1/**/2"b":3}` is read as the object with `a` 1 and `b` 3. */
  lemma NumberSeparatesMembers(cfg: Config, root: Value)
    ensures Parse(cfg, "{\"a\":1/**/2\"b\":3}", root)
         == Reading(true, 17, Object([Entry(Name("a"), Int(1)), Entry(Name("b"), Int(3))]), [])
  {
    hide ReadValue, DecodeNumber, ReadToken, SeparatedEnd;
    var members := [Entry(Name("a"), Int(1)), Entry(Name("b"), Int(3))];
    TwoMembers(cfg, members);
    CommentedLays(members);
    AnyTokenSeparatesMembers(cfg, COMMENTED, 0, members, root, 17);
    AtEnd(cfg, COMMENTED);
  }

  lemma TwoMembers(cfg: Config, members: seq<Entry>)
    requires members == [Entry(Name("a"), Int(1)), Entry(Name("b"), Int(3))]
    ensures ReadableMembers(cfg.scan, members) && PutAll(cfg.scan, [], members) == members
  {
    hide DecodeNumber, PutAll;
    IntReadBack(cfg.scan, 1);
    IntReadBack(cfg.scan, 3);
    assert NulFree("a") && NulFree("b") && StrLess("a", "b");
    var first := [members[0]];
    assert Put([], Name("a"), Int(1)) == first;
    assert first[1..] == [] && Put(first, Name("b"), Int(3)) == members;
    assert members[1..] == [members[1]] && members[1..][1..] == [];
    PutAllStep(cfg.scan, [], members);
    PutAllStep(cfg.scan, first, members[1..]);
  }

  lemma CommentedLays(members: seq<Entry>)
    requires members == [Entry(Name("a"), Int(1)), Entry(Name("b"), Int(3))]
    ensures |COMMENTED| == 17 && ReadToken(COMMENTED, 0) == Token(ObjectBegin, 0, 1)
    ensures SeparatedEnd(COMMENTED, 1, members) == Some(17)
  {
    CommentedTexts();
    hide LayEnd, ReadToken, SkipComments, COMMENTED, At, Ends, Quoted, IntText, IsSpace;
    MemberLays(COMMENTED, members[0], 1);
    MemberLays(COMMENTED, members[1], 11);
    CommentedTokens();
    assert members[1..] == [members[1]];
    assert [RBRACE] + [] == [RBRACE];
    assert SeparatedEnd(COMMENTED, 11, [members[1]]) == Some(17);
  }

  lemma CommentedTexts()
    ensures |COMMENTED| == 17
    ensures |Quoted("a")| == |Quoted("b")| == 3 && |IntText(1)| == |IntText(3)| == 1
    ensures At(COMMENTED, 1, Quoted("a")) && At(COMMENTED, 4, ":") && At(COMMENTED, 5, IntText(1))
    ensures At(COMMENTED, 11, Quoted("b")) && At(COMMENTED, 14, ":") && At(COMMENTED, 15, IntText(3))
    ensures Ends(COMMENTED, 6) && Ends(COMMENTED, 16)
    ensures !IsSpace(COMMENTED[1]) && !IsSpace(COMMENTED[4]) && !IsSpace(COMMENTED[5])
    ensures !IsSpace(COMMENTED[11]) && !IsSpace(COMMENTED[14]) && !IsSpace(COMMENTED[15])
  {
    CommentedCharacters(COMMENTED);
    PlainQuoted('a');
    PlainQuoted('b');
    assert IntText(1) == "1" && IntText(3) == "3";
    hide COMMENTED, Quoted, IntText;
    assert COMMENTED[1..4] == "\"a\"" && COMMENTED[11..14] == "\"b\"";
    assert COMMENTED[4..5] == COMMENTED[14..15] == ":" && COMMENTED[5..6] == "1" && COMMENTED[15..16] == "3";
  }

  lemma PlainQuoted(c: char)
    requires c == 'a' || c == 'b'
    ensures Quoted([c]) == ['"', c, '"']
  {
    EscapePlain([c]);
  }

  lemma CommentedCharacters(doc: string)
    requires doc == COMMENTED
    ensures |doc| == 17 && doc[0] == '{' && doc[16] == '}'
    ensures doc[1] == '"' && doc[2] == 'a' && doc[3] == '"' && doc[4] == ':' && doc[5] == '1'
    ensures doc[6] == '/' && doc[7] == '*' && doc[8] == '*' && doc[9] == '/' && doc[10] == '2'
    ensures doc[11] == '"' && doc[12] == 'b' && doc[13] == '"' && doc[14] == ':' && doc[15] == '3'
  {}

  lemma CommentedTokens()
    ensures |COMMENTED| == 17 && ReadToken(COMMENTED, 0) == Token(ObjectBegin, 0, 1)
    ensures SeparatesMembers(COMMENTED, 6) && SkipComments(COMMENTED, 6).end == 11
    ensures LayEnd(COMMENTED, 16, [RBRACE]) == Some(17)
  {
    CommentedCharacters(COMMENTED);
    hide COMMENTED, ReadToken, LayEnd;
    assert COMMENTED[6..11] == "/**/2";
    CommentAndDigit(COMMENTED);
    LayAt(COMMENTED, 16, [RBRACE], 17);
    assert [RBRACE][1..] == [];
    LayNothing(COMMENTED, 17);
    BraceToken(COMMENTED);
  }

  lemma BraceToken(doc: string)
    requires doc != [] && doc[0] == '{'
    ensures ReadToken(doc, 0) == Token(ObjectBegin, 0, 1)
  {}

  lemma CommentAndDigit(doc: string)
    requires |doc| == 17 && doc[6..11] == "/**/2" && doc[11] == '"'
    ensures ReadToken(doc, 6) == Token(Comment, 6, 10) && ReadToken(doc, 10) == Token(Number, 10, 11)
  {
    assert doc[6..11][0] == '/' && doc[6..11][1] == '*' && doc[6..11][2] == '*' && doc[6..11][3] == '/';
    assert doc[10] == doc[6..11][4] == '2' && NumberEnd(doc, 11) == 11;
    assert CStyleCommentEnd(doc, 8) == Scan(true, 10);
  }

  lemma MemberLays(doc: string, member: Entry, pos: nat)
    requires member.key.Name? && member.value.Int? && pos + 5 <= |doc|
    requires |Quoted(member.key.name)| == 3 && |IntText(member.value.i)| == 1
    requires At(doc, pos, Quoted(member.key.name)) && At(doc, pos + 3, ":") && At(doc, pos + 4, IntText(member.value.i))
    requires !IsSpace(doc[pos]) && !IsSpace(doc[pos + 3]) && !IsSpace(doc[pos + 4]) && Ends(doc, pos + 5)
    ensures LayEnd(doc, pos, MemberLexeme(member)) == Some(pos + 5)
  {
    hide At, IntText, Quoted, Ends, LayEnd;
    var l0, l2 := Lexeme(StringToken, Quoted(member.key.name)), Lexeme(Number, IntText(member.value.i));
    assert MemberLexeme(member) == [l0, COLON, l2];
    assert [l0, COLON, l2][1..] == [COLON, l2] && [COLON, l2][1..] == [l2] && [l2][1..] == [];
    LayAt(doc, pos, [l0, COLON, l2], pos + 3);
    LayAt(doc, pos + 3, [COLON, l2], pos + 4);
    LayAt(doc, pos + 4, [l2], pos + 5);
    LayNothing(doc, pos + 5);
  }

  /** One lexeme of a layout that stands right at its position. */
  lemma LayAt(doc: string, pos: nat, lexemes: seq<Lexeme>, after: nat)
    requires pos < |doc| && !IsSpace(doc[pos]) && lexemes != [] && after == pos + |lexemes[0].text|
    requires At(doc, pos, lexemes[0].text) && (lexemes[0].kind == Number ==> Ends(doc, after))
    ensures after <= |doc| && LayEnd(doc, pos, lexemes) == LayEnd(doc, after, lexemes[1..])
  {
  }
}
