/** Printed values as token sequences, and what it means for a text to be a layout of a token sequence, whatever
    the white space. */
module Layout {
  import opened Options
  import opened JsonValue
  import opened Tokens
  import opened Numbers
  import opened Strings

  // ---- The tokens of a value ----

  datatype Lexeme = Lexeme(kind: TokenType, text: string)

  const LBRACE := Lexeme(ObjectBegin, "{")
  const RBRACE := Lexeme(ObjectEnd, "}")
  const LBRACKET := Lexeme(ArrayBegin, "[")
  const RBRACKET := Lexeme(ArrayEnd, "]")
  const COMMA := Lexeme(ArraySeparator, ",")
  const COLON := Lexeme(MemberSeparator, ":")

  /** The tokens a value is printed as; a missing array element is printed as null. */
  function ValueLexemes(v: Value): (r: seq<Lexeme>)
    ensures r != []
    decreases Weight(v), 1, 0
  {
    match v
    case Null => [Lexeme(NullToken, "null")]
    case Int(i) => [Lexeme(Number, IntText(i))]
    case UInt(u) => [Lexeme(Number, IntText(u))]
    case Real(_) => [Lexeme(Error, "")]
    case String(s) => [Lexeme(StringToken, Quoted(s))]
    case Bool(b) => [if b then Lexeme(True, "true") else Lexeme(False, "false")]
    case Array(items) => [LBRACKET] + ElementLexemes(items, 0)
    case Object(members) => [LBRACE] + MemberLexemes(members)
  }

  /** Elements `index` and up, with the closing bracket. */
  function ElementLexemes(items: seq<Entry>, index: nat): (r: seq<Lexeme>)
    ensures r != []
    decreases Weight(Array(items)), 0, Size(Array(items)) - index
  {
    var size := Size(Array(items));
    if index >= size then [RBRACKET]
    else
      GetWeight(items, Index(index));
      ValueLexemes(ItemAt(items, index))
      + (if index + 1 < size then [COMMA] else [])
      + ElementLexemes(items, index + 1)
  }

  /** The members with the closing brace. */
  function MemberLexemes(members: seq<Entry>): (r: seq<Lexeme>)
    ensures r != []
    decreases EntriesWeight(members), 0, 0
  {
    if members == [] then [RBRACE]
    else
      WeightStep(members);
      [Lexeme(StringToken, Quoted(KeyText(members[0]))), COLON]
      + ValueLexemes(members[0].value)
      + (if |members| > 1 then [COMMA] else [])
      + MemberLexemes(members[1..])
  }

  function KeyText(e: Entry): string {
    if e.key.Name? then e.key.name else []
  }

  // ---- Layouts ----

  /** Where the tokens end when they stand in the document from `pos` on with white space in between.
      A number must not run into the text behind it. */
  function LayEnd(doc: string, pos: nat, lexemes: seq<Lexeme>): (r: Option<nat>)
    requires pos <= |doc|
    ensures r.Some? ==> pos <= r.value <= |doc|
    decreases |lexemes|
  {
    if lexemes == [] then Some(pos)
    else
      var l, start := lexemes[0], SkipSpaces(doc, pos);
      var end := start + |l.text|;
      if At(doc, start, l.text) && (l.kind == Number ==> Ends(doc, end)) then LayEnd(doc, end, lexemes[1..])
      else None
  }

  /** No number can continue at `pos`. */
  predicate Ends(doc: string, pos: nat) {
    pos >= |doc| || !IsNumberChar(doc[pos])
  }

  lemma {:induction false} LayConcat(doc: string, pos: nat, a: seq<Lexeme>, b: seq<Lexeme>)
    requires pos <= |doc|
    ensures LayEnd(doc, pos, a + b)
         == match LayEnd(doc, pos, a) case Some(mid) => LayEnd(doc, mid, b) case None => None
    decreases |a|
  {
    hide SkipSpaces, At, Ends;
    if a == [] {
      assert a + b == b;
    } else {
      assert (a + b)[1..] == a[1..] + b;
      var end := SkipSpaces(doc, pos) + |a[0].text|;
      if end <= |doc| {
        LayConcat(doc, end, a[1..], b);
      }
    }
  }

  lemma SkipSpacesStays(doc: string, pos: nat)
    requires pos < |doc| && !IsSpace(doc[pos])
    ensures SkipSpaces(doc, pos) == pos
  {}

  /** The text of a token of this kind that the tokenizer reads as a whole. */
  ghost predicate ValidLexeme(l: Lexeme) {
    match l.kind
    case ObjectBegin => l.text == "{"
    case ObjectEnd => l.text == "}"
    case ArrayBegin => l.text == "["
    case ArrayEnd => l.text == "]"
    case StringToken => exists s :: l.text == Quoted(s)
    case Number => l.text != [] && AllDigits(Magnitude(l.text)) && ('0' <= l.text[0] <= '9' || l.text[0] == '-')
    case True => l.text == "true"
    case False => l.text == "false"
    case NullToken => l.text == "null"
    case ArraySeparator => l.text == ","
    case MemberSeparator => l.text == ":"
    case _ => false
  }

  lemma {:induction false} NumberRunEnds(doc: string, pos: nat, end: nat)
    requires pos <= end <= |doc| && Ends(doc, end)
    requires forall i | pos <= i < end :: IsNumberChar(doc[i])
    ensures NumberEnd(doc, pos) == end
    decreases end - pos
  {
    if pos < end {
      NumberRunEnds(doc, pos + 1, end);
    }
  }

  lemma NumberReads(doc: string, pos: nat, l: Lexeme)
    requires l.kind == Number && ValidLexeme(l) && At(doc, pos, l.text) && Ends(doc, pos + |l.text|)
    ensures ReadToken(doc, pos) == Token(Number, pos, pos + |l.text|)
  {
    AtHead(doc, pos, l.text);
    forall i | pos < i < pos + |l.text|
      ensures IsNumberChar(doc[i])
    {
      AtChar(doc, pos, l.text, i - pos);
      assert l.text[i - pos] == Magnitude(l.text)[if l.text[0] == '-' then i - pos - 1 else i - pos];
    }
    NumberRunEnds(doc, pos + 1, pos + |l.text|);
  }

  lemma LiteralReads(doc: string, pos: nat, l: Lexeme)
    requires l.kind == True || l.kind == False || l.kind == NullToken
    requires ValidLexeme(l) && At(doc, pos, l.text)
    ensures ReadToken(doc, pos) == Token(l.kind, pos, pos + |l.text|)
  {
    AtHead(doc, pos, l.text);
    assert "true"[1..] == "rue" && "false"[1..] == "alse" && "null"[1..] == "ull";
  }

  lemma PunctuationReads(doc: string, pos: nat, l: Lexeme)
    requires ValidLexeme(l) && At(doc, pos, l.text) && |l.text| == 1
    requires l.kind != Number && l.kind != StringToken
    ensures ReadToken(doc, pos) == Token(l.kind, pos, pos + 1)
  {
    AtHead(doc, pos, l.text);
  }

  lemma SkipSpacesTwice(doc: string, pos: nat)
    requires pos <= |doc|
    ensures SkipSpaces(doc, SkipSpaces(doc, pos)) == SkipSpaces(doc, pos)
  {}

  lemma SkipSpacesFirst(doc: string, pos: nat)
    requires pos <= |doc|
    ensures SkipSpaces(doc, SkipSpaces(doc, pos)) == SkipSpaces(doc, pos)
    ensures ReadToken(doc, pos) == ReadToken(doc, SkipSpaces(doc, pos))
  {
    SkipSpacesTwice(doc, pos);
    hide SkipSpaces, StringEnd, NumberEnd, CommentEnd, Match;
  }

  lemma LayOne(doc: string, pos: nat, l: Lexeme)
    requires pos <= |doc| && LayEnd(doc, pos, [l]).Some?
    ensures var start := SkipSpaces(doc, pos);
      LayEnd(doc, pos, [l]) == Some(start + |l.text|) && At(doc, start, l.text)
      && (l.kind == Number ==> Ends(doc, start + |l.text|))
  {
    assert [l][1..] == [];
  }

  /** The tokenizer reads each token of a layout as that token. */
  lemma LexemeReads(doc: string, pos: nat, l: Lexeme)
    requires pos <= |doc| && ValidLexeme(l) && LayEnd(doc, pos, [l]).Some?
    ensures var start := SkipSpaces(doc, pos);
      ReadToken(doc, pos) == Token(l.kind, start, start + |l.text|)
      && LayEnd(doc, pos, [l]) == Some(start + |l.text|) && At(doc, start, l.text)
  {
    LayOne(doc, pos, l);
    SkipSpacesFirst(doc, pos);
    hide LayEnd, ReadToken, At, SkipSpaces, Quoted, AllDigits, Magnitude;
    var start := SkipSpaces(doc, pos);
    match l.kind
    case StringToken =>
      var s :| l.text == Quoted(s);
      QuotedToken(doc, start, s);
    case Number => NumberReads(doc, start, l);
    case True => LiteralReads(doc, start, l);
    case False => LiteralReads(doc, start, l);
    case NullToken => LiteralReads(doc, start, l);
    case _ => PunctuationReads(doc, start, l);
  }

  // ---- The tokens of a value, one at a time ----

  lemma PunctuationIsValid()
    ensures ValidLexeme(LBRACE) && ValidLexeme(RBRACE) && ValidLexeme(LBRACKET) && ValidLexeme(RBRACKET)
    ensures ValidLexeme(COMMA) && ValidLexeme(COLON)
    ensures LBRACE.kind == ObjectBegin && RBRACE.kind == ObjectEnd && COLON.kind == MemberSeparator
    ensures LBRACKET.kind == ArrayBegin && RBRACKET.kind == ArrayEnd && COMMA.kind == ArraySeparator
  {}

  lemma QuotedIsValid(s: string)
    ensures ValidLexeme(Lexeme(StringToken, Quoted(s)))
  {}

  /** A scalar, whose one lexeme is valid. */
  predicate IsScalar(v: Value) {
    !v.Array? && !v.Object? && !v.Real?
  }

  lemma ScalarLexeme(v: Value)
    requires WellFormed(v) && IsScalar(v)
    ensures |ValueLexemes(v)| == 1 && ValidLexeme(ValueLexemes(v)[0])
  {
    match v
    case Int(i) => assert Magnitude(IntText(i)) == Digits(if i < 0 then -i else i);
    case UInt(u) => assert Magnitude(IntText(u)) == Digits(u);
    case _ =>
  }

  lemma ContainerLexemes(v: Value)
    ensures v.Array? ==> ValueLexemes(v) == [LBRACKET] + ElementLexemes(v.items, 0)
    ensures v.Object? ==> ValueLexemes(v) == [LBRACE] + MemberLexemes(v.members)
  {}

  lemma ElementLexemesStep(items: seq<Entry>, index: nat)
    requires index < Size(Array(items))
    ensures ElementLexemes(items, index)
         == ValueLexemes(ItemAt(items, index))
            + ((if index + 1 < Size(Array(items)) then [COMMA] else []) + ElementLexemes(items, index + 1))
  {}

  lemma ElementLexemesEnd(items: seq<Entry>)
    ensures ElementLexemes(items, Size(Array(items))) == [RBRACKET] + []
  {}

  lemma MemberLexemesStep(members: seq<Entry>)
    requires members != []
    ensures MemberLexemes(members)
         == [Lexeme(StringToken, Quoted(KeyText(members[0])))]
            + ([COLON]
               + (ValueLexemes(members[0].value)
                  + ((if |members| > 1 then [COMMA] else []) + MemberLexemes(members[1..]))))
  {
    var quoted := Lexeme(StringToken, Quoted(KeyText(members[0])));
    Regroup(quoted, COLON, ValueLexemes(members[0].value), if |members| > 1 then [COMMA] else [],
            MemberLexemes(members[1..]));
  }

  lemma Regroup<T>(a: T, b: T, c: seq<T>, d: seq<T>, e: seq<T>)
    ensures [a, b] + c + d + e == [a] + ([b] + (c + (d + e)))
  {}

  // ---- Laying tokens out while appending to a document ----

  lemma LayNothing(doc: string, pos: nat)
    requires pos <= |doc|
    ensures LayEnd(doc, pos, []) == Some(pos)
  {}

  /** A token appended to the document without white space in front. */
  lemma LayText(whole: string, doc: string, l: Lexeme, rest: seq<Lexeme>)
    requires doc + l.text <= whole && l.text != [] && !IsSpace(l.text[0])
    requires l.kind == Number ==> Ends(whole, |doc + l.text|)
    ensures LayEnd(whole, |doc|, [l] + rest) == LayEnd(whole, |doc + l.text|, rest)
  {
    var pos := |doc|;
    assert whole[pos..pos + |l.text|] == (doc + l.text)[pos..];
    assert (doc + l.text)[pos] == l.text[0];
    assert whole[pos] == l.text[0];
    SkipSpacesStays(whole, pos);
    assert ([l] + rest)[1..] == rest;
  }

  lemma {:induction false} SkipSpacesOver(whole: string, pos: nat, end: nat)
    requires pos <= end <= |whole| && forall i | pos <= i < end :: IsSpace(whole[i])
    ensures SkipSpaces(whole, pos) == SkipSpaces(whole, end)
    decreases end - pos
  {
    if pos < end {
      SkipSpacesOver(whole, pos + 1, end);
    }
  }

  /** White space appended to the document in front of a token. */
  lemma LaySpaces(whole: string, doc: string, spaces: string, lexemes: seq<Lexeme>)
    requires doc + spaces <= whole && lexemes != []
    requires forall i | 0 <= i < |spaces| :: IsSpace(spaces[i])
    ensures LayEnd(whole, |doc|, lexemes) == LayEnd(whole, |doc + spaces|, lexemes)
  {
    forall i | |doc| <= i < |doc + spaces|
      ensures IsSpace(whole[i])
    {
      assert whole[i] == (doc + spaces)[i] == spaces[i - |doc|];
    }
    SkipSpacesOver(whole, |doc|, |doc + spaces|);
  }

  lemma EndsBefore(whole: string, doc: string, c: char)
    requires doc + [c] <= whole && !IsNumberChar(c)
    ensures Ends(whole, |doc|)
  {
    assert whole[|doc|] == (doc + [c])[|doc|];
  }

  lemma QuotedStart(s: string)
    ensures Quoted(s) != [] && Quoted(s)[0] == '"'
  {}

  /** No element or member is a real. */
  ghost predicate RealFree(v: Value) {
    match v
    case Real(_) => false
    case Array(items) => forall k | 0 <= k < |items| :: RealFree(items[k].value)
    case Object(members) => forall k | 0 <= k < |members| :: RealFree(members[k].value)
    case _ => true
  }

  lemma RealFreeItem(items: seq<Entry>, index: nat)
    requires WellFormed(Array(items)) && RealFree(Array(items))
    ensures WellFormed(ItemAt(items, index)) && RealFree(ItemAt(items, index))
  {
    var key := Index(index);
    if HasKey(items, key) {
      var i :| 0 <= i < |items| && items[i].key == key;
      GetMember(items, i);
    } else {
      GetAbsent(items, key);
    }
  }

  lemma RealFreeMembers(members: seq<Entry>)
    requires members != [] && WellFormed(Object(members)) && RealFree(Object(members))
    ensures members[0].key.Name? && NulFree(members[0].key.name) && KeyText(members[0]) == members[0].key.name
    ensures WellFormed(members[0].value) && RealFree(members[0].value)
    ensures WellFormed(Object(members[1..])) && RealFree(Object(members[1..]))
  {
    SortedTail(members);
  }

  /** Values printed as a number, which must not touch the next token. */
  predicate IsNumeric(v: Value) {
    v.Int? || v.UInt?
  }
}
