/** The exact shape of the two printed forms, written without a document to append to: what stands on which line and how
    far it is indented in the styled one, and that the compact one is nothing but tokens. */
module Shape {
  import opened Options
  import opened JsonValue
  import opened Tokens
  import opened Numbers
  import opened Strings
  import opened Layout
  import opened ReadBack
  import opened FastWriter
  import opened StyledWriter
  import opened RoundTrip

  // ---- The styled form ----

  /** The elements from `index` on, with `, ` in between. */
  function OneLine(print_: DoublePrinter, items: seq<Entry>, index: nat): string
    decreases Size(Array(items)) - index
  {
    if index >= Size(Array(items)) then ""
    else (if index > 0 then ", " else "") + ScalarText(print_, ItemAt(items, index)) + OneLine(print_, items, index + 1)
  }

  /** An array stays on one line when it has at most 24 elements, none of them with contents, and the line is shorter
      than 74 characters. */
  predicate Fits(print_: DoublePrinter, items: seq<Entry>) {
    && (forall index | 0 <= index < Size(Array(items)) :: Flat(ItemAt(items, index)))
    && Size(Array(items)) <= 24
    && |"[ " + OneLine(print_, items, 0) + " ]"| < 74
  }

  /** No elements or members. */
  predicate Flat(v: Value) {
    (v.Array? ==> v.items == []) && (v.Object? ==> v.members == [])
  }

  /** A value whose first line is already begun and whose further lines are indented by `indent` and more. */
  function Pretty(print_: DoublePrinter, v: Value, indent: string): string
    decreases Weight(v), 1, 0
  {
    if Flat(v) then ScalarText(print_, v)
    else
      match v
      case Array(items) =>
        if Fits(print_, items) then "[ " + OneLine(print_, items, 0) + " ]"
        else "[" + ElementLines(print_, items, 0, indent + "   ") + "\n" + indent + "]"
      case Object(members) => "{" + MemberLines(print_, members, indent + "   ") + "\n" + indent + "}"
      case _ => ""
  }

  /** One element a line. */
  function ElementLines(print_: DoublePrinter, items: seq<Entry>, index: nat, indent: string): string
    decreases Weight(Array(items)), 0, Size(Array(items)) - index
  {
    if index >= Size(Array(items)) then ""
    else
      GetWeight(items, Index(index));
      "\n" + indent + Pretty(print_, ItemAt(items, index), indent)
      + (if index + 1 < Size(Array(items)) then "," else "") + ElementLines(print_, items, index + 1, indent)
  }

  /** One member a line, name and value separated by ` : `. */
  function MemberLines(print_: DoublePrinter, members: seq<Entry>, indent: string): string
    decreases EntriesWeight(members), 0, 0
  {
    if members == [] then ""
    else
      WeightStep(members);
      "\n" + indent + Quoted(KeyText(members[0])) + " : " + Pretty(print_, members[0].value, indent)
      + (if |members| > 1 then "," else "") + MemberLines(print_, members[1..], indent)
  }

  /** Text behind which writeIndent starts a new line. */
  predicate LineOpen(doc: string) {
    doc != "" && doc[|doc| - 1] != ' ' && doc[|doc| - 1] != '\n'
  }

  /** Text behind which writeIndent writes nothing. */
  predicate InPlace(doc: string, indent: string) {
    (doc == "" && indent == "") || (doc != "" && doc[|doc| - 1] == ' ')
  }

  lemma IndentInPlace(doc: string, indent: string)
    requires InPlace(doc, indent)
    ensures Indented(doc, indent) == doc
  {}

  lemma IndentBreaks(doc: string, indent: string)
    requires LineOpen(doc)
    ensures Indented(doc, indent) == doc + "\n" + indent
  {}

  lemma ScalarEnds(print_: DoublePrinter, v: Value)
    requires !v.Real?
    ensures LineOpen(ScalarText(print_, v))
  {
    match v
    case Int(i) => IntEnds(i);
    case UInt(u) => IntEnds(u);
    case String(s) => QuotedEnd(s);
    case _ =>
  }

  lemma IntEnds(i: int)
    ensures LineOpen(IntText(i))
  {
    var digits := if i < 0 then Digits(-i) else Digits(i);
    assert IntText(i)[|IntText(i)| - 1] == digits[|digits| - 1];
  }

  lemma QuotedEnd(s: string)
    ensures LineOpen(Quoted(s))
  {}

  lemma PrettyEnds(print_: DoublePrinter, v: Value, indent: string)
    requires !v.Real?
    ensures LineOpen(Pretty(print_, v, indent))
  {
    hide OneLine, Fits, ElementLines, MemberLines;
    if Flat(v) {
      ScalarEnds(print_, v);
    }
  }

  lemma FlatIs(v: Value)
    requires WellFormed(v)
    ensures HasContents(v) <==> !Flat(v)
  {
    if v.Array? {
      SizeBound(v.items);
    }
  }

  lemma {:induction false} OneLineLength(print_: DoublePrinter, items: seq<Entry>, index: nat)
    requires index <= Size(Array(items))
    ensures |OneLine(print_, items, index)|
         == ElementsLength(print_, items, index)
            + if index == 0 then (if Size(Array(items)) > 0 then (Size(Array(items)) - 1) * 2 else 0)
              else (Size(Array(items)) - index) * 2
    decreases Size(Array(items)) - index
  {
    hide ScalarText;
    if index < Size(Array(items)) {
      OneLineLength(print_, items, index + 1);
    }
  }

  lemma FitsExactly(print_: DoublePrinter, items: seq<Entry>)
    requires WellFormed(Array(items)) && Size(Array(items)) > 0
    ensures Fits(print_, items) <==> !IsMultiline(print_, items)
  {
    OneLineLength(print_, items, 0);
    hide OneLine, Flat, HasContents, Size, ItemAt, WellFormed;
    forall index | 0 <= index < Size(Array(items))
      ensures HasContents(ItemAt(items, index)) <==> !Flat(ItemAt(items, index))
    {
      ItemFlat(items, index);
    }
  }

  lemma ItemFlat(items: seq<Entry>, index: nat)
    requires WellFormed(Array(items))
    ensures HasContents(ItemAt(items, index)) <==> !Flat(ItemAt(items, index))
  {
    WellFormedGet(Array(items), Index(index));
    FlatIs(ItemAt(items, index));
  }

  lemma {:induction false} InlineIsOneLine(print_: DoublePrinter, doc: string, items: seq<Entry>, index: nat)
    ensures InlineElements(print_, doc, items, index) == doc + OneLine(print_, items, index)
    decreases Size(Array(items)) - index
  {
    hide ScalarText, Size, ItemAt;
    if index < Size(Array(items)) {
      var element := doc + InlineSeparator(index > 0) + ScalarText(print_, ItemAt(items, index));
      InlineIsOneLine(print_, element, items, index + 1);
    }
  }

  /** Line by line: the styled text of every value without reals. */
  lemma {:induction false} StyledIsPretty(print_: DoublePrinter, doc: string, indent: string, v: Value)
    requires WellFormed(v) && RealFree(v) && InPlace(doc, indent)
    ensures Styled(print_, doc, indent, v) == doc + Pretty(print_, v, indent)
    decreases Weight(v), 1, 0
  {
    FlatIs(v);
    IndentInPlace(doc, indent);
    if v.Array? && v.items != [] {
      ArrayIsPretty(print_, doc, indent, v.items);
    } else if v.Object? && v.members != [] {
      ObjectIsPretty(print_, doc, indent, v.members);
    }
  }

  lemma NotEmpty(items: seq<Entry>)
    requires WellFormed(Array(items)) && items != []
    ensures Size(Array(items)) > 0
  {
    SizeBound(items);
  }

  lemma PrettyArray(print_: DoublePrinter, items: seq<Entry>, indent: string)
    requires items != []
    ensures Pretty(print_, Array(items), indent)
         == if Fits(print_, items) then "[ " + OneLine(print_, items, 0) + " ]"
            else "[" + ElementLines(print_, items, 0, indent + "   ") + "\n" + indent + "]"
  {}

  lemma {:induction false} ArrayIsPretty(print_: DoublePrinter, doc: string, indent: string, items: seq<Entry>)
    requires WellFormed(Array(items)) && RealFree(Array(items)) && InPlace(doc, indent) && items != []
    ensures Styled(print_, doc, indent, Array(items)) == doc + Pretty(print_, Array(items), indent)
    decreases Weight(Array(items)), 0, Size(Array(items)) + 1
  {
    hide *;
    NotEmpty(items);
    FitsExactly(print_, items);
    PrettyArray(print_, items, indent);
    if Fits(print_, items) {
      StyledOneLine(print_, doc, indent, items);
      InlineIsOneLine(print_, doc + "[ ", items, 0);
    } else {
      StyledMultiline(print_, doc, indent, items);
      IndentInPlace(doc, indent);
      Opening(doc, indent, '[');
      ElementsArePretty(print_, doc + "[", indent + "   ", items, 0);
      var lines := ElementLines(print_, items, 0, indent + "   ");
      IndentBreaks(doc + "[" + lines, indent);
      assert doc + "[" + lines + "\n" + indent + "]" == doc + ("[" + lines + "\n" + indent + "]");
    }
  }

  lemma StyledOneLine(print_: DoublePrinter, doc: string, indent: string, items: seq<Entry>)
    requires Size(Array(items)) > 0 && !IsMultiline(print_, items)
    ensures Styled(print_, doc, indent, Array(items)) == InlineElements(print_, doc + "[ ", items, 0) + " ]"
  {}

  /** Indentation of at least one step. */
  predicate Deep(indent: string) {
    indent != "" && indent[|indent| - 1] == ' '
  }

  lemma Opening(doc: string, indent: string, bracket: char)
    requires bracket == '[' || bracket == '{'
    ensures LineOpen(doc + [bracket]) && Deep(indent + "   ") && INDENT == "   "
  {}

  /** A line begun behind `doc`, and behind it a text, with or without a comma. */
  lemma NextLine(doc: string, indent: string, text: string, more: bool)
    requires LineOpen(doc) && Deep(indent) && LineOpen(text)
    ensures Indented(doc, indent) == doc + "\n" + indent && InPlace(doc + "\n" + indent, indent)
    ensures LineOpen(doc + "\n" + indent + text + Separator(more)) && Separator(more) == if more then "," else ""
  {
    var begun := doc + "\n" + indent;
    assert begun[|begun| - 1] == indent[|indent| - 1];
    var whole := begun + text + Separator(more);
    assert whole[|whole| - 1] == if more then ',' else text[|text| - 1];
  }

  lemma ElementLinesStep(print_: DoublePrinter, items: seq<Entry>, index: nat, indent: string)
    ensures index >= Size(Array(items)) ==> ElementLines(print_, items, index, indent) == ""
    ensures index < Size(Array(items)) ==>
      ElementLines(print_, items, index, indent)
      == "\n" + indent + Pretty(print_, ItemAt(items, index), indent)
         + (if index + 1 < Size(Array(items)) then "," else "") + ElementLines(print_, items, index + 1, indent)
  {}

  lemma StyledElementsStop(print_: DoublePrinter, doc: string, indent: string, items: seq<Entry>, index: nat)
    requires index >= Size(Array(items))
    ensures StyledElements(print_, doc, indent, items, index) == doc
  {}

  lemma {:induction false} ElementsArePretty(print_: DoublePrinter, doc: string, indent: string, items: seq<Entry>,
                                             index: nat)
    requires WellFormed(Array(items)) && RealFree(Array(items)) && LineOpen(doc) && Deep(indent)
    ensures StyledElements(print_, doc, indent, items, index) == doc + ElementLines(print_, items, index, indent)
    ensures LineOpen(doc + ElementLines(print_, items, index, indent))
    decreases Weight(Array(items)), 0, Size(Array(items)) - index
  {
    hide *;
    ElementLinesStep(print_, items, index, indent);
    if index >= Size(Array(items)) {
      StyledElementsStop(print_, doc, indent, items, index);
      assert doc + "" == doc;
    } else {
      var x, begun, more := ItemAt(items, index), doc + "\n" + indent, index + 1 < Size(Array(items));
      var text := Pretty(print_, x, indent);
      RealFreeItem(items, index);
      NotReal(x);
      PrettyEnds(print_, x, indent);
      NextLine(doc, indent, text, more);
      StyledElementsStep(print_, doc, indent, items, index);
      StyledIsPretty(print_, begun, indent, x);
      ElementsArePretty(print_, begun + text + Separator(more), indent, items, index + 1);
      assert begun + text + Separator(more) + ElementLines(print_, items, index + 1, indent)
          == doc + ElementLines(print_, items, index, indent);
    }
  }

  lemma NotReal(v: Value)
    requires RealFree(v)
    ensures !v.Real?
  {}

  // ---- Objects ----

  lemma PrettyObject(print_: DoublePrinter, members: seq<Entry>, indent: string)
    requires members != []
    ensures Pretty(print_, Object(members), indent)
         == "{" + MemberLines(print_, members, indent + "   ") + "\n" + indent + "}"
    ensures EntriesWeight(members) < Weight(Object(members))
  {}

  lemma StyledBraces(print_: DoublePrinter, doc: string, indent: string, members: seq<Entry>)
    requires members != []
    ensures Styled(print_, doc, indent, Object(members))
         == Indented(StyledMembers(print_, Indented(doc, indent) + "{", indent + INDENT, members), indent) + "}"
  {}

  lemma {:induction false} ObjectIsPretty(print_: DoublePrinter, doc: string, indent: string, members: seq<Entry>)
    requires WellFormed(Object(members)) && RealFree(Object(members)) && InPlace(doc, indent) && members != []
    ensures Styled(print_, doc, indent, Object(members)) == doc + Pretty(print_, Object(members), indent)
    decreases Weight(Object(members)), 0, 0
  {
    hide *;
    PrettyObject(print_, members, indent);
    StyledBraces(print_, doc, indent, members);
    IndentInPlace(doc, indent);
    Opening(doc, indent, '{');
    MembersArePretty(print_, doc + "{", indent + "   ", members);
    IndentBreaks(doc + "{" + MemberLines(print_, members, indent + "   "), indent);
  }

  lemma MemberLinesStep(print_: DoublePrinter, members: seq<Entry>, indent: string)
    requires members != []
    ensures Weight(members[0].value) < EntriesWeight(members) && EntriesWeight(members[1..]) < EntriesWeight(members)
    ensures MemberLines(print_, members, indent)
         == "\n" + indent + Quoted(KeyText(members[0])) + " : " + Pretty(print_, members[0].value, indent)
            + (if |members| > 1 then "," else "") + MemberLines(print_, members[1..], indent)
  {
    WeightStep(members);
  }

  lemma NoMembers(print_: DoublePrinter, doc: string, indent: string)
    ensures StyledMembers(print_, doc, indent, []) == doc == doc + MemberLines(print_, [], indent)
  {}

  lemma MembersStep(print_: DoublePrinter, doc: string, indent: string, members: seq<Entry>)
    requires members != []
    ensures StyledMembers(print_, doc, indent, members)
         == StyledMembers(print_,
                          Styled(print_, Indented(doc, indent) + Quoted(KeyText(members[0])) + " : ", indent,
                                 members[0].value) + Separator(|members| > 1),
                          indent, members[1..])
  {
    StyledMembersStep(print_, doc, indent, members, 0);
    assert members[0..] == members;
  }

  lemma Named(doc: string, indent: string, name: string, text: string, more: bool)
    requires LineOpen(doc) && Deep(indent) && LineOpen(text)
    ensures var named := doc + "\n" + indent + name + " : ";
      InPlace(named, indent) && LineOpen(named + text + Separator(more))
  {
    var named := doc + "\n" + indent + name + " : ";
    var whole := named + text + Separator(more);
    assert whole[|whole| - 1] == if more then ',' else text[|text| - 1];
  }

  lemma {:induction false} MembersArePretty(print_: DoublePrinter, doc: string, indent: string, members: seq<Entry>)
    requires WellFormed(Object(members)) && RealFree(Object(members)) && LineOpen(doc) && Deep(indent)
    ensures StyledMembers(print_, doc, indent, members) == doc + MemberLines(print_, members, indent)
    ensures LineOpen(doc + MemberLines(print_, members, indent))
    decreases EntriesWeight(members), 0, 0
  {
    hide *;
    if members == [] {
      NoMembers(print_, doc, indent);
    } else {
      var name, x, more := Quoted(KeyText(members[0])), members[0].value, |members| > 1;
      var named, text := doc + "\n" + indent + name + " : ", Pretty(print_, x, indent);
      MemberLinesStep(print_, members, indent);
      RealFreeMembers(members);
      NotReal(x);
      PrettyEnds(print_, x, indent);
      NextLine(doc, indent, text, more);
      Named(doc, indent, name, text, more);
      MembersStep(print_, doc, indent, members);
      StyledIsPretty(print_, named, indent, x);
      MembersArePretty(print_, named + text + Separator(more), indent, members[1..]);
      assert named + text + Separator(more) + MemberLines(print_, members[1..], indent)
          == doc + MemberLines(print_, members, indent);
    }
  }

  // ---- The compact form ----

  /** The texts of the tokens one behind the other, with `colon` for a colon. */
  function Spelled(lexemes: seq<Lexeme>, colon: string): string {
    if lexemes == [] then ""
    else (if lexemes[0].kind == MemberSeparator then colon else lexemes[0].text) + Spelled(lexemes[1..], colon)
  }

  lemma {:induction false} SpelledConcat(a: seq<Lexeme>, b: seq<Lexeme>, colon: string)
    ensures Spelled(a + b, colon) == Spelled(a, colon) + Spelled(b, colon)
  {
    if a == [] {
      assert a + b == b;
    } else {
      assert (a + b)[1..] == a[1..] + b;
      SpelledConcat(a[1..], b, colon);
    }
  }

  lemma SpelledOne(l: Lexeme, colon: string)
    ensures Spelled([l], colon) == if l.kind == MemberSeparator then colon else l.text
  {
    assert [l][1..] == [];
  }

  /** The punctuation and strings spell themselves, a comma only where one is. */
  lemma SpelledMarks(colon: string, s: string, more: bool)
    ensures Spelled([LBRACE], colon) == "{" && Spelled([RBRACE], colon) == "}"
    ensures Spelled([LBRACKET], colon) == "[" && Spelled([RBRACKET], colon) == "]"
    ensures Spelled([COLON], colon) == colon && Spelled([Lexeme(StringToken, s)], colon) == s
    ensures Spelled(if more then [COMMA] else [], colon) == if more then "," else ""
  {
    SpelledOne(LBRACE, colon);
    SpelledOne(RBRACE, colon);
    SpelledOne(LBRACKET, colon);
    SpelledOne(RBRACKET, colon);
    SpelledOne(COLON, colon);
    SpelledOne(COMMA, colon);
    SpelledOne(Lexeme(StringToken, s), colon);
  }

  lemma SpelledScalar(print_: DoublePrinter, v: Value, colon: string)
    requires IsScalar(v)
    ensures Spelled(ValueLexemes(v), colon) == ScalarText(print_, v)
  {
    SpelledOne(ValueLexemes(v)[0], colon);
  }

  /** Nothing but its tokens: no white space outside strings, except one blank behind every colon for YAML. */
  lemma {:induction false} CompactIsTokens(print_: DoublePrinter, yaml: bool, doc: string, v: Value)
    requires WellFormed(v) && RealFree(v)
    ensures Compact(print_, yaml, doc, v) == doc + Spelled(ValueLexemes(v), if yaml then ": " else ":")
    decreases Weight(v), 1, 0
  {
    hide *;
    var colon := if yaml then ": " else ":";
    CompactCases(print_, yaml, doc, v);
    ContainerLexemes(v);
    SpelledMarks(colon, "", false);
    if v.Array? {
      SpelledConcat([LBRACKET], ElementLexemes(v.items, 0), colon);
      assert v == Array(v.items);
      ElementsAreTokens(print_, yaml, doc + "[", v.items, 0);
    } else if v.Object? {
      SpelledConcat([LBRACE], MemberLexemes(v.members), colon);
      assert v == Object(v.members);
      MembersAreTokens(print_, yaml, doc + "{", v.members, true);
    } else {
      SpelledScalar(print_, v, colon);
    }
  }

  lemma CompactCases(print_: DoublePrinter, yaml: bool, doc: string, v: Value)
    requires RealFree(v)
    ensures v.Array? ==> Compact(print_, yaml, doc, v) == CompactElements(print_, yaml, doc + "[", v.items, 0)
    ensures v.Object? ==> Compact(print_, yaml, doc, v) == CompactMembers(print_, yaml, doc + "{", v.members, true)
    ensures v.Object? ==> EntriesWeight(v.members) < Weight(v)
    ensures !v.Array? && !v.Object? ==> IsScalar(v) && Compact(print_, yaml, doc, v) == doc + ScalarText(print_, v)
  {
    hide ScalarText, CompactElements, CompactMembers;
  }

  lemma CompactElementsStop(print_: DoublePrinter, yaml: bool, doc: string, items: seq<Entry>, index: nat)
    requires index >= Size(Array(items))
    ensures CompactElements(print_, yaml, doc, items, index) == doc + "]" && ElementLexemes(items, index) == [RBRACKET]
  {}

  lemma {:induction false} ElementsAreTokens(print_: DoublePrinter, yaml: bool, doc: string, items: seq<Entry>,
                                             index: nat)
    requires WellFormed(Array(items)) && RealFree(Array(items))
    ensures CompactElements(print_, yaml, doc, items, index)
         == doc + (if 0 < index < Size(Array(items)) then "," else "")
            + Spelled(ElementLexemes(items, index), if yaml then ": " else ":")
    decreases Weight(Array(items)), 0, Size(Array(items)) - index
  {
    hide *;
    var colon := if yaml then ": " else ":";
    var more := index + 1 < Size(Array(items));
    SpelledMarks(colon, "", more);
    if index >= Size(Array(items)) {
      CompactElementsStop(print_, yaml, doc, items, index);
    } else {
      var x, start, comma := ItemAt(items, index), doc + Separator(index > 0), if more then [COMMA] else [];
      SeparatorText(doc);
      RealFreeItem(items, index);
      CompactElementsStep(print_, yaml, doc, items, index);
      ElementLexemesStep(items, index);
      CompactIsTokens(print_, yaml, start, x);
      ElementsAreTokens(print_, yaml, Compact(print_, yaml, start, x), items, index + 1);
      SpelledConcat(ValueLexemes(x), comma + ElementLexemes(items, index + 1), colon);
      SpelledConcat(comma, ElementLexemes(items, index + 1), colon);
    }
  }

  lemma CompactMembersStop(print_: DoublePrinter, yaml: bool, doc: string, first: bool)
    ensures CompactMembers(print_, yaml, doc, [], first) == doc + "}" && MemberLexemes([]) == [RBRACE]
  {}

  lemma NextMember(print_: DoublePrinter, yaml: bool, doc: string, members: seq<Entry>, first: bool)
    requires members != []
    ensures Weight(members[0].value) < EntriesWeight(members) && EntriesWeight(members[1..]) < EntriesWeight(members)
    ensures CompactMembers(print_, yaml, doc, members, first)
         == CompactMembers(print_, yaml,
                           Compact(print_, yaml,
                                   doc + (if first then "" else ",") + Quoted(KeyText(members[0]))
                                   + (if yaml then ": " else ":"),
                                   members[0].value),
                           members[1..], false)
  {
    WeightStep(members);
    SeparatorText(doc);
  }

  lemma SpelledMember(name: seq<Lexeme>, mark: seq<Lexeme>, x: seq<Lexeme>, comma: seq<Lexeme>, tail: seq<Lexeme>,
                      colon: string)
    ensures Spelled(name + (mark + (x + (comma + tail))), colon)
         == Spelled(name, colon) + Spelled(mark, colon) + Spelled(x, colon) + Spelled(comma, colon)
            + Spelled(tail, colon)
  {
    hide Spelled;
    SpelledConcat(name, mark + (x + (comma + tail)), colon);
    SpelledConcat(mark, x + (comma + tail), colon);
    SpelledConcat(x, comma + tail, colon);
    SpelledConcat(comma, tail, colon);
  }

  lemma {:induction false} MembersAreTokens(print_: DoublePrinter, yaml: bool, doc: string, members: seq<Entry>,
                                            first: bool)
    requires WellFormed(Object(members)) && RealFree(Object(members))
    ensures CompactMembers(print_, yaml, doc, members, first)
         == doc + (if !first && members != [] then "," else "")
            + Spelled(MemberLexemes(members), if yaml then ": " else ":")
    decreases EntriesWeight(members), 0, 0
  {
    hide *;
    var colon := if yaml then ": " else ":";
    var more := |members| > 1;
    if members == [] {
      SpelledMarks(colon, "", more);
      CompactMembersStop(print_, yaml, doc, first);
    } else {
      var x, name, tail := members[0].value, Quoted(KeyText(members[0])), members[1..];
      var opened_ := doc + if first then "" else ",";
      RealFreeMembers(members);
      NextMember(print_, yaml, doc, members, first);
      CompactIsTokens(print_, yaml, opened_ + name + colon, x);
      MembersAreTokens(print_, yaml, Compact(print_, yaml, opened_ + name + colon, x), tail, false);
      SpelledMembers(members, colon);
      Append(opened_, name, colon, Spelled(ValueLexemes(x), colon), if more then "," else "",
             Spelled(MemberLexemes(tail), colon));
    }
  }

  lemma Append(doc: string, a: string, b: string, c: string, d: string, e: string)
    ensures doc + a + b + c + d + e == doc + (a + b + c + d + e)
  {}

  lemma SpelledMembers(members: seq<Entry>, colon: string)
    requires members != []
    ensures Spelled(MemberLexemes(members), colon)
         == Quoted(KeyText(members[0])) + colon + Spelled(ValueLexemes(members[0].value), colon)
            + (if |members| > 1 then "," else "") + Spelled(MemberLexemes(members[1..]), colon)
  {
    hide *;
    var name, more := Quoted(KeyText(members[0])), |members| > 1;
    MemberLexemesStep(members);
    SpelledMarks(colon, name, more);
    SpelledMember([Lexeme(StringToken, name)], [COLON], ValueLexemes(members[0].value), if more then [COMMA] else [],
                  MemberLexemes(members[1..]), colon);
  }

  /** The compact text is its own tokens one behind the other; the styled text is the one of `Pretty`. */
  lemma PrintedShape(print_: DoublePrinter, v: Value)
    requires WellFormed(v) && RealFree(v)
    ensures Compact(print_, false, "", v) == Spelled(Tokenize(Compact(print_, false, "", v) + "\n", 0), ":")
    ensures Compact(print_, true, "", v) == Spelled(Tokenize(Compact(print_, true, "", v) + "\n", 0), ": ")
    ensures Styled(print_, "", "", v) == Pretty(print_, v, "")
  {
    hide *;
    Nowhere();
    SameTokens(print_, false, v);
    SameTokens(print_, true, v);
    CompactIsTokens(print_, false, "", v);
    CompactIsTokens(print_, true, "", v);
    StyledIsPretty(print_, "", "", v);
  }

  lemma Nowhere()
    ensures InPlace("", "")
  {}
}
