/** StyledWriter's output is a layout of the same tokens as FastWriter's. */
module StyledLayout {
  import opened Options
  import opened JsonValue
  import opened Tokens
  import opened Numbers
  import opened Strings
  import opened Layout
  import opened FastWriter
  import opened StyledWriter
  import opened CompactLayout

  ghost predicate Blank(s: string) {
    forall i | 0 <= i < |s| :: s[i] == ' '
  }

  /** What writeIndent appends. */
  function IndentText(doc: string, indent: string): string {
    if doc != [] && doc[|doc| - 1] == ' ' then ""
    else if doc == [] || doc[|doc| - 1] == '\n' then indent
    else "\n" + indent
  }

  lemma IndentLays(whole: string, doc: string, indent: string, lexemes: seq<Lexeme>)
    requires Blank(indent) && Indented(doc, indent) <= whole && lexemes != []
    ensures LayEnd(whole, |doc|, lexemes) == LayEnd(whole, |Indented(doc, indent)|, lexemes)
  {
    assert Indented(doc, indent) == doc + IndentText(doc, indent);
    LaySpaces(whole, doc, IndentText(doc, indent), lexemes);
  }

  /** A line break separates a number from an indented token behind it. */
  lemma NumberThenIndent(print_: DoublePrinter, whole: string, doc: string, indent: string, v: Value, outer: string)
    requires IsNumeric(v) && Indented(Styled(print_, doc, indent, v), outer) <= whole
    ensures Ends(whole, |Styled(print_, doc, indent, v)|)
  {
    var r, text := Styled(print_, doc, indent, v), ScalarText(print_, v);
    assert r == doc + text && text != [];
    assert '0' <= text[|text| - 1] <= '9' by {
      var i := if v.Int? then v.i else v.u;
      var digits := if i < 0 then Digits(-i) else Digits(i);
      assert text[|text| - 1] == digits[|digits| - 1];
    }
    assert r[|r| - 1] == text[|text| - 1];
    assert r + "\n" <= Indented(r, outer);
    EndsBefore(whole, r, '\n');
  }

  lemma EmptyLays(whole: string, doc: string, v: Value, print_: DoublePrinter)
    requires WellFormed(v) && !IsScalar(v) && !v.Real? && !HasContents(v) && doc + ScalarText(print_, v) <= whole
    ensures LayEnd(whole, |doc|, ValueLexemes(v)) == Some(|doc + ScalarText(print_, v)|)
  {
    var l, r := if v.Array? then LBRACKET else LBRACE, if v.Array? then RBRACKET else RBRACE;
    ContainerLexemes(v);
    assert ValueLexemes(v) == [l] + ([r] + []);
    assert doc + ScalarText(print_, v) == doc + l.text + r.text;
    LayText(whole, doc, l, [r] + []);
    LayText(whole, doc + l.text, r, []);
  }

  /** The token sequence of `v` stands in `whole`, from the end of `doc` to the end of the styled text. */
  lemma {:induction false} StyledLays(print_: DoublePrinter, whole: string, doc: string, indent: string, v: Value)
    requires WellFormed(v) && RealFree(v) && Blank(indent) && Styled(print_, doc, indent, v) <= whole
    requires IsNumeric(v) ==> Ends(whole, |Styled(print_, doc, indent, v)|)
    ensures LayEnd(whole, |doc|, ValueLexemes(v)) == Some(|Styled(print_, doc, indent, v)|)
    decreases Weight(v), 2, 0
  {
    if IsScalar(v) {
      ScalarTextLexeme(print_, v);
      LayText(whole, doc, ValueLexemes(v)[0], []);
    } else if !HasContents(v) {
      EmptyLays(whole, doc, v, print_);
    } else if v.Array? {
      StyledArrayLays(print_, whole, doc, indent, v.items);
    } else {
      StyledObjectLays(print_, whole, doc, indent, v.members);
    }
  }

  lemma {:induction false} StyledArrayLays(print_: DoublePrinter, whole: string, doc: string, indent: string,
                                           items: seq<Entry>)
    requires WellFormed(Array(items)) && RealFree(Array(items)) && Blank(indent) && Size(Array(items)) > 0
    requires Styled(print_, doc, indent, Array(items)) <= whole
    ensures LayEnd(whole, |doc|, ValueLexemes(Array(items))) == Some(|Styled(print_, doc, indent, Array(items))|)
    decreases Weight(Array(items)), 1, 0
  {
    hide *;
    ContainerLexemes(Array(items));
    BracketText();
    if IsMultiline(print_, items) {
      StyledMultiline(print_, doc, indent, items);
      var open := Indented(doc, indent);
      IndentLays(whole, doc, indent, [LBRACKET] + ElementLexemes(items, 0));
      LayText(whole, open, LBRACKET, ElementLexemes(items, 0));
      BlankIndent(indent);
      StyledElementsLay(print_, whole, open + "[", indent + INDENT, indent, items, 0);
    } else {
      StyledInline(print_, doc, indent, items);
      SpaceIsSpace();
      CommasText(false);
      LayText(whole, doc, LBRACKET, ElementLexemes(items, 0));
      LaySpaces(whole, doc + "[", " ", ElementLexemes(items, 0));
      InlineElementsLay(print_, whole, doc + "[" + " ", items, 0);
      assert [] + ElementLexemes(items, 0) == ElementLexemes(items, 0);
    }
  }

  lemma StyledInline(print_: DoublePrinter, doc: string, indent: string, items: seq<Entry>)
    requires Size(Array(items)) > 0 && !IsMultiline(print_, items)
    ensures !HasNestedContents(items)
    ensures Styled(print_, doc, indent, Array(items)) == InlineElements(print_, doc + "[" + " ", items, 0) + " ]"
  {
    assert doc + "[ " == doc + "[" + " ";
  }

  lemma SpaceIsSpace()
    ensures IsSpace(' ')
  {}

  lemma BracketText()
    ensures LBRACKET.text == "[" && LBRACKET.text[0] == '[' && !IsSpace('[') && LBRACKET.kind == ArrayBegin
    ensures LBRACE.text == "{" && LBRACE.text[0] == '{' && !IsSpace('{') && LBRACE.kind == ObjectBegin
    ensures RBRACKET.text == "]" && RBRACKET.text[0] == ']' && !IsSpace(']') && RBRACKET.kind == ArrayEnd
    ensures RBRACE.text == "}" && RBRACE.text[0] == '}' && !IsSpace('}') && RBRACE.kind == ObjectEnd
    ensures COLON.text == ":" && COLON.text[0] == ':' && !IsSpace(':') && COLON.kind == MemberSeparator
  {}

  lemma BlankIndent(indent: string)
    requires Blank(indent)
    ensures Blank(indent + INDENT)
  {}

  /** Behind an element a comma or, in front of the closing bracket, a line break follows. */
  lemma StyledElementEnds(print_: DoublePrinter, whole: string, doc: string, indent: string, v: Value, more: bool,
                          outer: string)
    requires var element := Styled(print_, doc, indent, v);
      if more then element + Separator(true) <= whole else Indented(element + Separator(false), outer) <= whole
    ensures IsNumeric(v) ==> Ends(whole, |Styled(print_, doc, indent, v)|)
  {
    var element := Styled(print_, doc, indent, v);
    if more {
      EndsBefore(whole, element, ',');
    } else if IsNumeric(v) {
      SeparatorText(element);
      NumberThenIndent(print_, whole, doc, indent, v, outer);
    }
  }

  lemma ClosingLays(whole: string, doc: string, outer: string, close: Lexeme)
    requires close == RBRACKET || close == RBRACE
    requires Blank(outer) && Indented(doc, outer) + close.text <= whole
    ensures LayEnd(whole, |doc|, [close] + []) == Some(|Indented(doc, outer) + close.text|)
  {
    IndentLays(whole, doc, outer, [close] + []);
    LayText(whole, Indented(doc, outer), close, []);
  }

  lemma {:induction false} StyledElementsLay(print_: DoublePrinter, whole: string, doc: string, inner: string,
                                             outer: string, items: seq<Entry>, index: nat)
    requires WellFormed(Array(items)) && RealFree(Array(items)) && Blank(inner) && Blank(outer)
    requires Indented(StyledElements(print_, doc, inner, items, index), outer) + "]" <= whole
    requires index <= Size(Array(items))
    ensures LayEnd(whole, |doc|, ElementLexemes(items, index))
         == Some(|Indented(StyledElements(print_, doc, inner, items, index), outer) + "]"|)
    decreases Weight(Array(items)), 0, Size(Array(items)) - index
  {
    hide *;
    if index == Size(Array(items)) {
      StyledElementsEnd(print_, doc, inner, items);
      ElementLexemesEnd(items);
      BracketText();
      ClosingLays(whole, doc, outer, RBRACKET);
    } else {
      var x, start, more := ItemAt(items, index), Indented(doc, inner), index + 1 < Size(Array(items));
      var element := Styled(print_, start, inner, x);
      var tail := ElementLexemes(items, index + 1);
      StyledElementsStep(print_, doc, inner, items, index);
      ElementLexemesStep(items, index);
      CommasText(more);
      RealFreeItem(items, index);
      if !more {
        StyledElementsEnd(print_, element + Separator(more), inner, items);
      }
      StyledElementEnds(print_, whole, start, inner, x, more, outer);
      IndentLays(whole, doc, inner, ElementLexemes(items, index));
      StyledLays(print_, whole, start, inner, x);
      LayConcat(whole, |start|, ValueLexemes(x), Commas(more) + tail);
      CommaLays(whole, element, more, tail);
      StyledElementsLay(print_, whole, element + Separator(more), inner, outer, items, index + 1);
    }
  }

  lemma InlineElementsStep(print_: DoublePrinter, doc: string, items: seq<Entry>, index: nat)
    requires index < Size(Array(items)) && !HasNestedContents(items)
    ensures Weight(ItemAt(items, index)) < Weight(Array(items))
    ensures Styled(print_, doc + InlineSeparator(index > 0), "", ItemAt(items, index))
         == doc + InlineSeparator(index > 0) + ScalarText(print_, ItemAt(items, index))
    ensures InlineElements(print_, doc, items, index)
         == InlineElements(print_, Styled(print_, doc + InlineSeparator(index > 0), "", ItemAt(items, index)),
                           items, index + 1)
  {
    GetWeight(items, Index(index));
  }

  /** Behind an element stands a comma or the blank in front of the bracket. */
  lemma InlineElementEnds(print_: DoublePrinter, whole: string, doc: string, items: seq<Entry>, index: nat)
    requires index > 0 && InlineElements(print_, doc, items, index) + " ]" <= whole
    ensures Ends(whole, |doc|)
  {
    if index < Size(Array(items)) {
      assert doc + [','] <= doc + InlineSeparator(true);
      EndsBefore(whole, doc, ',');
    } else {
      assert doc + [' '] <= doc + " ]";
      EndsBefore(whole, doc, ' ');
    }
  }

  lemma InlineSeparatorLays(whole: string, doc: string, needed: bool, rest: seq<Lexeme>)
    requires doc + InlineSeparator(needed) <= whole && rest != []
    ensures LayEnd(whole, |doc|, Commas(needed) + rest) == LayEnd(whole, |doc + InlineSeparator(needed)|, rest)
  {
    if needed {
      assert doc + ", " == doc + "," + " ";
      LayText(whole, doc, COMMA, rest);
      LaySpaces(whole, doc + ",", " ", rest);
    } else {
      assert doc + "" == doc && [] + rest == rest;
    }
  }

  lemma InlineEnd(print_: DoublePrinter, whole: string, doc: string, items: seq<Entry>, index: nat)
    requires index >= Size(Array(items)) && InlineElements(print_, doc, items, index) + " ]" <= whole
    ensures LayEnd(whole, |doc|, Commas(0 < index < Size(Array(items))) + ElementLexemes(items, index))
         == Some(|InlineElements(print_, doc, items, index) + " ]"|)
  {
    assert Commas(false) + ElementLexemes(items, index) == [RBRACKET] + [];
    assert doc + " ]" == doc + " " + "]";
    LaySpaces(whole, doc, " ", [RBRACKET] + []);
    LayText(whole, doc + " ", RBRACKET, []);
  }

  lemma {:induction false} InlineElementsLay(print_: DoublePrinter, whole: string, doc: string, items: seq<Entry>,
                                             index: nat)
    requires WellFormed(Array(items)) && RealFree(Array(items)) && !HasNestedContents(items)
    requires InlineElements(print_, doc, items, index) + " ]" <= whole
    ensures LayEnd(whole, |doc|, Commas(0 < index < Size(Array(items))) + ElementLexemes(items, index))
         == Some(|InlineElements(print_, doc, items, index) + " ]"|)
    decreases Weight(Array(items)), 0, Size(Array(items)) - index
  {
    hide *;
    if index >= Size(Array(items)) {
      InlineEnd(print_, whole, doc, items, index);
    } else {
      var x, start, more := ItemAt(items, index), doc + InlineSeparator(index > 0), index + 1 < Size(Array(items));
      var element := Styled(print_, start, "", x);
      var tail := Commas(more) + ElementLexemes(items, index + 1);
      InlineElementsStep(print_, doc, items, index);
      ElementLexemesStep(items, index);
      CommasText(more);
      RealFreeItem(items, index);
      InlineElementEnds(print_, whole, element, items, index + 1);
      InlineSeparatorLays(whole, doc, index > 0, ValueLexemes(x) + tail);
      BlankNothing();
      StyledLays(print_, whole, start, "", x);
      LayConcat(whole, |start|, ValueLexemes(x), tail);
      InlineElementsLay(print_, whole, element, items, index + 1);
    }
  }

  lemma BlankNothing()
    ensures Blank("")
  {}

  lemma {:induction false} StyledObjectLays(print_: DoublePrinter, whole: string, doc: string, indent: string,
                                            members: seq<Entry>)
    requires WellFormed(Object(members)) && RealFree(Object(members)) && Blank(indent) && members != []
    requires Styled(print_, doc, indent, Object(members)) <= whole
    ensures LayEnd(whole, |doc|, ValueLexemes(Object(members))) == Some(|Styled(print_, doc, indent, Object(members))|)
    decreases Weight(Object(members)), 1, 0
  {
    ContainerLexemes(Object(members));
    StyledObject(print_, doc, indent, members);
    hide *;
    var open := Indented(doc, indent);
    BracketText();
    IndentLays(whole, doc, indent, [LBRACE] + MemberLexemes(members));
    LayText(whole, open, LBRACE, MemberLexemes(members));
    BlankIndent(indent);
    StyledMembersLay(print_, whole, open + "{", indent + INDENT, indent, members);
  }

  lemma StyledObject(print_: DoublePrinter, doc: string, indent: string, members: seq<Entry>)
    requires members != []
    ensures EntriesWeight(members) < Weight(Object(members))
    ensures Styled(print_, doc, indent, Object(members))
         == Indented(StyledMembers(print_, Indented(doc, indent) + "{", indent + INDENT, members), indent) + "}"
  {}

  lemma StyledMembersHead(print_: DoublePrinter, doc: string, indent: string, members: seq<Entry>)
    requires members != []
    ensures Weight(members[0].value) < EntriesWeight(members) && EntriesWeight(members[1..]) < EntriesWeight(members)
    ensures var named := Indented(doc, indent) + Quoted(KeyText(members[0])) + " : ";
      StyledMembers(print_, doc, indent, members)
      == StyledMembers(print_, Styled(print_, named, indent, members[0].value) + Separator(|members| > 1), indent,
                       members[1..])
  {
    WeightStep(members);
  }

  lemma StyledMembersEnd(print_: DoublePrinter, doc: string, indent: string)
    ensures StyledMembers(print_, doc, indent, []) == doc && MemberLexemes([]) == [RBRACE] + []
  {}

  lemma StyledNameLays(whole: string, doc: string, indent: string, name: string, rest: seq<Lexeme>)
    requires Blank(indent) && Indented(doc, indent) + Quoted(name) + " : " <= whole && rest != []
    ensures LayEnd(whole, |doc|, [Lexeme(StringToken, Quoted(name))] + ([COLON] + rest))
         == LayEnd(whole, |Indented(doc, indent) + Quoted(name) + " : "|, rest)
  {
    hide Quoted, LayEnd, Indented;
    var quoted, start := Lexeme(StringToken, Quoted(name)), Indented(doc, indent);
    var named := start + quoted.text;
    assert named + " : " == named + " " + ":" + " ";
    IndentLays(whole, doc, indent, [quoted] + ([COLON] + rest));
    QuotedStart(name);
    LayText(whole, start, quoted, [COLON] + rest);
    LaySpaces(whole, named, " ", [COLON] + rest);
    LayText(whole, named + " ", COLON, rest);
    LaySpaces(whole, named + " " + ":", " ", rest);
  }

  lemma {:induction false} StyledMembersLay(print_: DoublePrinter, whole: string, doc: string, inner: string,
                                            outer: string, members: seq<Entry>)
    requires WellFormed(Object(members)) && RealFree(Object(members)) && Blank(inner) && Blank(outer)
    requires Indented(StyledMembers(print_, doc, inner, members), outer) + "}" <= whole
    ensures LayEnd(whole, |doc|, MemberLexemes(members))
         == Some(|Indented(StyledMembers(print_, doc, inner, members), outer) + "}"|)
    decreases EntriesWeight(members), 0, 0
  {
    hide *;
    if members == [] {
      StyledMembersEnd(print_, doc, inner);
      BracketText();
      ClosingLays(whole, doc, outer, RBRACE);
    } else {
      var name, value, tail, more := KeyText(members[0]), members[0].value, members[1..], |members| > 1;
      var named := Indented(doc, inner) + Quoted(name) + " : ";
      var element := Styled(print_, named, inner, value);
      StyledMembersHead(print_, doc, inner, members);
      MemberLexemesStep(members);
      CommasText(more);
      RealFreeMembers(members);
      if !more {
        assert tail == [];
        StyledMembersEnd(print_, element + Separator(more), inner);
      }
      StyledElementEnds(print_, whole, named, inner, value, more, outer);
      StyledNameLays(whole, doc, inner, name, ValueLexemes(value) + (Commas(more) + MemberLexemes(tail)));
      StyledLays(print_, whole, named, inner, value);
      LayConcat(whole, |named|, ValueLexemes(value), Commas(more) + MemberLexemes(tail));
      CommaLays(whole, element, more, MemberLexemes(tail));
      StyledMembersLay(print_, whole, element + Separator(more), inner, outer, tail);
    }
  }
}
