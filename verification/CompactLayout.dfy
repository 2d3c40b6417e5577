/** FastWriter's output is a layout of the tokens of the value. */
module CompactLayout {
  import opened Options
  import opened JsonValue
  import opened Tokens
  import opened Strings
  import opened Layout
  import opened FastWriter

  lemma ScalarTextLexeme(print_: DoublePrinter, v: Value)
    requires WellFormed(v) && IsScalar(v)
    ensures ValueLexemes(v) == [Lexeme(ValueLexemes(v)[0].kind, ScalarText(print_, v))] + []
    ensures ValueLexemes(v)[0].kind == Number <==> IsNumeric(v)
    ensures ScalarText(print_, v) != [] && !IsSpace(ScalarText(print_, v)[0])
  {
    ScalarLexeme(v);
    if v.String? { QuotedStart(v.s); }
  }

  /** The token sequence of `v` stands in `whole`, from the end of `doc` to the end of the compact text. */
  lemma {:induction false} CompactLays(print_: DoublePrinter, yaml: bool, whole: string, doc: string, v: Value)
    requires WellFormed(v) && RealFree(v) && Compact(print_, yaml, doc, v) <= whole
    requires IsNumeric(v) ==> Ends(whole, |Compact(print_, yaml, doc, v)|)
    ensures LayEnd(whole, |doc|, ValueLexemes(v)) == Some(|Compact(print_, yaml, doc, v)|)
    decreases Weight(v), 1, 0
  {
    if IsScalar(v) {
      ScalarTextLexeme(print_, v);
      LayText(whole, doc, ValueLexemes(v)[0], []);
    } else {
      ContainerLays(print_, yaml, whole, doc, v);
    }
  }

  lemma {:induction false} ContainerLays(print_: DoublePrinter, yaml: bool, whole: string, doc: string, v: Value)
    requires WellFormed(v) && RealFree(v) && Compact(print_, yaml, doc, v) <= whole
    requires v.Array? || v.Object?
    ensures LayEnd(whole, |doc|, ValueLexemes(v)) == Some(|Compact(print_, yaml, doc, v)|)
    decreases Weight(v), 0, Size(v) + 1
  {
    ContainerLexemes(v);
    if v.Array? {
      LayText(whole, doc, LBRACKET, ElementLexemes(v.items, 0));
      ElementsLay(print_, yaml, whole, doc + "[", v.items, 0);
      assert [] + ElementLexemes(v.items, 0) == ElementLexemes(v.items, 0);
    } else {
      LayText(whole, doc, LBRACE, MemberLexemes(v.members));
      MembersLay(print_, yaml, whole, doc + "{", v.members, true);
      assert [] + MemberLexemes(v.members) == MemberLexemes(v.members);
    }
  }

  function Commas(needed: bool): seq<Lexeme> {
    if needed then [COMMA] else []
  }

  lemma CommaLays(whole: string, doc: string, needed: bool, rest: seq<Lexeme>)
    requires doc + Separator(needed) <= whole
    ensures LayEnd(whole, |doc|, Commas(needed) + rest) == LayEnd(whole, |doc + Separator(needed)|, rest)
  {
    if needed {
      LayText(whole, doc, COMMA, rest);
    } else {
      assert doc + "" == doc && [] + rest == rest;
    }
  }

  /** Behind an element stands a comma or the bracket, so a number ends there. */
  lemma ElementsContinue(print_: DoublePrinter, yaml: bool, whole: string, doc: string, items: seq<Entry>, index: nat)
    requires index > 0 && CompactElements(print_, yaml, doc, items, index) <= whole
    ensures Ends(whole, |doc|)
  {
    EndsBefore(whole, doc, if index < Size(Array(items)) then ',' else ']');
  }

  lemma {:induction false} ElementsLay(print_: DoublePrinter, yaml: bool, whole: string, doc: string,
                                       items: seq<Entry>, index: nat)
    requires WellFormed(Array(items)) && RealFree(Array(items))
    requires CompactElements(print_, yaml, doc, items, index) <= whole
    ensures LayEnd(whole, |doc|, Commas(0 < index < Size(Array(items))) + ElementLexemes(items, index))
         == Some(|CompactElements(print_, yaml, doc, items, index)|)
    decreases Weight(Array(items)), 0, Size(Array(items)) - index
  {
    var size := Size(Array(items));
    if index >= size {
      assert Commas(false) + ElementLexemes(items, index) == [RBRACKET] + [];
      LayText(whole, doc, RBRACKET, []);
    } else {
      var x, named := ItemAt(items, index), doc + Separator(index > 0);
      var element := Compact(print_, yaml, named, x);
      var rest := Commas(index + 1 < size) + ElementLexemes(items, index + 1);
      CompactElementsStep(print_, yaml, doc, items, index);
      ElementLexemesStep(items, index);
      RealFreeItem(items, index);
      CommaLays(whole, doc, index > 0, ValueLexemes(x) + rest);
      ElementsContinue(print_, yaml, whole, element, items, index + 1);
      CompactLays(print_, yaml, whole, named, x);
      LayConcat(whole, |named|, ValueLexemes(x), rest);
      ElementsLay(print_, yaml, whole, element, items, index + 1);
    }
  }

  lemma MembersContinue(print_: DoublePrinter, yaml: bool, whole: string, doc: string, members: seq<Entry>)
    requires CompactMembers(print_, yaml, doc, members, false) <= whole
    ensures Ends(whole, |doc|)
  {
    EndsBefore(whole, doc, if members != [] then ',' else '}');
  }

  lemma ColonLays(whole: string, doc: string, yaml: bool, rest: seq<Lexeme>)
    requires doc + ColonText(yaml) <= whole && rest != []
    ensures LayEnd(whole, |doc|, [COLON] + rest) == LayEnd(whole, |doc + ColonText(yaml)|, rest)
  {
    assert doc + ColonText(yaml) == doc + ":" + (if yaml then " " else "");
    LayText(whole, doc, COLON, rest);
    LaySpaces(whole, doc + ":", if yaml then " " else "", rest);
  }

  /** Comma, name and colon of a member. */
  lemma NameLays(whole: string, doc: string, comma: bool, name: string, yaml: bool, rest: seq<Lexeme>)
    requires doc + Separator(comma) + Quoted(name) + ColonText(yaml) <= whole && rest != []
    ensures LayEnd(whole, |doc|, Commas(comma) + ([Lexeme(StringToken, Quoted(name))] + ([COLON] + rest)))
         == LayEnd(whole, |doc + Separator(comma) + Quoted(name) + ColonText(yaml)|, rest)
  {
    hide Quoted, LayEnd;
    var quoted := Lexeme(StringToken, Quoted(name));
    var opened_ := doc + Separator(comma);
    CommaLays(whole, doc, comma, [quoted] + ([COLON] + rest));
    QuotedStart(name);
    LayText(whole, opened_, quoted, [COLON] + rest);
    ColonLays(whole, opened_ + quoted.text, yaml, rest);
  }

  lemma CompactMembersHead(print_: DoublePrinter, yaml: bool, doc: string, members: seq<Entry>, first: bool)
    requires members != []
    ensures CompactMembers(print_, yaml, doc, members, first)
         == CompactMembers(print_, yaml,
                           Compact(print_, yaml,
                                   doc + Separator(!first) + Quoted(KeyText(members[0])) + ColonText(yaml),
                                   members[0].value),
                           members[1..], false)
    ensures Weight(members[0].value) < EntriesWeight(members) && EntriesWeight(members[1..]) < EntriesWeight(members)
  {
    WeightStep(members);
  }

  lemma {:induction false} MembersLay(print_: DoublePrinter, yaml: bool, whole: string, doc: string,
                                      members: seq<Entry>, first: bool)
    requires WellFormed(Object(members)) && RealFree(Object(members))
    requires CompactMembers(print_, yaml, doc, members, first) <= whole
    ensures LayEnd(whole, |doc|, Commas(!first && members != []) + MemberLexemes(members))
         == Some(|CompactMembers(print_, yaml, doc, members, first)|)
    decreases EntriesWeight(members), 0, 0
  {
    hide *;
    if members == [] {
      NoMembersLay(print_, yaml, whole, doc, first);
    } else {
      var name, value, tail := KeyText(members[0]), members[0].value, members[1..];
      var named := doc + Separator(!first) + Quoted(name) + ColonText(yaml);
      var element := Compact(print_, yaml, named, value);
      var rest := Commas(tail != []) + MemberLexemes(tail);
      CompactMembersHead(print_, yaml, doc, members, first);
      RealFreeMembers(members);
      MemberLexemesStep(members);
      CommasText(tail != []);
      NameLays(whole, doc, !first, name, yaml, ValueLexemes(value) + rest);
      MembersContinue(print_, yaml, whole, element, tail);
      CompactLays(print_, yaml, whole, named, value);
      LayConcat(whole, |named|, ValueLexemes(value), rest);
      MembersLay(print_, yaml, whole, element, tail, false);
      assert !first && members != [] <==> !first;
    }
  }

  lemma CommasText(needed: bool)
    ensures Commas(needed) == if needed then [COMMA] else []
  {}

  lemma NoMembersLay(print_: DoublePrinter, yaml: bool, whole: string, doc: string, first: bool)
    requires CompactMembers(print_, yaml, doc, [], first) <= whole
    ensures LayEnd(whole, |doc|, Commas(false) + MemberLexemes([]))
         == Some(|CompactMembers(print_, yaml, doc, [], first)|)
  {
    assert Commas(false) + MemberLexemes([]) == [RBRACE] + [];
    LayText(whole, doc, RBRACE, []);
  }
}
