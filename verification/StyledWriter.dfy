/** StyledWriter (json_writer.cpp): the indented form. Comments are not modelled, so `isMultineArray`
    never sees one. */
module StyledWriter {
  import opened JsonValue
  import opened Numbers
  import opened Strings
  import opened Layout
  import opened FastWriter

  const RIGHT_MARGIN := 74
  const INDENT := "   "

  // ---- The styled form: the document after writing a value behind `doc` ----

  /** writeIndent. */
  function Indented(doc: string, indent: string): (r: string)
    ensures doc <= r
  {
    if doc == [] then doc + indent
    else if doc[|doc| - 1] == ' ' then doc
    else if doc[|doc| - 1] == '\n' then doc + indent
    else doc + "\n" + indent
  }

  predicate HasContents(v: Value) {
    (v.Array? || v.Object?) && Size(v) > 0
  }

  /** The total length of the texts of the elements `index` and up. */
  function ElementsLength(print_: DoublePrinter, items: seq<Entry>, index: nat): nat
    decreases Size(Array(items)) - index
  {
    if index >= Size(Array(items)) then 0
    else |ScalarText(print_, ItemAt(items, index))| + ElementsLength(print_, items, index + 1)
  }

  predicate HasNestedContents(items: seq<Entry>) {
    exists index | 0 <= index < Size(Array(items)) :: HasContents(ItemAt(items, index))
  }

  /** isMultineArray: too many elements, an element with contents, or a line beyond the margin. */
  predicate IsMultiline(print_: DoublePrinter, items: seq<Entry>) {
    var size := Size(Array(items));
    size * 3 >= RIGHT_MARGIN || HasNestedContents(items)
    || 4 + (size - 1) * 2 + ElementsLength(print_, items, 0) >= RIGHT_MARGIN
  }

  function Styled(print_: DoublePrinter, doc: string, indent: string, v: Value): (r: string)
    ensures doc <= r
    decreases Weight(v), 1, 0
  {
    if !HasContents(v) then doc + ScalarText(print_, v)
    else
      match v
      case Array(items) =>
        if IsMultiline(print_, items) then
          var open := Indented(doc, indent) + "[";
          Indented(StyledElements(print_, open, indent + INDENT, items, 0), indent) + "]"
        else InlineElements(print_, doc + "[ ", items, 0) + " ]"
      case Object(members) =>
        var open := Indented(doc, indent) + "{";
        Indented(StyledMembers(print_, open, indent + INDENT, members), indent) + "}"
      case _ => doc
  }

  /** One element a line, `index` and up. */
  function StyledElements(print_: DoublePrinter, doc: string, indent: string, items: seq<Entry>, index: nat)
    : (r: string)
    ensures doc <= r
    decreases Weight(Array(items)), 0, Size(Array(items)) - index
  {
    if index >= Size(Array(items)) then doc
    else
      GetWeight(items, Index(index));
      var element := Styled(print_, Indented(doc, indent), indent, ItemAt(items, index));
      StyledElements(print_, element + Separator(index + 1 < Size(Array(items))), indent, items, index + 1)
  }

  /** All elements `index` and up on one line. */
  function InlineElements(print_: DoublePrinter, doc: string, items: seq<Entry>, index: nat): (r: string)
    ensures doc <= r
    decreases Size(Array(items)) - index
  {
    if index >= Size(Array(items)) then doc
    else
      var element := doc + InlineSeparator(index > 0) + ScalarText(print_, ItemAt(items, index));
      InlineElements(print_, element, items, index + 1)
  }

  function InlineSeparator(needed: bool): string {
    if needed then ", " else ""
  }

  /** One member a line. */
  function StyledMembers(print_: DoublePrinter, doc: string, indent: string, members: seq<Entry>): (r: string)
    ensures doc <= r
    decreases EntriesWeight(members), 0, 0
  {
    if members == [] then doc
    else
      WeightStep(members);
      var named := Indented(doc, indent) + Quoted(KeyText(members[0])) + " : ";
      var element := Styled(print_, named, indent, members[0].value);
      StyledMembers(print_, element + Separator(|members| > 1), indent, members[1..])
  }

  // ---- One step of each loop ----

  lemma StyledElementsStep(print_: DoublePrinter, doc: string, indent: string, items: seq<Entry>, index: nat)
    requires index < Size(Array(items))
    ensures Weight(ItemAt(items, index)) < Weight(Array(items))
    ensures var element := Styled(print_, Indented(doc, indent), indent, ItemAt(items, index));
      StyledElements(print_, doc, indent, items, index)
      == StyledElements(print_, element + Separator(index + 1 < Size(Array(items))), indent, items, index + 1)
  {
    GetWeight(items, Index(index));
  }

  lemma StyledElementsEnd(print_: DoublePrinter, doc: string, indent: string, items: seq<Entry>)
    ensures StyledElements(print_, doc, indent, items, Size(Array(items))) == doc
  {}

  lemma StyledMultiline(print_: DoublePrinter, doc: string, indent: string, items: seq<Entry>)
    requires Size(Array(items)) > 0 && IsMultiline(print_, items)
    ensures Styled(print_, doc, indent, Array(items))
         == Indented(StyledElements(print_, Indented(doc, indent) + "[", indent + INDENT, items, 0), indent) + "]"
  {}

  lemma StyledMembersStep(print_: DoublePrinter, doc: string, indent: string, members: seq<Entry>, k: nat)
    requires k < |members|
    ensures var named := Indented(doc, indent) + Quoted(KeyText(members[k])) + " : ";
      StyledMembers(print_, doc, indent, members[k..])
      == StyledMembers(print_, Styled(print_, named, indent, members[k].value) + Separator(k + 1 < |members|),
                       indent, members[k + 1..])
  {
    assert members[k..][1..] == members[k + 1..];
  }

  /** The texts `childValues_` holds for an array printed on one line. */
  lemma ItemIsSmaller(items: seq<Entry>, index: nat)
    requires index < Size(Array(items))
    ensures Weight(ItemAt(items, index)) < Weight(Array(items))
    ensures HasContents(ItemAt(items, index)) ==> HasNestedContents(items)
  {
    GetWeight(items, Index(index));
  }

  function ChildTexts(print_: DoublePrinter, items: seq<Entry>, count: nat): (r: seq<string>)
    ensures |r| == count
    ensures forall k | 0 <= k < count :: r[k] == ScalarText(print_, ItemAt(items, k))
  {
    seq(count, k requires 0 <= k < count => ScalarText(print_, ItemAt(items, k)))
  }

  lemma ItemFacts(print_: DoublePrinter, doc: string, indent: string, items: seq<Entry>, index: nat)
    requires WellFormed(Array(items)) && Printable(Array(items)) && index < Size(Array(items))
    ensures WellFormed(ItemAt(items, index)) && Printable(ItemAt(items, index))
    ensures !HasNestedContents(items) ==>
      Styled(print_, doc, indent, ItemAt(items, index)) == doc + ScalarText(print_, ItemAt(items, index))
  {
    WellFormedGet(Array(items), Index(index));
    PrintableItem(items, Index(index));
  }

  lemma ChildTextAt(print_: DoublePrinter, items: seq<Entry>, index: nat)
    requires index < Size(Array(items))
    ensures index < |ChildTexts(print_, items, Size(Array(items)))|
    ensures ChildTexts(print_, items, Size(Array(items)))[index] == ScalarText(print_, ItemAt(items, index))
  {}

  class StyledWriter {
    var childValues_: seq<string>
    var document_: string
    var indentString_: string
    var addChildValues_: bool
    const printDouble: DoublePrinter

    constructor (printDouble: DoublePrinter)
      ensures this.printDouble == printDouble
    {
      childValues_, document_, indentString_, addChildValues_ := [], "", "", false;
      this.printDouble := printDouble;
    }

    method Write(root: Value) returns (text: string)
      requires WellFormed(root) && Printable(root)
      modifies this
      ensures text == Styled(printDouble, "", "", root) + "\n" && document_ == text
      ensures indentString_ == "" && !addChildValues_
    {
      document_ := "";
      addChildValues_ := false;
      indentString_ := "";
      WriteValue(root);
      document_ := document_ + "\n";
      text := document_;
    }

    /** While `addChildValues_` is set the text goes to `childValues_`, else to the document; the flag
        and the indentation are as before. */
    method WriteValue(value: Value)
      requires WellFormed(value) && Printable(value)
      requires addChildValues_ ==> !HasContents(value)
      modifies this
      ensures addChildValues_ == old(addChildValues_) && indentString_ == old(indentString_)
      ensures addChildValues_ ==>
        document_ == old(document_) && childValues_ == old(childValues_) + [ScalarText(printDouble, value)]
      ensures !addChildValues_ ==> document_ == Styled(printDouble, old(document_), indentString_, value)
      decreases Weight(value), 4
    {
      match value
      case Null => PushValue("null");
      case Int(i) =>
        var text := IntToString(i);
        PushValue(text);
      case UInt(u) =>
        var text := UIntToString(u);
        PushValue(text);
      case Real(r) => PushValue(printDouble(r));
      case String(s) =>
        var text := ValueToQuotedString(s);
        PushValue(text);
      case Bool(b) => PushValue(if b then "true" else "false");
      case Array(items) => WriteArrayValue(items);
      case Object(members) =>
        if members == [] {
          PushValue("{}");
        } else {
          WriteObjectValue(members);
        }
    }

    method PushValue(value: string)
      modifies this`childValues_, this`document_
      ensures old(addChildValues_) ==> document_ == old(document_) && childValues_ == old(childValues_) + [value]
      ensures !old(addChildValues_) ==> document_ == old(document_) + value && childValues_ == old(childValues_)
    {
      if addChildValues_ {
        childValues_ := childValues_ + [value];
      } else {
        document_ := document_ + value;
      }
    }

    method WriteIndent()
      modifies this`document_
      ensures document_ == Indented(old(document_), indentString_)
    {
      if document_ != "" {
        var last := document_[|document_| - 1];
        if last == ' ' { return; }
        if last != '\n' {
          document_ := document_ + "\n";
        }
      }
      document_ := document_ + indentString_;
    }

    method Indent()
      modifies this`indentString_
      ensures indentString_ == old(indentString_) + INDENT
    {
      indentString_ := indentString_ + INDENT;
    }

    method WriteWithIndent(value: string)
      modifies this`document_
      ensures document_ == Indented(old(document_), indentString_) + value
    {
      WriteIndent();
      document_ := document_ + value;
    }

    method WriteObjectValue(members: seq<Entry>)
      requires WellFormed(Object(members)) && Printable(Object(members)) && members != [] && !addChildValues_
      modifies this
      ensures !addChildValues_ && indentString_ == old(indentString_)
      ensures document_ == Styled(printDouble, old(document_), indentString_, Object(members))
      decreases Weight(Object(members)), 0
    {
      ghost var before, outer := document_, indentString_;
      WriteWithIndent("{");
      Indent();
      ghost var start, inner := document_, indentString_;
      assert members[0..] == members;
      var k := 0;
      while k < |members|
        invariant k <= |members| && !addChildValues_ && indentString_ == inner
        invariant StyledMembers(printDouble, start, inner, members)
               == StyledMembers(printDouble, document_, inner, members[k..])
      {
        StyledMembersStep(printDouble, document_, inner, members, k);
        MemberAt(members, k);
        hide *;
        SeparatorText(Styled(printDouble, Indented(document_, inner) + Quoted(KeyText(members[k])) + " : ", inner,
                             members[k].value));
        var name := members[k].key.name;
        var quoted := ValueToQuotedString(name);
        WriteWithIndent(quoted);
        document_ := document_ + " : ";
        WriteValue(Get(members, Name(name)));
        k := k + 1;
        if k != |members| {
          document_ := document_ + ",";
        }
      }
      Unindent(outer);
      WriteWithIndent("}");
    }

    /** `unindent`: the indentation never becomes shorter than empty. */
    method Unindent(ghost outer: string)
      requires indentString_ == outer + INDENT
      modifies this`indentString_
      ensures indentString_ == outer
    {
      indentString_ := indentString_[..|indentString_| - |INDENT|];
    }

    method WriteArrayValue(items: seq<Entry>)
      requires WellFormed(Array(items)) && Printable(Array(items))
      requires addChildValues_ ==> Size(Array(items)) == 0
      modifies this
      ensures addChildValues_ == old(addChildValues_) && indentString_ == old(indentString_)
      ensures addChildValues_ ==>
        document_ == old(document_) && childValues_ == old(childValues_) + [ScalarText(printDouble, Array(items))]
      ensures !addChildValues_ ==> document_ == Styled(printDouble, old(document_), indentString_, Array(items))
      decreases Weight(Array(items)), 3
    {
      if Size(Array(items)) == 0 {
        PushValue("[]");
      } else {
        var isArrayMultiLine := IsMultineArray(items);
        if isArrayMultiLine {
          WriteMultiline(items);
        } else {
          WriteInline(items);
        }
      }
    }

    method WriteMultiline(items: seq<Entry>)
      requires WellFormed(Array(items)) && Printable(Array(items)) && !addChildValues_
      requires Size(Array(items)) > 0 && IsMultiline(printDouble, items)
      requires childValues_ == [] || childValues_ == ChildTexts(printDouble, items, Size(Array(items)))
      requires childValues_ != [] ==> !HasNestedContents(items)
      modifies this
      ensures !addChildValues_ && indentString_ == old(indentString_)
      ensures document_ == Styled(printDouble, old(document_), indentString_, Array(items))
      decreases Weight(Array(items)), 1
    {
      hide *;
      ghost var outer := indentString_;
      StyledMultiline(printDouble, document_, outer, items);
      WriteWithIndent("[");
      Indent();
      ghost var start, inner := document_, indentString_;
      var hasChildValue := childValues_ != [];
      var size := Size(Array(items));
      var index := 0;
      while index < size
        invariant index <= size && !addChildValues_ && indentString_ == inner
        invariant hasChildValue ==> childValues_ == ChildTexts(printDouble, items, size)
        invariant StyledElements(printDouble, start, inner, items, 0)
               == StyledElements(printDouble, document_, inner, items, index)
      {
        StyledElementsStep(printDouble, document_, inner, items, index);
        SeparatorText(Styled(printDouble, Indented(document_, inner), inner, ItemAt(items, index)));
        WriteElement(items, index, hasChildValue);
        index := index + 1;
        if index != size {
          document_ := document_ + ",";
        }
      }
      StyledElementsEnd(printDouble, document_, inner, items);
      Unindent(outer);
      WriteWithIndent("]");
    }

    /** An element on its own line, from `childValues_` when its text is already there. */
    method WriteElement(items: seq<Entry>, index: nat, hasChildValue: bool)
      requires WellFormed(Array(items)) && Printable(Array(items)) && !addChildValues_
      requires index < Size(Array(items))
      requires hasChildValue ==>
        childValues_ == ChildTexts(printDouble, items, Size(Array(items))) && !HasNestedContents(items)
      modifies this
      ensures !addChildValues_ && indentString_ == old(indentString_)
      ensures hasChildValue ==> childValues_ == old(childValues_)
      ensures document_
           == Styled(printDouble, Indented(old(document_), indentString_), indentString_, ItemAt(items, index))
      decreases Weight(Array(items)), 0
    {
      ItemFacts(printDouble, Indented(document_, indentString_), indentString_, items, index);
      ChildTextAt(printDouble, items, index);
      GetWeight(items, Index(index));
      hide *;
      if hasChildValue {
        WriteWithIndent(childValues_[index]);
      } else {
        WriteIndent();
        WriteValue(ItemAt(items, index));
      }
    }

    /** The source asserts `childValues_.size() == size` here. */
    method WriteInline(items: seq<Entry>)
      requires Size(Array(items)) > 0 && !IsMultiline(printDouble, items)
      requires childValues_ == ChildTexts(printDouble, items, Size(Array(items)))
      modifies this`document_
      ensures document_ == Styled(printDouble, old(document_), indentString_, Array(items))
    {
      hide ChildTexts, ScalarText, Size, HasNestedContents;
      var size := Size(Array(items));
      assert |childValues_| == size;
      document_ := document_ + "[ ";
      ghost var start := document_;
      for index := 0 to size
        invariant InlineElements(printDouble, start, items, 0) == InlineElements(printDouble, document_, items, index)
      {
        ghost var before := document_;
        if index > 0 {
          document_ := document_ + ", ";
        }
        assert document_ == before + InlineSeparator(index > 0);
        document_ := document_ + childValues_[index];
      }
      document_ := document_ + " ]";
    }

    /** The first loop of isMultineArray. */
    method HasNestedChild(items: seq<Entry>) returns (isMultiLine: bool)
      ensures isMultiLine <==> Size(Array(items)) * 3 >= RIGHT_MARGIN || HasNestedContents(items)
    {
      hide HasContents;
      var size := Size(Array(items));
      isMultiLine := size * 3 >= RIGHT_MARGIN;
      var index := 0;
      while index < size && !isMultiLine
        invariant index <= size
        invariant isMultiLine ==> size * 3 >= RIGHT_MARGIN || HasNestedContents(items)
        invariant !isMultiLine ==> size * 3 < RIGHT_MARGIN
        invariant !isMultiLine ==> forall k | 0 <= k < index :: !HasContents(ItemAt(items, k))
        decreases size - index, !isMultiLine
      {
        isMultiLine := isMultiLine || HasContents(ItemAt(items, index));
        index := index + 1;
      }
    }

    /** The second loop of isMultineArray. */
    method CollectChildValues(items: seq<Entry>) returns (lineLength: nat)
      requires WellFormed(Array(items)) && Printable(Array(items)) && !HasNestedContents(items)
      requires !addChildValues_ && childValues_ == [] && Size(Array(items)) > 0
      modifies this
      ensures !addChildValues_ && indentString_ == old(indentString_) && document_ == old(document_)
      ensures childValues_ == ChildTexts(printDouble, items, Size(Array(items)))
      ensures lineLength == 4 + (Size(Array(items)) - 1) * 2 + ElementsLength(printDouble, items, 0)
      decreases Weight(Array(items)), 0
    {
      hide Size, WellFormed, Printable, ScalarText, Styled, Get;
      var size := Size(Array(items));
      addChildValues_ := true;
      lineLength := 4 + (size - 1) * 2;
      ghost var total := lineLength + ElementsLength(printDouble, items, 0);
      for i := 0 to size
        invariant addChildValues_ && indentString_ == old(indentString_) && document_ == old(document_)
        invariant childValues_ == ChildTexts(printDouble, items, i)
        invariant total == lineLength + ElementsLength(printDouble, items, i)
      {
        ItemFacts(printDouble, "", "", items, i);
        ItemIsSmaller(items, i);
        WriteValue(ItemAt(items, i));
        lineLength := lineLength + |childValues_[i]|;
      }
      addChildValues_ := false;
    }

    /** isMultineArray, which leaves the texts of all elements in `childValues_` unless it decides early. */
    method IsMultineArray(items: seq<Entry>) returns (isMultiLine: bool)
      requires WellFormed(Array(items)) && Printable(Array(items)) && !addChildValues_ && Size(Array(items)) > 0
      modifies this
      ensures isMultiLine == IsMultiline(printDouble, items)
      ensures !addChildValues_ && indentString_ == old(indentString_) && document_ == old(document_)
      ensures childValues_ == [] || childValues_ == ChildTexts(printDouble, items, Size(Array(items)))
      ensures childValues_ == [] ==> isMultiLine
      ensures childValues_ != [] ==> !HasNestedContents(items)
      decreases Weight(Array(items)), 1
    {
      hide Size, WellFormed, Printable, HasNestedContents, ElementsLength, ChildTexts;
      isMultiLine := HasNestedChild(items);
      childValues_ := [];
      if !isMultiLine {
        var lineLength := CollectChildValues(items);
        isMultiLine := lineLength >= RIGHT_MARGIN;
      }
    }
  }
}
