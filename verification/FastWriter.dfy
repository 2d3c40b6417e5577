/** FastWriter (json_writer.cpp): the compact form of a value, and the class that writes it. */
module FastWriter {
  import opened JsonValue
  import opened Numbers
  import opened Strings
  import opened Layout

  /** `valueToString(double)`, which rests on `sprintf`. */
  type DoublePrinter = real -> string

  /** Integers whose printing does not overflow: `minInt` cannot be negated. */
  ghost predicate Printable(v: Value) {
    match v
    case Int(i) => -MAX_INT <= i
    case Array(items) => forall k | 0 <= k < |items| :: Printable(items[k].value)
    case Object(members) => forall k | 0 <= k < |members| :: Printable(members[k].value)
    case _ => true
  }

  lemma PrintableItem(items: seq<Entry>, key: Key)
    requires Printable(Array(items)) || Printable(Object(items))
    requires Sorted(items)
    ensures Printable(Get(items, key))
  {
    if HasKey(items, key) {
      var i :| 0 <= i < |items| && items[i].key == key;
      GetMember(items, i);
    } else {
      GetAbsent(items, key);
    }
  }

  /** The text of a value without elements or members. */
  function ScalarText(print_: DoublePrinter, v: Value): string {
    match v
    case Null => "null"
    case Int(i) => IntText(i)
    case UInt(u) => IntText(u)
    case Real(r) => print_(r)
    case String(s) => Quoted(s)
    case Bool(b) => if b then "true" else "false"
    case Array(_) => "[]"
    case Object(_) => "{}"
  }

  // ---- The compact form: the document after writing a value behind `doc` ----

  function Compact(print_: DoublePrinter, yaml: bool, doc: string, v: Value): (r: string)
    ensures doc <= r
    decreases Weight(v), 1, 0
  {
    match v
    case Array(items) => CompactElements(print_, yaml, doc + "[", items, 0)
    case Object(members) => CompactMembers(print_, yaml, doc + "{", members, true)
    case _ => doc + ScalarText(print_, v)
  }

  /** Elements `index` and up, with the closing bracket. */
  function CompactElements(print_: DoublePrinter, yaml: bool, doc: string, items: seq<Entry>, index: nat): (r: string)
    ensures doc <= r
    decreases Weight(Array(items)), 0, Size(Array(items)) - index
  {
    if index >= Size(Array(items)) then doc + "]"
    else
      GetWeight(items, Index(index));
      var element := Compact(print_, yaml, doc + Separator(index > 0), ItemAt(items, index));
      CompactElements(print_, yaml, element, items, index + 1)
  }

  /** The members with the closing brace. */
  function CompactMembers(print_: DoublePrinter, yaml: bool, doc: string, members: seq<Entry>, first: bool): (r: string)
    ensures doc <= r
    decreases EntriesWeight(members), 0, 0
  {
    if members == [] then doc + "}"
    else
      WeightStep(members);
      var named := doc + Separator(!first) + Quoted(KeyText(members[0])) + ColonText(yaml);
      CompactMembers(print_, yaml, Compact(print_, yaml, named, members[0].value), members[1..], false)
  }

  function Separator(needed: bool): string {
    if needed then "," else ""
  }

  function ColonText(yaml: bool): string {
    if yaml then ": " else ":"
  }

  class FastWriter {
    var document_: string
    var yamlCompatiblityEnabled_: bool
    const printDouble: DoublePrinter

    constructor (printDouble: DoublePrinter)
      ensures !yamlCompatiblityEnabled_ && this.printDouble == printDouble
    {
      document_ := "";
      yamlCompatiblityEnabled_ := false;
      this.printDouble := printDouble;
    }

    method EnableYamlCompatibility()
      modifies this`yamlCompatiblityEnabled_
      ensures yamlCompatiblityEnabled_
    {
      yamlCompatiblityEnabled_ := true;
    }

    method Write(root: Value) returns (text: string)
      requires WellFormed(root) && Printable(root)
      modifies this`document_
      ensures text == Compact(printDouble, yamlCompatiblityEnabled_, "", root) + "\n" && document_ == text
    {
      document_ := "";
      WriteValue(root);
      document_ := document_ + "\n";
      text := document_;
    }

    method WriteValue(value: Value)
      requires WellFormed(value) && Printable(value)
      modifies this`document_
      ensures document_ == Compact(printDouble, yamlCompatiblityEnabled_, old(document_), value)
      decreases Weight(value), 1
    {
      match value
      case Null => document_ := document_ + "null";
      case Int(i) =>
        var text := IntToString(i);
        document_ := document_ + text;
      case UInt(u) =>
        var text := UIntToString(u);
        document_ := document_ + text;
      case Real(r) => document_ := document_ + printDouble(r);
      case String(s) =>
        var text := ValueToQuotedString(s);
        document_ := document_ + text;
      case Bool(b) => document_ := document_ + (if b then "true" else "false");
      case Array(items) => WriteArray(items);
      case Object(members) => WriteObject(members);
    }

    method WriteArray(items: seq<Entry>)
      requires WellFormed(Array(items)) && Printable(Array(items))
      modifies this`document_
      ensures document_ == Compact(printDouble, yamlCompatiblityEnabled_, old(document_), Array(items))
      decreases Weight(Array(items)), 0
    {
      document_ := document_ + "[";
      ghost var start := document_;
      ghost var yaml := yamlCompatiblityEnabled_;
      var size := Size(Array(items));
      for index := 0 to size
        invariant CompactElements(printDouble, yaml, start, items, 0)
               == CompactElements(printDouble, yaml, document_, items, index)
      {
        CompactElementsStep(printDouble, yaml, document_, items, index);
        hide *;
        SeparatorText(document_);
        if index > 0 {
          document_ := document_ + ",";
        }
        WellFormedGet(Array(items), Index(index));
        PrintableItem(items, Index(index));
        WriteValue(ItemAt(items, index));
      }
      document_ := document_ + "]";
    }

    method WriteObject(members: seq<Entry>)
      requires WellFormed(Object(members)) && Printable(Object(members))
      modifies this`document_
      ensures document_ == Compact(printDouble, yamlCompatiblityEnabled_, old(document_), Object(members))
      decreases Weight(Object(members)), 0
    {
      document_ := document_ + "{";
      ghost var start := document_;
      ghost var yaml := yamlCompatiblityEnabled_;
      assert members[0..] == members;
      for k := 0 to |members|
        invariant CompactMembers(printDouble, yaml, start, members, true)
               == CompactMembers(printDouble, yaml, document_, members[k..], k == 0)
      {
        CompactMembersStep(printDouble, yaml, document_, members, k);
        MemberAt(members, k);
        hide *;
        SeparatorText(document_);
        if k > 0 {
          document_ := document_ + ",";
        }
        var name := members[k].key.name;
        var quoted := ValueToQuotedString(name);
        document_ := document_ + quoted;
        document_ := document_ + ColonText(yamlCompatiblityEnabled_);
        WriteValue(Get(members, Name(name)));
      }
      document_ := document_ + "}";
    }
  }

  lemma SeparatorText(doc: string)
    ensures doc + Separator(true) == doc + "," && doc + Separator(false) == doc
  {}

  lemma CompactElementsStep(print_: DoublePrinter, yaml: bool, doc: string, items: seq<Entry>, index: nat)
    requires index < Size(Array(items))
    ensures Weight(ItemAt(items, index)) < Weight(Array(items)) && ItemAt(items, index) == Get(items, Index(index))
    ensures CompactElements(print_, yaml, doc, items, index)
         == CompactElements(print_, yaml, Compact(print_, yaml, doc + Separator(index > 0), ItemAt(items, index)),
                            items, index + 1)
  {
    GetWeight(items, Index(index));
  }

  lemma CompactMembersStep(print_: DoublePrinter, yaml: bool, doc: string, members: seq<Entry>, k: nat)
    requires k < |members|
    ensures CompactMembers(print_, yaml, doc, members[k..], k == 0)
         == CompactMembers(print_, yaml,
                           Compact(print_, yaml,
                                   doc + Separator(!(k == 0)) + Quoted(KeyText(members[k])) + ColonText(yaml),
                                   members[k].value),
                           members[k + 1..], k + 1 == 0)
  {
    assert members[k..][1..] == members[k + 1..];
  }

  /** What the loops over `getMemberNames()` rely on: looking a name up finds its own entry. */
  lemma MemberAt(members: seq<Entry>, k: nat)
    requires WellFormed(Object(members)) && Printable(Object(members)) && k < |members|
    ensures members[k].key.Name? && KeyText(members[k]) == members[k].key.name && NulFree(members[k].key.name)
    ensures Get(members, members[k].key) == members[k].value
    ensures WellFormed(members[k].value) && Printable(members[k].value)
    ensures Weight(members[k].value) < Weight(Object(members))
  {
    GetMember(members, k);
    GetWeight(members, members[k].key);
  }
}
