/** The laws the JSON pipeline exists for: what either writer prints, the reader reads back. */
module RoundTrip {
  import opened Options
  import opened JsonValue
  import opened Tokens
  import opened Numbers
  import opened Strings
  import opened Parser
  import opened Layout
  import opened ReadBack
  import opened FastWriter
  import opened StyledWriter
  import opened CompactLayout
  import opened StyledLayout

  // ---- Which values come back unchanged ----

  /** Integers the reader's accumulator keeps with their type, no reals, and arrays without gaps. */
  ghost predicate InDomain(v: Value) {
    match v
    case Int(i) => MIN_READABLE_INT <= i
    case UInt(u) => MAX_INT < u <= MAX_READABLE_UINT
    case Real(_) => false
    case Array(items) => Dense(items) && (forall k | 0 <= k < |items| :: InDomain(items[k].value))
    case Object(members) => forall k | 0 <= k < |members| :: InDomain(members[k].value)
    case _ => true
  }

  lemma NumberReread(scan: DoubleScanner, v: Value)
    requires WellFormed(v) && Printable(v) && IsNumeric(v)
    ensures Reread(scan, v) == v <==> InDomain(v)
    ensures InDomain(v) ==> Readable(scan, v)
  {
    if v.Int? {
      IntReadBack(scan, v.i);
    } else {
      UIntReadBack(scan, v.u);
    }
  }

  /** The elements read back: one for every index below the size, each the reading of what was there. */
  lemma {:induction false} RereadElementsAt(scan: DoubleScanner, items: seq<Entry>, index: nat)
    requires index <= Size(Array(items))
    ensures var r := RereadElements(scan, items, index);
      |r| == Size(Array(items)) - index
      && forall k | 0 <= k < |r| :: r[k] == Entry(Index(index + k), Reread(scan, ItemAt(items, index + k)))
    decreases Size(Array(items)) - index
  {
    if index < Size(Array(items)) {
      RereadElementsAt(scan, items, index + 1);
    }
  }

  lemma {:induction false} RereadMembersAt(scan: DoubleScanner, members: seq<Entry>, k: nat)
    requires k < |members|
    ensures RereadMembers(scan, members)[k] == Entry(members[k].key, Reread(scan, members[k].value))
  {
    if k > 0 {
      RereadMembersAt(scan, members[1..], k - 1);
    }
  }

  lemma DenseSize(items: seq<Entry>)
    requires Dense(items)
    ensures Size(Array(items)) == |items|
  {}

  lemma ArrayReread(scan: DoubleScanner, items: seq<Entry>)
    requires Sorted(items)
    ensures Reread(scan, Array(items)) == Array(items)
       <==> Dense(items) && forall k | 0 <= k < |items| :: Reread(scan, items[k].value) == items[k].value
  {
    var r := RereadElements(scan, items, 0);
    RereadElementsAt(scan, items, 0);
    RereadContainer(scan, Array(items));
    hide RereadElements, Reread;
    forall k | 0 <= k < |items|
      ensures Get(items, items[k].key) == items[k].value
    {
      GetMember(items, k);
    }
    if r == items {
      forall k | 0 <= k < |items|
        ensures items[k].key == Index(k) && Reread(scan, items[k].value) == items[k].value
      {
        assert r[k] == Entry(Index(k), Reread(scan, Get(items, Index(k))));
      }
    } else if Dense(items) {
      DenseSize(items);
      var k :| 0 <= k < |items| && r[k] != items[k];
      assert r[k] == Entry(Index(k), Reread(scan, Get(items, items[k].key)));
    }
  }

  lemma ObjectReread(scan: DoubleScanner, members: seq<Entry>)
    ensures Reread(scan, Object(members)) == Object(members)
       <==> forall k | 0 <= k < |members| :: Reread(scan, members[k].value) == members[k].value
  {
    forall k | 0 <= k < |members|
      ensures RereadMembers(scan, members)[k] == Entry(members[k].key, Reread(scan, members[k].value))
    {
      RereadMembersAt(scan, members, k);
    }
  }

  /** Reading back is the identity on exactly the values of the domain, and they never need a double. */
  lemma {:induction false} RereadIdentity(scan: DoubleScanner, v: Value)
    requires WellFormed(v) && Printable(v) && RealFree(v)
    ensures Reread(scan, v) == v <==> InDomain(v)
    ensures InDomain(v) ==> Readable(scan, v)
    decreases v
  {
    match v
    case Array(items) =>
      ArrayReread(scan, items);
      forall k | 0 <= k < |items|
        ensures Reread(scan, items[k].value) == items[k].value <==> InDomain(items[k].value)
        ensures InDomain(items[k].value) ==> Readable(scan, items[k].value)
      {
        RereadIdentity(scan, items[k].value);
      }
    case Object(members) =>
      ObjectReread(scan, members);
      forall k | 0 <= k < |members|
        ensures Reread(scan, members[k].value) == members[k].value <==> InDomain(members[k].value)
        ensures InDomain(members[k].value) ==> Readable(scan, members[k].value)
      {
        RereadIdentity(scan, members[k].value);
      }
    case Int(_) => NumberReread(scan, v);
    case UInt(_) => NumberReread(scan, v);
    case _ =>
  }

  lemma ReadableIsRealFree(scan: DoubleScanner, v: Value)
    requires Readable(scan, v)
    ensures RealFree(v)
  {}

  // ---- Embedded values ----

  /** A compact value anywhere in a document is consumed exactly, whatever follows it; only a number
      must not be followed by a character that could continue it. */
  lemma CompactEmbedded(print_: DoublePrinter, yaml: bool, cfg: Config, before: string, v: Value, whole: string,
                        old_: Value)
    requires WellFormed(v) && Readable(cfg.scan, v) && Compact(print_, yaml, before, v) <= whole
    requires IsNumeric(v) ==> Ends(whole, |Compact(print_, yaml, before, v)|)
    ensures ReadValue(cfg, whole, |before|, old_)
         == Reading(true, |Compact(print_, yaml, before, v)|, Reread(cfg.scan, v), [])
  {
    ReadableIsRealFree(cfg.scan, v);
    CompactLays(print_, yaml, whole, before, v);
    ReadsBack(cfg, whole, |before|, v, old_, |Compact(print_, yaml, before, v)|);
  }

  lemma StyledEmbedded(print_: DoublePrinter, cfg: Config, before: string, v: Value, whole: string, old_: Value)
    requires WellFormed(v) && Readable(cfg.scan, v) && Styled(print_, before, "", v) <= whole
    requires IsNumeric(v) ==> Ends(whole, |Styled(print_, before, "", v)|)
    ensures ReadValue(cfg, whole, |before|, old_)
         == Reading(true, |Styled(print_, before, "", v)|, Reread(cfg.scan, v), [])
  {
    ReadableIsRealFree(cfg.scan, v);
    StyledLays(print_, whole, before, "", v);
    ReadsBack(cfg, whole, |before|, v, old_, |Styled(print_, before, "", v)|);
  }

  // ---- Whole documents ----

  lemma LineEnd(doc: string)
    ensures Ends(doc + "\n", |doc|)
    ensures SkipSpaces(doc + "\n", |doc|) == |doc| + 1
    ensures ReadToken(doc + "\n", |doc|) == Token(EndOfStream, |doc| + 1, |doc| + 1)
  {
    var whole := doc + "\n";
    assert whole[|doc|] == '\n';
    assert SkipSpaces(whole, |doc| + 1) == |doc| + 1;
  }

  lemma ParseReadDocument(cfg: Config, doc: string, root: Value, v: Value)
    requires ReadValue(cfg, doc + "\n", 0, root) == Reading(true, |doc|, v, [])
    requires cfg.strictRoot ==> IsContainer(v)
    ensures Parse(cfg, doc + "\n", root) == Reading(true, |doc| + 1, v, [])
  {
    LineEnd(doc);
    FirstTokenIs(cfg, doc + "\n", |doc|);
  }

  lemma RereadKeepsContainers(scan: DoubleScanner, v: Value)
    ensures IsContainer(v) ==> IsContainer(Reread(scan, v))
  {}

  /** `parse(FastWriter.write(v))`, for every printable value, in terms of the value. */
  lemma CompactParses(print_: DoublePrinter, yaml: bool, cfg: Config, v: Value, root: Value)
    requires WellFormed(v) && Readable(cfg.scan, v) && (cfg.strictRoot ==> IsContainer(v))
    ensures var text := Compact(print_, yaml, "", v);
      Parse(cfg, text + "\n", root) == Reading(true, |text| + 1, Reread(cfg.scan, v), [])
  {
    var text := Compact(print_, yaml, "", v);
    LineEnd(text);
    CompactEmbedded(print_, yaml, cfg, "", v, text + "\n", root);
    RereadKeepsContainers(cfg.scan, v);
    ParseReadDocument(cfg, text, root, Reread(cfg.scan, v));
  }

  /** `parse(StyledWriter.write(v))` gives the same value as the compact form. */
  lemma StyledParses(print_: DoublePrinter, cfg: Config, v: Value, root: Value)
    requires WellFormed(v) && Readable(cfg.scan, v) && (cfg.strictRoot ==> IsContainer(v))
    ensures var text := Styled(print_, "", "", v);
      Parse(cfg, text + "\n", root) == Reading(true, |text| + 1, Reread(cfg.scan, v), [])
  {
    var text := Styled(print_, "", "", v);
    LineEnd(text);
    StyledEmbedded(print_, cfg, "", v, text + "\n", root);
    RereadKeepsContainers(cfg.scan, v);
    ParseReadDocument(cfg, text, root, Reread(cfg.scan, v));
  }

  /** Both writers are undone by the reader on the whole domain, under every feature setting that
      admits the root. */
  lemma PrintThenParse(print_: DoublePrinter, yaml: bool, cfg: Config, v: Value, root: Value)
    requires WellFormed(v) && InDomain(v) && (cfg.strictRoot ==> IsContainer(v))
    ensures var r := Parse(cfg, Compact(print_, yaml, "", v) + "\n", root); r.ok && r.value == v && r.errors == []
    ensures var r := Parse(cfg, Styled(print_, "", "", v) + "\n", root); r.ok && r.value == v && r.errors == []
  {
    DomainIsPrintable(v);
    RereadIdentity(cfg.scan, v);
    CompactParses(print_, yaml, cfg, v, root);
    StyledParses(print_, cfg, v, root);
  }

  lemma DomainIsPrintable(v: Value)
    requires InDomain(v)
    ensures Printable(v) && RealFree(v)
  {}

  /** Outside the domain the round trip fails: it succeeds exactly on the domain. */
  lemma RoundTripExactly(print_: DoublePrinter, yaml: bool, cfg: Config, v: Value, root: Value)
    requires WellFormed(v) && Printable(v) && Readable(cfg.scan, v) && (cfg.strictRoot ==> IsContainer(v))
    ensures Parse(cfg, Compact(print_, yaml, "", v) + "\n", root).value == v <==> InDomain(v)
    ensures Parse(cfg, Styled(print_, "", "", v) + "\n", root).value == v <==> InDomain(v)
  {
    ReadableIsRealFree(cfg.scan, v);
    RereadIdentity(cfg.scan, v);
    CompactParses(print_, yaml, cfg, v, root);
    StyledParses(print_, cfg, v, root);
  }

  /** A sparse array comes back dense: same size, the same value read at every index, gaps as null. */
  lemma SparseArrayReadBack(print_: DoublePrinter, yaml: bool, cfg: Config, items: seq<Entry>, root: Value, index: nat)
    requires WellFormed(Array(items)) && Readable(cfg.scan, Array(items))
    ensures DenseCopy(cfg.scan, Parse(cfg, Compact(print_, yaml, "", Array(items)) + "\n", root), items, index)
    ensures DenseCopy(cfg.scan, Parse(cfg, Styled(print_, "", "", Array(items)) + "\n", root), items, index)
  {
    CompactParses(print_, yaml, cfg, Array(items), root);
    StyledParses(print_, cfg, Array(items), root);
    RereadContainer(cfg.scan, Array(items));
    hide *;
    DenseCopied(cfg.scan, Parse(cfg, Compact(print_, yaml, "", Array(items)) + "\n", root), items, index);
    DenseCopied(cfg.scan, Parse(cfg, Styled(print_, "", "", Array(items)) + "\n", root), items, index);
  }

  /** The reading is a dense array of the same size; at `index` it holds what the element there is read back as,
      which for an element of the domain is the element itself. */
  ghost predicate DenseCopy(scan: DoubleScanner, r: Reading, items: seq<Entry>, index: nat) {
    && r.ok && r.errors == [] && r.value.Array? && Dense(r.value.items) && Size(r.value) == Size(Array(items))
    && ItemAt(r.value.items, index) == Reread(scan, ItemAt(items, index))
    && (InDomain(ItemAt(items, index)) ==> ItemAt(r.value.items, index) == ItemAt(items, index))
  }

  lemma DenseCopied(scan: DoubleScanner, r: Reading, items: seq<Entry>, index: nat)
    requires WellFormed(Array(items)) && Readable(scan, Array(items))
    requires r.ok && r.errors == [] && r.value == Array(RereadElements(scan, items, 0))
    ensures DenseCopy(scan, r, items, index)
  {
    hide RereadElements, Reread, Readable, WellFormed, Dense, ItemAt, Size, InDomain;
    RereadDense(scan, items);
    RereadReads(scan, items, index);
    ReadableItem(scan, items, index);
    if InDomain(ItemAt(items, index)) {
      DomainIsPrintable(ItemAt(items, index));
      RereadIdentity(scan, ItemAt(items, index));
    }
  }

  lemma RereadDense(scan: DoubleScanner, items: seq<Entry>)
    ensures Dense(RereadElements(scan, items, 0))
    ensures Size(Array(RereadElements(scan, items, 0))) == Size(Array(items))
  {
    RereadElementsAt(scan, items, 0);
    DenseSize(RereadElements(scan, items, 0));
  }

  lemma RereadReads(scan: DoubleScanner, items: seq<Entry>, index: nat)
    requires WellFormed(Array(items))
    ensures ItemAt(RereadElements(scan, items, 0), index) == Reread(scan, ItemAt(items, index))
  {
    var read := RereadElements(scan, items, 0);
    RereadElementsAt(scan, items, 0);
    hide RereadElements;
    if index < |read| {
      assert read[index].key == Index(index);
      GetMember(read, index);
    } else {
      GetAbsent(read, Index(index));
      SizeBound(items);
      GetAbsent(items, Index(index));
    }
  }

  // ---- The layout does not change the token sequence ----

  /** All tokens of a document, up to the end of the stream. */
  function Tokenize(doc: string, pos: nat): seq<Lexeme>
    requires pos <= |doc|
    decreases |doc| - pos
  {
    var t := ReadToken(doc, pos);
    if t.kind == EndOfStream then [] else [Lexeme(t.kind, Text(doc, t))] + Tokenize(doc, t.end)
  }

  ghost predicate AllValid(lexemes: seq<Lexeme>) {
    forall k | 0 <= k < |lexemes| :: ValidLexeme(lexemes[k])
  }

  lemma {:induction false} ValueLexemesValid(v: Value)
    requires WellFormed(v) && RealFree(v)
    ensures AllValid(ValueLexemes(v))
    decreases Weight(v), 1, 0
  {
    match v
    case Array(items) => ElementLexemesValid(items, 0);
    case Object(members) => MemberLexemesValid(members);
    case _ => ScalarLexeme(v);
  }

  lemma {:induction false} ElementLexemesValid(items: seq<Entry>, index: nat)
    requires WellFormed(Array(items)) && RealFree(Array(items))
    ensures AllValid(ElementLexemes(items, index))
    decreases Weight(Array(items)), 0, Size(Array(items)) - index
  {
    if index < Size(Array(items)) {
      GetWeight(items, Index(index));
      RealFreeItem(items, index);
      ValueLexemesValid(ItemAt(items, index));
      ElementLexemesValid(items, index + 1);
    }
  }

  lemma ValidConcat(a: seq<Lexeme>, b: seq<Lexeme>)
    requires AllValid(a) && AllValid(b)
    ensures AllValid(a + b)
  {}

  lemma ValidPunctuation()
    ensures AllValid([COLON]) && AllValid([COMMA]) && AllValid([]) && AllValid([RBRACE])
  {
    PunctuationIsValid();
  }

  lemma {:induction false} MemberLexemesValid(members: seq<Entry>)
    requires WellFormed(Object(members)) && RealFree(Object(members))
    ensures AllValid(MemberLexemes(members))
    decreases EntriesWeight(members), 0, 0
  {
    ValidPunctuation();
    if members != [] {
      WeightStep(members);
      assert Weight(members[0].value) < EntriesWeight(members);
      RealFreeMembers(members);
      hide *;
      MemberLexemesStep(members);
      var quoted := [Lexeme(StringToken, Quoted(KeyText(members[0])))];
      var value, comma := ValueLexemes(members[0].value), if |members| > 1 then [COMMA] else [];
      var tail := MemberLexemes(members[1..]);
      QuotedAllValid(KeyText(members[0]));
      ValueLexemesValid(members[0].value);
      MemberLexemesValid(members[1..]);
      ValidConcat(comma, tail);
      ValidConcat(value, comma + tail);
      ValidConcat([COLON], value + (comma + tail));
      ValidConcat(quoted, [COLON] + (value + (comma + tail)));
    }
  }

  lemma QuotedAllValid(s: string)
    ensures AllValid([Lexeme(StringToken, Quoted(s))])
  {
    QuotedIsValid(s);
  }

  lemma {:induction false} LayoutTokenizes(doc: string, pos: nat, lexemes: seq<Lexeme>, end: nat)
    requires pos <= |doc| && AllValid(lexemes) && LayEnd(doc, pos, lexemes) == Some(end)
    requires ReadToken(doc, end).kind == EndOfStream
    ensures Tokenize(doc, pos) == lexemes
    decreases |lexemes|
  {
    if lexemes != [] {
      assert lexemes == [lexemes[0]] + lexemes[1..];
      var after := LayHead(doc, pos, lexemes[0], lexemes[1..], end);
      assert Text(doc, ReadToken(doc, pos)) == lexemes[0].text;
      ValidIsNotEnd(lexemes[0]);
      LayoutTokenizes(doc, after, lexemes[1..], end);
    }
  }

  lemma ValidIsNotEnd(l: Lexeme)
    requires ValidLexeme(l)
    ensures l.kind != EndOfStream
  {}

  /** The tokenizer sees the same sequence in the styled and in the compact text: the tokens of the value. */
  lemma SameTokens(print_: DoublePrinter, yaml: bool, v: Value)
    requires WellFormed(v) && RealFree(v)
    ensures Tokenize(Styled(print_, "", "", v) + "\n", 0) == ValueLexemes(v)
    ensures Tokenize(Compact(print_, yaml, "", v) + "\n", 0) == ValueLexemes(v)
  {
    ValueLexemesValid(v);
    var styled, compact := Styled(print_, "", "", v), Compact(print_, yaml, "", v);
    LineEnd(styled);
    StyledLays(print_, styled + "\n", "", "", v);
    LayoutTokenizes(styled + "\n", 0, ValueLexemes(v), |styled|);
    LineEnd(compact);
    CompactLays(print_, yaml, compact + "\n", "", v);
    LayoutTokenizes(compact + "\n", 0, ValueLexemes(v), |compact|);
  }
}
