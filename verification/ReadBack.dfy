/** Reading undoes printing: every layout of a value's tokens is read back as that value, with missing
    array elements as nulls and integers beyond the reader's accumulator as doubles. */
module ReadBack {
  import opened Options
  import opened JsonValue
  import opened Tokens
  import opened Numbers
  import opened Strings
  import opened Parser
  import opened Layout

  // ---- What a printed value is read back as ----

  function RereadNumber(scan: DoubleScanner, i: int): Value {
    match DecodeNumber(scan, IntText(i))
    case Good(v) => v
    case Bad(_, _) => Null
  }

  function Reread(scan: DoubleScanner, v: Value): Value
    decreases Weight(v), 1, 0
  {
    match v
    case Int(i) => RereadNumber(scan, i)
    case UInt(u) => RereadNumber(scan, u)
    case Array(items) => Array(RereadElements(scan, items, 0))
    case Object(members) => Object(RereadMembers(scan, members))
    case _ => v
  }

  /** Elements `index` and up: dense, whatever was missing. */
  function RereadElements(scan: DoubleScanner, items: seq<Entry>, index: nat): seq<Entry>
    decreases Weight(Array(items)), 0, Size(Array(items)) - index
  {
    if index >= Size(Array(items)) then []
    else
      GetWeight(items, Index(index));
      [Entry(Index(index), Reread(scan, ItemAt(items, index)))] + RereadElements(scan, items, index + 1)
  }

  function RereadMembers(scan: DoubleScanner, members: seq<Entry>): (r: seq<Entry>)
    ensures |r| == |members|
    ensures forall k | 0 <= k < |r| :: r[k].key == members[k].key
    decreases EntriesWeight(members), 0, 0
  {
    if members == [] then []
    else
      WeightStep(members);
      [Entry(members[0].key, Reread(scan, members[0].value))] + RereadMembers(scan, members[1..])
  }

  /** No reals, and every integer the accumulator diverts is accepted by the double scanner. */
  ghost predicate Readable(scan: DoubleScanner, v: Value) {
    match v
    case Int(i) => DecodeNumber(scan, IntText(i)).Good?
    case UInt(u) => DecodeNumber(scan, IntText(u)).Good?
    case Real(_) => false
    case Array(items) => forall k | 0 <= k < |items| :: Readable(scan, items[k].value)
    case Object(members) => forall k | 0 <= k < |members| :: Readable(scan, members[k].value)
    case _ => true
  }

  lemma ReadableItem(scan: DoubleScanner, items: seq<Entry>, index: nat)
    requires WellFormed(Array(items)) && Readable(scan, Array(items))
    ensures WellFormed(ItemAt(items, index)) && Readable(scan, ItemAt(items, index))
  {
    var key := Index(index);
    if HasKey(items, key) {
      var i :| 0 <= i < |items| && items[i].key == key;
      GetMember(items, i);
    } else {
      GetAbsent(items, key);
    }
  }

  // ---- Tokens of a layout in the parser ----

  lemma LayHead(doc: string, pos: nat, l: Lexeme, rest: seq<Lexeme>, end: nat) returns (after: nat)
    requires pos <= |doc| && ValidLexeme(l) && LayEnd(doc, pos, [l] + rest) == Some(end)
    ensures after == SkipSpaces(doc, pos) + |l.text| <= |doc|
    ensures ReadToken(doc, pos) == Token(l.kind, SkipSpaces(doc, pos), after)
    ensures At(doc, SkipSpaces(doc, pos), l.text)
    ensures LayEnd(doc, after, rest) == Some(end)
  {
    LayConcat(doc, pos, [l], rest);
    LexemeReads(doc, pos, l);
    after := SkipSpaces(doc, pos) + |l.text|;
  }

  lemma FirstTokenIs(cfg: Config, doc: string, pos: nat)
    requires pos <= |doc| && ReadToken(doc, pos).kind != Comment
    ensures FirstToken(cfg, doc, pos) == ReadToken(doc, pos)
  {}

  lemma LiteralReadsBack(cfg: Config, doc: string, pos: nat, old_: Value)
    requires pos <= |doc|
    ensures var t := ReadToken(doc, pos);
      && (t.kind == NullToken ==> ReadValue(cfg, doc, pos, old_) == Reading(true, t.end, Null, []))
      && (t.kind == True ==> ReadValue(cfg, doc, pos, old_) == Reading(true, t.end, Bool(true), []))
      && (t.kind == False ==> ReadValue(cfg, doc, pos, old_) == Reading(true, t.end, Bool(false), []))
  {
    hide ReadToken, SkipComments, ReadScalar, DecodeNumber, DecodeStringValue, VALUE_EXPECTED;
    var t := ReadToken(doc, pos);
    if t.kind == NullToken || t.kind == True || t.kind == False {
      FirstTokenIs(cfg, doc, pos);
      ScalarCases(cfg, doc, t, old_);
    }
  }

  lemma NumberReadsBack(cfg: Config, doc: string, pos: nat, text: string, old_: Value)
    requires pos <= |doc| && ReadToken(doc, pos).kind == Number && Text(doc, ReadToken(doc, pos)) == text
    requires text != [] && DecodeNumber(cfg.scan, text).Good?
    ensures ReadValue(cfg, doc, pos, old_)
         == Reading(true, ReadToken(doc, pos).end, DecodeNumber(cfg.scan, text).value, [])
  {
    FirstTokenIs(cfg, doc, pos);
  }

  lemma StringReadsBack(cfg: Config, doc: string, pos: nat, s: string, old_: Value)
    requires pos <= |doc| && ReadToken(doc, pos).kind == StringToken && NulFree(s)
    requires DecodeString(doc, ReadToken(doc, pos)) == Good(s)
    ensures ReadValue(cfg, doc, pos, old_) == Reading(true, ReadToken(doc, pos).end, String(s), [])
  {
    FirstTokenIs(cfg, doc, pos);
  }

  lemma ScalarReadsBack(cfg: Config, doc: string, pos: nat, v: Value, old_: Value, end: nat)
    requires pos <= |doc| && WellFormed(v) && Readable(cfg.scan, v) && IsScalar(v)
    requires LayEnd(doc, pos, ValueLexemes(v)) == Some(end)
    ensures ReadValue(cfg, doc, pos, old_) == Reading(true, end, Reread(cfg.scan, v), [])
  {
    hide ReadValue, ReadToken, LayEnd, SkipSpaces, DecodeNumber, Quoted, DecodeString;
    ScalarLexeme(v);
    var l := ValueLexemes(v)[0];
    assert ValueLexemes(v) == [l] + [];
    var after := LayHead(doc, pos, l, [], end);
    LayNothing(doc, after);
    var start := SkipSpaces(doc, pos);
    match v
    case String(s) =>
      SkipSpacesFirst(doc, pos);
      QuotedRoundTrip(doc, start, s);
      StringReadsBack(cfg, doc, pos, s, old_);
    case Int(i) => NumberReadsBack(cfg, doc, pos, IntText(i), old_);
    case UInt(u) => NumberReadsBack(cfg, doc, pos, IntText(u), old_);
    case _ => LiteralReadsBack(cfg, doc, pos, old_);
  }

  /** The first character of a printed value cannot be taken for a closing bracket. */
  lemma FirstLexeme(v: Value)
    requires WellFormed(v) && !v.Real?
    ensures ValidLexeme(ValueLexemes(v)[0]) && ValueLexemes(v)[0].text != []
    ensures ValueLexemes(v)[0].text[0] != ']'
  {
    if IsScalar(v) {
      ScalarLexeme(v);
    }
  }

  lemma SkipCommentsIs(doc: string, pos: nat)
    requires pos <= |doc| && ReadToken(doc, pos).kind != Comment
    ensures SkipComments(doc, pos) == ReadToken(doc, pos)
  {}

  // ---- One round of each loop of the parser, after a successful read ----

  lemma ReadArrayStarts(cfg: Config, doc: string, pos: nat)
    requires pos <= |doc|
    ensures var start := SkipSpaces(doc, pos);
      ReadArray(cfg, doc, pos)
      == if Peek(doc, start) == ']' then Reading(true, ReadToken(doc, pos).end, Array([]), [])
         else ReadElements(cfg, doc, start, 0, [])
  {
    SkipSpacesFirst(doc, pos);
  }

  lemma ReadElementsRound(cfg: Config, doc: string, pos: nat, index: nat, done: seq<Entry>, v: Value, mid: nat)
    requires pos <= |doc| && ReadValue(cfg, doc, pos, Get(done, Index(index))) == Reading(true, mid, v, [])
    requires ReadToken(doc, mid).kind != Comment
    ensures var t, read := ReadToken(doc, mid), Put(done, Index(index), v);
      ReadElements(cfg, doc, pos, index, done)
      == if t.kind == ArrayEnd then Reading(true, t.end, Array(read), [])
         else ReadElements(cfg, doc, t.end, index + 1, read)
  {
    SkipCommentsIs(doc, mid);
  }

  lemma ReadMembersRound(cfg: Config, doc: string, pos: nat, name: string, done: seq<Entry>, key: string,
                         v: Value, mid: nat)
    requires pos <= |doc| && NulFree(key)
    requires var t := ReadToken(doc, pos); t.kind == StringToken && DecodeString(doc, t) == Good(key)
    requires ReadToken(doc, ReadToken(doc, pos).end).kind == MemberSeparator
    requires ReadValue(cfg, doc, ReadToken(doc, ReadToken(doc, pos).end).end, Get(done, Name(key)))
          == Reading(true, mid, v, [])
    requires ReadToken(doc, mid).kind == ObjectEnd || ReadToken(doc, mid).kind == ArraySeparator
    ensures var t, read := ReadToken(doc, mid), Put(done, Name(key), v);
      ReadMembers(cfg, doc, pos, name, done)
      == if t.kind == ObjectEnd then Reading(true, t.end, Object(read), [])
         else ReadMembers(cfg, doc, t.end, key, read)
  {
    SkipCommentsIs(doc, pos);
    SkipCommentsIs(doc, mid);
  }

  lemma ReadMembersEnd(cfg: Config, doc: string, pos: nat, done: seq<Entry>)
    requires pos <= |doc| && ReadToken(doc, pos).kind == ObjectEnd
    ensures ReadMembers(cfg, doc, pos, "", done) == Reading(true, ReadToken(doc, pos).end, Object(done), [])
  {
    SkipCommentsIs(doc, pos);
  }

  lemma ReadContainer(cfg: Config, doc: string, pos: nat, old_: Value)
    requires pos <= |doc|
    ensures var t := ReadToken(doc, pos);
      && (t.kind == ArrayBegin ==> ReadValue(cfg, doc, pos, old_) == ReadArray(cfg, doc, t.end))
      && (t.kind == ObjectBegin ==> ReadValue(cfg, doc, pos, old_) == ReadMembers(cfg, doc, t.end, "", []))
  {
    if ReadToken(doc, pos).kind != Comment {
      FirstTokenIs(cfg, doc, pos);
    }
  }

  // ---- The printed form, one element or member at a time ----

  /** The entries of a dense array. */
  ghost predicate Dense(items: seq<Entry>) {
    forall k | 0 <= k < |items| :: items[k].key == Index(k)
  }

  lemma DenseAppend(items: seq<Entry>, v: Value)
    requires Dense(items)
    ensures Dense(items + [Entry(Index(|items|), v)])
    ensures Put(items, Index(|items|), v) == items + [Entry(Index(|items|), v)]
  {
    PutLast(items, Index(|items|), v);
  }

  lemma ElementStep(items: seq<Entry>, index: nat, scan: DoubleScanner)
    requires index < Size(Array(items))
    ensures Weight(ItemAt(items, index)) < Weight(Array(items))
    ensures RereadElements(scan, items, index)
         == [Entry(Index(index), Reread(scan, ItemAt(items, index)))] + RereadElements(scan, items, index + 1)
  {
    GetWeight(items, Index(index));
  }

  lemma ElementsEnd(items: seq<Entry>, index: nat, scan: DoubleScanner)
    requires index >= Size(Array(items))
    ensures ElementLexemes(items, index) == [RBRACKET] + [] && RereadElements(scan, items, index) == []
  {}

  lemma MemberStep(members: seq<Entry>, scan: DoubleScanner)
    requires members != []
    ensures Weight(members[0].value) < EntriesWeight(members)
    ensures EntriesWeight(members[1..]) < EntriesWeight(members)
    ensures RereadMembers(scan, members)
         == [Entry(members[0].key, Reread(scan, members[0].value))] + RereadMembers(scan, members[1..])
  {
    WeightStep(members);
  }

  // ---- The theorem, by induction over the value ----

  /** Whatever the white space and whatever follows, the reader consumes exactly the tokens of `v` and
      yields `Reread(v)` without an error. */
  lemma {:induction false} ReadsBack(cfg: Config, doc: string, pos: nat, v: Value, old_: Value, end: nat)
    requires pos <= |doc| && WellFormed(v) && Readable(cfg.scan, v)
    requires LayEnd(doc, pos, ValueLexemes(v)) == Some(end)
    ensures ReadValue(cfg, doc, pos, old_) == Reading(true, end, Reread(cfg.scan, v), [])
    decreases Weight(v), 2, 0
  {
    if IsScalar(v) {
      ScalarReadsBack(cfg, doc, pos, v, old_, end);
    } else {
      ContainerReadsBack(cfg, doc, pos, v, old_, end);
    }
  }

  lemma {:induction false} ContainerReadsBack(cfg: Config, doc: string, pos: nat, v: Value, old_: Value, end: nat)
    requires pos <= |doc| && WellFormed(v) && Readable(cfg.scan, v) && (v.Array? || v.Object?)
    requires LayEnd(doc, pos, ValueLexemes(v)) == Some(end)
    ensures ReadValue(cfg, doc, pos, old_) == Reading(true, end, Reread(cfg.scan, v), [])
    decreases Weight(v), 1, 0
  {
    hide *;
    PunctuationIsValid();
    ContainerLexemes(v);
    RereadContainer(cfg.scan, v);
    ReadContainer(cfg, doc, pos, old_);
    if v.Array? {
      var after := LayHead(doc, pos, LBRACKET, ElementLexemes(v.items, 0), end);
      assert v == Array(v.items);
      ArrayReadsBack(cfg, doc, after, v.items, end);
    } else {
      var after := LayHead(doc, pos, LBRACE, MemberLexemes(v.members), end);
      ObjectWeight(v);
      PrecedesEmpty(v.members);
      assert v == Object(v.members);
      MembersReadBack(cfg, doc, after, "", [], v.members, end);
      assert [] + RereadMembers(cfg.scan, v.members) == RereadMembers(cfg.scan, v.members);
    }
  }

  lemma ObjectWeight(v: Value)
    requires v.Object?
    ensures EntriesWeight(v.members) < Weight(v)
  {}

  lemma RereadContainer(scan: DoubleScanner, v: Value)
    ensures v.Array? ==> Reread(scan, v) == Array(RereadElements(scan, v.items, 0))
    ensures v.Object? ==> Reread(scan, v) == Object(RereadMembers(scan, v.members))
  {}

  lemma {:induction false} ArrayReadsBack(cfg: Config, doc: string, pos: nat, items: seq<Entry>, end: nat)
    requires pos <= |doc| && WellFormed(Array(items)) && Readable(cfg.scan, Array(items))
    requires LayEnd(doc, pos, ElementLexemes(items, 0)) == Some(end)
    ensures ReadArray(cfg, doc, pos) == Reading(true, end, Array(RereadElements(cfg.scan, items, 0)), [])
    decreases Weight(Array(items)), 0, Size(Array(items)) + 1
  {
    hide *;
    PunctuationIsValid();
    ReadArrayStarts(cfg, doc, pos);
    var start := SkipSpaces(doc, pos);
    if Size(Array(items)) == 0 {
      ElementsEnd(items, 0, cfg.scan);
      var after := LayHead(doc, pos, RBRACKET, [], end);
      LayNothing(doc, after);
      FirstCharacter(doc, pos, RBRACKET);
    } else {
      ElementStep(items, 0, cfg.scan);
      ElementLexemesStep(items, 0);
      ReadableItem(cfg.scan, items, 0);
      NoBracketAhead(doc, pos, ItemAt(items, 0), ElementLexemes(items, 0), end);
      DenseEmpty();
      ElementsReadBack(cfg, doc, start, items, 0, [], end);
      assert [] + RereadElements(cfg.scan, items, 0) == RereadElements(cfg.scan, items, 0);
    }
  }

  lemma DenseEmpty()
    ensures Dense([])
  {}

  lemma FirstCharacter(doc: string, pos: nat, l: Lexeme)
    requires pos <= |doc| && At(doc, SkipSpaces(doc, pos), l.text)
    ensures l == RBRACKET ==> Peek(doc, SkipSpaces(doc, pos)) == ']'
    ensures l.text != [] ==> Peek(doc, SkipSpaces(doc, pos)) == l.text[0]
  {
    if l.text != [] {
      AtHead(doc, SkipSpaces(doc, pos), l.text);
    }
  }

  /** Behind the opening bracket of a non-empty array no closing bracket stands, and skipping spaces
      first does not change the layout. */
  lemma NoBracketAhead(doc: string, pos: nat, v: Value, lexemes: seq<Lexeme>, end: nat)
    requires pos <= |doc| && WellFormed(v) && !v.Real?
    requires |ValueLexemes(v)| <= |lexemes| && lexemes[0] == ValueLexemes(v)[0]
    requires LayEnd(doc, pos, lexemes) == Some(end)
    ensures Peek(doc, SkipSpaces(doc, pos)) != ']'
    ensures LayEnd(doc, SkipSpaces(doc, pos), lexemes) == Some(end)
  {
    LayFirst(doc, pos, lexemes);
    hide LayEnd, ValueLexemes, SkipSpaces, At, ValidLexeme;
    FirstLexeme(v);
    FirstCharacter(doc, pos, lexemes[0]);
  }

  lemma LayFirst(doc: string, pos: nat, lexemes: seq<Lexeme>)
    requires pos <= |doc| && lexemes != [] && LayEnd(doc, pos, lexemes).Some?
    ensures At(doc, SkipSpaces(doc, pos), lexemes[0].text)
    ensures LayEnd(doc, SkipSpaces(doc, pos), lexemes) == LayEnd(doc, pos, lexemes)
  {
    hide At, Ends;
    SkipSpacesTwice(doc, pos);
  }

  lemma {:induction false} ElementsReadBack(cfg: Config, doc: string, pos: nat, items: seq<Entry>, index: nat,
                                            done: seq<Entry>, end: nat)
    requires pos <= |doc| && WellFormed(Array(items)) && Readable(cfg.scan, Array(items))
    requires index < Size(Array(items)) && |done| == index && Dense(done)
    requires LayEnd(doc, pos, ElementLexemes(items, index)) == Some(end)
    ensures ReadElements(cfg, doc, pos, index, done)
         == Reading(true, end, Array(done + RereadElements(cfg.scan, items, index)), [])
    decreases Weight(Array(items)), 0, Size(Array(items)) - index
  {
    hide *;
    PunctuationIsValid();
    var x, tail := ItemAt(items, index), ElementLexemes(items, index + 1);
    var rest := (if index + 1 < Size(Array(items)) then [COMMA] else []) + tail;
    ElementStep(items, index, cfg.scan);
    ElementLexemesStep(items, index);
    ReadableItem(cfg.scan, items, index);
    LayConcat(doc, pos, ValueLexemes(x), rest);
    var mid := LayEnd(doc, pos, ValueLexemes(x)).value;
    ReadsBack(cfg, doc, pos, x, Get(done, Index(index)), mid);
    var entry := Entry(Index(index), Reread(cfg.scan, x));
    DenseAppend(done, entry.value);
    assert done + RereadElements(cfg.scan, items, index) == done + [entry] + RereadElements(cfg.scan, items, index + 1);
    if index + 1 < Size(Array(items)) {
      var after := LayHead(doc, mid, COMMA, tail, end);
      ReadElementsRound(cfg, doc, pos, index, done, entry.value, mid);
      ElementsReadBack(cfg, doc, after, items, index + 1, done + [entry], end);
    } else {
      ElementsEnd(items, index + 1, cfg.scan);
      assert rest == [RBRACKET] + [];
      var after := LayHead(doc, mid, RBRACKET, [], end);
      LayNothing(doc, after);
      ReadElementsRound(cfg, doc, pos, index, done, entry.value, mid);
      assert done + [entry] + [] == done + [entry];
    }
  }

  lemma MemberFacts(scan: DoubleScanner, members: seq<Entry>)
    requires members != [] && WellFormed(Object(members)) && Readable(scan, Object(members))
    ensures var e := members[0];
      e.key.Name? && NulFree(e.key.name) && KeyText(e) == e.key.name && WellFormed(e.value) && Readable(scan, e.value)
    ensures WellFormed(Object(members[1..])) && Readable(scan, Object(members[1..]))
    ensures Precedes([members[0]], members[1..])
  {
    SortedTail(members);
  }

  /** Every key on the left is below every key on the right. */
  ghost predicate Precedes(done: seq<Entry>, members: seq<Entry>) {
    forall i, k | 0 <= i < |done| && 0 <= k < |members| :: KeyLess(done[i].key, members[k].key)
  }

  lemma PrecedesEmpty(members: seq<Entry>)
    ensures Precedes([], members)
  {}

  lemma PrecedesAppend(done: seq<Entry>, members: seq<Entry>, v: Value)
    requires members != [] && Precedes(done, members) && Precedes([members[0]], members[1..])
    ensures Put(done, members[0].key, v) == done + [Entry(members[0].key, v)]
    ensures Precedes(done + [Entry(members[0].key, v)], members[1..])
  {
    PutLast(done, members[0].key, v);
    assert [members[0]][0] == members[0];
  }

  lemma {:induction false} MembersReadBack(cfg: Config, doc: string, pos: nat, name: string, done: seq<Entry>,
                                           members: seq<Entry>, end: nat)
    requires pos <= |doc| && WellFormed(Object(members)) && Readable(cfg.scan, Object(members))
    requires Precedes(done, members) && (members == [] ==> name == "")
    requires LayEnd(doc, pos, MemberLexemes(members)) == Some(end)
    ensures ReadMembers(cfg, doc, pos, name, done)
         == Reading(true, end, Object(done + RereadMembers(cfg.scan, members)), [])
    decreases EntriesWeight(members), 0, 0
  {
    hide *;
    PunctuationIsValid();
    if members == [] {
      NoMembersReadBack(cfg, doc, pos, done, end);
    } else {
      var entry, tail := members[0], MemberLexemes(members[1..]);
      var rest := (if |members| > 1 then [COMMA] else []) + tail;
      MemberStep(members, cfg.scan);
      MemberLexemesStep(members);
      MemberFacts(cfg.scan, members);
      var mid := MemberReadsBack(cfg, doc, pos, done, entry, rest, end);
      var read := Entry(entry.key, Reread(cfg.scan, entry.value));
      MemberJoins(cfg.scan, done, members);
      if |members| > 1 {
        var after := LayHead(doc, mid, COMMA, tail, end);
        ReadMembersRound(cfg, doc, pos, name, done, entry.key.name, read.value, mid);
        MembersReadBack(cfg, doc, after, entry.key.name, done + [read], members[1..], end);
      } else {
        MembersEnd(cfg.scan);
        assert rest == [RBRACE] + [];
        LastMemberReadBack(cfg, doc, pos, name, done, entry.key.name, read.value, mid, end);
        assert done + [read] + [] == done + [read];
      }
    }
  }

  lemma MemberJoins(scan: DoubleScanner, done: seq<Entry>, members: seq<Entry>)
    requires members != [] && Precedes(done, members) && Precedes([members[0]], members[1..])
    ensures var read := Entry(members[0].key, Reread(scan, members[0].value));
      && Put(done, read.key, read.value) == done + [read] && Precedes(done + [read], members[1..])
      && done + RereadMembers(scan, members) == (done + [read]) + RereadMembers(scan, members[1..])
  {
    hide *;
    MemberStep(members, scan);
    PrecedesAppend(done, members, Reread(scan, members[0].value));
  }

  lemma LastMemberReadBack(cfg: Config, doc: string, pos: nat, name: string, done: seq<Entry>, key: string, v: Value,
                           mid: nat, end: nat)
    requires pos <= |doc| && mid <= |doc| && NulFree(key)
    requires var t := ReadToken(doc, pos); t.kind == StringToken && DecodeString(doc, t) == Good(key)
    requires ReadToken(doc, ReadToken(doc, pos).end).kind == MemberSeparator
    requires ReadValue(cfg, doc, ReadToken(doc, ReadToken(doc, pos).end).end, Get(done, Name(key)))
          == Reading(true, mid, v, [])
    requires LayEnd(doc, mid, [RBRACE] + []) == Some(end)
    ensures ReadMembers(cfg, doc, pos, name, done) == Reading(true, end, Object(Put(done, Name(key), v)), [])
  {
    hide *;
    PunctuationIsValid();
    var after := LayHead(doc, mid, RBRACE, [], end);
    LayNothing(doc, after);
    ReadMembersRound(cfg, doc, pos, name, done, key, v, mid);
  }

  lemma NoMembersReadBack(cfg: Config, doc: string, pos: nat, done: seq<Entry>, end: nat)
    requires pos <= |doc| && LayEnd(doc, pos, MemberLexemes([])) == Some(end)
    ensures ReadMembers(cfg, doc, pos, "", done) == Reading(true, end, Object(done + RereadMembers(cfg.scan, [])), [])
  {
    hide *;
    PunctuationIsValid();
    MembersEnd(cfg.scan);
    var after := LayHead(doc, pos, RBRACE, [], end);
    LayNothing(doc, after);
    ReadMembersEnd(cfg, doc, pos, done);
    assert done + [] == done;
  }

  lemma MembersEnd(scan: DoubleScanner)
    ensures MemberLexemes([]) == [RBRACE] + [] && RereadMembers(scan, []) == []
  {}

  /** One member: name, colon and value, up to the token behind it. */
  lemma {:induction false} MemberReadsBack(cfg: Config, doc: string, pos: nat, done: seq<Entry>, entry: Entry,
                                           rest: seq<Lexeme>, end: nat) returns (mid: nat)
    requires pos <= |doc| && entry.key.Name? && NulFree(entry.key.name) && KeyText(entry) == entry.key.name
    requires WellFormed(entry.value) && Readable(cfg.scan, entry.value)
    requires LayEnd(doc, pos, [Lexeme(StringToken, Quoted(KeyText(entry)))]
                              + ([COLON] + (ValueLexemes(entry.value) + rest))) == Some(end)
    ensures mid <= |doc| && LayEnd(doc, mid, rest) == Some(end)
    ensures var t := ReadToken(doc, pos); t.kind == StringToken && DecodeString(doc, t) == Good(entry.key.name)
    ensures ReadToken(doc, ReadToken(doc, pos).end).kind == MemberSeparator
    ensures ReadValue(cfg, doc, ReadToken(doc, ReadToken(doc, pos).end).end, Get(done, entry.key))
         == Reading(true, mid, Reread(cfg.scan, entry.value), [])
    decreases Weight(entry.value), 3, 0
  {
    hide *;
    PunctuationIsValid();
    var quoted, lexemes := Lexeme(StringToken, Quoted(KeyText(entry))), ValueLexemes(entry.value);
    QuotedIsValid(entry.key.name);
    var nameEnd := LayHead(doc, pos, quoted, [COLON] + (lexemes + rest), end);
    SkipSpacesFirst(doc, pos);
    QuotedRoundTrip(doc, SkipSpaces(doc, pos), entry.key.name);
    var colonEnd := LayHead(doc, nameEnd, COLON, lexemes + rest, end);
    LayConcat(doc, colonEnd, lexemes, rest);
    mid := LayEnd(doc, colonEnd, lexemes).value;
    ReadsBack(cfg, doc, colonEnd, entry.value, Get(done, entry.key), mid);
  }
}
