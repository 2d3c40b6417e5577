/** Every value the reader builds, from any document at all, is well formed and, reals aside, in the
    domain on which printing and reading are inverse. */
module ParsedValues {
  import opened JsonValue
  import opened Tokens
  import opened Numbers
  import opened Strings
  import opened Parser
  import opened Layout
  import opened ReadBack
  import opened FastWriter
  import opened StyledWriter
  import opened RoundTrip

  /** `InDomain`, but reals are let through. */
  ghost predicate Canonical(v: Value) {
    match v
    case Int(i) => MIN_READABLE_INT <= i
    case UInt(u) => MAX_INT < u <= MAX_READABLE_UINT
    case Array(items) => Dense(items) && (forall k | 0 <= k < |items| :: Canonical(items[k].value))
    case Object(members) => forall k | 0 <= k < |members| :: Canonical(members[k].value)
    case _ => true
  }

  /** Well formed and canonical. */
  ghost predicate Clean(v: Value) {
    WellFormed(v) && Canonical(v)
  }

  lemma {:induction false} CanonicalRealFree(v: Value)
    requires Canonical(v) && RealFree(v)
    ensures InDomain(v)
    decreases v
  {
    match v
    case Array(items) =>
      forall k | 0 <= k < |items| ensures InDomain(items[k].value) { CanonicalRealFree(items[k].value); }
    case Object(members) =>
      forall k | 0 <= k < |members| ensures InDomain(members[k].value) { CanonicalRealFree(members[k].value); }
    case _ =>
  }

  // ---- Scalars ----

  lemma {:induction false} AccumulateBound(text: string, value: nat, threshold: nat)
    requires 0 < threshold <= Threshold(false) && value <= 10 * threshold - 1
    ensures var r := Accumulate(text, value, threshold); r.Total? ==> 0 <= r.value <= 10 * threshold - 1
    decreases |text|
  {
    if text != [] && '0' <= text[0] <= '9' && value < threshold {
      AccumulateStep(text, value, threshold);
      AccumulateBound(text[1..], 10 * value + (text[0] as int - '0' as int), threshold);
    }
  }

  lemma NumberIsClean(scan: DoubleScanner, text: string)
    requires text != []
    ensures var d := DecodeNumber(scan, text); d.Good? ==> Clean(d.value)
  {
    var negative := text[0] == '-';
    AccumulateBound(if negative then text[1..] else text, 0, Threshold(negative));
  }

  lemma ScalarIsClean(cfg: Config, doc: string, t: Token, old_: Value)
    requires t.start <= t.end <= |doc| && Clean(old_)
    requires t.kind == StringToken ==> t.start + 2 <= t.end
    requires t.kind == Number ==> t.start < t.end
    ensures Clean(ReadScalar(cfg, doc, t, old_).value)
  {
    ScalarCases(cfg, doc, t, old_);
    hide ReadScalar, DecodeNumber, DecodeString, VALUE_EXPECTED;
    if t.kind == Number {
      NumberIsClean(cfg.scan, Text(doc, t));
    }
  }

  // ---- Containers ----

  lemma CleanElement(items: seq<Entry>, v: Value)
    requires Clean(Array(items)) && Clean(v)
    ensures Get(items, Index(|items|)) == Null
    ensures Clean(Array(Put(items, Index(|items|), v))) && |Put(items, Index(|items|), v)| == |items| + 1
  {
    DenseAppend(items, v);
    WellFormedPutItem(items, |items|, v);
    GetAbsent(items, Index(|items|));
  }

  lemma CleanMember(members: seq<Entry>, name: string, v: Value)
    requires Clean(Object(members)) && Clean(v) && NulFree(name)
    ensures Clean(Object(Put(members, Name(name), v)))
  {
    var r := Put(members, Name(name), v);
    WellFormedPutMember(members, name, v);
    PutEntries(members, Name(name), v);
    forall k | 0 <= k < |r|
      ensures Canonical(r[k].value)
    {
      assert r[k] in r;
      if r[k] in members {
        var i :| 0 <= i < |members| && members[i] == r[k];
      }
    }
  }

  lemma CleanGet(members: seq<Entry>, k: Key)
    requires Clean(Object(members))
    ensures Clean(Get(members, k))
  {
    if HasKey(members, k) {
      var i :| 0 <= i < |members| && members[i].key == k;
      GetMember(members, i);
    } else {
      GetAbsent(members, k);
    }
  }

  lemma CleanEmpty()
    ensures Clean(Array([])) && Clean(Object([])) && Clean(Null)
  {}

  lemma ReadValueCases(cfg: Config, doc: string, pos: nat, old_: Value)
    requires pos <= |doc|
    ensures var t, r := FirstToken(cfg, doc, pos), ReadValue(cfg, doc, pos, old_);
      && (t.kind == ObjectBegin ==> r == ReadMembers(cfg, doc, t.end, "", []))
      && (t.kind == ArrayBegin ==> r == ReadArray(cfg, doc, t.end))
      && (t.kind != ObjectBegin && t.kind != ArrayBegin ==>
          (t.kind == Number ==> t.start < t.end) && r == ReadScalar(cfg, doc, t, old_))
  {}

  /** Whatever the document, reading turns a clean current value into a clean one, error or not. */
  lemma {:induction false} ReadValueIsClean(cfg: Config, doc: string, pos: nat, old_: Value)
    requires pos <= |doc| && Clean(old_)
    ensures Clean(ReadValue(cfg, doc, pos, old_).value)
    decreases |doc| - pos, 0
  {
    hide *;
    ReadValueCases(cfg, doc, pos, old_);
    CleanEmpty();
    var t := FirstToken(cfg, doc, pos);
    if t.kind == ObjectBegin {
      ReadMembersIsClean(cfg, doc, t.end, "", []);
    } else if t.kind == ArrayBegin {
      ReadArrayIsClean(cfg, doc, t.end);
    } else {
      ScalarIsClean(cfg, doc, t, old_);
    }
  }

  lemma {:induction false} ReadMembersIsClean(cfg: Config, doc: string, pos: nat, name: string, members: seq<Entry>)
    requires pos <= |doc| && Clean(Object(members))
    ensures Clean(ReadMembers(cfg, doc, pos, name, members).value)
    decreases |doc| - pos, 1
  {
    hide Clean, ReadMembers, ReadValue, ReadToken, SkipComments, DecodeString, Recover, Put, Get;
    MembersName(cfg, doc, pos, name, members);
    var t := SkipComments(doc, pos);
    if t.kind == StringToken && DecodeString(doc, t).Good? {
      MembersColon(cfg, doc, pos, name, members);
      var n, colon := DecodeString(doc, t).value, ReadToken(doc, t.end);
      if colon.kind == MemberSeparator {
        var key := Name(CString(n));
        var r := ReadValue(cfg, doc, colon.end, Get(members, key));
        MembersValue(cfg, doc, pos, name, members, n, r);
        CleanGet(members, key);
        ReadValueIsClean(cfg, doc, colon.end, Get(members, key));
        CleanMember(members, CString(n), r.value);
        var separator := SkipComments(doc, r.pos);
        if r.ok && separator.kind != ObjectEnd {
          ReadMembersIsClean(cfg, doc, separator.end, n, Put(members, key, r.value));
        }
      }
    }
  }

  lemma {:induction false} ReadArrayIsClean(cfg: Config, doc: string, pos: nat)
    requires pos <= |doc|
    ensures Clean(ReadArray(cfg, doc, pos).value)
    decreases |doc| - pos, 2
  {
    hide *;
    ReadArrayStarts(cfg, doc, pos);
    CleanEmpty();
    if Peek(doc, SkipSpaces(doc, pos)) != ']' {
      ReadElementsIsClean(cfg, doc, SkipSpaces(doc, pos), 0, []);
    }
  }

  lemma {:induction false} ReadElementsIsClean(cfg: Config, doc: string, pos: nat, index: nat, items: seq<Entry>)
    requires pos <= |doc| && Clean(Array(items)) && |items| == index
    ensures Clean(ReadElements(cfg, doc, pos, index, items).value)
    decreases |doc| - pos, 1
  {
    hide Clean, BadSeparator, ReadElements, ReadValue, ReadToken, SkipComments, Recover, Put, Get;
    CleanEmpty();
    CleanElement(items, Null);
    var r := ReadValue(cfg, doc, pos, Get(items, Index(index)));
    ElementsRound(cfg, doc, pos, index, items, r);
    ReadValueIsClean(cfg, doc, pos, Get(items, Index(index)));
    CleanElement(items, r.value);
    var t := SkipComments(doc, r.pos);
    if r.ok && !BadSeparator(t.kind) && t.kind != ArrayEnd {
      ReadElementsIsClean(cfg, doc, t.end, index + 1, Put(items, Index(index), r.value));
    }
  }

  predicate YieldsValue(r: Reading, v: Value) {
    r.ok && r.errors == [] && r.value == v
  }

  /** Parsing any document into a fresh value gives a well-formed value, and without reals one that
      survives printing by either writer and parsing again unchanged. */
  lemma ParsedValueSurvives(print_: DoublePrinter, yaml: bool, cfg: Config, doc: string)
    ensures var v := Parse(cfg, doc, Null).value;
      && WellFormed(v)
      && (RealFree(v) && (cfg.strictRoot ==> IsContainer(v)) ==>
            YieldsValue(Parse(cfg, Compact(print_, yaml, "", v) + "\n", Null), v)
            && YieldsValue(Parse(cfg, Styled(print_, "", "", v) + "\n", Null), v))
  {
    var v := Parse(cfg, doc, Null).value;
    ReadValueIsClean(cfg, doc, 0, Null);
    if RealFree(v) && (cfg.strictRoot ==> IsContainer(v)) {
      CanonicalRealFree(v);
      PrintThenParse(print_, yaml, cfg, v, Null);
    }
  }
}
