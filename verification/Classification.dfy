/** What analysis_type answers, for every text that parses to a message and every one that does not. */
module Classification {
  import opened Options
  import opened JsonValue
  import opened Tokens
  import opened Numbers
  import opened Parser
  import opened ReadBack
  import opened FastWriter
  import StyledText = StyledWriter
  import opened RoundTrip
  import opened Leading
  import opened Strings
  import opened Shape
  import opened Layout
  import opened Hodgepodge

  // ---- strtol ----

  /** The six characters of `isspace`. */
  predicate IsBlank(c: char) {
    c == ' ' || c == '\t' || c == '\n' || c == '\U{0B}' || c == '\U{0C}' || c == '\r'
  }

  predicate StartsWithDigit(s: string) {
    s != "" && '0' <= s[0] <= '9'
  }

  function Clamp(n: int): int {
    if n < -2147483648 then -2147483648 else if n > 2147483647 then 2147483647 else n
  }

  lemma {:induction false} LeadingDigitsValue(digits: string, k: nat, rest: string)
    requires AllDigits(digits) && k <= |digits| && !StartsWithDigit(rest)
    ensures LeadingDigits(digits[k..] + rest, DecimalValue(digits[..k])) == DecimalValue(digits)
    decreases |digits| - k
  {
    if k < |digits| {
      assert (digits[k..] + rest)[0] == digits[k] && (digits[k..] + rest)[1..] == digits[k + 1..] + rest;
      ValueStep(digits, k);
      LeadingDigitsValue(digits, k + 1, rest);
    } else {
      assert digits[k..] + rest == rest && digits[..k] == digits;
    }
  }

  lemma {:induction false} StrtolSpaces(w: string, s: string)
    requires forall i | 0 <= i < |w| :: IsBlank(w[i])
    ensures Strtol(w + s) == Strtol(s)
    decreases |w|
  {
    if w == "" {
      assert w + s == s;
    } else {
      assert (w + s)[0] == w[0] && (w + s)[1..] == w[1..] + s;
      StrtolSpaces(w[1..], s);
    }
  }

  /** White space, a sign, digits and whatever follows: the number, kept inside the 32 bits of `long`. Without digits it
      is zero. */
  lemma StrtolValue(w: string, sign: string, digits: string, rest: string)
    requires forall i | 0 <= i < |w| :: IsBlank(w[i])
    requires (sign == "" || sign == "+" || sign == "-") && AllDigits(digits) && !StartsWithDigit(rest)
    requires sign == "" && digits == "" && rest != "" ==> !IsBlank(rest[0]) && rest[0] != '+' && rest[0] != '-'
    ensures Strtol(w + (sign + (digits + rest)))
         == Clamp(if sign == "-" then 0 - DecimalValue(digits) else DecimalValue(digits))
  {
    StrtolSpaces(w, sign + (digits + rest));
    LeadingDigitsValue(digits, 0, rest);
    assert digits[0..] == digits;
    if sign == "" {
      Unsigned(digits, rest);
    }
    SignedStrtol(sign, digits + rest);
    hide Strtol, LeadingDigits, DecimalValue;
    assert sign == "" ==> sign + (digits + rest) == digits + rest;
  }

  lemma Unsigned(digits: string, rest: string)
    requires AllDigits(digits)
    requires digits == "" && rest != "" ==> !IsBlank(rest[0]) && rest[0] != '+' && rest[0] != '-'
    ensures Numeral(digits + rest)
  {
    assert digits + rest != "" ==> (digits + rest)[0] == if digits != "" then digits[0] else rest[0];
  }

  /** Neither white space nor a sign in front. */
  predicate Numeral(s: string) {
    s != "" ==> !IsCSpace(s[0]) && s[0] != '-' && s[0] != '+'
  }

  lemma SignedStrtol(sign: string, s: string)
    requires sign == "" || sign == "+" || sign == "-"
    requires sign == "" ==> Numeral(s)
    ensures Strtol(sign + s) == Clamp(if sign == "-" then 0 - LeadingDigits(s, 0) else LeadingDigits(s, 0))
  {
    hide LeadingDigits;
    if sign == "" {
      assert sign + s == s;
    } else {
      assert (sign + s)[0] == sign[0] && (sign + s)[1..] == s;
    }
  }

  /** Every `long` is read out of its own text. */
  lemma StrtolOfText(n: int)
    requires -2147483648 <= n <= 2147483647
    ensures Strtol(IntText(n)) == n && IntText(n) != ""
  {
    var digits := Digits(if n < 0 then -n else n);
    DigitsValue(if n < 0 then -n else n);
    var sign := if n < 0 then "-" else "";
    assert "" + (sign + (digits + "")) == IntText(n);
    StrtolValue("", sign, digits, "");
  }

  // ---- Texts that parse ----

  lemma ParsedText(scan: DoubleScanner, text: string)
    ensures var r := Parse(Config(true, false, scan), text, Null);
      AnalysisOf(scan, text)
      == if !r.ok then Returns(-1)
         else if MemberText(r.value, "category").None? then Aborts
         else if MemberText(r.value, "category").value != "" then Returns(Strtol(MemberText(r.value, "category").value))
         else if MemberText(r.value, "dev_id").None? then Aborts
         else if MemberText(r.value, "dev_id").value != "" then Returns(4)
         else Returns(-1)
  {
    hide Parse, MemberText, Strtol;
  }

  /** `text` parses, comments allowed and any root accepted, to the object with these members. */
  ghost predicate Message(scan: DoubleScanner, text: string, members: seq<Entry>) {
    && Parse(Config(true, false, scan), text, Null).ok
    && Parse(Config(true, false, scan), text, Null).value == Object(members)
    && WellFormed(Object(members))
  }

  ghost predicate Member(members: seq<Entry>, name: string, v: Value) {
    exists k | 0 <= k < |members| :: members[k] == Entry(Name(name), v)
  }

  /** The member is not there, null or the empty string. */
  ghost predicate Blank(members: seq<Entry>, name: string) {
    Member(members, name, Null) || Member(members, name, String(""))
    || forall k | 0 <= k < |members| :: members[k].key != Name(name)
  }

  lemma MemberIs(members: seq<Entry>, name: string, v: Value)
    requires WellFormed(Object(members)) && Member(members, name, v)
    ensures MemberText(Object(members), name) == AsString(v)
  {
    var k :| 0 <= k < |members| && members[k] == Entry(Name(name), v);
    GetMember(members, k);
  }

  lemma BlankIs(members: seq<Entry>, name: string)
    requires WellFormed(Object(members)) && Blank(members, name)
    ensures MemberText(Object(members), name) == Some("")
  {
    if Member(members, name, Null) {
      MemberIs(members, name, Null);
    } else if Member(members, name, String("")) {
      MemberIs(members, name, String(""));
    } else {
      GetAbsent(members, Name(name));
    }
  }

  lemma MemberTexts(v: Value)
    ensures v.String? ==> AsString(v) == Some(v.s)
    ensures v.Bool? ==> AsString(v) == Some(if v.b then "true" else "false")
    ensures !v.String? && !v.Bool? && !v.Null? ==> AsString(v) == None
  {}

  /** The category decides when it is there and not empty: a string by the number it starts with, a boolean gives 0, and
      anything else cannot be converted. */
  lemma ByCategory(scan: DoubleScanner, text: string, members: seq<Entry>, v: Value)
    requires Message(scan, text, members) && Member(members, "category", v) && v != Null && v != String("")
    ensures AnalysisOf(scan, text)
         == if v.String? then Returns(Strtol(v.s)) else if v.Bool? then Returns(0) else Aborts
    ensures forall n: int :: -2147483648 <= n <= 2147483647 && v == String(IntText(n)) ==>
      AnalysisOf(scan, text) == Returns(n)
  {
    hide AnalysisOf, Parse, MemberText, Strtol, WellFormed, Member, IntText;
    ParsedText(scan, text);
    MemberIs(members, "category", v);
    MemberTexts(v);
    StrtolWords();
    forall n: int | -2147483648 <= n <= 2147483647 && v == String(IntText(n))
      ensures AnalysisOf(scan, text) == Returns(n)
    {
      StrtolOfText(n);
    }
  }

  lemma StrtolWords()
    ensures Strtol("true") == 0 && Strtol("false") == 0
  {
    assert LeadingDigits("true", 0) == 0 && LeadingDigits("false", 0) == 0;
    assert "true"[0] == 't' && "false"[0] == 'f';
  }

  /** Without a category the device id decides: any one means code 4, none means -1. */
  lemma ByDevice(scan: DoubleScanner, text: string, members: seq<Entry>)
    requires Message(scan, text, members) && Blank(members, "category")
    ensures Blank(members, "dev_id") ==> AnalysisOf(scan, text) == Returns(-1)
    ensures forall v :: Member(members, "dev_id", v) && v != Null && v != String("") ==>
      AnalysisOf(scan, text) == if v.String? || v.Bool? then Returns(4) else Aborts
  {
    hide AnalysisOf, Parse, MemberText, WellFormed, Member, Blank;
    ParsedText(scan, text);
    BlankIs(members, "category");
    if Blank(members, "dev_id") {
      BlankIs(members, "dev_id");
    }
    forall v | Member(members, "dev_id", v) && v != Null && v != String("")
      ensures AnalysisOf(scan, text) == if v.String? || v.Bool? then Returns(4) else Aborts
    {
      MemberIs(members, "dev_id", v);
      MemberTexts(v);
    }
  }

  /** What either writer prints for an object of the domain is a message with its members. */
  lemma PrintedMessage(scan: DoubleScanner, print_: DoublePrinter, yaml: bool, members: seq<Entry>)
    requires WellFormed(Object(members)) && InDomain(Object(members))
    ensures Message(scan, Compact(print_, yaml, "", Object(members)) + "\n", members)
    ensures Message(scan, StyledText.Styled(print_, "", "", Object(members)) + "\n", members)
  {
    hide Parse, Compact, StyledText.Styled, WellFormed, InDomain;
    PrintThenParse(print_, yaml, Config(true, false, scan), Object(members), Null);
  }

  /** The printed message of either writer, by its members. */
  lemma PrintedClassified(scan: DoubleScanner, print_: DoublePrinter, yaml: bool, members: seq<Entry>, text: string)
    requires WellFormed(Object(members)) && InDomain(Object(members))
    requires text in [Compact(print_, yaml, "", Object(members)) + "\n",
                      StyledText.Styled(print_, "", "", Object(members)) + "\n"]
    ensures forall n: int :: -2147483648 <= n <= 2147483647 && Member(members, "category", String(IntText(n))) ==>
      AnalysisOf(scan, text) == Returns(n)
    ensures forall s: string :: Blank(members, "category") && Member(members, "dev_id", String(s)) && s != "" ==>
      AnalysisOf(scan, text) == Returns(4)
    ensures Blank(members, "category") && Blank(members, "dev_id") ==> AnalysisOf(scan, text) == Returns(-1)
  {
    hide AnalysisOf, Parse, Compact, StyledText.Styled, WellFormed, InDomain, Member, Blank, Message, IntText;
    PrintedMessage(scan, print_, yaml, members);
    forall n: int | -2147483648 <= n <= 2147483647 && Member(members, "category", String(IntText(n)))
      ensures AnalysisOf(scan, text) == Returns(n)
    {
      StrtolOfText(n);
      ByCategory(scan, text, members, String(IntText(n)));
    }
    if Blank(members, "category") {
      ByDevice(scan, text, members);
    }
  }

  /** Other roots: null is an empty message, a scalar or an array cannot hold members. */
  lemma OtherRoots(scan: DoubleScanner, text: string)
    requires Parse(Config(true, false, scan), text, Null).ok
    ensures var v := Parse(Config(true, false, scan), text, Null).value;
      && (v == Null ==> AnalysisOf(scan, text) == Returns(-1))
      && (v != Null && !v.Object? ==> AnalysisOf(scan, text) == Aborts)
  {
    hide Parse, AnalysisOf, Strtol;
    ParsedText(scan, text);
  }

  // ---- Texts that do not parse ----

  /** A text on which the parser reports an error is -1. */
  lemma Unparsed(scan: DoubleScanner, text: string)
    requires Parse(Config(true, false, scan), text, Null).errors != []
    ensures AnalysisOf(scan, text) == Returns(-1)
  {
    hide Parse, AnalysisOf, MemberText, Strtol;
    ParsedText(scan, text);
    ResultMatchesErrors(Config(true, false, scan), text, Null);
  }

  /** A text that starts with a capital letter, or is empty. */
  lemma NoToken(scan: DoubleScanner, text: string)
    requires text == "" || 'A' <= text[0] <= 'Z'
    ensures AnalysisOf(scan, text) == Returns(-1)
  {
    var cfg := Config(true, false, scan);
    var t := ReadToken(text, 0);
    FirstIsError(text);
    FirstTokenIs(cfg, text, 0);
    ScalarCases(cfg, text, t, Null);
    hide ReadToken, DecodeNumber, DecodeStringValue;
    assert !ReadValue(cfg, text, 0, Null).ok;
    hide ReadValue;
    assert !Parse(cfg, text, Null).ok;
    ResultMatchesErrors(cfg, text, Null);
    Unparsed(scan, text);
  }

  lemma FirstIsError(text: string)
    requires text == "" || 'A' <= text[0] <= 'Z'
    ensures var t := ReadToken(text, 0); t.kind == Error || t.kind == EndOfStream
  {
    assert SkipSpaces(text, 0) == 0;
  }

  /** What rec_tcp_data leaves in its buffer on an error, on a closed connection and with nothing received. */
  lemma FailuresAreUnclassified(scan: DoubleScanner)
    ensures AnalysisOf(scan, "ERRORED") == AnalysisOf(scan, "CLOSED") == AnalysisOf(scan, "") == Returns(-1)
  {
    hide AnalysisOf;
    NoToken(scan, "ERRORED");
    NoToken(scan, "CLOSED");
    NoToken(scan, "");
  }

  // ---- What may stand in front ----

  /** White space and comments in front of a message do not change its classification. */
  lemma ClassifiedBehind(scan: DoubleScanner, w: string, text: string)
    requires AllSpaces(w) || IsComment(w)
    ensures AnalysisOf(scan, w + text) == AnalysisOf(scan, text)
  {
    hide AnalysisOf, Parse, MemberText, Strtol, AllSpaces, IsComment;
    var cfg := Config(true, false, scan);
    if AllSpaces(w) {
      ParseBehindSpaces(cfg, w, text, Null);
    } else {
      ParseBehindComment(cfg, w, text, Null);
    }
    ParsedText(scan, text);
    ParsedText(scan, w + text);
  }

  // ---- The door-closed message, character by character ----

  lemma StringPrinted(print_: DoublePrinter, name: string, s: string, indent: string)
    ensures Pretty(print_, String(s), indent) == Quoted(s) && KeyText(Entry(Name(name), String(s))) == name
  {}

  lemma NoLines(print_: DoublePrinter, indent: string)
    ensures MemberLines(print_, [], indent) == ""
  {}

  /** Two string members, each on its line. */
  lemma TwoMembers(print_: DoublePrinter, a: string, x: string, b: string, y: string)
    ensures Pretty(print_, Object([Entry(Name(a), String(x)), Entry(Name(b), String(y))]), "")
         == "{" + ("\n   " + Quoted(a) + " : " + Quoted(x) + ",") + ("\n   " + Quoted(b) + " : " + Quoted(y)) + "\n}"
  {
    hide *;
    var last := [Entry(Name(b), String(y))];
    var members := [Entry(Name(a), String(x)), Entry(Name(b), String(y))];
    assert members[1..] == last && last[1..] == [] && "" + "   " == "   " && "\n" + "   " == "\n   ";
    PrettyObject(print_, members, "");
    MemberLinesStep(print_, members, "   ");
    MemberLinesStep(print_, last, "   ");
    NoLines(print_, "   ");
    StringPrinted(print_, a, x, "   ");
    StringPrinted(print_, b, y, "   ");
  }

  lemma DoorShape(print_: DoublePrinter, id: string)
    ensures var v := Object([Entry(Name("category"), String("4")), Entry(Name("dev_id"), String(CString(id)))]);
      DoorMessage(print_, id) == StyledText.Styled(print_, "", "", v) + "\n" && WellFormed(v) && RealFree(v)
  {
    hide StyledText.Styled, WellFormed, Printable, InDomain, CString;
    DoorValueWellFormed(id);
    DomainIsPrintable(DoorValue(id));
  }

  lemma QuotedPlain(s: string)
    requires forall i | 0 <= i < |s| :: s[i] == '_' || '0' <= s[i] <= '9' || 'a' <= s[i] <= 'z'
    ensures Quoted(s) == "\"" + s + "\""
  {
    EscapePlain(s);
  }

  /** The text of the door-closed message for any device id. */
  lemma DoorMessageText(print_: DoublePrinter, id: string)
    ensures DoorMessage(print_, id)
         == "{" + ("\n   " + ("\"" + "category" + "\"") + " : " + ("\"" + "4" + "\"") + ",")
            + ("\n   " + ("\"" + "dev_id" + "\"") + " : " + Quoted(CString(id))) + "\n}" + "\n"
  {
    hide *;
    QuotedNames();
    DoorShape(print_, id);
    PrintedShape(print_, Object([Entry(Name("category"), String("4")), Entry(Name("dev_id"), String(CString(id)))]));
    TwoMembers(print_, "category", "4", "dev_id", CString(id));
  }

  lemma QuotedNames()
    ensures Quoted("4") == "\"" + "4" + "\"" && Quoted("category") == "\"" + "category" + "\""
    ensures Quoted("dev_id") == "\"" + "dev_id" + "\""
  {
    hide *;
    QuotedFour();
    QuotedCategory();
    QuotedDevice();
  }

  lemma QuotedFour()
    ensures Quoted("4") == "\"" + "4" + "\""
  {
    QuotedPlain("4");
    hide Quoted;
  }

  lemma QuotedCategory()
    ensures Quoted("category") == "\"" + "category" + "\""
  {
    QuotedPlain("category");
    hide Quoted;
  }

  lemma QuotedDevice()
    ensures Quoted("dev_id") == "\"" + "dev_id" + "\""
  {
    QuotedPlain("dev_id");
    hide Quoted;
  }
}
