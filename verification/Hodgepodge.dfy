/** The message classifier and the door-closed message (hodgepodge.cpp), built on the JSON pipeline. */
module Hodgepodge {
  import opened Options
  import opened JsonValue
  import opened Numbers
  import opened Parser
  import opened FastWriter
  import StyledText = StyledWriter
  import Readers = Reader
  import opened RoundTrip
  import opened ArrayOps

  /** What `analysis_type` does: return a code, or fail an assertion or throw on the way. */
  datatype Analysis = Returns(code: int) | Aborts

  const CLOSE_DOOR_TYPE := 4

  /** `long` of the 32-bit target. */
  const LONG_MAX := 0x7FFF_FFFF

  /** Features::all(). */
  function AllFeatures(scan: DoubleScanner): Config {
    Config(true, false, scan)
  }

  /** Value::asString; None where it throws. */
  function AsString(v: Value): Option<string> {
    match v
    case Null => Some("")
    case String(s) => Some(s)
    case Bool(b) => Some(if b then "true" else "false")
    case _ => None
  }

  predicate IsCSpace(c: char) {
    c == ' ' || '\t' <= c <= '\r'
  }

  /** The digits `strtol` consumes, added to `value`. */
  function LeadingDigits(s: string, value: nat): nat
    decreases |s|
  {
    if s != [] && '0' <= s[0] <= '9' then LeadingDigits(s[1..], 10 * value + (s[0] as int - '0' as int)) else value
  }

  /** `strtol(s, NULL, 10)`. */
  function Strtol(s: string): int
    decreases |s|
  {
    if s != [] && IsCSpace(s[0]) then Strtol(s[1..])
    else
      var negative := s != [] && s[0] == '-';
      var n: int := LeadingDigits(if s != [] && (s[0] == '-' || s[0] == '+') then s[1..] else s, 0);
      if negative then (if n > LONG_MAX + 1 then -LONG_MAX - 1 else -n) else if n > LONG_MAX then LONG_MAX else n
  }

  /** `value[name].asString()` on a parsed message. */
  function MemberText(v: Value, name: string): Option<string> {
    match v
    case Null => Some("")
    case Object(members) => AsString(Get(members, Name(name)))
    case _ => None
  }

  /** analysis_type. */
  function AnalysisOf(scan: DoubleScanner, text: string): Analysis {
    var r := Parse(AllFeatures(scan), text, Null);
    if !r.ok then Returns(-1)
    else
      match MemberText(r.value, "category")
      case None => Aborts
      case Some(category) =>
        if category != "" then Returns(Strtol(category))
        else
          match MemberText(r.value, "dev_id")
          case None => Aborts
          case Some(device) => Returns(if device != "" then 4 else -1)
  }

  method AnalysisType(scan: DoubleScanner, replyInfo: string) returns (result: Analysis)
    ensures result == AnalysisOf(scan, replyInfo)
  {
    hide Parse;
    var reader := new Readers.Reader(AllFeatures(scan));
    var ok, value := reader.Parse(replyInfo, Null);
    if ok {
      var category := MemberText(value, "category");
      if category.None? { return Aborts; }
      if category.value != "" { return Returns(Strtol(category.value)); }
      var device := MemberText(value, "dev_id");
      if device.None? { return Aborts; }
      if device.value != "" { return Returns(4); }
    }
    return Returns(-1);
  }

  /** The value `close_door_creat_type` builds, in map order. */
  function DoorValue(id: string): Value {
    Object([Entry(Name("category"), String("4")), Entry(Name("dev_id"), String(CString(id)))])
  }

  function DoorMessage(print_: DoublePrinter, id: string): string {
    StyledText.Styled(print_, "", "", DoorValue(id)) + "\n"
  }

  lemma DoorValueWellFormed(id: string)
    ensures WellFormed(DoorValue(id)) && InDomain(DoorValue(id)) && Printable(DoorValue(id))
  {
    assert StrLess("category", "dev_id");
    assert NulFree("category") && NulFree("dev_id") && NulFree("4");
  }

  lemma NamesInOrder()
    ensures CString("dev_id") == "dev_id" && CString("category") == "category"
    ensures !KeyLess(Name("dev_id"), Name("category")) && Name("dev_id") != Name("category")
  {
    assert NulFree("dev_id") && NulFree("category");
    assert "dev_id"[0] == 'd' && "category"[0] == 'c';
  }

  /** `root["dev_id"] = ...; root["category"] = "4"` leaves the members in map order. */
  lemma DoorMembers(id: string)
    ensures CString("dev_id") == "dev_id" && CString("category") == "category"
    ensures Object(Put(Put([], Name("dev_id"), String(CString(id))), Name("category"), String("4"))) == DoorValue(id)
  {
    NamesInOrder();
    hide CString, KeyLess;
    var first := [Entry(Name("dev_id"), String(CString(id)))];
    assert Put([], Name("dev_id"), String(CString(id))) == first;
    assert Put(first, Name("category"), String("4")) == [Entry(Name("category"), String("4"))] + first;
  }

  /** close_door_creat_type. */
  method CloseDoorCreateType(print_: DoublePrinter, id: string) returns (message: string)
    ensures message == DoorMessage(print_, id)
  {
    hide StyledText.Styled, Put, CString, DoorValue, WellFormed, Printable;
    var root := new ValueCell(Null);
    DoorMembers(id);
    DoorValueWellFormed(id);
    root.StoreMember("dev_id", String(CString(id)));
    root.StoreMember("category", String("4"));
    var writer := new StyledText.StyledWriter(print_);
    message := writer.Write(root.value);
  }

  lemma Classified4(scan: DoubleScanner, text: string, id: string)
    requires Parse(AllFeatures(scan), text, Null).ok && Parse(AllFeatures(scan), text, Null).value == DoorValue(id)
    ensures AnalysisOf(scan, text) == Returns(4)
  {
    hide Parse, CString;
    assert LeadingDigits("4"[1..], 4) == 4;
    assert Strtol("4") == 4;
    assert MemberText(DoorValue(id), "category") == Some("4");
  }

  /** For every device id, whatever it contains, the message thread classifies the text of the door-closed
      message as the close command. */
  lemma DoorMessageRecognised(scan: DoubleScanner, print_: DoublePrinter, id: string)
    ensures AnalysisOf(scan, DoorMessage(print_, id)) == Returns(CLOSE_DOOR_TYPE)
  {
    hide Parse, StyledText.Styled, Compact, AnalysisOf, DoorValue;
    DoorValueWellFormed(id);
    PrintThenParse(print_, false, AllFeatures(scan), DoorValue(id), Null);
    Classified4(scan, DoorMessage(print_, id), id);
  }
}
