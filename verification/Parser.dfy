/** The recursive-descent parser of json_reader.cpp as functions: what each read does to the current
    value, the position and the error list. */
module Parser {
  import opened Options
  import opened JsonValue
  import opened Tokens
  import opened Numbers
  import opened Strings

  /** `Features`, plus the double scanner of the C library. */
  datatype Config = Config(allowComments: bool, strictRoot: bool, scan: DoubleScanner)

  datatype ErrorInfo = ErrorInfo(message: string, token: Token, extra: Option<nat>)

  /** The outcome of reading one value: result, `current_`, the new current value, the errors added. */
  datatype Reading = Reading(ok: bool, pos: nat, value: Value, errors: seq<ErrorInfo>)

  const VALUE_EXPECTED := "Syntax error: value, object or array expected."
  const NAME_EXPECTED := "Missing '}' or object member name"
  const COLON_EXPECTED := "Missing ':' after object member name"
  const COMMA_EXPECTED := "Missing ',' or '}' in object declaration"
  const SEPARATOR_EXPECTED := "Missing ',' or ']' in array declaration"
  const ROOT_EXPECTED := "A valid JSON document must be either an array or an object value."

  ghost predicate Sound(r: Reading, doc: string, pos: nat) {
    && pos <= r.pos <= |doc|
    && (r.ok ==> pos < r.pos)
    && (r.ok <==> r.errors == [])
    && |r.errors| <= 1
  }

  function Text(doc: string, t: Token): string
    requires t.start <= t.end <= |doc|
  {
    doc[t.start..t.end]
  }

  /** skipCommentTokens. */
  function FirstToken(cfg: Config, doc: string, pos: nat): (t: Token)
    requires pos <= |doc|
    ensures pos <= t.start <= t.end <= |doc|
    ensures t.kind != EndOfStream ==> t.start < t.end
    ensures t.kind == StringToken ==> t.start + 2 <= t.end
  {
    if cfg.allowComments then SkipComments(doc, pos) else ReadToken(doc, pos)
  }

  function Leaf(t: Token, decoded: Decoded<Value>, old_: Value): Reading {
    match decoded
    case Good(v) => Reading(true, t.end, v, [])
    case Bad(message, extra) => Reading(false, t.end, old_, [ErrorInfo(message, t, extra)])
  }

  /** A string value is stored as a C string, so it ends at the first NUL it decodes to. */
  function DecodeStringValue(doc: string, t: Token): Decoded<Value>
    requires t.start + 2 <= t.end <= |doc|
  {
    match DecodeString(doc, t)
    case Good(s) => Good(String(CString(s)))
    case Bad(message, extra) => Bad(message, extra)
  }

  /** The cases of readValue that read no further tokens. */
  function ReadScalar(cfg: Config, doc: string, t: Token, old_: Value): (r: Reading)
    requires t.start <= t.end <= |doc|
    requires t.kind == StringToken ==> t.start + 2 <= t.end
    requires t.kind == Number ==> t.start < t.end
    ensures r.pos == t.end && (r.ok <==> r.errors == []) && |r.errors| <= 1
    ensures r.ok ==> t.kind != EndOfStream
    ensures !r.ok ==> r.value == old_
  {
    match t.kind
    case Number => Leaf(t, DecodeNumber(cfg.scan, Text(doc, t)), old_)
    case StringToken => Leaf(t, DecodeStringValue(doc, t), old_)
    case True => Reading(true, t.end, Bool(true), [])
    case False => Reading(true, t.end, Bool(false), [])
    case NullToken => Reading(true, t.end, Null, [])
    case _ => Leaf(t, Bad(VALUE_EXPECTED, None), old_)
  }

  lemma ScalarCases(cfg: Config, doc: string, t: Token, old_: Value)
    requires t.start <= t.end <= |doc|
    requires t.kind == StringToken ==> t.start + 2 <= t.end
    requires t.kind == Number ==> t.start < t.end
    ensures var r := ReadScalar(cfg, doc, t, old_);
      && (t.kind == Number ==> r == Leaf(t, DecodeNumber(cfg.scan, Text(doc, t)), old_))
      && (t.kind == StringToken ==> r == Leaf(t, DecodeStringValue(doc, t), old_))
      && (t.kind == True ==> r == Reading(true, t.end, Bool(true), []))
      && (t.kind == False ==> r == Reading(true, t.end, Bool(false), []))
      && (t.kind == NullToken ==> r == Reading(true, t.end, Null, []))
      && (t.kind != Number && t.kind != StringToken && t.kind != True && t.kind != False && t.kind != NullToken ==>
            r == Reading(false, t.end, old_, [ErrorInfo(VALUE_EXPECTED, t, None)]))
  {
    hide DecodeNumber, DecodeStringValue, VALUE_EXPECTED;
  }

  /** readValue; `old_` is the current value, kept when the token cannot be read. */
  function ReadValue(cfg: Config, doc: string, pos: nat, old_: Value): (r: Reading)
    requires pos <= |doc|
    ensures Sound(r, doc, pos)
    ensures !r.ok ==> r.value == old_ || r.value.Array? || r.value.Object?
    decreases |doc| - pos, 0
  {
    var t := FirstToken(cfg, doc, pos);
    if t.kind == ObjectBegin then ReadMembers(cfg, doc, t.end, "", [])
    else if t.kind == ArrayBegin then ReadArray(cfg, doc, t.end)
    else ReadScalar(cfg, doc, t, old_)
  }

  /** addErrorAndRecover. */
  function FailAndRecover(message: string, t: Token, doc: string, until: TokenType, v: Value): Reading
    requires t.end <= |doc|
  {
    Reading(false, Recover(doc, t.end, until), v, [ErrorInfo(message, t, None)])
  }

  /** One round of the loop of readObject, with the name and the members read so far. After a comment
      any token separates two members. */
  function ReadMembers(cfg: Config, doc: string, pos: nat, name: string, members: seq<Entry>): (r: Reading)
    requires pos <= |doc|
    ensures Sound(r, doc, pos) && r.value.Object?
    decreases |doc| - pos, 1
  {
    hide Put, Get, DecodeString, Recover, SkipComments, ReadToken, CString, NAME_EXPECTED, COLON_EXPECTED,
         COMMA_EXPECTED;
    var t := SkipComments(doc, pos);
    if t.kind == ObjectEnd && name == [] then Reading(true, t.end, Object(members), [])
    else if t.kind != StringToken then
      FailAndRecover(NAME_EXPECTED, t, doc, ObjectEnd, Object(members))
    else
      match DecodeString(doc, t)
      case Bad(message, extra) =>
        Reading(false, Recover(doc, t.end, ObjectEnd), Object(members), [ErrorInfo(message, t, extra)])
      case Good(n) =>
        var colon := ReadToken(doc, t.end);
        if colon.kind != MemberSeparator then
          FailAndRecover(COLON_EXPECTED, colon, doc, ObjectEnd, Object(members))
        else
          var key := Name(CString(n));
          var r := ReadValue(cfg, doc, colon.end, Get(members, key));
          var read := Put(members, key, r.value);
          if !r.ok then Reading(false, Recover(doc, r.pos, ObjectEnd), Object(read), r.errors)
          else
            var comma := ReadToken(doc, r.pos);
            if comma.kind != ObjectEnd && comma.kind != ArraySeparator && comma.kind != Comment then
              FailAndRecover(COMMA_EXPECTED, comma, doc, ObjectEnd, Object(read))
            else
              var separator := SkipComments(doc, r.pos);
              if separator.kind == ObjectEnd then Reading(true, separator.end, Object(read), [])
              else ReadMembers(cfg, doc, separator.end, n, read)
  }

  /** readArray, entered behind the opening bracket. */
  function ReadArray(cfg: Config, doc: string, pos: nat): (r: Reading)
    requires pos <= |doc|
    ensures Sound(r, doc, pos) && r.value.Array?
    decreases |doc| - pos, 2
  {
    var start := SkipSpaces(doc, pos);
    if Peek(doc, start) == ']' then Reading(true, ReadToken(doc, start).end, Array([]), [])
    else ReadElements(cfg, doc, start, 0, [])
  }

  /** `badTokenType` of readArray: one token is compared with two kinds at once. */
  predicate BadSeparator(kind: TokenType) {
    kind == ArraySeparator && kind == ArrayEnd
  }

  lemma NoBadSeparator(kind: TokenType)
    ensures !BadSeparator(kind)
  {}

  /** One round of the loop of readArray. */
  function ReadElements(cfg: Config, doc: string, pos: nat, index: nat, items: seq<Entry>): (r: Reading)
    requires pos <= |doc|
    ensures Sound(r, doc, pos) && r.value.Array?
    decreases |doc| - pos, 1
  {
    hide BadSeparator, SEPARATOR_EXPECTED;
    var r := ReadValue(cfg, doc, pos, Get(items, Index(index)));
    var read := Put(items, Index(index), r.value);
    if !r.ok then Reading(false, Recover(doc, r.pos, ArrayEnd), Array(read), r.errors)
    else
      var t := SkipComments(doc, r.pos);
      if BadSeparator(t.kind) then FailAndRecover(SEPARATOR_EXPECTED, t, doc, ArrayEnd, Array(read))
      else if t.kind == ArrayEnd then Reading(true, t.end, Array(read), [])
      else ReadElements(cfg, doc, t.end, index + 1, read)
  }

  /** Reader::parse on a document, with the value the root held before. */
  function Parse(cfg: Config, doc: string, root: Value): (r: Reading)
    ensures r.pos <= |doc|
  {
    var r := ReadValue(cfg, doc, 0, root);
    var trailer := FirstToken(cfg, doc, r.pos);
    if cfg.strictRoot && !IsContainer(r.value) then
      Reading(false, trailer.end, r.value, r.errors + [ErrorInfo(ROOT_EXPECTED, Token(Error, 0, |doc|), None)])
    else Reading(r.ok, trailer.end, r.value, r.errors)
  }

  /** `parse` returns true exactly when `errors_` is empty, and a failed parse records exactly one error
      however deep the failure. Only a strict root that held a scalar before can get a second one. */
  lemma ResultMatchesErrors(cfg: Config, doc: string, root: Value)
    ensures var r := Parse(cfg, doc, root);
      && (r.ok <==> r.errors == [])
      && (!r.ok && (!cfg.strictRoot || IsContainer(root)) ==> |r.errors| == 1)
      && |r.errors| <= 2
  {}

  /** `isArray() || isObject()`, both of which accept null. */
  predicate IsContainer(v: Value) {
    v.Array? || v.Object? || v.Null?
  }

  // ---- The loops of readObject and readArray, exit by exit ----

  lemma MembersName(cfg: Config, doc: string, pos: nat, name: string, members: seq<Entry>)
    requires pos <= |doc|
    ensures var t, r := SkipComments(doc, pos), ReadMembers(cfg, doc, pos, name, members);
      && (t.kind == ObjectEnd && name == [] ==> r == Reading(true, t.end, Object(members), []))
      && (t.kind != StringToken && !(t.kind == ObjectEnd && name == []) ==>
          r == FailAndRecover(NAME_EXPECTED, t, doc, ObjectEnd, Object(members)))
      && (t.kind == StringToken && DecodeString(doc, t).Bad? ==>
          var bad := DecodeString(doc, t);
          r == Reading(false, Recover(doc, t.end, ObjectEnd), Object(members), [ErrorInfo(bad.message, t, bad.extra)]))
  {}

  lemma MembersColon(cfg: Config, doc: string, pos: nat, name: string, members: seq<Entry>)
    requires pos <= |doc|
    requires var t := SkipComments(doc, pos); t.kind == StringToken && DecodeString(doc, t).Good?
    ensures var colon := ReadToken(doc, SkipComments(doc, pos).end);
      colon.kind != MemberSeparator ==>
        ReadMembers(cfg, doc, pos, name, members)
        == FailAndRecover(COLON_EXPECTED, colon, doc, ObjectEnd, Object(members))
  {}

  lemma MembersValue(cfg: Config, doc: string, pos: nat, name: string, members: seq<Entry>, n: string, r: Reading)
    requires pos <= |doc|
    requires var t := SkipComments(doc, pos); t.kind == StringToken && DecodeString(doc, t) == Good(n)
    requires var colon := ReadToken(doc, SkipComments(doc, pos).end);
      colon.kind == MemberSeparator && r == ReadValue(cfg, doc, colon.end, Get(members, Name(CString(n))))
    ensures r.pos <= |doc|
    ensures var all, read := ReadMembers(cfg, doc, pos, name, members), Put(members, Name(CString(n)), r.value);
      var comma, separator := ReadToken(doc, r.pos), SkipComments(doc, r.pos);
      && (!r.ok ==> all == Reading(false, Recover(doc, r.pos, ObjectEnd), Object(read), r.errors))
      && (r.ok && comma.kind != ObjectEnd && comma.kind != ArraySeparator && comma.kind != Comment ==>
          all == FailAndRecover(COMMA_EXPECTED, comma, doc, ObjectEnd, Object(read)))
      && (r.ok && (comma.kind == ObjectEnd || comma.kind == ArraySeparator || comma.kind == Comment) ==>
          all == if separator.kind == ObjectEnd then Reading(true, separator.end, Object(read), [])
                 else ReadMembers(cfg, doc, separator.end, n, read))
  {}

  lemma ElementsRound(cfg: Config, doc: string, pos: nat, index: nat, items: seq<Entry>, r: Reading)
    requires pos <= |doc| && r == ReadValue(cfg, doc, pos, Get(items, Index(index)))
    ensures r.pos <= |doc|
    ensures var all, read := ReadElements(cfg, doc, pos, index, items), Put(items, Index(index), r.value);
      var t := SkipComments(doc, r.pos);
      && (!r.ok ==> all == Reading(false, Recover(doc, r.pos, ArrayEnd), Array(read), r.errors))
      && (r.ok ==> all == if BadSeparator(t.kind) then FailAndRecover(SEPARATOR_EXPECTED, t, doc, ArrayEnd, Array(read))
                          else if t.kind == ArrayEnd then Reading(true, t.end, Array(read), [])
                          else ReadElements(cfg, doc, t.end, index + 1, read))
  {
    hide BadSeparator, SEPARATOR_EXPECTED;
  }
}
