/** What is left of a malformed object or array: at every place of the member and the element loop, which error is
    reported, what the container holds, and where reading goes on. */
module Recovery {
  import opened Options
  import opened JsonValue
  import opened Tokens
  import opened Numbers
  import opened Strings
  import opened Parser
  import opened Layout
  import opened ReadBack
  import opened FastWriter
  import opened RoundTrip
  import opened ParsedValues
  import opened Translation
  import opened NumberTokens
  import opened Refused

  /** White space and characters that start no token. */
  predicate Junk(m: string) {
    forall i | 0 <= i < |m| :: StartsNothing(m[i]) || IsSpace(m[i])
  }

  /** The bracket that ends the recovery inside an object or an array. */
  function Closing(until: TokenType): string {
    if until == ObjectEnd then "}" else "]"
  }

  lemma ClosingToken(until: TokenType, b: string)
    requires until == ObjectEnd || until == ArrayEnd
    ensures ReadToken(Closing(until) + b, 0) == Token(until, 0, 1)
  {
    assert SkipSpaces(Closing(until) + b, 0) == 0;
  }

  lemma SpaceFirst(c: char, rest: string)
    requires IsSpace(c)
    ensures ReadToken([c] + rest, 0) == Moved(ReadToken(rest, 0), 1)
  {
    var doc := [c] + rest;
    assert SkipSpaces(doc, 0) == SkipSpaces(doc, 1);
    SkipSpacesFirst(doc, 0);
    SkipSpacesFirst(doc, 1);
    hide ReadToken, SkipSpaces;
    TokenMoves([c], rest, 0);
  }

  lemma StartsNothingFirst(x: char, rest: string)
    requires StartsNothing(x)
    ensures BadCharacter([x] + rest) && ErrorLength([x] + rest) == 1
  {}

  lemma ErrorFirst(x: char, rest: string)
    requires StartsNothing(x)
    ensures ReadToken([x] + rest, 0) == Token(Error, 0, 1)
  {
    StartsNothingFirst(x, rest);
    hide ReadToken, StartsNothing, BadCharacter, ErrorLength;
    ErrorToken("", [x] + rest);
    assert "" + ([x] + rest) == [x] + rest;
  }

  /** One character of junk is dropped. */
  lemma JunkDropped(c: char, tail: string, until: TokenType)
    requires (StartsNothing(c) || IsSpace(c)) && (until == ObjectEnd || until == ArrayEnd)
    ensures Recover([c] + tail, 0, until) == 1 + Recover(tail, 0, until)
  {
    hide *;
    RecoveryMoves([c], tail, 0, until);
    if StartsNothing(c) {
      ErrorFirst(c, tail);
      NotStopping(until);
      RecoverRound([c] + tail, 0, until, 0);
    } else {
      BlankDropped(c, tail, until);
    }
  }

  lemma BlankDropped(c: char, tail: string, until: TokenType)
    requires IsSpace(c)
    ensures Recover([c] + tail, 0, until) == Recover([c] + tail, 1, until)
  {
    hide *;
    SpaceFirst(c, tail);
    TokenMoves([c], tail, 0);
    RecoverRound([c] + tail, 0, until, 0);
    RecoverRound([c] + tail, 1, until, 0);
  }

  lemma NotStopping(until: TokenType)
    requires until == ObjectEnd || until == ArrayEnd
    ensures !Stops(Token(Error, 0, 1), until) && Stops(Token(until, 0, 1), until)
  {}

  lemma JunkTail(m: string)
    requires Junk(m) && m != ""
    ensures (StartsNothing(m[0]) || IsSpace(m[0])) && Junk(m[1..])
  {
    hide StartsNothing;
  }

  /** Recovery drops junk and ends behind the bracket. */
  lemma {:induction false} JunkRecovers(m: string, until: TokenType, b: string)
    requires Junk(m) && (until == ObjectEnd || until == ArrayEnd)
    ensures Recover(m + (Closing(until) + b), 0, until) == |m| + 1
    decreases |m|
  {
    hide *;
    var rest := Closing(until) + b;
    if m == "" {
      assert m + rest == rest;
      ClosingToken(until, b);
      NotStopping(until);
      RecoverRound(rest, 0, until, 0);
    } else {
      assert m + rest == [m[0]] + (m[1..] + rest);
      JunkTail(m);
      JunkDropped(m[0], m[1..] + rest, until);
      JunkRecovers(m[1..], until, b);
    }
  }

  // ---- Behind an error ----

  /** Behind `head` stand junk and the bracket: a failure at the end of `head` leaves the container, one error, and the
      cursor behind the bracket. */
  lemma FailsBehind(head: string, m: string, until: TokenType, b: string, message: string, t: Token, v: Value)
    requires Junk(m) && (until == ObjectEnd || until == ArrayEnd) && t.end == |head|
    ensures FailAndRecover(message, t, head + (m + (Closing(until) + b)), until, v)
         == Reading(false, |head| + |m| + 1, v, [ErrorInfo(message, t, None)])
  {
    JunkRecovers(m, until, b);
    RecoveryMoves(head, m + (Closing(until) + b), 0, until);
    hide Recover, Closing, Junk;
  }

  /** The text of a member up to the colon, with its tokens. */
  lemma NameTokens(name: string, rest: string)
    requires NulFree(name)
    ensures var doc, length := Quoted(name) + rest, |Quoted(name)|;
      && SkipComments(doc, 0) == Token(StringToken, 0, length) && DecodeString(doc, SkipComments(doc, 0)) == Good(name)
      && ReadToken(doc, length) == Moved(ReadToken(rest, 0), length)
  {
    hide *;
    var doc := Quoted(name) + rest;
    QuotedHere(name, rest);
    QuotedRoundTrip(doc, 0, name);
    SkipCommentsIs(doc, 0);
    TokenMoves(Quoted(name), rest, 0);
  }

  lemma QuotedHere(name: string, rest: string)
    ensures At(Quoted(name) + rest, 0, Quoted(name))
  {
    assert (Quoted(name) + rest)[0..0 + |Quoted(name)|] == Quoted(name);
  }

  /** A character that starts no token, in front of junk and a bracket. */
  lemma BadToken(x: char, rest: string)
    requires StartsNothing(x)
    ensures ReadToken([x] + rest, 0) == Token(Error, 0, 1)
    ensures SkipComments([x] + rest, 0) == Token(Error, 0, 1)
  {
    hide ReadToken, StartsNothing;
    ErrorFirst(x, rest);
    SkipCommentsIs([x] + rest, 0);
  }

  /** The reports of the two loops. */
  lemma Messages()
    ensures NAME_EXPECTED == "Missing '}' or object member name"
    ensures COLON_EXPECTED == "Missing ':' after object member name"
    ensures COMMA_EXPECTED == "Missing ',' or '}' in object declaration"
  {}

  // ---- Objects: the loop with `members` read, the last one named `last` ----

  /** Where a name should stand. */
  lemma NameRefused(cfg: Config, before: string, x: char, m: string, b: string, last: string, members: seq<Entry>)
    requires StartsNothing(x) && Junk(m)
    ensures ReadMembers(cfg, before + ([x] + (m + ("}" + b))), |before|, last, members)
         == Reading(false, |before| + 1 + |m| + 1, Object(members),
                    [ErrorInfo(NAME_EXPECTED, Token(Error, |before|, |before| + 1), None)])
  {
    hide *;
    var doc, t := [x] + (m + ("}" + b)), Token(Error, 0, 1);
    ClosingText();
    BadToken(x, m + ("}" + b));
    MembersName(cfg, doc, 0, last, members);
    FailsBehind([x], m, ObjectEnd, b, NAME_EXPECTED, t, Object(members));
    MembersMove(cfg, before, doc, 0, last, members);
    FailureMoves(1 + |m| + 1, Object(members), NAME_EXPECTED, t, |before|);
  }

  lemma ClosingText()
    ensures Closing(ObjectEnd) == "}" && Closing(ArrayEnd) == "]"
  {}

  lemma FailureMoves(pos: nat, v: Value, message: string, t: Token, n: nat)
    ensures MovedReading(Reading(false, pos, v, [ErrorInfo(message, t, None)]), n)
         == Reading(false, pos + n, v, [ErrorInfo(message, Token(t.kind, t.start + n, t.end + n), None)])
  {}

  /** A comma in front of the closing brace: the brace is taken for a bad name, and the recovery goes on to the next
      one. Only behind a member with the empty name it ends the object. */
  lemma TrailingComma(cfg: Config, before: string, m: string, b: string, last: string, members: seq<Entry>)
    requires Junk(m)
    ensures var r := ReadMembers(cfg, before + ("}" + (m + ("}" + b))), |before|, last, members);
      r == if last == "" then Reading(true, |before| + 1, Object(members), [])
           else Reading(false, |before| + 1 + |m| + 1, Object(members),
                        [ErrorInfo(NAME_EXPECTED, Token(ObjectEnd, |before|, |before| + 1), None)])
  {
    hide *;
    var doc, t := "}" + (m + ("}" + b)), Token(ObjectEnd, 0, 1);
    ClosingText();
    ClosingToken(ObjectEnd, m + ("}" + b));
    SkipCommentsIs(doc, 0);
    MembersName(cfg, doc, 0, last, members);
    FailsBehind("}", m, ObjectEnd, b, NAME_EXPECTED, t, Object(members));
    MembersMove(cfg, before, doc, 0, last, members);
    FailureMoves(1 + |m| + 1, Object(members), NAME_EXPECTED, t, |before|);
    NoErrorMoves(1, Object(members), |before|);
  }

  /** Where a colon should stand: the member is not there. */
  lemma ColonRefused(cfg: Config, before: string, name: string, x: char, m: string, b: string, last: string,
                     members: seq<Entry>)
    requires NulFree(name) && StartsNothing(x) && Junk(m)
    ensures var at := |before| + |Quoted(name)|;
      ReadMembers(cfg, before + (Quoted(name) + ([x] + (m + ("}" + b)))), |before|, last, members)
      == Reading(false, at + 1 + |m| + 1, Object(members),
                 [ErrorInfo(COLON_EXPECTED, Token(Error, at, at + 1), None)])
  {
    hide *;
    var rest, at := [x] + (m + ("}" + b)), |Quoted(name)|;
    var doc, t := Quoted(name) + rest, Token(Error, at, at + 1);
    ClosingText();
    NameTokens(name, rest);
    BadToken(x, m + ("}" + b));
    MovedParts(Token(Error, 0, 1), at);
    MembersColon(cfg, doc, 0, last, members);
    assert Quoted(name) + [x] + (m + ("}" + b)) == doc;
    FailsBehind(Quoted(name) + [x], m, ObjectEnd, b, COLON_EXPECTED, t, Object(members));
    MembersMove(cfg, before, doc, 0, last, members);
    FailureMoves(at + 1 + |m| + 1, Object(members), COLON_EXPECTED, t, |before|);
  }

  /** What a value behind a name leaves, in the words of the loop. */
  lemma MemberRound(cfg: Config, name: string, rest: string, last: string, members: seq<Entry>, r: Reading)
    requires NulFree(name)
    requires r == ReadValue(cfg, Quoted(name) + ":" + rest, |Quoted(name) + ":"|, Get(members, Name(name)))
    ensures var doc := Quoted(name) + ":" + rest;
      r.pos <= |doc| &&
      var all, read := ReadMembers(cfg, doc, 0, last, members), Put(members, Name(name), r.value);
      var comma, separator := ReadToken(doc, r.pos), SkipComments(doc, r.pos);
      && (!r.ok ==> all == Reading(false, Recover(doc, r.pos, ObjectEnd), Object(read), r.errors))
      && (r.ok && comma.kind != ObjectEnd && comma.kind != ArraySeparator && comma.kind != Comment ==>
            all == FailAndRecover(COMMA_EXPECTED, comma, doc, ObjectEnd, Object(read)))
      && (r.ok && comma.kind == ArraySeparator && separator.kind == ArraySeparator ==>
            all == ReadMembers(cfg, doc, separator.end, name, read))
  {
    hide *;
    var doc := Quoted(name) + ":" + rest;
    assert doc == Quoted(name) + (":" + rest);
    NameTokens(name, ":" + rest);
    ColonToken(rest);
    MovedParts(Token(MemberSeparator, 0, 1), |Quoted(name)|);
    WholeName(name);
    MembersValue(cfg, doc, 0, last, members, name, r);
  }

  lemma ColonToken(rest: string)
    ensures ReadToken(":" + rest, 0) == Token(MemberSeparator, 0, 1)
  {
    assert SkipSpaces(":" + rest, 0) == 0;
  }

  lemma WholeName(name: string)
    requires NulFree(name)
    ensures CString(name) == name
  {}

  /** Where a value should stand: the member is there with the value it had, null if it is new. */
  lemma ValueRefused(cfg: Config, before: string, name: string, x: char, m: string, b: string, last: string,
                     members: seq<Entry>)
    requires NulFree(name) && StartsNothing(x) && Junk(m)
    ensures var at, old_ := |before| + |Quoted(name)| + 1, Get(members, Name(name));
      ReadMembers(cfg, before + (Quoted(name) + ":" + ([x] + (m + ("}" + b)))), |before|, last, members)
      == Reading(false, at + 1 + |m| + 1, Object(Put(members, Name(name), old_)),
                 [ErrorInfo(VALUE_EXPECTED, Token(Error, at, at + 1), None)])
  {
    hide *;
    var head, rest, old_ := Quoted(name) + ":", [x] + (m + ("}" + b)), Get(members, Name(name));
    var t, v := Token(Error, |head|, |head| + 1), Object(Put(members, Name(name), old_));
    ClosingText();
    ErrorThere(cfg, head, x, m + ("}" + b), old_);
    MemberRound(cfg, name, rest, last, members, ReadValue(cfg, head + rest, |head|, old_));
    assert head + [x] + (m + ("}" + b)) == head + rest;
    FailsBehind(head + [x], m, ObjectEnd, b, VALUE_EXPECTED, t, v);
    RecoversBehind(VALUE_EXPECTED, t, head + rest, ObjectEnd, v);
    MembersMove(cfg, before, head + rest, 0, last, members);
    FailureMoves(|head| + 1 + |m| + 1, v, VALUE_EXPECTED, t, |before|);
  }

  lemma RecoversBehind(message: string, t: Token, doc: string, until: TokenType, v: Value)
    requires t.end <= |doc|
    ensures FailAndRecover(message, t, doc, until, v)
         == Reading(false, Recover(doc, t.end, until), v, [ErrorInfo(message, t, None)])
  {
    hide Recover;
  }

  lemma ErrorThere(cfg: Config, head: string, x: char, rest: string, old_: Value)
    requires StartsNothing(x)
    ensures ReadValue(cfg, head + ([x] + rest), |head|, old_)
         == Reading(false, |head| + 1, old_, [ErrorInfo(VALUE_EXPECTED, Token(Error, |head|, |head| + 1), None)])
  {
    StartsNothingFirst(x, rest);
    hide ReadValue, StartsNothing, BadCharacter, LoneSlash, Unfinished, ErrorLength;
    ErrorRefused(cfg, head, [x] + rest, old_);
  }

  lemma CommaExpected(print_: DoublePrinter, yaml: bool, cfg: Config, name: string, v: Value, x: char, tail: string,
                      last: string, members: seq<Entry>)
    requires NulFree(name) && WellFormed(v) && InDomain(v) && StartsNothing(x) && !Continues(x)
    ensures var member := Compact(print_, yaml, Quoted(name) + ":", v);
      ReadMembers(cfg, member + ([x] + tail), 0, last, members)
      == FailAndRecover(COMMA_EXPECTED, Token(Error, |member|, |member| + 1), member + ([x] + tail), ObjectEnd,
                        Object(Put(members, Name(name), v)))
  {
    hide *;
    var member, rest := Compact(print_, yaml, Quoted(name) + ":", v), [x] + tail;
    NotContinued(x, tail);
    PrintedMember(print_, yaml, cfg, name, v, rest, Get(members, Name(name)));
    MemberRound(cfg, name, member[|Quoted(name) + ":"|..] + rest, last, members, Reading(true, |member|, v, []));
    ErrorFirst(x, tail);
    TokenMoves(member, rest, 0);
    MovedParts(Token(Error, 0, 1), |member|);
  }

  /** Where a comma or a brace should stand, behind a printed value of the domain: the member is there. */
  lemma CommaRefused(print_: DoublePrinter, yaml: bool, cfg: Config, before: string, name: string, v: Value, x: char,
                     m: string, b: string, last: string, members: seq<Entry>)
    requires NulFree(name) && WellFormed(v) && InDomain(v) && StartsNothing(x) && !Continues(x) && Junk(m)
    ensures var member := Compact(print_, yaml, Quoted(name) + ":", v);
      var at := |before| + |member|;
      ReadMembers(cfg, before + (member + ([x] + (m + ("}" + b)))), |before|, last, members)
      == Reading(false, at + 1 + |m| + 1, Object(Put(members, Name(name), v)),
                 [ErrorInfo(COMMA_EXPECTED, Token(Error, at, at + 1), None)])
  {
    hide *;
    var member, rest := Compact(print_, yaml, Quoted(name) + ":", v), [x] + (m + ("}" + b));
    var t, read := Token(Error, |member|, |member| + 1), Object(Put(members, Name(name), v));
    ClosingText();
    CommaExpected(print_, yaml, cfg, name, v, x, m + ("}" + b), last, members);
    assert member + [x] + (m + ("}" + b)) == member + rest;
    FailsBehind(member + [x], m, ObjectEnd, b, COMMA_EXPECTED, t, read);
    MembersMove(cfg, before, member + rest, 0, last, members);
    FailureMoves(|member| + 1 + |m| + 1, read, COMMA_EXPECTED, t, |before|);
  }

  lemma NotContinued(x: char, rest: string)
    requires !Continues(x)
    ensures Stopped([x] + rest)
  {}

  /** A printed value behind its name and colon. */
  lemma PrintedMember(print_: DoublePrinter, yaml: bool, cfg: Config, name: string, v: Value, rest: string, old_: Value)
    requires WellFormed(v) && InDomain(v) && Stopped(rest)
    ensures var head := Quoted(name) + ":";
      var member := Compact(print_, yaml, head, v);
      && |head| <= |member| && member + rest == head + (member[|head|..] + rest)
      && ReadValue(cfg, member + rest, |head|, old_) == Reading(true, |member|, v, [])
  {
    hide *;
    var head := Quoted(name) + ":";
    var member := Compact(print_, yaml, head, v);
    assert member == head + member[|head|..];
    DomainIsPrintable(v);
    RereadIdentity(cfg.scan, v);
    EndsThere(member, rest);
    CompactEmbedded(print_, yaml, cfg, head, v, member + rest, old_);
  }

  /** `"name":value,}`: refused behind every name but the empty one. */
  lemma LastComma(print_: DoublePrinter, yaml: bool, cfg: Config, name: string, v: Value, m: string, b: string,
                  last: string, members: seq<Entry>)
    requires NulFree(name) && WellFormed(v) && InDomain(v) && Junk(m)
    ensures var member := Compact(print_, yaml, Quoted(name) + ":", v) + ",";
      var at, read := |member|, Object(Put(members, Name(name), v));
      ReadMembers(cfg, member + ("}" + (m + ("}" + b))), 0, last, members)
      == if name == "" then Reading(true, at + 1, read, [])
         else Reading(false, at + 1 + |m| + 1, read, [ErrorInfo(NAME_EXPECTED, Token(ObjectEnd, at, at + 1), None)])
  {
    hide *;
    var member, brace := Compact(print_, yaml, Quoted(name) + ":", v), "}" + (m + ("}" + b));
    CommaStops(brace);
    PrintedMember(print_, yaml, cfg, name, v, "," + brace, Get(members, Name(name)));
    var after := member[|Quoted(name) + ":"|..] + ("," + brace);
    assert member + ("," + brace) == member + "," + brace;
    MemberRound(cfg, name, after, last, members, Reading(true, |member|, v, []));
    CommaToken(brace);
    TokenMoves(member, "," + brace, 0);
    CommentsMove(member, "," + brace, 0);
    MovedParts(Token(ArraySeparator, 0, 1), |member|);
    TrailingComma(cfg, member + ",", m, b, name, Put(members, Name(name), v));
  }

  lemma CommaStops(rest: string)
    ensures Stopped("," + rest)
  {}

  lemma CommaToken(rest: string)
    ensures ReadToken("," + rest, 0) == SkipComments("," + rest, 0) == Token(ArraySeparator, 0, 1)
  {
    assert SkipSpaces("," + rest, 0) == 0;
    assert ReadToken("," + rest, 0) == Token(ArraySeparator, 0, 1);
    hide ReadToken;
    SkipCommentsIs("," + rest, 0);
  }

  // ---- Arrays: the loop at `index` ----

  lemma ElementFails(cfg: Config, doc: string, index: nat, items: seq<Entry>, r: Reading)
    requires r == ReadValue(cfg, doc, 0, Get(items, Index(index))) && !r.ok
    ensures r.pos <= |doc|
    ensures ReadElements(cfg, doc, 0, index, items)
         == Reading(false, Recover(doc, r.pos, ArrayEnd), Array(Put(items, Index(index), r.value)), r.errors)
  {
    hide ReadValue, ReadElements, Recover, Put, Get;
    ElementsRound(cfg, doc, 0, index, items, r);
  }

  /** Where an element should stand: it is there with the value it had, null if it is new. */
  lemma ElementRefused(cfg: Config, before: string, x: char, m: string, b: string, index: nat, items: seq<Entry>)
    requires StartsNothing(x) && Junk(m)
    ensures ReadElements(cfg, before + ([x] + (m + ("]" + b))), |before|, index, items)
         == Reading(false, |before| + 1 + |m| + 1, Array(Put(items, Index(index), Get(items, Index(index)))),
                    [ErrorInfo(VALUE_EXPECTED, Token(Error, |before|, |before| + 1), None)])
  {
    hide *;
    var doc, old_, t := [x] + (m + ("]" + b)), Get(items, Index(index)), Token(Error, 0, 1);
    var v := Array(Put(items, Index(index), old_));
    ClosingText();
    ErrorThere(cfg, "", x, m + ("]" + b), old_);
    assert "" + doc == doc;
    ElementFails(cfg, doc, index, items, ReadValue(cfg, doc, 0, old_));
    FailsBehind([x], m, ArrayEnd, b, VALUE_EXPECTED, t, v);
    RecoversBehind(VALUE_EXPECTED, t, doc, ArrayEnd, v);
    ElementsMove(cfg, before, doc, 0, index, items);
    FailureMoves(1 + |m| + 1, v, VALUE_EXPECTED, t, |before|);
  }

  /** A comma in front of the closing bracket: the bracket is taken for a bad element, and the recovery goes on to the
      next one. */
  lemma TrailingElementComma(cfg: Config, before: string, m: string, b: string, index: nat, items: seq<Entry>)
    requires Junk(m)
    ensures ReadElements(cfg, before + ("]" + (m + ("]" + b))), |before|, index, items)
         == Reading(false, |before| + 1 + |m| + 1, Array(Put(items, Index(index), Get(items, Index(index)))),
                    [ErrorInfo(VALUE_EXPECTED, Token(ArrayEnd, |before|, |before| + 1), None)])
  {
    hide *;
    var doc, old_, t := "]" + (m + ("]" + b)), Get(items, Index(index)), Token(ArrayEnd, 0, 1);
    var v := Array(Put(items, Index(index), old_));
    ClosingText();
    ClosingToken(ArrayEnd, m + ("]" + b));
    BracketRefused(cfg, doc, t, old_);
    ElementFails(cfg, doc, index, items, ReadValue(cfg, doc, 0, old_));
    FailsBehind("]", m, ArrayEnd, b, VALUE_EXPECTED, t, v);
    RecoversBehind(VALUE_EXPECTED, t, doc, ArrayEnd, v);
    ElementsMove(cfg, before, doc, 0, index, items);
    FailureMoves(1 + |m| + 1, v, VALUE_EXPECTED, t, |before|);
  }

  lemma BracketRefused(cfg: Config, doc: string, t: Token, old_: Value)
    requires ReadToken(doc, 0) == t && t.kind == ArrayEnd
    ensures ReadValue(cfg, doc, 0, old_) == Reading(false, t.end, old_, [ErrorInfo(VALUE_EXPECTED, t, None)])
  {
    hide *;
    FirstTokenIs(cfg, doc, 0);
    ReadValueCases(cfg, doc, 0, old_);
    ScalarCases(cfg, doc, t, old_);
  }
}
