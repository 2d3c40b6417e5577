# Verification of the box application's message text, semaphore and storage code

A Dafny model of the parts of the box application (`box_app/src`) in which most of its logic sits, with proofs.
`dafny verify dfyconfig.toml` checks everything.

**JSON text.** Every message the box sends or receives is a `Json::Value` turned into text by `FastWriter` or
`StyledWriter` and back by `Reader`.

- `JsonValue` holds the value type: an array or an object is a `std::map`, kept as the sequence of its entries in map
  order. `ValueOrder` proves `operator<` a strict total order with `operator==` as its equivalence, and which of two
  values comes first. `ArrayOps` relates the sparse arrays to plain padded sequences.
- `Tokens`, `Strings`, `Numbers` and `Parser` say as functions on a document and a cursor what the tokenizer, the
  decoders and the parser compute; every one of them is total. `Reader` is the class with `current_`, `nodes_` and
  `errors_`, whose methods are proved against these functions. The node stack holds paths into the root value in place
  of addresses (`Nodes`).
- `FastWriter` and `StyledWriter` are the classes with `document_`, `indentString_`, `childValues_` and
  `addChildValues_`. `Layout` gives the token sequence of a value and says when a text is a layout of a token sequence;
  `CompactLayout` and `StyledLayout` prove that each writer produces one; `ReadBack` proves that the parser reads the
  value out of any such layout, at any place in any document. `RoundTrip` joins the three, in both directions: the
  text parses back to the value exactly when the value is in a stated domain. `ParsedValues` shows that whatever was
  parsed, malformed text included, is in that domain if it holds no reals, so it survives being printed and parsed.
  `Separators` proves what the parser takes for a separator between two elements or members.
- `Translation` proves that text in front of the cursor does not matter, on any document. With it `Leading` states what
  white space and comments in front of a document do, `NumberTokens` what any number token is read as, and `Refused`
  which texts are an error and which; `Recovery` says what is left of a malformed object or array. `Escapes` has what is
  written for every character and read for every escape sequence. `Shape` states both printed forms character by
  character, without a document to append to.

**Semaphores.** `SemKernel` models the kernel calls on a three-member System V set after `semop()` and `semctl()` in the
System Interfaces volume of POSIX.1-2017, `SEM_UNDO` included. `Semaphore` is the machine of `semaph.cpp`: any number of
processes, one kernel call a step, death possible before every call. `SemSafety` proves its invariant, `SemOrderly` what is kept
while only holders close, `SemTheorems` the properties over all runs. `SemValue` is about the value member: what one
`sem_op` does to it and what is conserved, and `SemAmounts` about what the calls of a run add up to.

**Storage.** `BatchAllocator` is the page allocator with its free list, `InternalMap` the paged bucket behind
`JSON_VALUE_USE_INTERNAL_MAP`.

**Application.** `Gprs` is the reassembly of a message from the chunks of a serial line, and `Delivery` what it delivers
in terms of the text on the line. `Hodgepodge` is the door-closed message and the classification of messages (code 4 is
what the message thread tests for at box_app/src/app_process/msg_process.cpp:122), and `Classification` what that answers
for every text.

## Conventions

- A C++ `char` is a Dafny `char` and a byte string a `string`; the statements hold for all characters, the 256 byte
  values among them. A C string is the text before the first NUL.
- `sscanf` and `sprintf` on doubles are parameters (`DoubleScanner`, `DoublePrinter`), and so is what the serial line
  delivers.
- The proofs about whole runs of the semaphore machine take fewer than `BIGCOUNT` opens outstanding and kernel calls
  that succeed on an existing set.

## Where the code differs from what its comments or messages suggest

The model follows the code.

- The separator test of `readArray` compares one token with two kinds at once and is never true
  (box_app/src/json/json_reader.cpp:566-567), so any token but `]` separates elements
  (`Separators.AnyTokenSeparates`; `[1 2 3]` is the array of 1 and 3) and the error behind it is never reported
  (`Separators.SeparatorNeverMissed`).
- In an object, after a comment behind a value any token separates members
  (box_app/src/json/json_reader.cpp:517-531; `Separators.AnyTokenSeparatesMembers`, and `{"a":1/**/2"b":3}` as an
  input). Text behind the root value is ignored (`Refused.StrictRootExactly`).
- The test for an empty object asks whether the name read last is empty (box_app/src/json/json_reader.cpp:492), so a
  comma in front of the closing brace is accepted behind a member with the empty name, and only there
  (`Recovery.LastComma`).
- `decodeDouble` writes the terminator of a token of exactly 32 characters behind its 32-byte buffer
  (box_app/src/json/json_reader.cpp:625-630; `Numbers.BufferDouble`).
- `strictRoot_` accepts a null root, because `isArray` and `isObject` hold of null
  (box_app/src/json/json_value.cpp:1312-1323).
- The comment of `sem_open` says that it needs no lock (box_app/src/misc/semaph.cpp:188-191).
  `SemTheorems.UnsafeWithOpen` is a run in which that makes `sem_close` remove a set in use, and
  `SemTheorems.UnsafeWithUnheldClose` one in which a close without an open does.
  `SemTheorems.SafeRemovalExactly` is the exact condition, over every run: the counter still is what the guard of the
  removing branch read, closes without an open discounted. `SemTheorems.SafeRemoval` shows that it is met in every run
  without these two.
- The dump in `sem_close` is for a counter above its limit (box_app/src/misc/semaph.cpp:246-247). It is reached exactly
  when closes without an open outnumber the opens; when they are equal in number the set is removed instead
  (`SemTheorems.CounterRead`). `err_sys` returns to its caller (box_app/src/misc/error.cpp:35-43).
- A shrinking `resize` meets its own assertion only when the index before the new size was present;
  `ArrayOps.ShrinkAssertion` is the exact condition and `ArrayOps.ShrinkMissesSize` an input that fails it.
- The full-page test of `BatchAllocator` is an equality, so the allocator stays inside the memory of its pages exactly
  when the page size is a multiple of the block size; otherwise the bump pointer steps over the end of the page and runs
  on (`BatchAllocator.BatchAllocator.LiveBlocksSafe` and `BatchAllocator.OverrunningRun`).
- `rec_tcp_data` copies what it receives into 512 bytes while it reads up to fifteen chunks of up to 99
  (box_app/src/gprs/gprs.cpp:776, 877-889). `Gprs.CollectJoins` is the exact condition for leaving the buffer,
  `Gprs.LongMessageOverruns` an input; `Delivery.DeliveredExactly` states both outcomes.
- The count that `rec_tcp_data` passes to `substr` is unsigned, so a closing brace well before the opening one selects
  everything from the opening one on (box_app/src/gprs/gprs.cpp:907-908; `Delivery.Reversed`).
- `sem_op` with zero reports that zero is not allowed and then makes the call all the same, because `err_sys` returns
  (box_app/src/misc/semaph.cpp:286-290): it waits for the value to be zero (`SemValue.OperateExactly`).
- A high surrogate is combined with whatever four digits follow, and a low one alone is decoded
  (box_app/src/json/json_reader.cpp:712-722; `Escapes.PairDecodes`, `Escapes.FourDigitsDecode`).

## Model

| member | source | states |
|---|---|---|
| RoundTrip.PrintThenParse | box_app/src/json/json_writer.cpp:197-263 | Compact round trip: for every value of the domain (null, booleans, NUL-free strings, ints from -2147483639, uints up to 4294967289, dense arrays, objects) parsing the text of either printer succeeds without an error and gives back the value with the same types, whatever the target held before |
| RoundTrip.RoundTripExactly | box_app/src/json/json_writer.cpp:276-287 | The domain is exact: among the values whose numbers can be read, the text of either printer parses back to the value if and only if the value is in the domain; sparse arrays and small uints are the ones that come back changed |
| RoundTrip.CompactEmbedded | box_app/src/json/json_writer.cpp:207-263 | A compact text inside any document is read up to its last character and no further, whatever follows, provided a number is not followed by a number character |
| RoundTrip.StyledEmbedded | box_app/src/json/json_writer.cpp:290-401 | The same for the styled text at the outer indentation |
| RoundTrip.SameTokens | box_app/src/json/json_writer.cpp:276-480 | Layout does not change meaning: the styled and the compact text of a value without reals are cut by the tokenizer into the same token sequence, kinds and spellings |
| RoundTrip.SparseArrayReadBack | box_app/src/json/json_writer.cpp:227-240 | Write then parse of any sparse array, with either printer, gives without an error a dense array of the same size; at every index it holds what the element is read back as, the element itself if that is in the domain, and null for a gap |
| RoundTrip.RereadIdentity | box_app/src/json/json_reader.cpp:581-616 | What a value becomes on the way through text is the value itself exactly on the domain |
| RoundTrip.LayoutTokenizes | box_app/src/json/json_reader.cpp:273-345 | A text laid out from valid lexemes is cut by the tokenizer into exactly those lexemes |
| ReadBack.ReadsBack | box_app/src/json/json_reader.cpp:194-242 | The parser on any text whose tokens spell a value, at any position of any document and into any previous value, stops right behind it with that value and no error |
| ReadBack.ArrayReadsBack | box_app/src/json/json_reader.cpp:538-578 | The array case: every element lands at its own index and the cursor ends behind the bracket |
| ReadBack.MembersReadBack | box_app/src/json/json_reader.cpp:479-535 | The object case: members arrive in map order under their decoded names and the cursor ends behind the brace |
| ReadBack.ScalarReadsBack | box_app/src/json/json_reader.cpp:201-233 | The leaf case for literals, numbers and strings |
| Layout.LexemeReads | box_app/src/json/json_reader.cpp:273-345 | readToken on a laid-out lexeme returns its kind and its exact extent, for every kind of token a value without reals is printed as |
| CompactLayout.CompactLays | box_app/src/json/json_writer.cpp:207-263 | FastWriter output, inside any longer text, is a layout of the value's token sequence |
| StyledLayout.StyledLays | box_app/src/json/json_writer.cpp:290-401 | StyledWriter output at any indentation, inside any longer text, is a layout of the same token sequence |
| ParsedValues.ReadValueIsClean | box_app/src/json/json_reader.cpp:194-242 | Whatever the text, also a malformed one, readValue leaves a canonical value: arrays dense, members sorted under NUL-free names, ints and uints in ranges that do not overlap |
| ParsedValues.ParsedValueSurvives | box_app/src/json/json_reader.cpp:150-191 | The other direction of the round trip: the value of any parsed document without reals, printed by either printer, parses again without an error to the same value |
| Tokens.ReadToken | box_app/src/json/json_reader.cpp:273-345 | Every token other than end of stream advances the cursor; end of stream is returned exactly at a NUL or the end; string tokens keep both quotes; number tokens hold number characters only. What it skips and which characters start what is in `Leading.SpacesSkipped`, `Leading.TokenBehindSpaces`, `NumberTokens.NumberTokenExtent`, `Layout.LexemeReads` and `Refused.ErrorToken` |
| Translation.ValueMoves | box_app/src/json/json_reader.cpp:194-242 | Text in front of the cursor does not matter: on every document, malformed ones among them, readValue behind any text gives the same value and the same errors, every position moved by the length of that text |
| Translation.TokenMoves | box_app/src/json/json_reader.cpp:273-345 | The same for the tokenizer, for every token and every text |
| Translation.CharsMove | box_app/src/json/json_reader.cpp:658-701 | The same for the decoding of strings with their escapes |
| Leading.SpacesSkipped | box_app/src/json/json_reader.cpp:348-359 | Space, tab, carriage return and line feed are skipped, in any number and order, and no other character is |
| Leading.TokenBehindSpaces | box_app/src/json/json_reader.cpp:273-345 | The first token behind white space is that of the text without it, moved |
| Leading.ParseBehindSpaces | box_app/src/json/json_reader.cpp:150-191 | White space in front of any document changes neither result, value nor error messages, only positions |
| Leading.LineBreakBefore | box_app/src/json/json_reader.cpp:348-359 | The input carriage return, line feed, `1` is the number 1 |
| Leading.CommentIsToken | box_app/src/json/json_reader.cpp:377-449 | A line comment ends behind the first line feed or carriage return, a block comment behind the first closing mark |
| Leading.ParseBehindComment | box_app/src/json/json_reader.cpp:246-260 | With comments allowed, a comment of either kind in front of any document changes only positions |
| Leading.CommentRefused | box_app/src/json/json_reader.cpp:246-260 | Without, it is a syntax error at the comment |
| NumberTokens.NumberTokenExtent | box_app/src/json/json_reader.cpp:452-460 | A number token goes on as long as digits, point, exponent and sign characters do, at any place of any document |
| NumberTokens.FractionalReads | box_app/src/json/json_reader.cpp:584-591 | A number token with a point, an exponent, a plus or an inner minus is read as the real that the scanner makes of exactly its characters, or refused with the one message quoting them |
| NumberTokens.IntegerReads | box_app/src/json/json_reader.cpp:592-616 | Every other number token is read as the integer of its digits, as an int or a uint by size, or handed to the scanner when a proper prefix reaches 214748364 or 429496729 |
| NumberTokens.DecimalNotation | box_app/src/json/json_writer.cpp:30-40 | Digits are decimal in both directions |
| Refused.ErrorToken | box_app/src/json/json_reader.cpp:273-345 | A character that starts no token and a broken literal are an error of one character, a slash without a comment one of two, an unfinished string or block comment one that takes the rest |
| Refused.ErrorRefused | box_app/src/json/json_reader.cpp:231-233 | Where a value is expected such a text gives one error on exactly those characters and keeps the current value |
| Refused.PunctuationRefused | box_app/src/json/json_reader.cpp:231-233 | So do a closing brace or bracket, a comma, a colon, a NUL and the end of the text |
| Recovery.NameRefused | box_app/src/json/json_reader.cpp:492-535 | At any place of the member loop: text at which no name can start is one error on its first character, the members read so far stay, and reading goes on behind the next closing brace |
| Recovery.ColonRefused | box_app/src/json/json_reader.cpp:501-507 | Without a colon behind the name the member is not added |
| Recovery.ValueRefused | box_app/src/json/json_reader.cpp:508-513 | Without a value behind the colon the member is there, null if it is new and else with the value it had |
| Recovery.CommaRefused | box_app/src/json/json_reader.cpp:515-524 | Without a comma or a closing brace behind a printed value the member is there with that value |
| Recovery.LastComma | box_app/src/json/json_reader.cpp:492-493 | A comma in front of the closing brace is an error whose recovery runs on to the next brace, except behind a member with the empty name, where it ends the object |
| Recovery.TrailingComma | box_app/src/json/json_reader.cpp:492-535 | The same at any place of any document |
| Recovery.ElementRefused | box_app/src/json/json_reader.cpp:551-558 | At any place of the element loop: text at which no value can start is one error, the element is there with the value it had, null if it is new, and reading goes on behind the next closing bracket |
| Recovery.TrailingElementComma | box_app/src/json/json_reader.cpp:551-558 | A comma in front of the closing bracket: the bracket is the error, and the recovery runs on to the next one |
| Recovery.JunkRecovers | box_app/src/json/json_reader.cpp:773-787 | Recovery drops white space and text that starts no token and ends right behind the bracket |
| Recovery.Messages | box_app/src/json/json_reader.cpp:504-535 | The three reports of the member loop |
| Refused.StrictRootExactly | box_app/src/json/json_reader.cpp:172-190 | A printed value with any text behind it that does not continue a number is read as that value; under strictRoot_ it is accepted exactly when it is null, an array or an object, and otherwise refused with one error that covers the whole document |
| Parser.ReadValue | box_app/src/json/json_reader.cpp:194-242 | The parser is total: for every byte string, position and feature setting it ends with the cursor between the position and the end of the document; success means no error and progress, failure exactly one error |
| Parser.ReadMembers | box_app/src/json/json_reader.cpp:479-535 | The same for the member loop with recovery to the closing brace |
| Parser.ReadArray | box_app/src/json/json_reader.cpp:538-578 | The same for arrays |
| Parser.ReadElements | box_app/src/json/json_reader.cpp:547-577 | The same for the element loop, with its separator test and report as written and recovery to the closing bracket |
| Parser.ResultMatchesErrors | box_app/src/json/json_reader.cpp:150-191 | parse returns true exactly when the error list is empty; a failed parse records exactly one error however deep the failure, unless strictRoot_ adds a second one for a root that is no container |
| Separators.AnyTokenSeparates | box_app/src/json/json_reader.cpp:538-578 | Any number of elements separated by any single tokens but closing brackets, other values and braces among them, are read without an error as the array of the elements; the separating tokens are dropped |
| Separators.SeparatorNeverMissed | box_app/src/json/json_reader.cpp:566-573 | The report of a missing array separator is dead code: for no document, feature setting or previous root is it among the errors of the parser, which makes the test and the report as the source does |
| Separators.NumberSeparates | box_app/src/json/json_reader.cpp:538-578 | The input `[1 2 3]` is read as the array of 1 and 3 |
| Separators.AnyTokenSeparatesMembers | box_app/src/json/json_reader.cpp:485-531 | Any number of members separated by commas, or by comments each with any one token but a closing brace behind it, are read without an error; the separating tokens are dropped |
| Separators.NumberSeparatesMembers | box_app/src/json/json_reader.cpp:517-531 | The input `{"a":1/**/2"b":3}` is read as the object with `a` 1 and `b` 3 |
| Tokens.SkipComments | box_app/src/json/json_reader.cpp:245-260 | Skipping comments ends, never moves back and never returns a comment |
| Tokens.StringEnd | box_app/src/json/json_reader.cpp:463-476 | A string scan stays inside the document and succeeds only behind a quote |
| Tokens.Recover | box_app/src/json/json_reader.cpp:773-787 | Error recovery ends inside the document and never moves back |
| Tokens.RecoverStops | box_app/src/json/json_reader.cpp:773-787 | Recovery drops some number of tokens and stops behind the first one of the wanted type or the end of the stream |
| Tokens.CStyleCommentExtent | box_app/src/json/json_reader.cpp:425-435 | A block comment ends behind the first closing mark, or fails and takes the rest of the document |
| Tokens.CppStyleCommentExtent | box_app/src/json/json_reader.cpp:438-448 | A line comment ends behind the first line break or with the document |
| Tokens.PlainStringExtent | box_app/src/json/json_reader.cpp:463-476 | A string without backslashes ends behind the first quote, or fails and takes the rest of the document |
| Reader.Reader.ReadToken | box_app/src/json/json_reader.cpp:273-345 | readToken returns the specified token and the cursor stands at its end; the white space it skips is pinned by `Leading.SpacesSkipped` |
| Reader.Reader.DecodeUnicodeEscapeSequence | box_app/src/json/json_reader.cpp:733-756 | The loop over four hexadecimal digits computes the specified code or error; digits and errors are pinned by `Strings.HexValueIsPlace` and `Escapes.BadDigitsRefused` |
| Reader.Reader.Parse | box_app/src/json/json_reader.cpp:150-191 | parse computes the result, the value, the error list and the final cursor of the parsing function, and leaves only the root on the node stack |
| Reader.Reader.ReadValue | box_app/src/json/json_reader.cpp:194-242 | readValue leaves `nodes_` as it was on every path, appends the errors of the parsing function, and changes only the subtree at the top of the stack, to the value of the parsing function |
| Reader.Reader.ReadObject | box_app/src/json/json_reader.cpp:479-535 | The same for readObject with its loop over members |
| Reader.Reader.ReadArray | box_app/src/json/json_reader.cpp:538-578 | The same for readArray with its loop over elements |
| Reader.Reader.ReadChild | box_app/src/json/json_reader.cpp:513-516 | Pushing the address of a member or an element, reading into it and popping changes that entry of the container and nothing else |
| Reader.Reader.ReadMemberName | box_app/src/json/json_reader.cpp:487-511 | The name and the colon of a member, or the error and the recovery of the parsing function |
| Reader.Reader.ReadMember | box_app/src/json/json_reader.cpp:508-531 | A round of the member loop behind the colon: the member lands under its name, and the loop ends or goes on as the parsing function does |
| Reader.Reader.ReadMemberValue | box_app/src/json/json_reader.cpp:512-531 | The value of a member and the token behind it, with the three ways out |
| Reader.Reader.ReadElement | box_app/src/json/json_reader.cpp:552-558 | A round of the element loop: the element lands at its index and nothing else changes |
| Reader.Reader.ReadScalar | box_app/src/json/json_reader.cpp:201-233 | The leaf cases of readValue assign the decoded value to the current node or record one error and leave it |
| Reader.Reader.SkipCommentTokens | box_app/src/json/json_reader.cpp:245-260 | Comments are skipped only when the features allow them |
| Reader.Reader.ReadString | box_app/src/json/json_reader.cpp:463-476 | The scan loop of a string |
| Reader.Reader.ReadNumber | box_app/src/json/json_reader.cpp:451-461 | The scan loop of a number |
| Reader.Reader.ReadCStyleComment | box_app/src/json/json_reader.cpp:425-435 | The scan loop of a block comment |
| Reader.Reader.MatchPattern | box_app/src/json/json_reader.cpp:362-374 | The backwards comparison loop matches exactly the pattern and moves only on a match |
| Reader.Reader.GetNextChar | box_app/src/json/json_reader.cpp:807-813 | A read at the end is the 0 sentinel and does not move the cursor |
| Reader.Reader.RecoverFromError | box_app/src/json/json_reader.cpp:773-787 | The recovery loop: errors raised while skipping are dropped, the cursor ends behind the wanted token |
| Reader.Reader.AddErrorAndRecover | box_app/src/json/json_reader.cpp:790-797 | Exactly one error is appended before recovering |
| Reader.Reader.DecodeNumber | box_app/src/json/json_reader.cpp:581-616 | The decoded number is assigned to the current node, or one error is recorded |
| Reader.Reader.SpotDouble | box_app/src/json/json_reader.cpp:584-592 | The pass that finds a decimal point, an exponent or an inner sign |
| Reader.Reader.AccumulateDigits | box_app/src/json/json_reader.cpp:599-608 | The guarded accumulation loop on a 32-bit word |
| Reader.Reader.DecodeString | box_app/src/json/json_reader.cpp:646-655 | The decoded string is assigned to the current node, or one error is recorded |
| Reader.Reader.DecodeStringToken | box_app/src/json/json_reader.cpp:657-701 | The unescape loop |
| Reader.Reader.DecodeEscape | box_app/src/json/json_reader.cpp:669-694 | One escape sequence |
| Reader.Reader.DecodeUnicodeCodePoint | box_app/src/json/json_reader.cpp:703-731 | Surrogate pairs and their errors |
| Nodes.Assign | box_app/src/json/json_reader.cpp:800-804 | An assignment through a node pointer is read back there and overwritten by the next one |
| Nodes.Child | box_app/src/json/json_reader.cpp:513-516 | Assigning to a child through its own pointer is assigning its container with that entry replaced |
| Nodes.ResolveChild | box_app/src/json/json_value.cpp:1021-1042 | operator[] creates the entry the pushed pointer refers to; the previous value of the entry stays |
| Strings.UnicodeEscapeDecodes | box_app/src/json/json_reader.cpp:703-756 | Every Unicode scalar value written as `\uXXXX` or as a surrogate pair (section 7 of RFC 8259, each digit by its place in `0123456789abcdef` or `0123456789ABCDEF`) decodes to its UTF-8 bytes |
| Strings.HexValueIsPlace | box_app/src/json/json_reader.cpp:744-753 | A digit of either case stands for its place in the alphabet, and every other character for nothing |
| Escapes.LetterDecodes | box_app/src/json/json_reader.cpp:673-682 | The eight one-letter escapes, the escaped slash among them |
| Escapes.OtherLetterRefused | box_app/src/json/json_reader.cpp:671-692 | Any other letter but `u`, or the end of the string behind a backslash, is an error behind which nothing is decoded |
| Escapes.FourDigitsDecode | box_app/src/json/json_reader.cpp:710-731 | Four digits that are no high surrogate stand for themselves, an unpaired low surrogate too |
| Escapes.PairDecodes | box_app/src/json/json_reader.cpp:710-722 | A high surrogate takes the ten low bits of the sequence behind it, whatever that is |
| Escapes.LoneHighRefused | box_app/src/json/json_reader.cpp:714-728 | A high surrogate with less than six characters or with no second sequence behind it is an error, at the stated place |
| Escapes.BadDigitsRefused | box_app/src/json/json_reader.cpp:739-753 | Fewer than four characters, and the first one that is no digit, are an error at the stated place |
| Escapes.EscapeTable | box_app/src/json/json_writer.cpp:111-172 | What is written for every character: one letter for seven of them, `\u00` and two upper-case digits for the other control characters, itself for everything else |
| Strings.QuotedRoundTrip | box_app/src/json/json_reader.cpp:657-701 | Escaping round trip: for every NUL-free string at any position of any document the token stops exactly at the closing quote and decoding returns the string |
| Strings.QuotedToken | box_app/src/json/json_reader.cpp:463-476 | The first half of it for every string |
| Strings.ValueToQuotedString | box_app/src/json/json_writer.cpp:111-172 | Fast path and escaping loop give the same quoted text |
| Strings.EscapePlain | box_app/src/json/json_writer.cpp:113-115 | The no-escape fast path is what the escaping loop would have produced |
| Strings.ContainsControlCharacter | box_app/src/json/json_writer.cpp:21-29 | The scan loop finds a control character exactly when there is one |
| Strings.EscapeDecodes | box_app/src/json/json_reader.cpp:657-701 | Decoding the escaped bytes appends the original bytes |
| Strings.SurrogateArithmetic | box_app/src/json/json_reader.cpp:710-727 | The two halves of a surrogate pair recombine to the code point |
| Strings.Utf8RoundTrip | box_app/src/json/json_reader.cpp:69-103 | A UTF-8 decoder written after section 3 of RFC 3629 inverts codePointToUTF8 in front of any bytes |
| Strings.Utf8Shortest | box_app/src/json/json_reader.cpp:69-103 | Whatever that decoder accepts is what codePointToUTF8 produces for the decoded scalar value |
| Strings.CodePointToUtf8 | box_app/src/json/json_reader.cpp:69-103 | The result is empty exactly above 0x10FFFF and otherwise made of bytes |
| Strings.DecodeCodePoint | box_app/src/json/json_reader.cpp:703-731 | Every accepted code point is at most 0x10FFFF and the cursor advances inside the token |
| Numbers.AccumulateExact | box_app/src/json/json_reader.cpp:600-607 | On digits the accumulator gives up exactly when some proper digit prefix reaches the threshold and otherwise holds the exact decimal value |
| Numbers.AccumulateStep | box_app/src/json/json_reader.cpp:600-607 | The next value of the accumulator always fits in 32 bits |
| Numbers.DecodeInteger | box_app/src/json/json_reader.cpp:581-616 | On an integer token: diversion to double exactly at that point, otherwise an Int or UInt of the exact value and sign |
| Numbers.IntReadBack | box_app/src/json/json_reader.cpp:581-616 | A printed int is read back as itself from -2147483639 on and diverted to double below |
| Numbers.UIntReadBack | box_app/src/json/json_reader.cpp:581-616 | A printed uint is read back as Int up to maxInt, as itself up to 4294967289, and diverted to double above |
| Numbers.UintToString | box_app/src/json/json_writer.cpp:30-40 | The backwards digit loop writes the decimal digits and a NUL, stays within eleven bytes and leaves the rest of the buffer |
| Numbers.IntToString | box_app/src/json/json_writer.cpp:42-55 | valueToString(Int) is the decimal text, within its 32-byte buffer |
| Numbers.UIntToString | box_app/src/json/json_writer.cpp:57-64 | valueToString(UInt) likewise |
| Numbers.DigitsLength | box_app/src/json/json_writer.cpp:30-40 | A number below ten to the k has at most k digits |
| Numbers.BufferDouble | box_app/src/json/json_reader.cpp:625-632 | The terminator that decodeDouble writes behind a token falls inside its 32-byte buffer exactly if the token does not have 32 characters |
| Numbers.PrintedIntegersAreShort | box_app/src/json/json_writer.cpp:42-64 | No integer the writers print has more than eleven |
| Shape.PrintedShape | box_app/src/json/json_writer.cpp:197-480 | The compact text is its own tokens one behind the other (for YAML with one blank behind each colon), so it holds no other white space; the styled text is, character by character, the independently written `Pretty`: one element or member a line, three blanks for every level, ` : ` between name and value, arrays on one line as `Shape.FitsExactly` says |
| Shape.FitsExactly | box_app/src/json/json_writer.cpp:404-432 | An array is written on one line exactly when it has at most 24 elements, none with contents, and that line is shorter than 74 characters |
| Shape.StyledIsPretty | box_app/src/json/json_writer.cpp:290-401 | The styled text of a value at any place where a line is begun, at any indentation |
| Shape.CompactIsTokens | box_app/src/json/json_writer.cpp:207-263 | The compact text of a value behind any document |
| FastWriter.FastWriter.Write | box_app/src/json/json_writer.cpp:197-204 | The document is the compact text of the root and a line break |
| FastWriter.FastWriter.WriteValue | box_app/src/json/json_writer.cpp:207-263 | writeValue appends the compact text of the value to what is there |
| FastWriter.FastWriter.WriteArray | box_app/src/json/json_writer.cpp:229-240 | The element loop appends the compact text of the array, gaps as null |
| FastWriter.FastWriter.WriteObject | box_app/src/json/json_writer.cpp:241-261 | The member loop appends the compact text of the object |
| StyledWriter.StyledWriter.Write | box_app/src/json/json_writer.cpp:276-287 | The document is the styled text of the root and a line break, whatever the writer was used for before |
| StyledWriter.StyledWriter.WriteValue | box_app/src/json/json_writer.cpp:290-348 | writeValue appends the styled text, or one child text while children are collected; `indentString_` and `addChildValues_` are restored |
| StyledWriter.StyledWriter.WriteArrayValue | box_app/src/json/json_writer.cpp:351-401 | Arrays in either layout; both modes are restored |
| StyledWriter.StyledWriter.WriteMultiline | box_app/src/json/json_writer.cpp:357-386 | The multi-line layout; child indexing stays in range |
| StyledWriter.StyledWriter.WriteInline | box_app/src/json/json_writer.cpp:387-399 | The one-line layout; `childValues_.size() == size` holds at the assert |
| StyledWriter.StyledWriter.IsMultineArray | box_app/src/json/json_writer.cpp:404-432 | The layout decision, with one child text per element collected exactly when no element has contents |
| StyledWriter.StyledWriter.HasNestedChild | box_app/src/json/json_writer.cpp:407-416 | The first loop: too many elements, or one with contents |
| StyledWriter.StyledWriter.CollectChildValues | box_app/src/json/json_writer.cpp:419-429 | The second loop: one text per element and their total length, with the document untouched |
| StyledWriter.StyledWriter.PushValue | box_app/src/json/json_writer.cpp:435-442 | A text goes to the children or to the document, never to both |
| StyledWriter.StyledWriter.WriteIndent | box_app/src/json/json_writer.cpp:445-457 | A new line and the indentation, unless the document is at an indented start already |
| StyledWriter.StyledWriter.Indent | box_app/src/json/json_writer.cpp:468-473 | One indentation step is added |
| StyledWriter.StyledWriter.Unindent | box_app/src/json/json_writer.cpp:475-480 | Undoes one indent() |
| ValueOrder.TypesInOrder | box_app/src/json/json_value.cpp:567-569 | Types come in the order null, int, uint, real, string, boolean, array, object |
| ValueOrder.ScalarsInOrder | box_app/src/json/json_value.cpp:574-581 | Numbers by value, false before true |
| ValueOrder.FirstCharacterDecides | box_app/src/json/json_value.cpp:582-585 | Strings by the first character in which they differ, or by the end of the shorter one |
| ValueOrder.FewerComeFirst | box_app/src/json/json_value.cpp:590-592 | Of two arrays or objects the one with fewer entries comes first |
| ValueOrder.FirstElementDecides | box_app/src/json/json_value.cpp:590-593 | With as many entries, arrays by the first entry in which they differ: its index, then its value |
| ValueOrder.FirstMemberDecides | box_app/src/json/json_value.cpp:590-593 | Objects likewise: the name, then the value |
| ValueOrder.EqualIsIdentity | box_app/src/json/json_value.cpp:626-668 | operator== on values without comments is equality of type and contents, at any nesting |
| ValueOrder.Trichotomy | box_app/src/json/json_value.cpp:564-606 | operator< is asymmetric and its equivalence is operator== |
| ValueOrder.Transitive | box_app/src/json/json_value.cpp:564-606 | operator< is transitive at any nesting |
| ValueOrder.LexTransitive | box_app/src/json/json_value.cpp:590-600 | The size-then-lexicographic order on maps is transitive |
| JsonValue.StrLessTotal | box_app/src/json/json_value.cpp:217-222 | The order of names is total |
| JsonValue.KeyLessTransitive | box_app/src/json/json_value.cpp:217-222 | The order of map keys is transitive |
| JsonValue.GetPut | box_app/src/json/json_value.cpp:974-1011 | A map write is read back at its key and seen at no other |
| JsonValue.SizeBound | box_app/src/json/json_value.cpp:871-905 | The size of an array is one more than its highest index |
| ArrayOps.Refines | box_app/src/json/json_value.cpp:950-1011 | Every indexed write, append and resize acts on the padded sequence (gaps read as null) as it would on a plain sequence if and only if it is not a shrinking resize to a size whose last index is absent |
| ArrayOps.RunRefines | box_app/src/json/json_value.cpp:950-1011 | After every run of such operations the array reads as the padded sequence |
| ArrayOps.RunRefinesExactly | box_app/src/json/json_value.cpp:950-1011 | Array and padded sequence agree throughout a run if and only if every operation in it is a proper one where it happens |
| ArrayOps.ShrinkAssertion | box_app/src/json/json_value.cpp:950-971 | A shrinking resize(n), n > 0, meets its `size() == n` assertion exactly when index n-1 was present |
| ArrayOps.ShrinkMissesSize | box_app/src/json/json_value.cpp:964-966 | An input that misses it: a write at index 2, then resize(1), leaves size 0 |
| ArrayOps.ShrinkKeeps | box_app/src/json/json_value.cpp:950-971 | A shrinking resize keeps every surviving element |
| ArrayOps.PutSize | box_app/src/json/json_value.cpp:871-905 | A write at an index makes the size the larger of the old size and the index plus one |
| ArrayOps.ValueCell.ElementAt | box_app/src/json/json_value.cpp:974-990 | operator[] turns null into an array, inserts a null at a missing index and returns the element |
| ArrayOps.ValueCell.StoreAt | box_app/src/json/json_value.cpp:974-990 | An assignment through operator[] |
| ArrayOps.ValueCell.AppendValue | box_app/src/json/json_value.cpp:1117-1121 | append writes at size() |
| ArrayOps.ValueCell.ResizeTo | box_app/src/json/json_value.cpp:950-971 | The erase loop of resize removes exactly the indices from the new size on, and the assert tells whether the size was met |
| ArrayOps.ValueCell.StoreMember | box_app/src/json/json_value.cpp:1021-1042 | An assignment through operator[] with a name |
| SemValue.OperateExactly | box_app/src/misc/semaph.cpp:283-291 | One call of sem_op with an amount other than zero goes through exactly when member 0 plus the amount is not negative, and then raises member 0 and lowers the caller's adjustment on it by the amount and changes nothing else; with zero it goes through exactly at value 0 and changes nothing |
| SemValue.WaitAndSignal | box_app/src/misc/semaph.cpp:261-276 | sem_wait waits exactly at value 0, sem_signal never |
| SemValue.OnlyOperations | box_app/src/misc/semaph.cpp:89-291 | No other step than a call of sem_op, an initialisation or the end of a process changes member 0 or an adjustment on it |
| SemAmounts.ValueIsSumOfAmounts | box_app/src/misc/semaph.cpp:283-291 | Over every run from the SETVAL of sem_create in which no process ends and the set is not initialised again, member 0 is the initial value plus the amounts of all calls |
| SemAmounts.ValueIsOwnAmounts | box_app/src/misc/semaph.cpp:77-81 | With deaths: member 0 is the initial value plus what each process has added since its last end, plus what ends had clamped at zero |
| SemTheorems.CounterConservation | box_app/src/misc/semaph.cpp:49-75 | In every reachable state with fewer than BIGCOUNT opens outstanding, an initialised live set has member 1 plus the outstanding opens equal to BIGCOUNT plus the closes made without an open, and the undo adjustment of every process on member 1 is its own opens less its own such closes |
| SemTheorems.HeldConservation | box_app/src/misc/semaph.cpp:49-75 | In every run in which only holders close: member 1 plus the outstanding opens is BIGCOUNT, and every undo adjustment is the number of opens of its process |
| SemTheorems.LockSafety | box_app/src/misc/semaph.cpp:124-163 | Member 2 is 1 exactly when a live process is inside a lock section, and at most one is |
| SemTheorems.CrashFreesLock | box_app/src/misc/semaph.cpp:124-163 | The death of a process inside a lock section, at any instruction of it, frees the lock, undoes exactly its own opens and closes on the counter and keeps the set |
| SemTheorems.SingleInitialisation | box_app/src/misc/semaph.cpp:135-153 | A set is initialised at most once, and no SETVAL comes after a sem_create or sem_open on it has returned |
| SemTheorems.NeverDumps | box_app/src/misc/semaph.cpp:243-247 | In every run in which only processes that hold an open call sem_close, it never sees a counter above BIGCOUNT |
| SemTheorems.CounterRead | box_app/src/misc/semaph.cpp:243-252 | What sem_close reads, in every run: BIGCOUNT plus the closes without an open less the opens; so it dumps exactly when the former outnumber the opens, and removes the set exactly when they are equal in number |
| SemTheorems.UnheldClose | box_app/src/misc/semaph.cpp:232-252 | The step of a sem_close by a process that holds no open, in every reachable state with a free lock: it leaves the counter one higher and an adjustment one lower; the first one on a set makes the counter exceed BIGCOUNT (the dump) exactly when nobody holds an open, and equal it (the removal) exactly when one open is outstanding |
| SemTheorems.UnsafeWithUnheldClose | box_app/src/misc/semaph.cpp:222-253 | A run in which such a close removes a set that another process has open |
| SemTheorems.HolderNeverWaits | box_app/src/misc/semaph.cpp:135-159 | A process inside a lock section is never blocked: its next call goes through in every reachable state |
| SemTheorems.SafeRemovalExactly | box_app/src/misc/semaph.cpp:243-249 | In every run, sem_open, sem_rm and closes without an open included: the set that sem_close is about to remove is open in no process if and only if its counter, less what closes without an open added, is BIGCOUNT; where there are none, that is the guard of the branch read again |
| SemTheorems.SafeRemoval | box_app/src/misc/semaph.cpp:223-253 | In every run without sem_open in which only holders close, that condition is met: a set that sem_close removes is open in no process |
| SemTheorems.UnsafeWithOpen | box_app/src/misc/semaph.cpp:174-197 | With sem_open, whose decrement takes no lock, it can fail: a run in which sem_close removes a set that another process has open |
| SemValue.ValueConservation | box_app/src/misc/semaph.cpp:77-81 | From the SETVAL of sem_create on, over every run, member 0 plus the undo adjustments on it is the initial value and what deaths had clamped at zero; exactly the initial value if and only if none was clamped; the value by itself is in `SemAmounts.ValueIsOwnAmounts` |
| SemValue.StepSettles | box_app/src/misc/semaph.cpp:283-291 | Every step but an initialisation keeps that sum, a death raises it by what is clamped; which way a call moves the two is `SemValue.OperateExactly` |
| SemSafety.StepKeeps | box_app/src/misc/semaph.cpp:89-291 | Every kernel call and every death keeps the invariant behind the theorems on members 1 and 2 |
| SemOrderly.StepKeepsOrderly | box_app/src/misc/semaph.cpp:89-291 | Every step but a close without an open keeps that nobody has closed without one, that who is about to close holds one, and that no counter read is above BIGCOUNT |
| SemSafety.CloseKeeps | box_app/src/misc/semaph.cpp:228-234 | The step of op_close |
| SemSafety.ExitKeeps | box_app/src/misc/semaph.cpp:77-81 | The step of a process death with its undo adjustments |
| SemSafety.LockEffect | box_app/src/misc/semaph.cpp:49-53 | op_lock waits for zero and then takes the lock, as one atomic operation |
| SemSafety.CloseEffect | box_app/src/misc/semaph.cpp:67-73 | op_close takes the lock and gives back one open, as one atomic operation |
| Delivery.DeliveredExactly | box_app/src/gprs/gprs.cpp:825-923 | Every outcome for every cut of a text `a{m` or `a{m}b` with the opening brace in the first chunk: the message is `{m}` with its length |m| + 2 and the heartbeat of what was read; chunks of 512 bytes or more up to the closing brace overrun `rec_buf`; "CLOSED" among them ends the connection; without a closing brace within fifteen reads the call succeeds with an empty message |
| Delivery.FragmentationIndependence | box_app/src/gprs/gprs.cpp:825-919 | So however `a{m}b` is cut, with the closing brace within fifteen reads of less than 512 bytes together and no "CLOSED", the message is `{m}` with its length |
| Delivery.SameMessage | box_app/src/gprs/gprs.cpp:825-919 | Two ways of cutting a text of less than 512 bytes deliver the same message and length |
| Delivery.TwoChunks | box_app/src/gprs/gprs.cpp:874-919 | The case of two chunks, on the bytes themselves |
| Delivery.LeftOnLine | box_app/src/gprs/gprs.cpp:875-898 | Nothing behind the chunk with the closing brace is taken from the line |
| Delivery.Enclosed | box_app/src/gprs/gprs.cpp:849-852 | The frame of `a{m}b` is `{m}`, both braces included |
| Delivery.Reversed | box_app/src/gprs/gprs.cpp:849-852 | With the closing brace first: directly in front of the opening one the frame is empty, further in front it is everything from the opening one on |
| Delivery.WithoutBrace | box_app/src/gprs/gprs.cpp:837-872 | A first chunk without an opening brace is returned whole as a heartbeat if it holds "Heart", and otherwise is "ERRORED" with length 7; no second chunk is read |
| Delivery.ReversedReceived | box_app/src/gprs/gprs.cpp:849-863 | The closing brace first, in the first chunk |
| Delivery.FoundExactly | box_app/src/gprs/gprs.cpp:837-842 | The search for "Heart" and "CLOSED": found wherever it stands, and only there |
| Delivery.NothingRead | box_app/src/gprs/gprs.cpp:827-831 | A failed first read |
| Delivery.CacheAnswers | box_app/src/gprs/gprs.cpp:794-820 | A cached text `a{m}b` answers with `{m}` when its classification is positive, else as a heartbeat, else not at all; without a length |
| Delivery.CacheWithoutMessage | box_app/src/gprs/gprs.cpp:794-820 | A cached text without both braces answers only as a heartbeat |
| Gprs.Gprs.RecTcpData | box_app/src/gprs/gprs.cpp:762-923 | The whole function: the cache answers first and is cleared, otherwise the line is read, and what is left on it; the answers are pinned by `Delivery` |
| Gprs.Gprs.ReceiveMessage | box_app/src/gprs/gprs.cpp:825-923 | The part behind the cache, with what is left on the line |
| Gprs.CollectJoins | box_app/src/gprs/gprs.cpp:875-898 | The loop leaves `rec_buf` if and only if it appends at all and the chunks up to the last one it reads are 512 bytes or more together; otherwise it has joined them in order |
| Gprs.LongMessageOverruns | box_app/src/gprs/gprs.cpp:877-889 | An input that does: six chunks of 99 bytes with the closing brace at the end |
| Gprs.ReceiveJoins | box_app/src/gprs/gprs.cpp:874-898 | The chunks are joined in order up to the closing brace and the joined text is judged |
| Gprs.Gprs.ReadRest | box_app/src/gprs/gprs.cpp:875-898 | The reading loop, with its copy of the text in the 512 bytes of `rec_buf` |
| Gprs.StrNCat | box_app/src/gprs/gprs.cpp:888-888 | The append to `rec_buf` stays inside exactly when the text so far and the chunk together are shorter than the buffer |
| Gprs.StrNCpy | box_app/src/gprs/gprs.cpp:877-877 | The first copy into the cleared `rec_buf` |
| Classification.PrintedClassified | box_app/src/hodgepodge/hodgepodge.cpp:47-61 | The printed text of every object of the domain, by either writer: the number n when category is the text of a 32-bit n; 4 when category is missing, null or empty and dev_id is a non-empty string; -1 when both are missing, null or empty |
| Classification.ByCategory | box_app/src/hodgepodge/hodgepodge.cpp:47-52 | For every text that parses to an object: a category that is there decides, a string by the number it starts with, a boolean as 0; anything else throws |
| Classification.ByDevice | box_app/src/hodgepodge/hodgepodge.cpp:54-61 | Without one, any device id means 4 and none means -1 |
| Classification.OtherRoots | box_app/src/hodgepodge/hodgepodge.cpp:48-48 | A null root is -1, every other root that is no object fails an assertion |
| Classification.Unparsed | box_app/src/hodgepodge/hodgepodge.cpp:47-61 | Every text on which the parser reports an error is -1 |
| Classification.FailuresAreUnclassified | box_app/src/hodgepodge/hodgepodge.cpp:47-61 | "ERRORED", "CLOSED" and the empty text, which rec_tcp_data leaves in its buffer on a failure, are -1 |
| Classification.StrtolValue | box_app/src/hodgepodge/hodgepodge.cpp:51-51 | The conversion: white space, a sign, decimal digits and whatever follows give the number, kept inside 32 bits; without digits it is 0 |
| Classification.ClassifiedBehind | box_app/src/hodgepodge/hodgepodge.cpp:47-61 | White space or a comment in front of a text does not change its classification |
| Classification.DoorMessageText | box_app/src/hodgepodge/hodgepodge.cpp:125-139 | The door-closed message, character by character |
| Hodgepodge.AnalysisType | box_app/src/hodgepodge/hodgepodge.cpp:40-62 | The parse, the member tests and the conversion, branch by branch; what they amount to is stated by `Classification` |
| Hodgepodge.DoorMessageRecognised | box_app/src/hodgepodge/hodgepodge.cpp:40-62 | For every device id, escapes and embedded NULs included, analysis_type of the text built by close_door_creat_type is 4 |
| Hodgepodge.CloseDoorCreateType | box_app/src/hodgepodge/hodgepodge.cpp:125-139 | The message is the styled text of the two-member object built by assignment |
| BatchAllocator.BatchAllocator.constructor | box_app/src/json/json_batchallocator.h:30-39 | A dummy page of no objects, nothing live, nothing free |
| BatchAllocator.BatchAllocator.Allocate | box_app/src/json/json_batchallocator.h:49-74 | The block returned was not live; it is the one released last, or else one never handed out, at the bump pointer of the newest page or at the start of a new page when that one is full |
| BatchAllocator.BatchAllocator.PopFree | box_app/src/json/json_batchallocator.h:51-56 | The free list is last in, first out |
| BatchAllocator.BatchAllocator.NextPage | box_app/src/json/json_batchallocator.h:57-70 | The walk over full pages finds none to use, and a fresh page becomes the head of the list |
| BatchAllocator.BatchAllocator.WalkFull | box_app/src/json/json_batchallocator.h:59-61 | The walk ends at the end of the list, as every page but the newest is full |
| BatchAllocator.BatchAllocator.Carve | box_app/src/json/json_batchallocator.h:71-73 | The bump allocation gives a block disjoint from all blocks before it |
| BatchAllocator.BatchAllocator.Release | box_app/src/json/json_batchallocator.h:78-83 | A live block becomes the head of the free list |
| BatchAllocator.BatchAllocator.StoreWord | box_app/src/json/json_batchallocator.h:81-81 | A store into any object of a live block leaves the free list as it is |
| BatchAllocator.BatchAllocator.LiveBlocksSafe | box_app/src/json/json_batchallocator.h:49-83 | With a page size that is a multiple of the block size, in every reachable state live blocks are disjoint, not on the free list, and inside the end of their pages and so inside the memory of these |
| BatchAllocator.BatchAllocator.BlocksConserved | box_app/src/json/json_batchallocator.h:101-110 | Live, free and never-used blocks add up to the capacity of the pages |
| BatchAllocator.OverrunningRun | box_app/src/json/json_batchallocator.h:57-73 | With any other page size, for every limit, the memory of the page among them, there is a run that hands out a live block of the page reaching past it |
| BatchAllocator.MultipleIsRemainderZero | box_app/src/json/json_batchallocator.h:57-57 | The condition on the sizes is divisibility |
| InternalMap.ResolveAll | box_app/src/json/json_internalmap.inl:303-329 | After any run of resolveReference calls from an empty map the members are the different keys in the order they first occurred, and `itemCount_` is their number |
| InternalMap.ValueInternalMap.ResolveReference | box_app/src/json/json_internalmap.inl:303-329 | The map is unchanged for a known key and gains a null member for a new one; the slot returned is that of the key, and the slots of all earlier keys stay |
| InternalMap.ValueInternalMap.Find | box_app/src/json/json_internalmap.inl:272-292 | find returns the slot that was given for the key, and null for every other key |
| InternalMap.ValueInternalMap.SearchBucket | box_app/src/json/json_internalmap.inl:279-290 | The walk over the pages stops at the key, at the first available slot, or behind a full last page |
| InternalMap.ValueInternalMap.ScanPage | box_app/src/json/json_internalmap.inl:283-289 | The scan of the six slots of a page |
| InternalMap.ValueInternalMap.Reserve | box_app/src/json/json_internalmap.inl:258-269 | One bucket is allocated at the first request, and becomes the tail |
| InternalMap.ValueInternalMap.UnsafeAdd | box_app/src/json/json_internalmap.inl:427-451 | The new member takes the next slot of the last page, or the first slot of a new page behind it |
| InternalMap.ValueInternalMap.AddPage | box_app/src/json/json_internalmap.inl:442-449 | A new page is linked behind the last one and becomes the tail |
| InternalMap.ValueInternalMap.SetNewItem | box_app/src/json/json_internalmap.inl:412-424 | The next slot takes the key, and every page, count and slot stays consistent |
| InternalMap.ValueInternalMap.GetLastLinkInBucket | box_app/src/json/json_internalmap.inl:400-409 | The tail pointer is the last link of the list |
| InternalMap.ValueInternalMap.AssignItem | box_app/src/json/json_internalmap.inl:303-329 | An assignment through the returned reference updates that member of the map only |
| InternalMap.StoredMember | box_app/src/json/json_internalmap.inl:303-329 | A store at the slot of a key is an update of the plain map at that key |
| InternalMap.DistinctRequests | box_app/src/json/json_internalmap.inl:412-424 | A run of requests leaves as many members as there are different keys, each once |

## Left out

- Doubles: `decodeDouble` and `valueToString(double)` rest on `sscanf` and `sprintf`; the model has the diversion to double and takes their results as parameters. Round trips are for values without reals, and the order is on reals without NaN.
- Reader.Reader.DecodeDouble: goes on with the result of the scan also for a token of exactly 32 characters, where the source writes behind its buffer; `Numbers.BufferDouble` has that condition.
- Numbers.IntToString: does not cover `minInt`, because negating it overflows a 32-bit int (box_app/src/json/json_writer.cpp:48).
- Comments: they are skipped as the tokenizer does; collecting, attaching and printing them is not modelled, and values carry none.
- Error positions: an error keeps its message, token and extra offset; the line and column texts of `getFormatedErrorMessages` are not modelled.
- Widths: array indices, sizes and text lengths are unbounded, so the 32-bit limits of `index + 1`, `size * 3` in `isMultineArray` and `int( size )` are not modelled. The decimal accumulator and the printed integers are 32 bits wide.
- Value strings: a `Value( stringValue )` with a null pointer for its text is not a value of the model; strings hold no NUL, as the constructors cut them there.
- Reader.Reader.ReadChild: the node stack holds paths into the root, so two pointers to one node cannot differ from two equal paths; that the map keeps its nodes in place is part of that.
- `Value::operator<=`: it negates `operator<` instead of combining it with equality (box_app/src/json/json_value.cpp:608-612), so it has no place in the order.
- Conversions: `asInt`, `asUInt`, `asDouble`, `asBool`, `removeMember` and iterators only add easy members.
- `StyledStreamWriter`: it repeats `StyledWriter` with one line break more.
- Semaphores: the tests for `IPC_PRIVATE` and -1 keys, `SEMVMX`, permissions and reuse of identifiers are left out; a process that has to wait in `sem_op` counts as idle until it need not.
- SemTheorems.SafeRemoval: leaves out `sem_open` and closes without an open, with either of which the statement is false; `SemTheorems.SafeRemovalExactly` covers every run.
- SemTheorems.NeverDumps: leaves out closes without an open, which the branch is for; `SemTheorems.CounterRead` covers every run. Such a close uses an identifier that some `sem_create` or `sem_open` has returned; a guessed one is not modelled.
- InternalMap.ValueInternalMap.GetLastLinkInBucket: `reserve` never allocates more than one bucket, so the branch for other buckets and `previous_` cannot be reached; hashing matters only for the bucket index, which is always 0.
- InternalMap.ValueInternalMap.Find: keys are compared as whole C strings; the memory of duplicated keys, copying and destroying maps are not modelled.
- `ValueInternalMap::doActualRemove` and iterators: the first passes an item index as a bucket index and moves values without their keys, the second keeps the item index on a new page; only insertion and search are modelled.
- `ValueInternalArray`: an index far beyond the end needs more pages than `makeIndexValid` reserves; it is not modelled.
- BatchAllocator.BatchAllocator.Release: a block is released while it is live, as the allocator's users do; a second release of the same block is not modelled. `malloc` always succeeds and addresses are a page and an offset.
- Gprs.Gprs.RecTcpData: the delays and the trace output are left out; nothing is promised behind an append past the end of `rec_buf`, the outcome `Overrun`; a thrown conversion in `analysis_type` is the outcome `Died`.
- Threads, sockets, serial port, GPIO, camera, message queues and the terminal: input and output or foreign calls with little logic of their own.
