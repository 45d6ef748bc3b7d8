# Verified model of the signalling server

A Dafny model of a WebRTC signalling server and of the library code that carries its
messages, with proofs of what that code promises. It covers four systems:

- **JSON messages** (`jsoncpp.cpp`): the cursor-based reader with its node stack and
  error recovery, the compact and the styled writer, string escaping in UTF-8 and
  UTF-16, 64-bit integer text, and the order of values. `JsonGrammar` says what each
  reading function yields as a function of the document and the position; the class
  `JsonReader.OurReader` does the same in place, with a cursor, a node stack and an
  error list. `JsonLayout.Tokens` is the reference for both writers: a value has one
  token sequence, both writers print it with white space between the tokens, and any
  such text is read back. `JsonSpelling.Spells` says which texts spell which values, and
  the reader is proved to accept just those; `JsonTokens` and `JsonEscapes` say so of the
  characters.
- **Argument scanning** (`getopt.cpp`): the rotation of two neighbouring blocks in place
  by gcd-many cycles, the long-option search, one call of the scanner, and a whole run
  of calls against a reference that only marks arguments as used or skipped.
  `ArgScannerSpelling` writes lists of options down as arguments, in every form a user
  may choose, and a run answers what the list says.
- **The server as a step system** (`server.cpp`, `webrtc_connection.cpp`,
  `message_queue.cpp`, `observer.cpp`): the accept loop, one worker for each peer and the
  library's callbacks, interleaved at every access to shared state; the observer that
  batches ICE candidates is modelled as a class besides.
- **Two smaller pieces**: the growth policy of `rtc::BufferT` and the HTTP request parser.

Modelling choices: `char` is signed and a byte is 0..255; bit masks are written with `%`
and `/`; 32-bit and 64-bit wrap-around is written out wherever the code can meet it; a
double is abstract, with the two conversions between doubles and text as parameters;
library callbacks, clocks and sockets are choices of the environment.

## What the proofs show about the code

Where the code fails there is an input that shows it and the exact condition; the lemmas
are named.

- Strings round-trip exactly when they are well-formed UTF-8, and documents exactly when
  they fit the reader's stack limit (beyond it the reader throws). The reader takes a
  missing magnitude for zero: a lone `-` decodes to 0.
- The reader accepts a document exactly if it spells a value, and reads that value, the
  last of repeated names (`JsonSpelling.AcceptsExactly`). Beyond JSON it takes any token
  for a comma behind a comment, as in `{"a":1/**/5"b":2}`, and a comma behind a member of
  the empty name, as in `{"":1,}` (`JsonQuirks.CommentForComma`, `TrailingComma`). Escapes
  are read by the table of RFC 8259 (`JsonEscapes.DecodesExactly`).
- `operator<` on values is a strict total order for containers below 2^31 members
  without NaN. Arrays or objects of such members are each less than the other exactly
  when their sizes are 2^31 apart modulo 2^32, because the difference of the sizes is cut
  down to `int` (`JsonOrder.ArraysClashExactly`, `ObjectsClashExactly`); where sizes
  decide, a chain of arrays is transitive exactly when the two differences add up within
  32 bits (`ArraysChainExactly`, with `FarChainBreaks`).
- The scan of arguments ends in a stable partition unless it gives up in an argument that
  ends in a plain `-` behind letters without arguments, such as `-:-`
  (`ArgScannerEnds.SpanIsNoneExactly`, `StuckAtArgument`). Some arguments do that if and
  only if there are no long options and `-` is no option letter (`SomeInputSticks`). Such
  a run leaves its last rotation undone: it still is a partition exactly when nothing was
  skipped or nothing was used since (`InterruptedIsPartitioned`).
- A long option of value -1 without flag is not returned (getopt.cpp:451-457): its name
  is scanned for option letters, with `optind` already behind it, and the last letter
  moves `optind` once more. So, but for the name `-`, at least one argument that belongs
  to nobody is used up
  (`FallThroughSwallows`), just one and unseen if the letters are plain
  (`PlainNameSwallowsOne`, with `--foo` in `FooSwallows`). Some option makes the code read
  past an end, or moves `optind` past argc, if and only if a front of a name stands for
  such an option, other than the name `-` of one without argument where `-` is no option
  letter (`LeavesExactly`, with `FooLeaves`). A call answers -1 for an option if and only if 255 is an option
  letter (`char` is signed), or `W;` is among the letters and some front of a name, free of
  `=`, stands for such an option, or the name `-` does and `-` is no option letter
  (`EndsEarlyExactly`). `ArgScanner.Sound` excludes just the tables that do either
  (`SoundExactly`).
- A batch of ICE candidates arrives, whole and in order, if and only if no string of its
  candidates holds `######`; escaping never makes or breaks one
  (`IceSeparator.BatchArrivesExactly`, with `SixHashesAreLost`). Of the batches that come
  before the offer only the last one is kept (`Signalling.LastEarlyMessageCounts`).
- The reader throws where the stack overflows, a member name has 2^30 bytes or a string
  2^31 - 5, and where a comment that it collects cannot be set: a quote falls through to
  the comments (jsoncpp.cpp:1435-1443), but `setComment` wants a slash. Collecting changes
  neither the root nor the errors of any text, it can only throw
  (`JsonComments.CollectingOnlyThrows`). A text below 2^30 bytes in which fewer brackets
  and braces open than the stack may hold nodes, and no quote stands before `/` or `*`,
  never makes the reader throw, whatever else it holds
  (`JsonDepth.ShallowTextsDoNotThrow`); as many brackets in a row do
  (`BracketsThrowExactly`), and where a quote can open a comment in the first token only,
  the text throws if and only if it does (`JsonComments.LeadingQuoteExactly`, with
  `QuotedCommentThrows`).
- The observer ends by an exception on the empty message, on a description that makes the
  reader throw or is read but is neither null nor an object with convertible members, and
  on such a piece of an ICE message once there is a peer connection; in no other case
  (`SignallingThrows.ThrowsExactly`). On a message that is shallow in the above sense only
  what was read decides (`ShallowThrowsExactly`). `ICE->3`, `SDP->[]` and `SDP->'**/{}`
  throw (`BareValuesThrow`, `QuotedCommentsThrow`).
- `closeWait` (server.cpp:201) falls just when a wait request finds its peer and never
  rises again. From then on the accept loop closes no socket of a request it could parse:
  in every continuation such a socket is closed if and only if `closeWait` was set when
  the loop decided (`SignallingLeaks.ClosedIffCloseWait`). A connection lets go of its
  socket in two ways only: its worker sends one message and deletes it, or a later wait
  of the same peer takes its place, and then it is neither answered nor closed
  (`LettingGo`). The third leak is a connection that ends with a wait pending: its
  destructor deletes no socket (`EndedHolderLeaks`). `SignallingRuns` reaches all three
  from the start.
- A worker with a socket and a message delivers the oldest message by its own steps, once,
  whatever other threads do in between (`SignallingProgress.SendsOldest`,
  `DeliversWhateverHappens`), and the answer it carries is read by the other peer as it was
  meant (`SignallingAnswers.AnswerArrives`).
- Peer ids are distinct exactly up to 2^32 connections, and more can sign in
  (`SignallingRuns.DistinctExactly`, `TooManyPeers`). A request finds its peer only if
  the id is below 2^31, where `atoi` ends (`PeerIds.IdReachesItsPeer`).
- The HTTP parser throws if and only if the first line is not empty, is ended, and its
  second field ends in a URL segment of question marks alone
  (`HttpExceptions.MessageThrowsExactly`); `GET /? HTTP/1.1` does (`QuestionMarkThrows`).
- Growth of `rtc::BufferT` with headroom copies at most four times the largest size asked
  for; reserving exact capacities has no such bound (`GrowingBuffer.ReservingIsQuadratic`).
- A wait on the message queue that times out reports failure even when a message arrived
  together with the timeout (`InboundQueue.FailsWithMessageExactly`, `LateMessageWaits`).

## Model

| member | source | states |
|---|---|---|
| JsonText.StringRoundTrip | jsoncpp.cpp:4428-4495 | decoding what was printed gives a string back if and only if it is well-formed UTF-8 (section 3 of RFC 3629), zero bytes and surrogate pairs included |
| JsonText.UnescapeEscaped | jsoncpp.cpp:1884-1989 | for any bytes, decoding what was printed yields the bytes reread character by character, never an error |
| JsonText.RereadHeadExact | jsoncpp.cpp:4349-4398 | one character survives printing and decoding exactly when it is well formed, whatever follows |
| JsonText.UnescapePair | jsoncpp.cpp:1937-1962 | two escaped UTF-16 halves decode to the one code point they stand for (section 2.2 of RFC 2781) |
| JsonText.ValueToQuotedString | jsoncpp.cpp:4428-4495 | the loop prints the quoted escape of every byte, through the early exit for text that needs no quoting |
| JsonText.EscapeLoop | jsoncpp.cpp:4439-4492 | the printing loop, character by character, yields the escape of the whole string |
| JsonText.IsAnyCharRequiredQuoting | jsoncpp.cpp:4337-4347 | true exactly when some byte forces quoting |
| JsonText.Unescape | jsoncpp.cpp:1884-1935 | the decoding loop yields the unescaped text, or fails exactly where that is undefined |
| JsonText.DecodeUnicodeCodePoint | jsoncpp.cpp:1937-1962 | one escape, or a pair of surrogate escapes, yields its code point and the position behind it |
| JsonText.DecodeUnicodeEscapeSequence | jsoncpp.cpp:1964-1989 | four hexadecimal digits yield their value; fewer characters or other characters fail |
| JsonEscapes.ShortEscapes | jsoncpp.cpp:1896-1920 | each of the eight short escapes of section 7 of RFC 8259 is read as its one byte, whatever follows |
| JsonEscapes.OtherEscapesFail | jsoncpp.cpp:1927-1928 | any other letter behind a backslash but "u" is an error |
| JsonEscapes.UnitDenotes | jsoncpp.cpp:1964-1989 | four hexadecimal digits in any mix of cases are read as the number they denote, and nothing else is read as that number |
| JsonEscapes.BadUnitsFail | jsoncpp.cpp:1964-1989 | an escaped unit with fewer than four characters, or a character that is no hexadecimal digit, is an error |
| JsonEscapes.PieceDecodes | jsoncpp.cpp:1890-1962 | a plain byte, a short escape, an escaped unit and a pair of units are each read as what the table says, whatever follows |
| JsonEscapes.DecodesExactly | jsoncpp.cpp:1884-1935 | a text is decoded if and only if it is made of such pieces up to its end or a bare quote, and then to what the pieces mean |
| JsonEscapes.EscapedSigns | jsoncpp.cpp:1937-1989 | the clef of RFC 8259 in lower and in upper case, a Euro sign and an umlaut are read as their UTF-8 bytes |
| JsonEscapes.AsciiPrinted | jsoncpp.cpp:4444-4491 | a character below U+0080 is printed as its short escape, as a control character in four lower-case digits, or as itself; a slash stays |
| JsonEscapes.PrintedIsAscii | jsoncpp.cpp:4439-4492 | whatever the string, the printer writes ASCII alone and no control characters |
| JsonEscapes.IllFormedPrinted | jsoncpp.cpp:4349-4398 | a byte that begins no character, or begins one that is cut short, is printed as the replacement character |
| JsonNumber.IntegerRoundTrip | jsoncpp.cpp:4250-4274 | the text of an integer is decoded as an integer exactly in the 64-bit ranges, and to the number printed |
| JsonNumber.DecodeDigits | jsoncpp.cpp:1792-1809 | the overflow-guarded digit loop never leaves 64 bits and succeeds exactly on digits whose magnitude is within the limit |
| JsonNumber.DecodeNumber | jsoncpp.cpp:1775-1824 | a token yields an integer exactly when it is an optional minus and digits in range, signed if it fits; otherwise it goes to the double path |
| JsonNumber.DecodeNumberLegacy | jsoncpp.cpp:790-831 | the older reader decodes the same tokens, with its own bound for signed results |
| JsonNumber.ReadersAgree | jsoncpp.cpp:790-831 | both readers accept the same tokens and decode the same amounts |
| JsonNumber.GuardIsExact | jsoncpp.cpp:1803-1807 | once the guard of the digit loop trips the number is out of range |
| JsonNumber.UintToString | jsoncpp.cpp:167-173 | the backward loop writes exactly the digits and a terminator and nothing else of the buffer |
| JsonNumber.IntToString | jsoncpp.cpp:4250-4264 | every signed 64-bit number, the least one included, is written without underrunning the 25 bytes |
| JsonNumber.DigitsFit | jsoncpp.cpp:153-162 | no 64-bit number has more than twenty digits |
| JsonNumber.LoneMinusIsZero | jsoncpp.cpp:1784-1786 | a minus sign alone decodes to zero |
| JsonNumber.PlaceValues | jsoncpp.cpp:1792-1809 | each digit counts by its decimal place |
| JsonNumber.DigitsAreShortest | jsoncpp.cpp:167-173 | the text of a number has no leading zeros |
| JsonGrammar.Lex | jsoncpp.cpp:1413-1511 | reading a token keeps the cursor in bounds and either consumes a character or reports the end of the document |
| JsonGrammar.LexPastComments | jsoncpp.cpp:1403-1411 | skipping comment tokens terminates and keeps the same promises |
| JsonGrammar.Recover | jsoncpp.cpp:2000-2011 | error recovery terminates with the cursor in bounds |
| JsonGrammar.ParseValue | jsoncpp.cpp:1312-1401 | for every document, setting and comments noted so far the recursion terminates, throws or moves the cursor forward within bounds, and succeeds exactly when it records no error |
| JsonSpelling.AcceptsExactly | jsoncpp.cpp:1264-1401 | unless it throws the reader accepts a document if and only if the document spells a value, by rules that follow the value, and then its root is that value with each object as a map |
| JsonSpelling.ReadIsSpelled | jsoncpp.cpp:1312-1401 | whatever is read at any position, notes and depth is spelled there up to the cursor, and is the value built |
| JsonSpelling.SpelledIsRead | jsoncpp.cpp:1312-1401 | whatever is spelled at a position is read there as that value, unless the reader throws |
| JsonSpelling.RangeIs | jsoncpp.cpp:1325-1393 | the range of a value goes from its first token to the cursor behind it |
| JsonSpelling.NoScalarFails | jsoncpp.cpp:1389-1392 | a token that spells no scalar fails with one error at the token: of its number, of its string, or that a value was expected |
| JsonSpelling.MembersStep | jsoncpp.cpp:1671-1696 | what stands where a name should be: the end of an empty object, a name, or one error at that token, of the name, of the repeated name or of the missing brace |
| JsonSpelling.MemberStep | jsoncpp.cpp:1698-1708 | a missing colon is one error at the token found; an error of the value is the error of the object |
| JsonSpelling.AfterMemberStep | jsoncpp.cpp:1710-1721 | what follows a member: a brace, a comma, anything behind a comment, or one error at the token found |
| JsonSpelling.AfterElementStep | jsoncpp.cpp:1747-1760 | what follows an element: a bracket, a comma, or one error at the token found |
| JsonSpelling.RootStep | jsoncpp.cpp:1284-1309 | what the end of a document adds: an error at the extra token, or over the whole document where an array or object is required |
| JsonSpelling.NumericNames | jsoncpp.cpp:1683-1687 | an integer is a name exactly where the settings say so, and then its shortest text |
| JsonSpelling.LongNamesThrow | jsoncpp.cpp:1691-1692 | a name of 2^30 bytes makes the reader throw |
| JsonSpelling.ShortNamesGoOn | jsoncpp.cpp:1691-1703 | a shorter one does not |
| JsonSpelling.LongStringsThrow | jsoncpp.cpp:2595-2602 | a string makes it throw exactly from 2^31 - 5 bytes on |
| JsonQuirks.TrailingComma | jsoncpp.cpp:1677-1678 | an object with a comma behind its last member, of the empty name, is accepted |
| JsonQuirks.CommentForComma | jsoncpp.cpp:1711-1722 | behind a comment a number passes for the comma between two members |
| JsonQuirks.SameLineThrows | jsoncpp.cpp:1545-1553 | a comment of a quote, two stars and a slash behind another comment on the line of a value makes the reader throw |
| JsonQuirks.NextLineIsRead | jsoncpp.cpp:1545-1553 | on the next line the same two comments do not |
| JsonQuirks.SecondCommentThrows | jsoncpp.cpp:1320-1323 | comments before a value are taken by it: the next ones stand alone |
| JsonQuirks.RejectedBy | jsoncpp.cpp:3912-3922 | what a comment begins with decides whether it can be set, unless it is but a line feed |
| JsonTokens.MarksAre | jsoncpp.cpp:1418-1502 | which character makes which one-character token, and that a zero ends the document |
| JsonTokens.WordsAre | jsoncpp.cpp:1466-1477 | a token is true, false or null exactly where these letters stand |
| JsonTokens.SpecialsAre | jsoncpp.cpp:1478-1493 | likewise NaN and Infinity, exactly where special floats are allowed |
| JsonTokens.MinusInfinityIs | jsoncpp.cpp:1458-1465 | and -Infinity |
| JsonTokens.StringsAre | jsoncpp.cpp:1641-1663 | a string token runs exactly from a quote to the first quote of its kind outside an escape, single quotes where they are allowed |
| JsonTokens.NumbersAre | jsoncpp.cpp:1615-1640 | a number begins exactly with a digit or a minus without "I", and takes as many digits, dot, exponent and sign as its shape allows |
| JsonTokens.StarCommentEnds | jsoncpp.cpp:1590-1597 | a comment of stars ends at the first star and slash, or with a slash that ends the document |
| JsonTokens.LineCommentEnds | jsoncpp.cpp:1599-1613 | a comment of slashes ends behind its line, whichever way the line ends |
| JsonTokens.CommentsAre | jsoncpp.cpp:1534-1541 | a comment is a slash, or a quote where quotes are no strings, and a slash or a star |
| JsonTokens.ErrorsAre | jsoncpp.cpp:1503-1508 | any other character but white space is an error |
| JsonTokens.BreaksAreFeeds | jsoncpp.cpp:1557-1575 | a comment is collected with each line break made a line feed and everything else as it was |
| JsonTokens.BlanksBeforeValue | jsoncpp.cpp:1513-1521 | white space before a value does not matter |
| JsonTokens.CommentBeforeValue | jsoncpp.cpp:1403-1411 | nor does a comment where comments are allowed |
| JsonTokens.NoValueBehindComment | jsoncpp.cpp:1403-1411 | where they are not, no value begins with one |
| JsonTokens.RecoverStops | jsoncpp.cpp:2000-2011 | skipping to the end of a container stops right behind such a token, or at the end |
| JsonReader.OurReader.ReadToken | jsoncpp.cpp:1413-1511 | the imperative reader's token, cursor and notes about comments are those of the grammar |
| JsonReader.OurReader.ReadComment | jsoncpp.cpp:1534-1588 | a comment is scanned and, if comments are collected, goes to the value before it on the same line or waits for the next value, or makes `setComment` throw |
| JsonReader.OurReader.NormalizeEOL | jsoncpp.cpp:1557-1575 | the loop turns every line break into a line feed |
| JsonReader.OurReader.SetComment | jsoncpp.cpp:3912-3922 | the assertions fail exactly on a comment that is empty but for a line feed or starts neither with a slash nor with a zero |
| JsonReader.OurReader.ReadNumber | jsoncpp.cpp:1615-1640 | the scanning of digits, fraction and exponent ends where the grammar says |
| JsonReader.OurReader.RecoverFromError | jsoncpp.cpp:2000-2011 | skips to the given token, drops the errors met on the way and returns false, or throws over a comment on the way |
| JsonReader.OurReader.ReadValue | jsoncpp.cpp:1312-1401 | it throws exactly where the grammar does, setting collected comments included; on every returning path the cursor, the errors, the notes about comments and the node on top of the stack are those of the grammar, and the stack below is as before |
| JsonReader.OurReader.ReadObject | jsoncpp.cpp:1665-1725 | the member loop yields the grammar's object and restores the depth of the stack |
| JsonReader.OurReader.ReadArray | jsoncpp.cpp:1727-1763 | the element loop, with the one-character step back, yields the grammar's array and restores the depth of the stack |
| JsonReader.OurReader.Parse | jsoncpp.cpp:1264-1310 | parsing ends with exactly the root on the stack and the errors recorded, or throws: at the stack limit, on a key or a string that is too long, or on a comment that cannot be set |
| JsonOffsets.DocumentNests | jsoncpp.cpp:1325-1393 | after a successful parse that drops no nulls every child's range lies strictly inside its parent's and array siblings are disjoint and in increasing order |
| JsonOffsets.ValueNests | jsoncpp.cpp:1312-1401 | the same for any value read at any position and depth |
| JsonRoundTrip.LayoutRoundTrip | jsoncpp.cpp:1264-1401 | any text that spells the tokens of a value with white space between them, its members in any order and with repeated names, parses to that value with each object as a map in which the last value of a name wins, up to the sign tag of non-negative integers, if and only if the value fits the stack; otherwise the reader throws (where repeated names are rejected, for values without them) |
| JsonRoundTrip.ValueReads | jsoncpp.cpp:1312-1401 | the same for a value in the middle of a document |
| JsonRoundTrip.PutBinds | jsoncpp.cpp:1703 | putting a member into the object being read binds its name in the map of members |
| JsonMembers.SetMemberOrdered | jsoncpp.cpp:1703 | binding a name keeps the members in the order of names |
| JsonMembers.SetMemberFinds | jsoncpp.cpp:1703 | the name is bound to the value, and every other name is bound as before |
| JsonMembers.SetMemberNames | jsoncpp.cpp:1703 | no other name comes in, and no member changes |
| JsonMembers.BindAllIsMap | jsoncpp.cpp:1665-1725 | members bound one by one in any order come out in the order of names, each name with its last value |
| JsonMembers.MapIsUnique | jsoncpp.cpp:1703 | there is one such list of members |
| JsonMembers.DistinctAreBound | jsoncpp.cpp:1703 | with distinct names every member is in it |
| JsonDepth.ShallowTextsDoNotThrow | jsoncpp.cpp:1312-1323 | whatever the text, the reader does not throw while fewer brackets and braces open in it than the stack may hold nodes, no quote stands before "/" or "*" where comments are collected, and no key or string can be too long |
| JsonComments.CollectingOnlyThrows | jsoncpp.cpp:1534-1588 | for any text and settings, collecting comments changes neither root nor errors; all it can do is throw |
| JsonComments.LeadingQuoteThrows | jsoncpp.cpp:1320-1323 | a text whose first token is a comment opened by a quote throws when comments are collected |
| JsonComments.LeadingQuoteExactly | jsoncpp.cpp:1435-1443 | a shallow text in which no later quote can open a comment throws exactly if its first token is such a comment |
| JsonComments.QuotedCommentThrows | jsoncpp.cpp:3917-3920 | an empty object behind a comment of a quote, two stars and a slash throws with the default settings |
| JsonDepth.BracketsThrowExactly | jsoncpp.cpp:1312-1315 | the bound is sharp: brackets in a row throw exactly from the stack limit on |
| JsonLayout.LaysConcat | jsoncpp.cpp:1513-1521 | texts that spell two token sequences spell, put together, the two sequences in a row |
| JsonLayout.ReadsString | jsoncpp.cpp:1641-1651 | the reader finds just the closing quote of a printed string, whatever the string holds |
| JsonLayout.ReadsNumber | jsoncpp.cpp:1615-1640 | the reader takes a printed integer as one number token when a delimiter or white space follows |
| JsonWriter.FastWriter.WriteValue | jsoncpp.cpp:4526-4578 | the compact writer appends the compact text of the value to its document |
| JsonWriting.FastRoundTrip | jsoncpp.cpp:4518-4578 | whatever the compact writer prints of a value whose members are in the order of the map is read back within the stack limit, and throws beyond it, under any reader settings (with `strictRoot`, for arrays and objects) |
| JsonWriting.FastDocumentLays | jsoncpp.cpp:4526-4578 | the compact text spells the tokens of the value |
| JsonStyled.BuiltStyledStreamWriter.WriteValue | jsoncpp.cpp:5093-5153 | the styled writer prints the styled text and leaves its indentation as it was, the repetition of the unit by the depth |
| JsonStyled.BuiltStyledStreamWriter.WriteArrayValue | jsoncpp.cpp:5155-5203 | arrays are printed broken or on one line; the cached texts are one for each element, so neither assertion fires |
| JsonStyled.BuiltStyledStreamWriter.IsMultilineArray | jsoncpp.cpp:5205-5230 | decides by the number of elements, nested containers and the 32-bit line length, and leaves the cached texts complete when it answers one line |
| JsonStyled.BuiltStyledStreamWriter.Unindent | jsoncpp.cpp:5260-5263 | indentation is taken back by exactly one unit; the assertion about the lengths holds |
| JsonWriting.StyledRoundTrip | jsoncpp.cpp:5078-5263 | the same of the styled writer with white-space indentation, under any reader settings (with `strictRoot`, for arrays and objects) |
| JsonWriting.StyledDocumentLays | jsoncpp.cpp:5093-5263 | the styled text spells the same tokens as the compact one |
| JsonWriting.BuilderIsLayoutable | jsoncpp.cpp:5313-5352 | a builder with white-space indentation that keeps nulls makes such a writer |
| JsonLines.NewLineIs | jsoncpp.cpp:5239-5251 | a new line is a line feed and one unit of indentation for each depth; without a unit there is none |
| JsonLines.StaysOnOneLine | jsoncpp.cpp:5205-5230 | an array stays on one line exactly if it holds no filled containers, at most 24 elements, and the line comes out shorter than 74 characters |
| JsonLines.OneLineArray | jsoncpp.cpp:5185-5201 | two numbers on one line, with spaces exactly where there is indentation |
| JsonLines.DefaultDocument | jsoncpp.cpp:5093-5203 | an object of an array and a null, written out with the default settings |
| JsonLines.SymbolsAre | jsoncpp.cpp:5313-5352 | colons and nulls by the settings of the builder |
| JsonLines.FastSymbolsAre | jsoncpp.cpp:4518-4578 | colon, null and final line feed of the compact writer by its options |
| JsonOrder.LessIsTotal | jsoncpp.cpp:2957-3008 | on comparable values no value is less than itself, none is both less and greater, and unequal ones are one or the other |
| JsonOrder.LessIsTransitive | jsoncpp.cpp:2957-3008 | on comparable values `operator<` is transitive, through the maps and their order of names |
| JsonOrder.NameLessMeans | jsoncpp.cpp:2754-2768 | names are ordered by the first byte in which they differ, a proper prefix first |
| JsonOrder.KindsInOrder | jsoncpp.cpp:2958-2960 | null, signed, unsigned, real, string, truth value, array, object, in this order |
| JsonOrder.ScalarsInOrder | jsoncpp.cpp:2964-2995 | within a kind numbers go upwards, false comes before true, and strings go as names |
| JsonOrder.SmallerFirst | jsoncpp.cpp:2998-3000 | of two containers the smaller comes first |
| JsonOrder.FirstElementDecides | jsoncpp.cpp:3001 | of two arrays of one size the first elements that differ decide |
| JsonOrder.FirstMemberDecides | jsoncpp.cpp:3001 | of two objects of one size the first members that differ do, by name and then by value |
| JsonOrder.EqualIsEquality | jsoncpp.cpp:3016-3055 | `operator==` holds exactly of equal values without NaN |
| JsonOrder.FarSizesClash | jsoncpp.cpp:2997-3001 | arrays whose sizes are 2^31 apart are each less than the other |
| JsonOrder.ClashingSizes | jsoncpp.cpp:2997-3001 | two sizes compare as less both ways exactly when they are 2^31 apart modulo 2^32, and as equal exactly when 2^32 divides their difference |
| JsonOrder.ArraysClashExactly | jsoncpp.cpp:2997-3001 | arrays of comparable elements, of any size, are each less than the other exactly when their sizes are 2^31 apart modulo 2^32; unequal ones are always ordered |
| JsonOrder.ObjectsClashExactly | jsoncpp.cpp:2997-3001 | the same of objects |
| JsonOrder.ArraysChainExactly | jsoncpp.cpp:2997-3001 | where sizes decide, a < b < c gives a < c exactly when the two size differences add up within 32 bits |
| JsonOrder.FarChainBreaks | jsoncpp.cpp:2997-3001 | sizes 3 * 2^29 apart make a < b < c without a < c |
| JsonValue.NameTrichotomy | jsoncpp.cpp:2754-2768 | the order of names is irreflexive, antisymmetric and total |
| JsonValue.NameTransitive | jsoncpp.cpp:2754-2768 | the order of names is transitive |
| IceBatch.SplitJoinExact | observer.cpp:281-294 | splitting undoes joining if and only if no text holds the separator; otherwise it yields more pieces than texts |
| IceBatch.BatchRoundTrip | observer.cpp:177-219 | candidates printed, joined, split and parsed are the same candidates in the same order if and only if no printed one holds the separator |
| IceBatch.CandidateRoundTrip | observer.cpp:180-190 | one candidate printed by the default writer and parsed by the default reader is the candidate |
| IceBatch.PieceOfValue | observer.cpp:207-219 | a piece that spells a value, its members in any order, throws exactly when the value nests too deep or is neither null nor an object with convertible members, and otherwise is the candidate of its members, the last of each name |
| IceBatch.OnlyObjectsAreRead | jsoncpp.cpp:3535-3551 | a piece that spells a number, a string, a truth value or an array throws |
| JsonConversions.AsIntExactly | jsoncpp.cpp:3132-3152 | which values convert to which 32-bit number: null, truth values, integers and doubles in range, cut off towards zero |
| JsonConversions.AsStringExactly | jsoncpp.cpp:3097-3121 | which values convert to which text |
| IceSeparator.PrintedHoldsSeparator | observer.cpp:180-190 | a printed candidate holds the separator exactly when one of its strings does |
| IceSeparator.EscapeKeepsHashes | jsoncpp.cpp:4439-4492 | escaping a well-formed string neither makes nor breaks a run of six hashes |
| IceSeparator.BatchArrivesExactly | observer.cpp:177-219 | a batch comes back whole and in order exactly when no string of its candidates holds the separator |
| IceSeparator.SixHashesAreLost | observer.cpp:198-219 | a candidate whose string is the separator does not come back |
| IceBatch.PiecesAreClean | observer.cpp:283-294 | no piece the loop cuts holds a separator |
| IceBatch.Find | observer.cpp:284 | the first occurrence at or after the start, or npos |
| Signalling.BatchArrives | observer.cpp:177-299 | candidates gathered by one observer reach the peer connection of another, all of them, in order and without an exception, if and only if none of their strings holds the separator |
| Signalling.EarlyBatchArrives | observer.cpp:274-337 | a batch that comes last before the offer is in the new connection, whole and in order, once the offer was accepted and the answer succeeded, if and only if no string of it holds the separator |
| Signalling.EarlierBatchIsLost | observer.cpp:275-279 | the batches that come too early leave no trace but for the last one, however many there are |
| Signalling.OnlyTheLastIsKept | observer.cpp:275-279 | after any early messages the buffer holds just the last of them |
| Signalling.LastEarlyMessageCounts | observer.cpp:274-337 | after early messages, an accepted offer and its answer the connection has exactly the pieces of the last message up to the first exception |
| Signalling.GatheringBuildsBatch | observer.cpp:192-198 | gathering candidates one by one builds the batch message |
| Signalling.Observer.OnIceCandidate | observer.cpp:177-199 | the message always is the batch of the candidates gathered so far |
| Signalling.Observer.AddPieces | observer.cpp:281-294 | the find/substr loop, with the wrapped length of the last piece, hands over exactly the pieces in front of the first that throws, in order, and throws exactly if one does |
| Signalling.Observer.OnSignalingMessage | observer.cpp:233-299 | the whole new state by command, and whether the handler ends by an exception of `substr`, of the reader or of the access to members |
| SignallingThrows.ThrowsExactly | observer.cpp:233-299 | it does so exactly on the empty message, on a description that throws, and on an ICE message with a piece that throws while there is a peer connection |
| SignallingThrows.ShallowThrowsExactly | observer.cpp:233-299 | on a message with fewer than 1000 brackets and braces, no quote before "/" or "*", and below 2^30 bytes it does so exactly on the empty message and where a root that was read is no description or candidate |
| SignallingThrows.DescriptionOfValue | observer.cpp:243-250 | a description that spells a value, its members in any order, throws exactly when the value nests too deep or is neither null nor an object with convertible members |
| SignallingThrows.BareValuesThrow | observer.cpp:243-250 | "ICE->3", once there is a peer connection, and "SDP->[]" throw |
| SignallingThrows.QuotedCommentsThrow | observer.cpp:207-250 | so do such messages with an empty object behind a comment that a quote opens |
| Signalling.Observer.OnSuccess | observer.cpp:302-338 | the answer is queued and the buffered candidates are handed over up to the first exception; the buffer stays |
| SignallingAnswers.AnswerText | observer.cpp:308-316 | the answer is "SDP->" and the document of the sdp and the type, character by character |
| SignallingAnswers.AnswerArrives | observer.cpp:302-338 | for any type and sdp of well-formed text that a value can hold the queue grows by just one message; it is a description, it is read without exception or error, and its type and sdp are those of the answer |
| SignallingAnswers.CandidateText | observer.cpp:180-190 | a candidate is printed with its text, its index and its mid under their names, character by character |
| SignallingAnswers.BatchText | observer.cpp:192-198 | candidates travel behind "ICE->" with six hashes between them |
| SignallingAnswers.OfferOutcomes | observer.cpp:243-273 | what a description that is read leads to, by what the library makes of it |
| SignallingAnswers.OthersAreIgnored | observer.cpp:236-299 | a message of any other command changes nothing |
| SignallingAnswers.DescriptionInAnyOrder | observer.cpp:243-250 | a description with members in any order, among others and repeated, is read, and its type and sdp are the last ones |
| SignallingAnswers.BrowserDescription | observer.cpp:243-250 | so is the text with the type before the sdp that browsers send |
| SignallingAnswers.CandidateInAnyOrder | observer.cpp:207-219 | a candidate whose members come in any order is read as it was meant |
| SignallingAnswers.NothingIsRead | observer.cpp:207-250 | "null" and "{}" are read too, as an empty candidate or description |
| Signalling.Observer.GetSignalingMessage | observer.cpp:396-403 | takes the oldest message, and fails exactly on an empty queue |
| Rotation.PermuteArgs | getopt.cpp:157-187 | the nested loops exchange the two blocks in place, for every length of the first block and every positive length of the second, and change nothing else |
| Rotation.OneCycleEach | getopt.cpp:172-186 | every place lies on exactly one of the gcd-many cycles, the one of its residue |
| Rotation.OrbitFresh | getopt.cpp:175-179 | before a cycle closes each step reaches a new place |
| Rotation.OrbitCovers | getopt.cpp:175-179 | a cycle visits every place congruent to its start |
| Rotation.ComputeGcd | getopt.cpp:137-150 | the loop yields the common divisor that every common divisor divides |
| Rotation.Bezout | getopt.cpp:137-150 | the divisor is a combination of the two numbers |
| ArgScanner.LongMatchMeans | getopt.cpp:220-243 | the search finds the first option of just that name, else the first it abbreviates, unless another it abbreviates means something else |
| ArgScanner.MeaningIsUnique | getopt.cpp:220-243 | no name has two meanings |
| ArgScanner.Getopt.ParseLongOptions | getopt.cpp:194-316 | code, argument, `optopt`, `optind`, index and stored flag of one long option |
| ArgScanner.Getopt.ScanPlace | getopt.cpp:435-513 | the answer to one option letter or long option, the missing-argument and -W paths included, and the fall-through of a long option that answers -1, with every field after it |
| ArgScanner.ScanOption | getopt.cpp:435-513 | an option uses arguments or characters and moves at most one place past argc; where no long option answers -1 it stays within argc and uses one or the other, but for a lone trailing dash |
| ArgScannerSpelling.FlagAnswer | getopt.cpp:491-493 | a letter without argument is answered, and the scan stays in the argument while characters are left |
| ArgScannerSpelling.AttachedAnswer | getopt.cpp:494-497 | what follows a letter with an argument is its argument, and one argument is used |
| ArgScannerSpelling.SeparateAnswer | getopt.cpp:498-509 | with nothing behind the letter the next argument is its argument, and both are used |
| ArgScannerSpelling.MissingAnswer | getopt.cpp:499-504 | without a next argument the answer is ":" or "?", by the front of the letters |
| ArgScannerSpelling.OptionalAnswer | getopt.cpp:494-509 | an optional argument that is not attached is missing, and one argument is used |
| ArgScannerSpelling.UnknownAnswer | getopt.cpp:457-473 | a colon or a character that is no letter is answered "?" |
| ArgScannerSpelling.LoneDash | getopt.cpp:380-381 | a lone dash is an option exactly where it is a letter |
| ArgScannerSpelling.LongAnswer | getopt.cpp:250-316 | a long option takes what stands behind its "=", and answers or stores its value |
| ArgScannerSpelling.LongSeparateAnswer | getopt.cpp:276-283 | without "=" a needed argument is the next one, and both are used |
| ArgScannerSpelling.LongRefusal | getopt.cpp:250-297 | an argument that is not taken, or one that is missing, is refused |
| ArgScannerSpelling.LongUnknown | getopt.cpp:243-306 | a name that means nothing or more than one thing is answered "?" |
| ArgScannerSpelling.WAttached | getopt.cpp:474-490 | "-Wname" is answered like "--name" |
| ArgScannerSpelling.WSeparate | getopt.cpp:474-490 | so is "-W name", with one argument more |
| ArgScannerSpelling.WMissing | getopt.cpp:477-483 | "-W" as the last argument is refused |
| ArgScannerSpelling.Modes | getopt.cpp:349-354 | a "+" or "-" in front of the letters is none: the scan stops at a non-option, or answers it as 1 |
| ArgScanner.Getopt.Finish | getopt.cpp:362-379 | at the end the used arguments come first, then the skipped ones, `optind` at the first of those |
| ArgScanner.Getopt.SkipArgument | getopt.cpp:398-410 | a non-option joins the skipped block in order, after the rotation if one is due |
| ArgScanner.Getopt.GetoptInternal | getopt.cpp:322-513 | one call answers as if nothing had moved, for any option table; it files each argument it passes as used or skipped and keeps the three-block layout, also in the middle of a name that fell through |
| ArgScanner.RotationSorts | getopt.cpp:364-369 | exchanging the skipped block with what was used since sorts the arguments |
| ArgScannerRun.Run | getopt.cpp:356-432 | with a sound table a whole run answers as if nothing moved; unless it gave up it leaves argv stably partitioned with `optind` at the first non-option, and otherwise with the last rotation undone and `optind` where it gave up |
| ArgScannerSpelling.ListLeads | getopt.cpp:356-513 | whatever list of words, letters with attached, separate, missing or no arguments, and long options is spelled in argv, a run answers just what the list says before it goes on |
| ArgScannerSpelling.RunOfList | getopt.cpp:356-513 | at the end of such a list, or behind "--", argv holds the options first and the words behind them, with `optind` at the first word |
| ArgScannerSpelling.ServerArguments | server.cpp:158-169 | `-i a -p b` answers "i" with a and "p" with b, for all a and b |
| ArgScannerRun.PartitionPermutes | getopt.cpp:356-432 | the partition is a permutation of the arguments |
| ArgScannerRun.StuckNeedsPlainDash | getopt.cpp:465-466 | the scan gives up only without long options and with '-' no option letter |
| ArgScannerEnds.SoundExactly | getopt.cpp:435-513 | option tables are sound exactly if no call answers -1 for an option and no long option falls through |
| ArgScannerEnds.EndsEarlyExactly | getopt.cpp:451-490 | some call answers -1 for an option exactly if 255 is a letter, or "W;" is among them and a front of a name stands for a flagless long option of value -1, or "-" does and is no letter |
| ArgScannerEnds.EarlyHasCause | getopt.cpp:441-513 | that condition is necessary wherever the scan stands, also in the middle of a name that fell through |
| ArgScannerEnds.SteadyExactly | getopt.cpp:449-455 | long options fall through exactly in tables where a front of a name stands for a flagless one of value -1 |
| ArgScannerEnds.FallThroughSwallows | getopt.cpp:449-469 | an option that falls through uses up at least one argument more than its own; but for the name "-", which ends the scan |
| ArgScannerEnds.PlainNameSwallowsOne | getopt.cpp:449-493 | just one more, if the name is made of letters that take no argument |
| ArgScannerEnds.PlainLetter | getopt.cpp:457-493 | what is answered for such a letter does not depend on the arguments left, so the one used up is not looked at |
| ArgScannerEnds.FooSwallows | getopt.cpp:449-469 | "--foo" of value -1 answers '?' three times, and the argument behind it is used unseen |
| ArgScannerEnds.FooUsesTwo | getopt.cpp:449-469 | it uses up two arguments |
| ArgScannerEnds.LeavesExactly | getopt.cpp:449-513 | some option makes the code read past an end or moves `optind` past argc exactly if a front of a name stands for a flagless long option of value -1, other than "-" for one without argument where '-' is no letter |
| ArgScannerEnds.FooLeaves | getopt.cpp:449-469 | "--foo" alone does |
| ArgScannerEnds.LetterEndsEarly | getopt.cpp:491-512 | an option letter 255 answers -1, whether or not it takes an argument |
| ArgScannerEnds.DashesEndEarly | getopt.cpp:451-466 | "---" answers -1 where the name "-" stands for such an option and '-' is no letter |
| ArgScannerEnds.NameEndsEarly | getopt.cpp:474-490 | "-W name" returns the -1 |
| ArgScannerEnds.SpanIsNoneExactly | getopt.cpp:456-467 | the scan gives up in an argument exactly if it ends in a dash that is no option and no letter before takes an argument, without long options |
| ArgScannerEnds.StuckAtArgument | getopt.cpp:456-467 | a run that gives up does so at the first argument it did not file, and any other run files all or ends behind "--" |
| ArgScannerEnds.SomeInputSticks | getopt.cpp:465-466 | some arguments make the scan give up exactly without long options and with '-' no option letter |
| ArgScannerEnds.DashColonDash | getopt.cpp:456-467 | "-:-" is such an argument |
| ArgScannerEnds.InterruptedIsPartitioned | getopt.cpp:362-379 | the order a run that gives up leaves is the partition exactly if nothing was skipped or nothing was used since; `optind` is the first non-option exactly if nothing was skipped |
| ArgScannerEnds.MarksMean | getopt.cpp:391-432 | what a run files as skipped is a non-option, and what it uses next is an option |
| ArgScannerRun.CallProgress | getopt.cpp:359-513 | a call that does not answer -1 uses up arguments, or characters of the current one |
| SignallingSafety.RunIsSafe | server.cpp:202-286 | the invariant holds in every state any interleaving reaches |
| SignallingSafety.StepKeeps | webrtc_connection.cpp:83-126 | every step of a worker, a callback or the accept loop keeps the invariant |
| SignallingSafety.ProducedIsDelivered | webrtc_connection.cpp:97-109 | messages produced are those sent, then the one in the worker's hands, then the queue; each went alone over a wait request of that very peer, and no two shared a socket |
| SignallingProgress.SendsOldest | webrtc_connection.cpp:97-109 | a worker that finds a message and holds a socket has, seven of its steps later, sent the oldest message over that socket, deleted it once and let it go; nothing else has changed |
| SignallingProgress.DeliversWhateverHappens | webrtc_connection.cpp:98-105 | whatever other threads do in between: once it has the mutex and a socket, five of its steps deliver the oldest message over it, and the rest of the queue is still there |
| SignallingProgress.KeepsWithoutSocket | webrtc_connection.cpp:97-109 | without a socket the queue stays as it is |
| SignallingProgress.NothingToSend | webrtc_connection.cpp:97 | without a message the worker goes on without the mutex |
| SignallingProgress.HandlesFirst | webrtc_connection.cpp:92-95 | a message posted to the worker is handled two steps later, the oldest first |
| SignallingProgress.WaitsInVain | message_queue.cpp:22-27 | with nothing posted it goes on when the time is up |
| SignallingProgress.ComesRound | webrtc_connection.cpp:91-121 | the worker of a live connection is back at its queue three steps after the check |
| SignallingProgress.Ends | webrtc_connection.cpp:110-125 | that of a dead one ends |
| SignallingProgress.InboxDrains | webrtc_connection.cpp:91-121 | by its own steps a live worker handles everything posted to it, in order, and is back at its queue |
| SignallingProgress.NeverBlocked | webrtc_connection.cpp:91-125 | in every reachable state a worker that has not ended has a step |
| SignallingProgress.MessageReachesWait | server.cpp:202-286 | from the start: a peer signs in and waits, a callback queues a message, and the socket of the wait carries it and is closed |
| SignallingSafety.SocketsAreUsedOnce | server.cpp:264-285 | each socket carries at most one message or reply and is deleted at most once; no step uses a deleted or null socket or a deleted connection |
| SignallingSafety.NoStepAfterDeletion | server.cpp:206-212 | once the accept loop deleted a connection its worker has no step left |
| SignallingSafety.GetFindsMessage | webrtc_connection.cpp:97-100 | the queue found non-empty is still so when the worker takes from it |
| SignallingSafety.LifecycleMovesOn | webrtc_connection.cpp:84-125 | the state of a connection only moves from INIT to CONNECTED to END |
| SignallingSafety.RoutingIsExact | server.cpp:249-262 | up to 2^32 sign-ins every connection received exactly what was addressed to its id while it was listed, in order |
| SignallingReplies.MessageIsPosted | server.cpp:249-263 | a message request reaches the inbox of the connection it names and is answered, and nothing else changes |
| SignallingReplies.MessageIsDropped | server.cpp:249-263 | one that names nobody is answered all the same |
| SignallingReplies.WaitIsHeld | server.cpp:264-276 | the socket of a wait goes to the connection it names, unanswered and open |
| SignallingReplies.WaitIsIgnored | server.cpp:264-276 | a wait for an id nobody has is not answered |
| SignallingReplies.SignInAddsPeer | server.cpp:240-246 | a sign-in adds a fresh connection with the next id and is answered |
| SignallingReplies.SignOutIsIgnored | server.cpp:247-248 | a sign-out is not answered |
| SignallingReplies.PageIsAnswered | server.cpp:235-239 | a page is answered once |
| SignallingReplies.UnparsableIsClosed | server.cpp:229-233 | a request that cannot be parsed is closed unanswered |
| SignallingReplies.SweepsOut | server.cpp:203-217 | a sweep deletes just the ended connections; the others, and the order of the list, stay |
| SignallingSafety.PeersAreDistinct | server.cpp:242 | up to 2^32 sign-ins no two connections have the same id |
| SignallingSafety.IdsRepeat | server.cpp:242 | the connection after the next 2^32 gets the same id |
| SignallingRuns.DistinctExactly | server.cpp:240-242 | after any run the ids are distinct exactly if there are at most 2^32 connections |
| SignallingRuns.AnyNumberOfPeers | server.cpp:202-286 | any number of connections is reached by that many sign-ins |
| SignallingRuns.TooManyPeers | server.cpp:240-242 | from the start: after 2^32 + 1 sign-ins two peers share an id |
| SignallingLeaks.AbandonedForever | server.cpp:264-285 | a socket that nobody but an ended connection holds and the accept loop is done with is never answered or deleted any more |
| SignallingLeaks.ServingDecides | server.cpp:229-285 | serving a request leads to the decision about its socket exactly if the request could be parsed and does not hand the socket over |
| SignallingLeaks.ClosedIffCloseWait | server.cpp:284-285 | of such a request the socket is open until the accept loop decides, and after that, in every continuation, closed exactly if `closeWait` was set |
| SignallingLeaks.CloseWaitFalls | server.cpp:266-276 | a step clears `closeWait` exactly when a wait request finds its peer, and none sets it |
| SignallingLeaks.LettingGo | webrtc_connection.cpp:50-104 | a connection lets go of a socket after one message and one delete, or to a later wait of the same peer, unanswered and not deleted; either way for ever |
| SignallingLeaks.SecondWaitLeaks | webrtc_connection.cpp:50-53 | a second wait of a peer abandons the socket of the first, unanswered and not deleted |
| SignallingLeaks.EndedHolderLeaks | webrtc_connection.cpp:29-30 | the socket a connection holds when its worker ends is open, unanswered, and stays so in every continuation |
| SignallingLeaks.SweptHolderLeaks | server.cpp:208-212 | so is the socket of a connection deleted with a wait pending |
| SignallingLeaks.NothingClosedAfterWait | server.cpp:272-285 | after the first wait that found its peer, the socket of a request that was served is open, and stays open in every continuation |
| SignallingLeaks.CloseWaitStaysOff | server.cpp:201-285 | once cleared, `closeWait` stays cleared in every continuation |
| SignallingRuns.PageStaysOpen | server.cpp:202-286 | from the start: sign in, wait, ask for a page; the socket of the page is never closed |
| SignallingRuns.FirstWaitStaysOpen | server.cpp:264-276 | from the start: sign in, wait twice; the first socket is never answered or closed |
| SignallingRuns.PendingWaitStaysOpen | server.cpp:203-217 | from the start: a peer signs in, waits, ends and is swept away; its socket is never answered or closed |
| SignallingServer.FindPeer | server.cpp:266-276 | the search yields a listed connection with that id, or none has it |
| InboundQueue.MessageQueue.Dequeue | message_queue.cpp:22-31 | the wait loop yields the oldest message, or fails on a timeout |
| InboundQueue.AwaitConserves | message_queue.cpp:15-31 | first in, first out, and nothing is lost, whatever arrives during the waits |
| InboundQueue.FailsOnTimeout | message_queue.cpp:24-27 | it fails exactly when the queue is empty and stays so until a wait times out |
| InboundQueue.FailsWithMessageExactly | message_queue.cpp:22-31 | it fails although a message is queued exactly when the queue stays empty until a wait that times out together with a message |
| InboundQueue.LateMessageWaits | message_queue.cpp:22-31 | one message that comes with the timeout: the call fails and leaves it queued |
| GrowingBuffer.CopyingIsLinear | webrtc/include/webrtc/base/buffer.h:320-339 | whatever the operations, reallocation with headroom copies at most four times the largest size asked for in all, and nothing else copies unless an exact capacity is reserved |
| GrowingBuffer.ReservingIsQuadratic | webrtc/include/webrtc/base/buffer.h:298-302 | reserving one more element after each append copies n(n+1)/2 elements with n+1 the largest request |
| GrowingBuffer.OperationAmortises | webrtc/include/webrtc/base/buffer.h:227-309 | each operation keeps the size within the capacity and the copies within what the capacity pays for |
| GrowingBuffer.PeakIsLargestRequest | webrtc/include/webrtc/base/buffer.h:230-309 | the recorded peak is the largest size the operations asked for |
| GrowingBuffer.TenAppends | webrtc/include/webrtc/base/buffer.h:320-339 | ten elements appended one by one end in a capacity of 13 after copying 25 |
| GrowingBuffer.BufferT.AppendData | webrtc/include/webrtc/base/buffer.h:230-238 | the contents are the old ones followed by the source |
| GrowingBuffer.BufferT.SetSize | webrtc/include/webrtc/base/buffer.h:290-293 | contents are truncated, or kept as a prefix |
| GrowingBuffer.BufferT.EnsureCapacityWithHeadroom | webrtc/include/webrtc/base/buffer.h:320-339 | reallocation keeps the contents and grows by the 1.5 rule, or to the exact capacity |
| GrowingBuffer.BufferT.EnsureCapacity | webrtc/include/webrtc/base/buffer.h:298-302 | the contents stay and the capacity is the larger of the old one and the request |
| HttpRoundTrip.ParseInvertsPrint | http.cpp:79-139 | parsing a printed request is true and gives back method, command, ordered parameters and version, with the data right behind the first blank line (section 3 of RFC 7230) |
| HttpRoundTrip.TrueOnBlankLine | http.cpp:93-138 | unless it throws the parser answers true exactly when the document starts with a line break or holds two in a row |
| HttpExceptions.UrlThrowsOnSegment | http.cpp:48-55 | reading a URL throws exactly when its last segment is question marks alone |
| HttpExceptions.UrlThrowsExactly | http.cpp:42-75 | that is so exactly if the URL up to its first zero ends in question marks behind its start or a slash, slashes at the end aside |
| HttpExceptions.FirstLineThrowsExactly | http.cpp:100-108 | a first line throws exactly if it has a second field that is such a URL |
| HttpExceptions.HeadersDoNotThrow | http.cpp:109-129 | no line but the first throws |
| HttpExceptions.MessageThrowsExactly | http.cpp:79-139 | the parser throws exactly if the first line break ends a non-empty line that throws |
| HttpExceptions.QuestionMarkThrows | http.cpp:48-55 | "GET /? HTTP/1.1" with its line break throws |
| HttpRoundTrip.RunsOfJoin | http.cpp:3-32 | splitting at a character undoes joining non-empty fields free of it |
| HttpRoundTrip.UrlRead | http.cpp:42-75 | a printed URL gives back the command and the parameters in order |
| HttpRoundTrip.PragmaIsRead | http.cpp:115-116 | the id in a Pragma header is read as the number written exactly if it is below 2^31, and as 2^31 - 1 from there on |
| HttpHeaders.ContentLengthIsRead | http.cpp:113-114 | the line "Content-Length: " sets the size to the number behind it |
| HttpHeaders.PragmaLineIsRead | http.cpp:115-116 | the line "Pragma: " sets the id |
| HttpHeaders.OriginIsRead | http.cpp:117-118 | the line "Origin: " sets the origin to the rest of the line |
| HttpHeaders.ConnectionIsRead | http.cpp:119-121 | the line "Connection: " keeps the connection exactly if "keep-alive" follows |
| HttpHeaders.OthersAreIgnored | http.cpp:112-121 | a line without a space or of any other name changes nothing |
| HttpHeaders.NumberIsRead | http.cpp:114-116 | a number is read behind white space and a sign up to what is no digit, and cut off at the ends of `int` |
| HttpHeaders.NoNumberIsZero | http.cpp:114-116 | a text without a number is 0 |
| HttpHeaders.NegativesWrap | http.cpp:114-116 | a negative number becomes the one 2^32 above it |
| HttpFields.RunsAreFields | http.cpp:3-32 | the runs the loop finds in any text are its fields |
| HttpFields.UrlMeans | http.cpp:42-75 | any URL names the command and the parameters of its last segment |
| HttpFields.FirstLineMeans | http.cpp:100-108 | any first line names method, URL and version, as far as it goes |
| PeerIds.IdReachesItsPeer | server.cpp:249-254 | a request that names a listed peer in its Pragma header finds it exactly if the id is below 2^31 |
| HttpParser.SplitString | http.cpp:3-32 | the loop finds the non-empty runs between delimiters |
| HttpParser.ParseUrl | http.cpp:42-75 | the three nested splits yield command and parameters, or throw |
| HttpParser.ParseHttpMessage | http.cpp:79-139 | the scanning loop reads the lines of the message one by one |
| HttpParser.LineEnd | http.cpp:93-95 | a line ends at the first CRLF |

## Left out

- Doubles: `decodeDouble` and `valueToString(double)` are parameters of reader and writers; the round trips cover values without reals.
- Comments of the JSON code: that collecting them can throw is modelled; to which value a comment belongs, and their printing, are left out.
- `Reader`, `StyledWriter`, `StyledStreamWriter`, `Json::Path`, iterators and builder validation: near-duplicates or accessors; of `Reader` only the number decoding is modelled.
- `Value::resize` upward, which makes sparse arrays; arrays here are dense lists.
- `extra_` locations of reader errors and the formatting of error messages.
- JsonReader.OurReader.Parse: the node stack holds values that are written back when popped, so the aliasing of the stack's pointers with the tree is not captured.
- IceBatch.BatchRoundTrip: indices are the 32-bit `int` of the interface, and strings are well-formed UTF-8 of at most 2^31 - 6 bytes, without which a candidate does not survive printing or reading.
- ArgScanner.Getopt.GetoptInternal: `optreset`, POSIXLY_CORRECT, `getopt_long_only`, a null option string and the printing of warnings are left out; argc is at least 1. A name that fell through can leave `optind` past the end of argv; the calls after that, which move the null pointer into argv, are not modelled, and nothing is said once the code read past the end of a string or of argv.
- Signalling.Observer.OnSignalingMessage: what WebRTC makes of a session description is a parameter, and the fields of the description are not modelled; an exception that leaves a handler ends the process there, so the step system of the server has no such step.
- ArgScannerRun.Run: option tables that are not `Sound` and settings that do not permute are left to the contract of one call. It and the lemmas about the marks of a run (`PartitionPermutes`, `SpanIsNoneExactly`, `StuckAtArgument`, `InterruptedIsPartitioned`, `MarksMean`) are about tables in which no long option falls through; `ArgScannerEnds.SteadyExactly` says which those are.
- HttpParser.ParseHttpMessage: `atoi` is that of the Microsoft compiler the makefile names, which stops at the ends of `int` (the C standard leaves an overflow open); the byte of the buffer behind the message is the terminating zero.
- GrowingBuffer.BufferT.EnsureCapacityWithHeadroom: sizes do not wrap around; moved-from buffers are left out.
- The server's classes are modelled on values, as a step system, because the claims are about interleavings: the fields of connection, worker and accept loop are parts of one state and each access is a step.
- JsonRoundTrip.LayoutRoundTrip: names of members are shorter than 2^30 bytes and strings at most 2^31 - 6 (the reader throws on longer ones); string lengths do not wrap around 32 bits; the 32-bit index of array elements does not wrap around.
- SignallingServer.ServeStep: a message request always has a body (without one the code makes a string of a null `data`); reading and parsing a request, the pages and the text of replies are one step; unsynchronised reads of `m_state` and `m_alive` are taken as atomic.
- SignallingSafety.NoStepAfterDeletion: joining the thread is modelled as waiting for `Run` to return.
- JsonSpelling.AcceptsExactly: it speaks of documents the reader does not throw on; when it throws is the subject of `JsonDepth`, `JsonComments` and `JsonQuirks`.
- ArgScannerSpelling.ListLeads: the items of a list are words, letters and long options; `-W name` and a letter `-` are covered for one option alone.
- SignallingProgress.SendsOldest: progress is by steps of the worker; that a thread is scheduled and a wait ends is up to the environment.
- Sockets, TLS, file access, logging, and WebRTC itself.
