# A verified model of the face detection service

The service answers HTTP requests whose bodies are JSON documents. This project models, in Dafny, the parts of its
repository in which the logic is hard to see through, and proves what each of them is for:

- `Matching`: the maximum bipartite matching that googlemock's matcher for unordered elements rests on. One
  Ford-Fulkerson pass over two arrays, with a recursive search that shares its marks, is proved to give a matching that
  no other exceeds, by a trap that grows with every failed search; a failed pairing comes with a Hall violator.
- `Json*`: the JSON reader and two of its writers. `JsonGrammar` says what the reader computes on every byte string,
  `JsonComments` what the comments it collects do to it, and the class in `JsonReader`, with its cursor, its node stack
  and its collected comments, is proved to compute both. `JsonThrows` says, for every document and all settings, when
  reading throws. `JsonLayout` says what it is for a text to lay out the tokens of a value; `JsonWriter` proves that
  both writers' loops, the side buffer of the styled one included, produce such layouts, and `JsonRoundTrip` that every
  layout is read back as the value. The others cover string escapes, integers and the order on values.
- `Http*`: the incremental request parser and the serializer. `HttpParsing` describes a call of the parser as a function
  of its state and of the bytes of one read, and the class in `HttpParser` is proved to compute it. `HttpFragments` and
  `HttpReads` prove that the cutting of a request into reads does not matter, and exactly when it does;
  `HttpRoundTrip`, `HttpChunked`, `HttpMultipart` and `HttpUpload` prove that plain, chunked and multipart requests come
  back as they were sent, again with the exact conditions; plain and chunked ones on new parsers and on reused ones.
  `HttpReuse` says what becomes of a second upload on one connection.
- `Protocol*`, `Server`, `Workers`: the event loop and the worker threads. `Protocol` is a state machine whose steps are
  critical sections, notifications and callbacks; the invariants are proved for every interleaving, any number of
  workers and spurious wake-ups, and so is the end of every shutdown. A parse that throws or never returns and a handler
  that throws are among the steps. `Server` does the same steps on shared fields, and follows any schedule of them.
- `Base64`, `Url`, `Primes`: two Base64 implementations against one definition, percent-encoding and query parameters,
  and three prime tests with a table that combines two of them.
- `Service`: the handler that joins them. An image sent as Base64 in a JSON document, in a request that arrives in any
  reads, is proved to reach the detector as the bytes it was, and the reply to be read as the faces found. `JsonSound`
  proves that whatever document is read, the value left behind has integers in range, byte strings and ordered members,
  and is read again as exactly the same value from any text that lays it out.

`Wrappers` holds the `Option` type. `dafny verify dfyconfig.toml` checks the whole project.

Bytes are characters below 256 where texts are parsed, and 8-bit vectors in Base64. Integers are unbounded; where the
width of the program's integers shows, it is written out: the two's-complement conversions of the JSON numbers, the
64-bit sum of a chunk size and two, the 25-byte print buffer. Loops over mutable state are loops over mutable state
here too, each proved equal to a function, and the theorems are about the functions.

## Where the code and its evident intent differ

The model follows the code. In these cases the difference is itself proved.

- The escaper decodes malformed UTF-8 to the replacement character, so a string survives quoting exactly if it is
  well-formed (`JsonText.UnescapeEscape`).
- The shortcut for strings that need no quoting is taken for the empty string only
  (`JsonText.IsAnyCharRequiredQuoting`).
- A number token that is a lone minus sign decodes to 0 (`JsonNumber.LoneMinus`), and -2^63 is reached by a negation
  that wraps (`JsonNumber.DecodeNumber`); the older reader takes that number apart (`JsonNumber.DecodeNumberOlder`).
- Where single quotes are not allowed for strings, a quote starts a comment, but a value accepts no comment that starts
  with one. With the default settings such a comment makes reading throw (`Service.QuotedLineThrows`), and so the
  reader's exceptions are not only those of its limits; the exact condition is `JsonThrows.ParseThrows`.
- A read that ends strictly inside a chunk-size line makes the chunk decoder append a length that wraps around, which
  throws (`HttpChunked.PartOfBody`, `HttpChunked.ChunkedReadsThrow`).
- The parser's reset keeps the multipart step. After an upload that has been read to its end, any other upload on the
  same connection makes the parser hang, or, if a read ends just behind its headers, lose all its parts
  (`HttpReuse.UploadAfterUpload`). The multipart round trip is therefore about parsers that have not ended one.
- A part without data is refused, and the end flag is set before the boundary itself is compared, so that a line of the
  right length between dashes ends a body early (`HttpUpload.PartsComeBack`).
- The search for the next prime by trial division gives -1 for every negative start (`Primes.NextPrimeOnTheFly`).
- The buffer that the decoder of Base64 texts sets aside suits lengths divisible by four; for others there is an exact
  condition (`Base64.DecodedFits`).

## Model

| member | source | states |
|---|---|---|
| Matching.MaxBipartiteMatchState.constructor | facedetection_va/googletest/googlemock/src/gmock-matchers.cc:200-204 | all nodes start unmatched |
| Matching.MaxBipartiteMatchState.TryAugment | facedetection_va/googletest/googlemock/src/gmock-matchers.cc:259-285 | a successful search gives the element a partner that was not marked, keeps every matched element matched and leaves at most one stale entry, that of the partner the element had; a failed one changes neither array and leaves a dead end |
| Matching.AugmentedThrough | facedetection_va/googletest/googlemock/src/gmock-matchers.cc:277-281 | the mutual reference that a deeper search has broken is restored by the two writes after it |
| Matching.MaxBipartiteMatchState.Compute | facedetection_va/googletest/googlemock/src/gmock-matchers.cc:207-238 | one pass, one search per element, ends with arrays in mutual reference and a trap that no augmenting path leaves |
| Matching.MaximumMatching | facedetection_va/googletest/googlemock/src/gmock-matchers.cc:210-221 | no matching of the graph has more edges than the one the pass ends with |
| Matching.TrapGivesHallViolator | facedetection_va/googletest/googlemock/src/gmock-matchers.cc:331-343 | if some matcher is unmatched, the matchers outside the trap have fewer elements between them than there are such matchers |
| Matching.HallViolatorRefutesPairing | facedetection_va/googletest/googlemock/src/gmock-matchers.cc:331-343 | such a set of matchers rules out every pairing |
| Matching.FullMatchingIsPairing | facedetection_va/googletest/googlemock/src/gmock-matchers.cc:332-356 | a matching that uses every matcher is a pairing |
| Matching.FindMaxBipartiteMatching | facedetection_va/googletest/googlemock/src/gmock-matchers.cc:307-310 | the result is a matching, no matching is larger, it lists nothing twice, and it has as many pairs as matchers exactly if a pairing exists; otherwise there is a Hall violator |
| Matching.FindPairing | facedetection_va/googletest/googlemock/src/gmock-matchers.cc:328-357 | true exactly if every matcher can be given an element of its own; when false, a Hall violator is exhibited |
| Matching.VerifyAllElementsAndMatchersAreMatched | facedetection_va/googletest/googlemock/src/gmock-matchers.cc:443-495 | true exactly if no element and no matcher is isolated |
| Matching.IsolatedNodeRefutesPairing | facedetection_va/googletest/googlemock/src/gmock-matchers.cc:443-495 | in a square graph an isolated element or matcher rules out every pairing |
| Matching.MatchElements | facedetection_va/googletest/googlemock/include/gmock/gmock-matchers.h:3385-3403 | true exactly if there are as many elements as matchers and a pairing exists: the quick check loses nothing |
| JsonText.EncodingIsWellFormed | facedetection_va/json/jsoncpp.cpp:125-151 | what is written for a Unicode scalar value begins with a well-formed character |
| JsonText.CodepointRange | facedetection_va/json/jsoncpp.cpp:4335-4384 | the decoder never gives a surrogate, whatever the bytes |
| JsonText.Utf8ToCodepoint | facedetection_va/json/jsoncpp.cpp:4335-4384 | each turn uses up at least one byte and none beyond the end |
| JsonText.IsAnyCharRequiredQuoting | facedetection_va/json/jsoncpp.cpp:4323-4333 | true exactly if the string is not empty: every byte meets one of the conditions |
| JsonText.ValueToQuotedStringN | facedetection_va/json/jsoncpp.cpp:4414-4481 | the loop writes the quoted form of the string, for every byte string including NUL |
| JsonText.DecodeString | facedetection_va/json/jsoncpp.cpp:1875-1926 | the decoder computes the unescaped text or refuses, on every token |
| JsonText.DecodeUnicodeCodePoint | facedetection_va/json/jsoncpp.cpp:1928-1953 | a code point in one escape, or in two for a surrogate pair |
| JsonText.DecodeUnicodeEscapeSequence | facedetection_va/json/jsoncpp.cpp:1955-1980 | four hexadecimal digits, or an error |
| JsonText.UnescapeSurrogatePair | facedetection_va/json/jsoncpp.cpp:1928-1953 | a supplementary code point written as two escapes is read back as itself |
| JsonText.WellFormedReadsBack | facedetection_va/json/jsoncpp.cpp:4335-4384 | a well-formed character survives decoding to a code point and encoding again |
| JsonText.MalformedChanges | facedetection_va/json/jsoncpp.cpp:4335-4384 | malformed input comes back as something it does not begin with |
| JsonText.UnescapeEscape | facedetection_va/json/jsoncpp.cpp:4414-4481 | unescaping the escaped form always succeeds, and gives the string back exactly if it is well-formed UTF-8 |
| JsonNumber.UintToString | facedetection_va/json/jsoncpp.cpp:167-173 | the digits are written backwards, end with the terminator, and nothing else is touched; the callers prove that their 25 bytes are enough |
| JsonNumber.SignedToString | facedetection_va/json/jsoncpp.cpp:4236-4250 | decimal text of every 64-bit signed number, the least one included |
| JsonNumber.UnsignedToString | facedetection_va/json/jsoncpp.cpp:4252-4258 | decimal text of every 64-bit unsigned number |
| JsonNumber.TooLarge | facedetection_va/json/jsoncpp.cpp:1786-1804 | when the guard stops the loop the number is above the largest the type can hold |
| JsonNumber.DecodeMagnitude | facedetection_va/json/jsoncpp.cpp:1786-1807 | the guarded loop never overflows and gives the number exactly if the digits denote one that fits |
| JsonNumber.DecodeNumber | facedetection_va/json/jsoncpp.cpp:1776-1815 | the token becomes an integer exactly if it is digits with an optional minus and its value is between -2^63 and 2^64-1, signed up to 2^31-1 and unsigned above |
| JsonNumber.DecodeNumberOlder | facedetection_va/json/jsoncpp.cpp:790-831 | the older reader, which takes the least integer apart, decodes every token alike |
| JsonNumber.LoneMinus | facedetection_va/json/jsoncpp.cpp:1776-1815 | a minus sign without digits is read as zero |
| JsonNumber.DecodePrinted | facedetection_va/json/jsoncpp.cpp:4236-4258 | printing then decoding is the identity on that range |
| JsonValue.Trichotomy | facedetection_va/json/jsoncpp.cpp:2944-2994 | of any two NaN-free trees exactly one is smaller or they are equal |
| JsonValue.Transitive | facedetection_va/json/jsoncpp.cpp:2944-2994 | the order is transitive on NaN-free trees |
| JsonValue.BytesTotal | facedetection_va/json/jsoncpp.cpp:2741-2756 | names are totally ordered by comparing the common prefix first |
| JsonValue.BytesTransitive | facedetection_va/json/jsoncpp.cpp:2741-2756 | that order on names is transitive |
| JsonValue.EqualIsEquality | facedetection_va/json/jsoncpp.cpp:3002-3042 | `==` is equality of trees when there is no NaN |
| JsonValue.CompareIsTotalOrder | facedetection_va/json/jsoncpp.cpp:2936-2942 | `compare` has the sign of a strict total order that agrees with `==` |
| JsonValue.NaNIsIncomparable | facedetection_va/json/jsoncpp.cpp:2944-2994 | a NaN is neither less than itself nor equal to itself, although it compares as 0: the restriction is needed |
| JsonGrammar.ReadToken | facedetection_va/json/jsoncpp.cpp:1414-1512 | every token lies within the document, and every token but the end of the document uses something up |
| JsonGrammar.Recover | facedetection_va/json/jsoncpp.cpp:1991-2002 | error recovery stays within the document |
| JsonGrammar.ReadValue | facedetection_va/json/jsoncpp.cpp:1313-1402 | reading a value stays within the document and succeeds exactly if no error was recorded |
| JsonGrammar.ReadMembers | facedetection_va/json/jsoncpp.cpp:1666-1726 | the loop over members ends on every byte string, even when a value un-reads a character, and succeeds exactly if no error was recorded |
| JsonGrammar.ReadElements | facedetection_va/json/jsoncpp.cpp:1728-1764 | the loop over elements does the same |
| JsonGrammar.ReadDocument | facedetection_va/json/jsoncpp.cpp:1265-1311 | without regard to what comments do, a document of any bytes is read to a verdict, good exactly if no error was recorded, or to an exception |
| JsonComments.Parse | facedetection_va/json/jsoncpp.cpp:1265-1311 | the same with the comments that are collected: reading ends on every document |
| JsonComments.FollowConcat | facedetection_va/json/jsoncpp.cpp:1535-1589 | the notes of collected comments can be followed piece by piece along a document, and a refused comment ends them |
| JsonThrows.LimitsThrow | facedetection_va/json/jsoncpp.cpp:1313-1318 | but for comments, reading throws exactly if the document opens a value beyond the stack limit, names a member with 2^30 bytes or more, or has a string too long for a value |
| JsonThrows.NotesGoOn | facedetection_va/json/jsoncpp.cpp:1568-1589 | what the reader keeps of the comments is where the last value ended and those that wait, and only a comment that starts with a quote is refused |
| JsonThrows.ParseThrows | facedetection_va/json/jsoncpp.cpp:1265-1324 | when reading throws, for every document and all settings: at a limit, or, when comments are collected, at one that starts with a quote and stands behind a value on its line or leads those that the next value or the root takes over |
| JsonThrows.OnlyLimitsThrow | facedetection_va/json/jsoncpp.cpp:1429-1439 | without collecting, with single quotes allowed, or if no quote stands before a slash or a star, comments never throw and the result is that of the reader without them |
| JsonThrows.LeadingQuoteThrows | facedetection_va/json/jsoncpp.cpp:3898-3908 | a document that begins with such a comment always makes the reader throw |
| JsonReader.OurReader.GetNextChar | facedetection_va/json/jsoncpp.cpp:2013-2017 | the cursor moves by one, or stays at the end |
| JsonReader.OurReader.Match | facedetection_va/json/jsoncpp.cpp:1524-1533 | the pattern is consumed exactly if it is there |
| JsonReader.OurReader.ReadCStyleComment | facedetection_va/json/jsoncpp.cpp:1591-1598 | the cursor ends where the comment does |
| JsonReader.OurReader.ReadCppStyleComment | facedetection_va/json/jsoncpp.cpp:1600-1614 | the cursor ends behind the line |
| JsonReader.OurReader.ReadComment | facedetection_va/json/jsoncpp.cpp:1535-1556 | a complete comment is collected, and throws exactly if the value before it refuses it |
| JsonReader.OurReader.IsOnSameLine | facedetection_va/json/jsoncpp.cpp:1544-1551 | the comment belongs to the value before it exactly if no line ends in between, nor inside a C comment |
| JsonReader.OurReader.NormalizedEOL | facedetection_va/json/jsoncpp.cpp:1558-1576 | all line ends become newlines |
| JsonReader.OurReader.SetComment | facedetection_va/json/jsoncpp.cpp:3898-3908 | throws exactly if the text, without a last newline, is empty or starts neither with a slash nor a NUL |
| JsonReader.OurReader.HandOverComments | facedetection_va/json/jsoncpp.cpp:1321-1324 | the comments that wait go to the value that starts, or throw |
| JsonReader.OurReader.ReadString | facedetection_va/json/jsoncpp.cpp:1642-1652 | the cursor ends behind the closing quote |
| JsonReader.OurReader.ReadNumber | facedetection_va/json/jsoncpp.cpp:1616-1641 | the cursor ends behind the number |
| JsonReader.OurReader.ReadTokenHere | facedetection_va/json/jsoncpp.cpp:1414-1512 | the token at the cursor, as the grammar has it, and the comment collected if it is one |
| JsonReader.OurReader.SkipCommentTokens | facedetection_va/json/jsoncpp.cpp:1404-1412 | the next token that is not a comment, if comments are allowed |
| JsonReader.OurReader.RecoverFromError | facedetection_va/json/jsoncpp.cpp:1991-2002 | tokens are skipped up to the one looked for or the end |
| JsonReader.OurReader.ReadValueHere | facedetection_va/json/jsoncpp.cpp:1313-1402 | the recursive descent on a cursor, a node stack and the collected comments computes what the grammar says and throws exactly when the grammar or a comment does; the height of the stack never exceeds the limit by more than one |
| JsonReader.OurReader.SetString | facedetection_va/json/jsoncpp.cpp:2585-2606 | the length of a string value is cut to 32 bits, and throws if that leaves no room for its prefix |
| JsonReader.OurReader.ReadObject | facedetection_va/json/jsoncpp.cpp:1666-1726 | the same for objects |
| JsonReader.OurReader.ReadArray | facedetection_va/json/jsoncpp.cpp:1728-1764 | the same for arrays |
| JsonReader.OurReader.ParseDocument | facedetection_va/json/jsoncpp.cpp:1265-1311 | the same for a whole document, where success means that no error was recorded; all ways to throw included |
| JsonLayout.LaysConcat | facedetection_va/json/jsoncpp.cpp:1514-1522 | texts laid out one after the other lay out their tokens one after the other |
| JsonLayout.ReadsInteger | facedetection_va/json/jsoncpp.cpp:1616-1641 | an integer that something delimits is read as one token |
| JsonLayout.ScanQuoted | facedetection_va/json/jsoncpp.cpp:1642-1652 | the scanner ends a quoted string exactly at its closing quote |
| JsonLayout.ReadsQuoted | facedetection_va/json/jsoncpp.cpp:1875-1926 | a quoted string is read as one token that decodes to the string |
| JsonRoundTrip.ReadsValue | facedetection_va/json/jsoncpp.cpp:1313-1402 | any layout of the tokens of a value, inside any document, is read as that value, or throws exactly if it nests too deep |
| JsonRoundTrip.ReadsObject | facedetection_va/json/jsoncpp.cpp:1666-1726 | the same for an object, including the map that members are stored in |
| JsonRoundTrip.ReadsArray | facedetection_va/json/jsoncpp.cpp:1728-1764 | the same for an array |
| JsonRoundTrip.ParseLaidOut | facedetection_va/json/jsoncpp.cpp:1265-1311 | a document that lays out a value is read as that value, whatever is done with comments; it throws exactly if the value is deeper than the limit, and is an error exactly for a scalar under strict roots |
| JsonRoundTrip.NormIsSame | facedetection_va/json/jsoncpp.cpp:3002-3042 | the value read is the value written, integers compared by their number |
| JsonWriter.FastWriter.Write | facedetection_va/json/jsoncpp.cpp:4504-4510 | the document the loops build is the recursive text of the value |
| JsonWriter.FastWriter.WriteValue | facedetection_va/json/jsoncpp.cpp:4512-4564 | the same for one value, appended to what was written |
| JsonWriter.FastDocumentLays | facedetection_va/json/jsoncpp.cpp:4504-4564 | that text lays out the tokens of the value |
| JsonWriter.FastRoundTrip | facedetection_va/json/jsoncpp.cpp:4504-4564 | reading it gives the value back |
| JsonWriter.BuiltStyledStreamWriter.PushValue | facedetection_va/json/jsoncpp.cpp:5218-5223 | a text goes to the stream or, while an array is measured, becomes the next entry of the side buffer |
| JsonWriter.BuiltStyledStreamWriter.WriteValue | facedetection_va/json/jsoncpp.cpp:5079-5139 | writes or pushes a layout of the tokens of the value |
| JsonWriter.BuiltStyledStreamWriter.WriteArrayValue | facedetection_va/json/jsoncpp.cpp:5141-5189 | all three array layouts lay out the same tokens |
| JsonWriter.BuiltStyledStreamWriter.IsMultilineArray | facedetection_va/json/jsoncpp.cpp:5191-5216 | when the side buffer has been filled it has exactly one entry for each element, and each lays out that element |
| JsonWriter.BuiltStyledStreamWriter.Write | facedetection_va/json/jsoncpp.cpp:5064-5077 | the text lays out the tokens of the value, for every indentation of spaces and either comment style |
| JsonWriter.LayoutNeverMatters | facedetection_va/json/jsoncpp.cpp:5064-5077 | any layout and the fast writer's text are read as the same value, or both are too deep |
| JsonSound.StoreSorted | facedetection_va/json/jsoncpp.cpp:1666-1726 | storing a member keeps the order of the map |
| JsonSound.StoreRepresentable | facedetection_va/json/jsoncpp.cpp:1666-1726 | and keeps an object that the program can represent such |
| JsonSound.UnescapeBytes | facedetection_va/json/jsoncpp.cpp:1875-1926 | decoding a string token gives bytes |
| JsonSound.ReadsRepresentable | facedetection_va/json/jsoncpp.cpp:1265-1311 | on every document, good or bad, the value left behind has integers in range, byte strings of limited length and ordered members |
| JsonSound.ReadsNormal | facedetection_va/json/jsoncpp.cpp:1265-1311 | and it has its integers in normal form, short names and no more depth than the limit |
| JsonSound.ReadAgain | facedetection_va/json/jsoncpp.cpp:1265-1311 | what was read from any document, good or bad, is read again as exactly the same value from any text that lays it out |
| Service.StringToJson | facedetection_va/FaceDetectionService.cpp:24-35 | what has been read is returned even if the document is in error; it throws exactly when reading does |
| Service.JsonToString | facedetection_va/FaceDetectionService.cpp:69-73 | the text lays out the tokens of the value |
| Service.ReadImage | facedetection_va/FaceDetectionService.cpp:38-54 | the identifier and the decoded bytes, or an exception |
| Service.FaceToJson | facedetection_va/FaceDetectionService.cpp:110-114 | members set in one order are stored in the order of their names |
| Service.Answer | facedetection_va/FaceDetectionService.cpp:100-118 | the reply built face by face is laid out |
| Service.Post | facedetection_va/FaceDetectionService.cpp:88-128 | the whole handler: which response it gives to every content of a request, an exception included, and the reply of the faces found |
| Service.ReadingThrows | facedetection_va/FaceDetectionService.cpp:24-35 | with the settings of the service, when a document makes the handler throw: at a limit or at a comment that starts with a quote, exactly |
| Service.QuotedLineThrows | facedetection_va/FaceDetectionService.cpp:24-35 | one line that starts with a quote and a slash before any good document makes the handler throw, although but for its comments the document would be read |
| Service.QuotedCommentThrows | facedetection_va/FaceDetectionService.cpp:24-35 | one such document |
| Service.ServiceRoundTrip | facedetection_va/FaceDetectionService.cpp:24-35 | what the service prints it reads back, unless the value is nested more than 1000 deep, for which it throws |
| Service.ImageComesBack | facedetection_va/FaceDetectionService.cpp:38-54 | the image read from a document is the one that was encoded into it |
| Service.ImageArrives | facedetection_va/FaceDetectionService.cpp:57-66 | an image posted as Base64 in a JSON document, in any layout and in any reads, the first request on its connection or a later one, reaches the handler as its bytes |
| Service.ReplyArrives | facedetection_va/FaceDetectionService.cpp:69-73 | the reply, in any layout, is read as the identifier and the faces |
| HttpText.Split2Parts | facedetection_va/webcc/utility.cc:18-32 | the two trimmed parts around the first separator |
| HttpText.FindCrlfExtends | facedetection_va/webcc/parser.cc:119-137 | data that arrives later does not move a line end that was found |
| HttpMessage.Headers.Find | facedetection_va/webcc/common.cc:86-94 | the first header with that name, ignoring case |
| HttpMessage.Headers.Set | facedetection_va/webcc/common.cc:48-64 | replaces the value of a header that is there, else appends |
| HttpMessage.Headers.Get | facedetection_va/webcc/common.cc:70-84 | the value and whether it was there |
| HttpMessage.SetKeepsDistinct | facedetection_va/webcc/common.cc:48-55 | names stay distinct, and the value set is the value got |
| HttpMessage.SetKeepsOthers | facedetection_va/webcc/common.cc:48-55 | headers with other names are not affected |
| HttpMessage.InitDisposition | facedetection_va/webcc/common.cc:170-199 | name and file name of a part, or refusal |
| HttpMessage.Request.CreateStartLine | facedetection_va/webcc/request.cc:78-97 | the request line, kept if there is one; throws exactly if it needs a host and has none |
| HttpMessage.Request.PrepareHeaders | facedetection_va/webcc/message.cc:90-112 | the buffers concatenate to start line, headers, empty line and content |
| HttpMessage.Request.Prepare | facedetection_va/webcc/request.cc:21-76 | the Host header, and for form parts the Content-Type, the sum of all buffers as Content-Length, and the framed parts behind the headers |
| HttpMessage.Request.PreparePart | facedetection_va/webcc/common.cc:226-250 | the buffers of one part concatenate to its boundary line, headers and data |
| HttpMessage.SizeOfConcat | facedetection_va/webcc/request.cc:64-69 | the sum of the buffer sizes is the length of what is sent |
| HttpParsing.HeaderLoop | facedetection_va/webcc/parser.cc:83-117 | the header loop never throws or hangs |
| HttpParsing.ChunkLoop | facedetection_va/webcc/parser.cc:220-269 | the chunk loop never hangs |
| HttpParsing.MultipartLoop | facedetection_va/webcc/request_parser.cc:50-149 | the multipart loop never throws |
| HttpParsing.NextBoundary | facedetection_va/webcc/request_parser.cc:201-228 | a boundary that is found is a line of the pending data |
| HttpParser.RequestParser.constructor | facedetection_va/webcc/parser.cc:32-41 | a new parser |
| HttpParser.RequestParser.Init | facedetection_va/webcc/request_parser.cc:17-20 | everything is reset but the multipart step and part |
| HttpParser.RequestParser.ParseData | facedetection_va/webcc/parser.cc:48-68 | one call with the bytes of one read moves the parser as the functional description says |
| HttpParser.RequestParser.ParseHeaders | facedetection_va/webcc/parser.cc:83-117 | complete lines are parsed and removed |
| HttpParser.RequestParser.ParseStartLine | facedetection_va/webcc/request_parser.cc:22-36 | three pieces between runs of blanks |
| HttpParser.RequestParser.ParseHeaderLine | facedetection_va/webcc/parser.cc:139-181 | length, type and transfer coding are noted, and the header is stored |
| HttpParser.RequestParser.FinishMessage | facedetection_va/webcc/parser.cc:298-336 | the content moves to the message |
| HttpParser.RequestParser.ParseFixedContent | facedetection_va/webcc/parser.cc:191-218 | content is complete at its announced length, or at once without one |
| HttpParser.RequestParser.ParseChunkedContent | facedetection_va/webcc/parser.cc:220-269 | the loop of the chunk decoder, with the case in which an append throws |
| HttpParser.RequestParser.ParseChunkSize | facedetection_va/webcc/parser.cc:271-296 | a size line is read if it is complete |
| HttpParser.RequestParser.ParseMultipartContent | facedetection_va/webcc/request_parser.cc:50-149 | the multipart step machine |
| HttpParser.RequestParser.ParsePartHeaders | facedetection_va/webcc/request_parser.cc:151-199 | the headers of a part, or a wait for more |
| HttpParser.RequestParser.GetNextBoundaryLine | facedetection_va/webcc/request_parser.cc:201-228 | the first line that is a boundary, and whether any line looked at set the end flag |
| HttpFragments.HeadersSplit | facedetection_va/webcc/parser.cc:83-117 | a header loop stopped by a lack of data goes on where it stopped |
| HttpFragments.ChunkSplit | facedetection_va/webcc/parser.cc:220-269 | chunk decoding goes on as if all had been read at once, although a partly read chunk lowers the chunk size |
| HttpFragments.PartHeadersExtend | facedetection_va/webcc/request_parser.cc:151-199 | part headers that were read before more data arrived may be read again without effect |
| HttpFragments.BoundaryExtends | facedetection_va/webcc/request_parser.cc:201-228 | a boundary that was found stays where it is |
| HttpFragments.MultipartSplit | facedetection_va/webcc/request_parser.cc:50-149 | multipart decoding goes on as if all had been read at once |
| HttpFragments.FixedSplit | facedetection_va/webcc/parser.cc:191-218 | the same for content of a given length |
| HttpFragments.ContentSplit | facedetection_va/webcc/request_parser.cc:38-48 | the same for every kind of body |
| HttpReads.ParseLive | facedetection_va/webcc/parser.cc:48-68 | a call on a live parser never hangs and leaves it live or finished |
| HttpReads.ReuseHangs | facedetection_va/webcc/request_parser.cc:50-149 | with the multipart step at the end, a call never returns exactly if the body is multipart and there is data |
| HttpReads.ParseSplit | facedetection_va/webcc/parser.cc:48-68 | parsing two pieces one after the other is parsing them together |
| HttpReads.FragmentsDoNotMatter | facedetection_va/webcc/parser.cc:48-68 | any number of reads gives the verdict, headers, content and finished flag of one read, if no read throws and none goes beyond the end |
| HttpReads.FixedCompletes | facedetection_va/webcc/parser.cc:191-218 | a body of exactly Content-Length bytes, or none, completes its request on a new or a reused parser, and nothing less does |
| HttpReads.AnyReadsComplete | facedetection_va/webcc/connection.cc:66-92 | such a request may be cut into reads in any way at all |
| HttpReads.MultipartCompletes | facedetection_va/webcc/request_parser.cc:50-149 | a multipart body that leaves nothing pending completes its request, and nothing less does |
| HttpReads.FeedAgrees | facedetection_va/webcc/parser.cc:48-68 | if a part of the text that completes the request says all there is to say, the verdict and the message are the same in any reads, even if the end comes early |
| HttpReads.MultipartIsStable | facedetection_va/webcc/request_parser.cc:50-149 | multipart requests are of that kind |
| HttpChunked.ChunkedBody | facedetection_va/webcc/parser.cc:220-269 | the content of a chunked body is the concatenation of its chunks |
| HttpChunked.PartOfBody | facedetection_va/webcc/parser.cc:220-296 | a read that ends inside the body leaves the parser waiting, or makes it throw exactly if it ends strictly inside a size line |
| HttpChunked.PartOfRequest | facedetection_va/webcc/parser.cc:220-296 | the same for the whole request, which is complete exactly when the zero-size line is |
| HttpChunked.ChunkedReads | facedetection_va/webcc/parser.cc:220-296 | in any reads none of which ends inside a size line the request is completed with that content |
| HttpChunked.ChunkedRoundTrip | facedetection_va/webcc/parser.cc:171-176 | a request sent with its headers and chunks comes back with both, in any such reads, as the first request of a connection or a later one |
| HttpChunked.ChunkedReadsThrow | facedetection_va/webcc/parser.cc:238-241 | the first read that does end inside a size line makes the parser throw |
| HttpRoundTrip.LengthRoundTrip | facedetection_va/webcc/parser.cc:19-26 | a printed length is read back |
| HttpRoundTrip.HeaderLineSplits | facedetection_va/webcc/parser.cc:139-144 | a trimmed header with a colon-free name is split into name and value again |
| HttpRoundTrip.HeadersRead | facedetection_va/webcc/parser.cc:83-117 | laid-out headers are read one by one |
| HttpRoundTrip.HeadRead | facedetection_va/webcc/parser.cc:83-117 | the head of a message is read by a new or a reused parser, and knows exactly its headers, if every header is acceptable, and is refused otherwise |
| HttpRoundTrip.MessageRoundTrip | facedetection_va/webcc/message.cc:90-112 | a message comes back with its start line, headers and content, whatever the reads, as the first request of a connection or a later one |
| HttpRoundTrip.RequestLineRead | facedetection_va/webcc/request.cc:93-96 | a request line is split into method, target and version again |
| HttpMultipart.DispositionRead | facedetection_va/webcc/common.cc:252-264 | name and file name come back from the Content-Disposition written for them |
| HttpMultipart.PartHeadersRead | facedetection_va/webcc/request_parser.cc:151-199 | the headers of a part give back its names; its media type is not kept |
| HttpMultipart.BoundaryFound | facedetection_va/webcc/request_parser.cc:230-252 | the boundary line behind some data is found unless a line of the data passes for one |
| HttpMultipart.WrittenBoundaries | facedetection_va/webcc/request.cc:50-62 | the lines the serializer writes are recognised as boundaries, and only the last as the end |
| HttpUpload.PartsComeBack | facedetection_va/webcc/request_parser.cc:100-140 | the parts come back exactly if the data of each is not empty and no line of it passes for a boundary or, but for the last part, for the end |
| HttpUpload.UploadHeaders | facedetection_va/webcc/request.cc:43-69 | the headers of a multipart request are acceptable and announce boundary and length |
| HttpUpload.UploadRoundTrip | facedetection_va/webcc/request.cc:43-75 | a multipart request, in any reads by a new parser, gives the server its parts exactly under that condition, and leaves the multipart step at its end |
| HttpReuse.PartOfUpload | facedetection_va/webcc/request_parser.cc:50-149 | each part of an upload that a reused parser can be given: it waits within the headers, is done without any part at their end, and never returns behind it |
| HttpReuse.SecondUpload | facedetection_va/webcc/connection.cc:66-92 | an upload read after another has ended hangs in all reads but those of which one ends with its headers, and then it counts as complete and has lost its parts |
| HttpReuse.UploadAfterUpload | facedetection_va/webcc/request_parser.cc:17-20 | an upload read to its end, the reset, and any other upload behind it lead there |
| Protocol.Repeat | facedetection_va/webcc/request_handler.cc:16-22 | the workers start by looking at the queue |
| ProtocolSafety.WakeUpsKept | facedetection_va/webcc/queue.h:21-55 | no step loses a wake-up: nobody sleeps, or the queue is no longer than the workers awakened and the notifications on their way |
| ProtocolSafety.SentinelKept | facedetection_va/webcc/request_handler.cc:44-62 | every step keeps exactly one null connection from the push on |
| ProtocolSafety.LeavingKept | facedetection_va/webcc/request_handler.cc:24-42 | workers leave only after the push, and the stop handler goes on only when all have left |
| ProtocolSafety.QuietKept | facedetection_va/webcc/request_handler.cc:30-33 | no connection is enqueued between the clearing of the queue and the last worker's exit |
| ProtocolSafety.AccountedKept | facedetection_va/webcc/queue.h:21-55 | what was enqueued is what was dequeued, cleared and still waits, in order |
| ProtocolConns.OwnedKept | facedetection_va/webcc/connection.cc:66-92 | every step keeps a connection in the queue at most once or with one worker, as its phase says |
| ProtocolConns.OrderlyKept | facedetection_va/webcc/connection.cc:39-53 | every step keeps the counts of requests, responses and writes in step |
| ProtocolConns.PooledKept | facedetection_va/webcc/connection_pool.cc:10-28 | the pool always holds exactly the open connections |
| ProtocolRuns.RunKeepsInv | facedetection_va/webcc/server.cc:108-124 | every run of steps keeps the invariants |
| ProtocolRuns.ReachedInv | facedetection_va/webcc/server.cc:53-75 | the invariants hold in every state that any run reaches, for any number of workers |
| ProtocolRuns.OrderOfShutdown | facedetection_va/webcc/server.cc:108-124 | one sentinel from the push on, and connections are closed only when all workers have left |
| ProtocolRuns.NothingLost | facedetection_va/webcc/queue.h:21-55 | every connection enqueued is dequeued, cleared or still in the queue, first in, first out |
| ProtocolRuns.OneOwner | facedetection_va/webcc/connection.cc:90-92 | a connection is queued or held by a worker at most once in total |
| ProtocolRuns.OneResponseEach | facedetection_va/webcc/rest_request_handler.cc:20-51 | a request that is read gets at most one response, and no read starts before the response before it is written |
| ProtocolRuns.NotClosedUnderWorker | facedetection_va/webcc/connection_pool.cc:22-28 | a connection is open and in the pool as long as a worker has it |
| ProtocolRuns.SomeStep | facedetection_va/webcc/queue.h:21-31 | with something in the queue, or at shutdown, some thread can go on, even when the event loop is stuck |
| ProtocolRuns.EffortFalls | facedetection_va/webcc/request_handler.cc:44-62 | at shutdown every step brings the end nearer, but for a worker that wakes for no reason; a handler that throws ends the process |
| ProtocolRuns.ShutdownIsBounded | facedetection_va/webcc/request_handler.cc:24-42 | so the steps of a shutdown are bounded, but for two with each worker that wakes for no reason |
| ProtocolRuns.ShutdownCompletes | facedetection_va/webcc/request_handler.cc:24-42 | and every shutdown can go on until all workers have left |
| ProtocolRuns.StuckForEver | facedetection_va/webcc/server.cc:108-124 | when a callback never returns, no interleaving ever stops the server, closes a connection or enqueues one |
| Workers.Queue.PopFront | facedetection_va/webcc/queue.h:27-29 | takes the first message |
| Workers.Queue.Pop | facedetection_va/webcc/queue.h:32-42 | the pop that does not wait |
| Workers.Queue.Push | facedetection_va/webcc/queue.h:49-55 | appends a message |
| Workers.ConnectionPool.Close | facedetection_va/webcc/connection_pool.cc:16-20 | the connection leaves the pool and is closed |
| Workers.ConnectionPool.CloseAll | facedetection_va/webcc/connection_pool.cc:22-28 | all connections of the pool, and no other, are closed, and the pool is empty |
| Server.Server.constructor | facedetection_va/webcc/server.cc:53-75 | the shared fields start as the protocol does, with all its invariants |
| Server.Server.OnAccept | facedetection_va/webcc/server.cc:86-106 | takes the accept step and keeps the invariants |
| Server.Server.OnRead | facedetection_va/webcc/connection.cc:66-93 | takes the step for each way a read can end, a parse that throws or never returns included, and keeps the invariants |
| Server.Server.OnWrite | facedetection_va/webcc/connection.cc:108-127 | takes the step for each way a write can end and keeps the invariants |
| Server.Server.ClearQueue | facedetection_va/webcc/request_handler.cc:30 | drops what waits, and keeps every dropped connection accounted for |
| Server.Server.CloseConnections | facedetection_va/webcc/connection_pool.cc:22-28 | the loop closes exactly the open connections |
| Server.Server.PopOrWait | facedetection_va/webcc/queue.h:21-30 | one look at the queue is a sleep or a pop, and loses no wake-up |
| Server.Server.HandleConnection | facedetection_va/webcc/connection.cc:39-53 | starts the one response of the request the worker holds |
| Server.Server.NotifyAndLeave | facedetection_va/webcc/request_handler.cc:54-57 | a worker leaves with the null connection back in the queue and the next worker on its way |
| Server.Server.Schedule | facedetection_va/webcc/server.cc:53-124 | any schedule of all these steps, by any number of workers, follows the run of the protocol and keeps all invariants |
| Base64.Inverse | facedetection_va/webcc/base64.cc:55-72 | the table is defined exactly on the alphabet |
| Base64.SameBits | facedetection_va/base64/base64.cpp:55-58 | four sextets are the 24 bits of three bytes |
| Base64.GroupRoundTrip | facedetection_va/base64/base64.cpp:101-103 | the decoding formulas undo the encoding formulas |
| Base64.EncodeString | facedetection_va/base64/base64.cpp:45-85 | the standalone encoder computes the encoding |
| Base64.DecodeString | facedetection_va/base64/base64.cpp:87-122 | the standalone decoder computes the decoding of any text |
| Base64.EncodeTo | facedetection_va/webcc/base64.cc:85-117 | the buffer encoder computes the same encoding and writes exactly the announced size |
| Base64.DecodeTo | facedetection_va/webcc/base64.cc:121-160 | the buffer decoder computes the same decoding, and counts what it used |
| Base64.EncodedLength | facedetection_va/webcc/base64.cc:75-77 | the encoding of n bytes has 4*((n+2)/3) characters |
| Base64.RoundTrip | facedetection_va/base64/base64.cpp:87-122 | decoding undoes encoding, on every byte string |
| Base64.WholeGroups | facedetection_va/base64/base64.cpp:45-85 | encoding undoes decoding of whole groups of letters |
| Base64.DecodedFits | facedetection_va/webcc/base64.cc:80-83 | the decoding fits the buffer set aside for it exactly if fewer groups are letters than there are, or fewer than two letters are left over; always for a length divisible by four |
| Base64.EncodeToString | facedetection_va/webcc/base64.cc:164-169 | the string form of the buffer encoder |
| Base64.DecodeFromString | facedetection_va/webcc/base64.cc:176-182 | the string form of the buffer decoder, for exactly the texts whose decoding fits the buffer |
| Url.EncodeQuery | facedetection_va/webcc/url.cc:67-89 | the loop computes the percent-encoding |
| Url.EncodedIsLegal | facedetection_va/webcc/url.cc:141-153 | what is encoded contains only characters that are legal in a query |
| Url.DecodeText | facedetection_va/webcc/url.cc:30-64 | the loop computes the decoding, or refuses a text that is not an encoding |
| Url.RoundTrip | facedetection_va/webcc/url.cc:149-153 | decoding undoes query encoding, on every byte string |
| Url.UrlQuery.Parse | facedetection_va/webcc/url.cc:171-193 | the loop reads the pairs between ampersands |
| Url.UrlQuery.AddPair | facedetection_va/webcc/url.cc:201-205 | a key that is there keeps its value |
| Url.UrlQuery.Find | facedetection_va/webcc/url.cc:240-244 | the first parameter with the key |
| Url.UrlQuery.ToString | facedetection_va/webcc/url.cc:224-238 | the encoding of the pairs joined with ampersands |
| Url.AddTextsClean | facedetection_va/webcc/url.cc:171-193 | whatever the text, keys that are read are distinct, not empty and free of `=` and `&` |
| Url.QueryRoundTrip | facedetection_va/webcc/url.cc:171-238 | a query rebuilt from its decoded text is the same exactly if its keys are distinct, not empty and free of `=` and `&`, and its values free of `&` |
| Primes.IsPrimeOnTheFly | facedetection_va/googletest/googletest/samples/prime_tables.h:58-67 | trial division decides primality |
| Primes.NextPrimeOnTheFly | facedetection_va/googletest/googletest/samples/prime_tables.h:69-75 | ends with the smallest prime above p for every p that is not negative, and with -1 for the others |
| Primes.PrimeAbove | facedetection_va/googletest/googletest/samples/prime_tables.h:69-75 | above every number there is a prime, so that the search ends |
| Primes.IsPrimeByOdds | facedetection_va/googletest/googletest/samples/sample1.cc:47-68 | the test by odd divisors that stops on `i > n/i` decides primality |
| Primes.PreCalculatedPrimeTable.CalculatePrimesUpTo | facedetection_va/googletest/googletest/samples/prime_tables.h:102-114 | the sieve leaves exactly the primes |
| Primes.PreCalculatedPrimeTable.CrossOut | facedetection_va/googletest/googletest/samples/prime_tables.h:109-112 | the multiples of i, but not i, are crossed out |
| Primes.PreCalculatedPrimeTable.IsPrime | facedetection_va/googletest/googletest/samples/prime_tables.h:89-91 | decides primality up to the size of the table, and is false beyond |
| Primes.PreCalculatedPrimeTable.GetNextPrime | facedetection_va/googletest/googletest/samples/prime_tables.h:93-99 | the smallest prime above p, or -1 if the table has none |
| Primes.HybridPrimeTable.IsPrime | facedetection_va/googletest/googletest/samples/sample8_unittest.cc:62-67 | decides primality for every number, with or without a table |
| Primes.HybridPrimeTable.GetNextPrime | facedetection_va/googletest/googletest/samples/sample8_unittest.cc:69-75 | the smallest prime above every p that is not negative; for negative ones 2 if the table has it, and otherwise -1 |

## Left out

- Service.ImageArrives: is about images whose Base64 text a string value of the client's can hold.
- Service.Post: decoding an image and finding faces in it are a parameter, and waiting on purpose is left out.
- Face detection itself, database access, sockets, TLS, timers, logging, file input and the web front end: they are
  input and output, or libraries that cannot be seen.
- Real numbers in JSON: reading and printing them are parameters of the model (`scanDouble`, `printDouble`), and the
  round trips are about values without them.
- The comments that JSON values keep, the text of error messages and their positions: whether a value accepts a comment
  is modelled, what it stores is not, and errors are counted.
- JSON arrays are sequences, so arrays with unset elements and the resizing of maps are not modelled; neither are the
  older reader and styled writer classes, but for the older number decoder, nor the path expressions.
- JsonWriter.FastRoundTrip: says nothing about the option that drops null placeholders, whose output is not JSON.
- JsonText.IsAnyCharRequiredQuoting: takes `char` to be signed, as on the platforms the service is built for.
- JsonValue.Trichotomy: containers of 2^31 entries or more are excluded, since the program converts differences of
  their sizes to 32 bits.
- Matching.FindPairing: the explanations given to a listener are not part of this model.
- HttpParsing.HeaderLoop: the most that can be reserved for content is a parameter; memory that runs out is not
  modelled otherwise.
- HttpRoundTrip.MessageRoundTrip: is about headers with trimmed values and colon-free names that are distinct, ignoring
  case, as the serializer's header list keeps them; the target of the request is kept as text.
- HttpChunked.ChunkedReads: chunks of 2^64-2 bytes or more, which no read can hold, are excluded.
- HttpUpload.UploadRoundTrip: is about names and file names without semicolons, line ends and quotes at either end.
- HttpParser.RequestParser.ParseData: a call that never returns has no outcome a method could state, so it is excluded
  here; when it happens is the subject of `HttpReads.ReuseHangs` and `HttpReuse.SecondUpload`.
- HttpParser.RequestParser.ParseMultipartContent: excludes the same calls.
- HttpParser.RequestParser.FinishMessage: decompression is off in the repository's configuration, and content that is
  marked as compressed is passed on unchanged.
- Bytes that arrive behind the end of a request in the same read, other than in the chunked case: the next request on
  the connection starts with a new read.
- The parser of responses, the client side with its connection pool and the order on its keys, the parsing of URLs, and
  the routing of requests to services.
- ProtocolRuns.ShutdownIsBounded: assumes, as the shutdown itself does, that each handler returns or throws; a worker
  that wakes for no reason, which the condition variable allows, puts the end off by two steps at most.
- Protocol.Repeat: a thread that starts late is one that has not looked at the queue yet.
- Workers.WorkerRoutine: runs one thread at a time, to its end; the interleavings are those of `Protocol`.
- Workers.Stop: likewise lets the workers run one after another.
- Server.Server.OnRead: connections are entries of a map and their phase stands for the outstanding operation; what a
  read held is the parser's business and enters as a parameter.
- Url.UrlQuery.ToString: removing and getting single parameters would add only easy members.
- Primes.NextPrimeOnTheFly: is about unbounded integers; the overflow that ends the search in the program is left out.
- The sample factorial, the other samples and the rest of the test framework: only easy members.
