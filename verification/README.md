# Verified models of the promise demo, gtest/gmock algorithms and fmt integer formatting

A Dafny project about four parts of the repository:

* **Bipartite matching** (gmock's `UnorderedElementsAre`): the in-place depth-first search over two mutually
  inverse vectors finds a maximum matching although it visits every left node once. `BipartiteMatching.dfy`
  holds the theory, `MaxBipartiteMatch.dfy` the class and the pairing tests built on it.
* **Edit scripts, diffs and matchers** (gtest): the edit-distance table and its scripts (`EditScript.dfy`,
  `EditDistance.dfy`), unified diffs that really are patches (`UnifiedDiff.dfy`, `PatchText.dfy`), the simple regex
  matcher and its validator (`SimpleRegex.dfy`, `RegexMeaning.dfy`), the test filter (`TestFilter.dfy`) and UTF-8
  output (`Utf8.dfy`).
* **The promise protocol** (`src/promise_demo`): framing (`Framing.dfy`), both servers (`EchoServers.dfy`,
  `AsioSession.dfy`), the client connection (`PromiseClient.dfy`), all of them together as steps over two FIFO byte
  channels (`PromiseProtocol.dfy`) and what holds of whole runs (`PromiseRuns.dfy`, `PromiseFairness.dfy`).
* **Integer formatting** (fmt): digit counting (`Numerals.dfy`, `DecimalDigits.dfy`), the writer and its layouts
  (`IntegerWriter.dfy`, `IntegerMeaning.dfy`), the fixed-buffer formatter (`FormatInt.dfy`), the format-string parser
  (`FormatParser.dfy`, `FormatNumerals.dfy`, `FormatReferences.dfy`, `FormatRoundTrip.dfy`, `FormatGrammar.dfy`,
  `FormatArguments.dfy`) and what whole format strings write (`FormatIntegers.dfy`).

Code that updates state in place is modelled by classes and methods with loops, each proved against a function or
predicate; the theorems about those functions are the lemmas beside them. `dafny verify dfyconfig.toml` checks
everything. `Words.dfy` and `Wrappers.dfy` hold what several modules share.

## What the protocol relies on

The steps of `PromiseProtocol` ask of a request what the code needs from its callers: the payload is not `END`
(`PromiseClient.ReplyIsDigestedIff` shows that this is exactly when the two reply frames can be handled), it has at
most 2^32 - 9 bytes (`Framing.FrameRoundTrip` shows that this is exactly when a frame survives), and fewer than 2^32
requests are made. One connection is in the set, as `main` builds it. No such assumption is made about chunking,
interleaving, I/O errors or the time of a stop. That no header with a wrapping length ever comes in is proved:
`PromiseProtocol.ReadIsSane`.

## Where code and documentation differ

* The edit scripts are called optimal, all edits costing the same
  (`rpclib/dependencies/include/gtest/gtest.h:7911-7915`). They are not always:
  `EditDistance.NotAlwaysShortest` names an input, and `EditDistance.ShortestIff` says exactly when the returned script
  is one of the shortest: when some shortest script matches wherever the last elements are equal and avoids the tied
  cells of the table. Both hold for the rounded sums of doubles.
* `CreateUnifiedDiff` describes `context` as the unchanged lines around the diff; with `context` 0 the diff is empty
  even when the texts differ, so it is a patch exactly when the context is positive or the texts are equal
  (`UnifiedDiff.CreateUnifiedDiff`, `UnifiedDiff.PatchIff`).
* Code points from U+110000 to U+1FFFFF, and no others, are treated against the documentation: they are encoded
  instead of reported (`Utf8.FirstInvalid`, `Utf8.AsDocumentedIff`).
* `parse_nonnegative_int` announces a test for wrap-around; it misses some (`FormatNumerals.UnnoticedWrap`).
  `FormatNumerals.ParseIntExactly` says which numerals are refused and how all others are read, and
  `FormatNumerals.ParseIntIsExact` for which of them the result is right.
* A format field with an empty specification, `{:}`, takes an alignment from the character behind its closing
  brace, and only then differs from `{}` (`FormatRoundTrip.EmptySpec`, `FormatRoundTrip.StrayAlignment`).
* `send_all` promises to send the whole string, but offers the socket the size cast to an int. Where the size parameter
  of `send` is an int, a socket that always takes something gets the whole string exactly if it has at most 2^31 - 1
  bytes: from there on the cast becomes negative or 0 sooner or later (`Framing.SendAll`). Where that parameter is a
  `size_t`, a negative cast turns into a huge size, of which a system may take a part. The protocol allows both: such a
  frame may go out in pieces or fail. Only the statements that everything is answered ask for smaller frames
  (`PromiseRuns.Sendable`).

## Model

| member | source | states |
|---|---|---|
| MaxBipartiteMatch.MaxBipartiteMatchState.constructor | rpclib/dependencies/src/gmock-gtest-all.cc:10926-10930 | starts with no flow: both vectors all unused, inverse property holds |
| MaxBipartiteMatch.MaxBipartiteMatchState.TryAugment | rpclib/dependencies/src/gmock-gtest-all.cc:10980-11011 | terminates; a failure changes neither vector and leaves everything it marked leading only to marked nodes; a success turns the two vectors into exactly the old flow flipped along an augmenting path of fresh right nodes (so the old partner of the start still points at it inside the recursion); on a cleared `seen` it succeeds exactly when an augmenting path exists |
| MaxBipartiteMatch.MaxBipartiteMatchState.Compute | rpclib/dependencies/src/gmock-gtest-all.cc:10933-10964 | the pairs are distinct, form a matching of the graph, and no matching of the graph is larger; the source's own check that the next left node is unused is proved |
| MaxBipartiteMatch.MaxBipartiteMatchState.CollectPairs | rpclib/dependencies/src/gmock-gtest-all.cc:10957-10963 | the listed pairs are exactly the edges that carry flow |
| BipartiteGraph.FlipShifts | rpclib/dependencies/src/gmock-gtest-all.cc:10901-10905 | what a nested augmentation does to the inverse property: it holds except that the old right partner of the start may still name the start |
| BipartiteGraph.AugmentationIsConsistent | rpclib/dependencies/src/gmock-gtest-all.cc:10901-10905 | a top-level augmentation restores left[right[r]] == r and right[left[l]] == l along edges of the graph |
| BipartiteGraph.AugmentationAddsOne | rpclib/dependencies/src/gmock-gtest-all.cc:10980-10984 | it matches exactly its start on the left and one more node on the right, and unmatches nothing |
| BipartiteGraph.OneVisitIsEnough | rpclib/dependencies/src/gmock-gtest-all.cc:10936-10947 | a left node without augmenting path has none after any sequence of later augmentations |
| BipartiteGraph.NoPathLeavesClosed | rpclib/dependencies/src/gmock-gtest-all.cc:10936-10947 | a node without augmenting path reaches only a region that no augmenting path enters |
| BipartiteGraph.FlipKeepsClosed | rpclib/dependencies/src/gmock-gtest-all.cc:10936-10947 | augmentations elsewhere leave such a region closed |
| MaxBipartiteMatch.FailedSearchIsFinal | rpclib/dependencies/src/gmock-gtest-all.cc:10985-11011 | what a failed search leaves behind proves that no augmenting path existed |
| BipartiteGraph.StuckIsMaximum | rpclib/dependencies/src/gmock-gtest-all.cc:10878-10894 | when every free left node is stuck the flow is at least as large as any matching of the graph |
| MaxBipartiteMatch.FindMaxBipartiteMatching | rpclib/dependencies/src/gmock-gtest-all.cc:11034-11036 | returns a maximum matching |
| BipartiteGraph.FullMatchingIffPairable | rpclib/dependencies/src/gmock-gtest-all.cc:11054-11083 | a maximum matching has as many edges as there are matchers exactly when all matchers can be given elements of their own |
| MaxBipartiteMatch.FindPairing | rpclib/dependencies/src/gmock-gtest-all.cc:11054-11083 | true exactly when an injective assignment of all matchers to elements along edges exists |
| MaxBipartiteMatch.VerifyAllElementsAndMatchersAreMatched | rpclib/dependencies/src/gmock-gtest-all.cc:11170-11221 | true exactly when every row and every column has an edge; with equally many elements and matchers it is false only where no pairing exists |
| MaxBipartiteMatch.PairableHitsAll | rpclib/dependencies/src/gmock-gtest-all.cc:11170-11221 | a square matrix with a pairing has an edge in every row and column |
| EditScript.CalculateOptimalEdits | rpclib/dependencies/src/gmock-gtest-all.cc:2476-2531 | the path read back from the table is the script of the last cell, and it turns left into right |
| EditScript.FillRow | rpclib/dependencies/src/gmock-gtest-all.cc:2495-2519 | one pass of the inner loop completes the next row of costs and moves |
| EditScript.WalkBack | rpclib/dependencies/src/gmock-gtest-all.cc:2521-2530 | following the moves backwards and reversing gives the script of the last cell |
| EditScript.ScriptTurns | rpclib/dependencies/src/gmock-gtest-all.cc:2476-2531 | every cell's script consumes exactly its two prefixes, matches only equal and replaces only unequal elements, whatever the rounding of the sums |
| EditScript.ScriptCost | rpclib/dependencies/src/gmock-gtest-all.cc:2503-2516 | the prices of a script, added with the same rounding, are its cell's cost |
| EditScript.EntryRespectsPattern | rpclib/dependencies/src/gmock-gtest-all.cc:2552-2566 | the table depends on the elements only through which of them are equal |
| EditScript.ScriptRespectsPattern | rpclib/dependencies/src/gmock-gtest-all.cc:2552-2566 | so does the script, hence the ids may stand for the strings |
| EditScript.InternalStrings.GetId | rpclib/dependencies/src/gmock-gtest-all.cc:2538-2543 | returns the id on record or the next unused one; ids are equal exactly for equal strings |
| EditScript.InternAll | rpclib/dependencies/src/gmock-gtest-all.cc:2555-2564 | equal ids exactly for equal strings across all inputs |
| EditScript.CalculateOptimalEditsOfStrings | rpclib/dependencies/src/gmock-gtest-all.cc:2552-2566 | the script computed on ids is the script of the strings and turns left into right |
| EditDistance.ShortestIff | rpclib/dependencies/src/gmock-gtest-all.cc:2503-2530 | for every rounding as good as that of doubles the returned script has the fewest possible edits exactly when some script with the fewest edits matches wherever last elements are equal and passes no tied cell (elements differ, add == remove, replace a whole edit dearer); it has if no cell is tied |
| EditDistance.AllShortestIffNoTies | rpclib/dependencies/src/gmock-gtest-all.cc:2503-2517 | the scripts of all prefixes have the fewest possible edits exactly when no cell of the table is tied |
| EditDistance.CleanIsShortest | rpclib/dependencies/src/gmock-gtest-all.cc:2503-2517 | no script that keeps to the table's rules and passes no tied cell is shorter than the returned one |
| EditDistance.ShortestIsClean | rpclib/dependencies/src/gmock-gtest-all.cc:2521-2530 | if the returned script is shortest, the walk back passed no tied cell |
| EditDistance.TieIsLonger | rpclib/dependencies/src/gmock-gtest-all.cc:2512-2517 | a tied cell's script is longer than necessary |
| EditDistance.NotAlwaysShortest | rpclib/dependencies/src/gmock-gtest-all.cc:2506-2516 | for 1,2,1 against 2,1,2 the result is three replacements although two edits suffice, for every rounding that keeps the surcharge of one and of two replacements |
| EditDistance.NearKeepsSurcharge | rpclib/dependencies/src/gmock-gtest-all.cc:2513-2515 | every rounding as good as that of doubles keeps the surcharge of one and of two replacements |
| EditDistance.CostCounts | rpclib/dependencies/src/gmock-gtest-all.cc:2503-2516 | the whole part of a cell's rounded cost is the number of edits of its script |
| UnifiedDiff.Hunk.PushLine | rpclib/dependencies/src/gmock-gtest-all.cc:2583-2599 | whatever the reordering, a line ends up last on the sides it belongs to, the counters are the sizes of the sides, and while the hunk is being built every removal stays before the additions of its block |
| UnifiedDiff.Hunk.FlushEdits | rpclib/dependencies/src/gmock-gtest-all.cc:2614-2617 | pending removals then additions move behind the body; the body as printed does not change |
| UnifiedDiff.Hunk.PrintTo | rpclib/dependencies/src/gmock-gtest-all.cc:2601-2609 | writes header and body of the hunk as it stands, counters included |
| UnifiedDiff.FindFirstEdit | rpclib/dependencies/src/gmock-gtest-all.cc:2659-2664 | stops at the next edit; what it skips is the same text on both sides |
| UnifiedDiff.NextEditIsFar | rpclib/dependencies/src/gmock-gtest-all.cc:2677-2685 | true exactly when no edit lies within the next `context` steps |
| UnifiedDiff.StartHunk | rpclib/dependencies/src/gmock-gtest-all.cc:2666-2671 | the hunk opens with the common lines before the edit, at the right starts on both sides |
| UnifiedDiff.GrowHunk | rpclib/dependencies/src/gmock-gtest-all.cc:2673-2701 | the hunk's two sides remain the slices of left and right from its starts to the cursors, and it ends `context` common lines behind its last edit or with the input |
| UnifiedDiff.FramedEdit | rpclib/dependencies/src/gmock-gtest-all.cc:2583-2599 | an added or removed line opens the middle of a body or closes its last run of common lines, wherever the reordering puts it |
| UnifiedDiff.HunkAdded | rpclib/dependencies/src/gmock-gtest-all.cc:2703-2708 | a finished hunk starts behind its predecessor on both sides, with equal text in between |
| UnifiedDiff.DescribedPatches | rpclib/dependencies/src/gmock-gtest-all.cc:2644-2650 | hunks that are increasing, disjoint and name their slices turn the old text into the new when applied as a patch |
| UnifiedDiff.CreateUnifiedDiff | rpclib/dependencies/src/gmock-gtest-all.cc:2651-2711 | with a positive context the text renders hunks that are increasing and disjoint, whose sides are the slices named by start and counters, which contain as many removals and additions as the script, have exactly `context` common lines at both ends (fewer only where a text begins or ends), have fewer than 2 * `context` common lines between two edits, print removals before additions wherever no common line stands between them, and turn left into right when applied; with context 0 the text is empty; the text is that of a patch from left to right exactly when the context is positive or the texts are equal |
| UnifiedDiff.PatchIff | rpclib/dependencies/src/gmock-gtest-all.cc:2651-2711 | hunks that describe the change are a patch from the old to the new text; no hunks at all are one exactly when the texts are equal |
| UnifiedDiff.BodyForm | rpclib/dependencies/src/gmock-gtest-all.cc:2601-2609 | `-` stands before text of the old side, `+` before text of the new side and a space before text of both |
| UnifiedDiff.HeaderForms | rpclib/dependencies/src/gmock-gtest-all.cc:2619-2635 | the exact text of a header, which leaves out a side without edits, in front of the body |
| PatchText.RenderedDetermines | rpclib/dependencies/src/gmock-gtest-all.cc:2601-2635 | two diffs with the same text make the same changes in the same places, although a header leaves out the start of a side without edits |
| PatchText.TextIsEnough | rpclib/dependencies/src/gmock-gtest-all.cc:2601-2635 | however the text of a diff of newline-free lines is read back as hunks that fit together, they turn left into right |
| SimpleRegex.MatchRegexAtHead | rpclib/dependencies/src/gmock-gtest-all.cc:9297-9326 | for the text of any valid regex body: true exactly when a prefix of the string is in its language; terminates |
| SimpleRegex.MatchRepetitionAndRegexAtHead | rpclib/dependencies/src/gmock-gtest-all.cc:9266-9295 | true exactly when some allowed number of copies of the atom followed by the rest matches a prefix |
| SimpleRegex.MatchRegexAnywhere | rpclib/dependencies/src/gmock-gtest-all.cc:9328-9349 | true exactly when some substring (a prefix with `^`, a suffix with `$`) is in the language |
| SimpleRegex.PrefixUnfolds | rpclib/dependencies/src/gmock-gtest-all.cc:9297-9326 | a prefix is in the language of items exactly when the first takes some characters and the rest matches behind them |
| SimpleRegex.TakesOne | rpclib/dependencies/src/gmock-gtest-all.cc:9320-9324 | a plain atom takes exactly one matching character |
| SimpleRegex.ValidateRegex | rpclib/dependencies/src/gmock-gtest-all.cc:9210-9264 | accepts exactly the texts of well-formed regexes |
| SimpleRegex.AcceptedIffPrinted | rpclib/dependencies/src/gmock-gtest-all.cc:9210-9264 | the scan over anchors, escapes and repetitions accepts a text exactly when some regex prints as it |
| SimpleRegex.ParseTail | rpclib/dependencies/src/gmock-gtest-all.cc:9210-9264 | an accepted text can be taken apart into items |
| SimpleRegex.TailAccepted | rpclib/dependencies/src/gmock-gtest-all.cc:9210-9264 | every well-formed item list prints as an accepted text |
| RegexMeaning.EscapedClasses | rpclib/dependencies/src/gmock-gtest-all.cc:9181-9195 | the characters of `\d`, `\s`, `\w` and their complements, by code |
| RegexMeaning.EscapedCharacters | rpclib/dependencies/src/gmock-gtest-all.cc:9186-9196 | the code of each control escape; escaped punctuation matches only itself; an unknown escape matches nothing |
| RegexMeaning.ValidEscapes | rpclib/dependencies/src/gmock-gtest-all.cc:9164-9177 | by code: what may stand behind a backslash is punctuation and the letters of the escapes |
| RegexMeaning.PlainCharacters | rpclib/dependencies/src/gmock-gtest-all.cc:9199 | unescaped, a full stop matches all but code 10 and every other character itself |
| RegexMeaning.PlainAtoms | rpclib/dependencies/src/gmock-gtest-all.cc:9210-9264 | by code: which characters may stand for themselves |
| RegexMeaning.Repetitions | rpclib/dependencies/src/gmock-gtest-all.cc:9266-9295 | no mark means exactly one, `?` at most one, `*` any number of and `+` at least one matching character |
| RegexMeaning.Anchors | rpclib/dependencies/src/gmock-gtest-all.cc:9328-9349 | a string matches exactly when a word of the items occurs in it, at its start with `^` and up to its end with `$` |
| TestFilter.GlobCharacters | rpclib/dependencies/src/gmock-gtest-all.cc:1910-1925 | `*` takes every text, `?` exactly one character, any other character exactly itself |
| TestFilter.GlobConcatenation | rpclib/dependencies/src/gmock-gtest-all.cc:1910-1925 | the language of two patterns one behind the other is the concatenation of their languages |
| TestFilter.MatchesIffGlob | rpclib/dependencies/src/gmock-gtest-all.cc:1910-1925 | the recursive matcher is true exactly when the pattern up to its colon matches the whole name, `*` standing for any text and `?` for one character |
| TestFilter.MatchesFilter | rpclib/dependencies/src/gmock-gtest-all.cc:1927-1946 | true exactly when some colon-separated segment matches the name |
| TestFilter.SplitString | rpclib/dependencies/src/gmock-gtest-all.cc:2370-2385 | returns the segments between the delimiters, empty ones included |
| TestFilter.SegmentsRoundTrip | rpclib/dependencies/src/gmock-gtest-all.cc:2370-2385 | joining the segments with the delimiter gives the string back, and no segment contains it |
| Utf8.CodePointToUtf8 | rpclib/dependencies/src/gmock-gtest-all.cc:3207-3233 | writes the encoding of the code point in one to four bytes, and the hexadecimal message beyond U+1FFFFF |
| Utf8.Examples | rpclib/dependencies/src/gmock-gtest-all.cc:3207-3233 | the bytes of one code point for each length, and the value of a surrogate pair |
| Utf8.ComplaintNames | rpclib/dependencies/src/gmock-gtest-all.cc:3207-3210 | the message names the code point in capital hexadecimal digits |
| Utf8.AsciiCodes | rpclib/dependencies/src/gmock-gtest-all.cc:3207-3210 | its characters are written as the bytes of their codes |
| Utf8.WideUnits | rpclib/dependencies/src/gmock-gtest-all.cc:3242-3245 | on platforms whose wide characters do not have two bytes every unit before the terminator is a code point of its own |
| Utf8.NarrowUnits | rpclib/dependencies/src/gmock-gtest-all.cc:3242-3256 | on 16-bit units a unit that does not start a surrogate pair is read as itself, well-formed or not, and a pair as its value |
| Utf8.SurrogateRanges | rpclib/dependencies/src/gmock-gtest-all.cc:3242-3245 | a pair is a unit from D800 to DBFF before one from DC00 to DFFF, by value |
| Utf8.PairValue | rpclib/dependencies/src/gmock-gtest-all.cc:3248-3256 | a pair stands for 0x10000 plus ten bits of each unit, by arithmetic |
| Utf8.AsDocumentedIff | rpclib/dependencies/src/gmock-gtest-all.cc:3201-3210 | a code point gets the message exactly if it is beyond U+10FFFF, as documented, if and only if it is not between U+110000 and U+1FFFFF |
| Utf8.FirstInvalid | rpclib/dependencies/src/gmock-gtest-all.cc:3201-3210 | U+110000 is encoded in four bytes |
| Utf8.DecodeEncode | rpclib/dependencies/src/gmock-gtest-all.cc:3207-3233 | a decoder after section 3 of RFC 3629, extended to 21 bits, recovers every code point from 1 to 0x1FFFFF from the front of any stream |
| Utf8.EncodeDecode | rpclib/dependencies/src/gmock-gtest-all.cc:3207-3233 | conversely what that decoder accepts is the encoding of what it returns, so no other bytes stand for the code point |
| Utf8.StreamRoundTrip | rpclib/dependencies/src/gmock-gtest-all.cc:3271-3292 | a whole output stream decodes to exactly the code points written |
| Utf8.WideStringToUtf8 | rpclib/dependencies/src/gmock-gtest-all.cc:3271-3292 | the output is the concatenated encodings of the code points of the units before the terminator or the limit |
| Utf8.ConvertUnits | rpclib/dependencies/src/gmock-gtest-all.cc:3275-3291 | the loop over units, joining surrogate pairs that lie inside the limit |
| Utf8.WellFormedUtf16 | rpclib/dependencies/src/gmock-gtest-all.cc:3242-3256 | on 16-bit units well-formed UTF-16 (section 2.1 of RFC 2781) is read as the code points it encodes |
| Framing.U32RoundTrip | src/promise_demo/net.h:66-76 | four big-endian bytes read back as the number |
| Framing.FrameBytes | src/promise_demo/net.h:66-84 | the bytes of a frame in terms of id, size and payload: id and size most significant byte first, the size up to a multiple of 2^32 |
| Framing.EncodeFrame | src/promise_demo/net.h:78-84 | id, length modulo 2^32, payload |
| Framing.TryDecodeFrame | src/promise_demo/net.h:86-96 | takes a complete frame off the buffer or leaves it unchanged, with the 32-bit sum of the source |
| Framing.FrameRoundTrip | src/promise_demo/net.h:78-96 | a frame comes back from the front of any stream exactly when its payload has at most 2^32 - 9 bytes |
| Framing.OversizedHeader | src/promise_demo/net.h:90-94 | a larger length in a header is taken for a complete frame of which less than the header is removed |
| Framing.EndsStep | src/promise_demo/net.h:86-96 | on any stream on which the decoding loop ends, wrapped sizes from 1 on included, a round takes the next frame and leaves a shorter stream of that kind |
| Framing.DrainAppend | src/promise_demo/net.h:86-96 | draining a prefix and then the rest gives the frames of the whole |
| Framing.ChunkingIsIrrelevant | src/promise_demo/net.h:86-96 | any split of a stream into reads yields the same frames and the same rest |
| Framing.DrainEncoded | src/promise_demo/net.h:86-96 | a concatenation of encoded frames drains to exactly those frames |
| Framing.DrainPrefix | src/promise_demo/net.h:86-96 | any prefix of it drains to the first frames and leaves an undecodable proper prefix of the next |
| Framing.SendAll | src/promise_demo/net.h:100-109 | what is sent is a prefix of the data, all of it exactly on success; a socket with an int for the size that always takes something takes all exactly if there are at most 2^31 - 1 bytes, because the size offered is cast to an int |
| EchoServers.ClientConnection.OnReadable | src/promise_demo/promise_server.cpp:134-149 | on every stream on which the decoding loop ends: appends what arrived and sends, for every complete frame, its echo and END, of each as much as the socket takes; failed sends are ignored |
| EchoServers.WholeFramesTaken | src/promise_demo/promise_server.cpp:143-147 | a socket that takes every frame whole gets exactly the reply bytes |
| EchoServers.RepliesAt | src/promise_demo/promise_server.cpp:143-147 | the replies to request i are at places 2i and 2i+1; the second spells END |
| AsioSession.AnyStreamIsOrdered | src/promise_demo/promise_server_asio.cpp:108-134 | whatever the received stream holds: at most one write in flight in every reachable state, without a write error exactly when the queue is not empty, and the bytes given to the socket followed by the pending ones are all queued replies in order |
| AsioSession.ActionKeepsOrder | src/promise_demo/promise_server_asio.cpp:89-134 | arriving bytes, every decoded frame, every partial transfer and every completion or error keeps that |
| AsioSession.SessionIsOrdered | src/promise_demo/promise_server_asio.cpp:85-134 | on a stream without wrapping lengths, moreover, the queued replies are in every reachable state the replies to exactly the frames received |
| AsioSession.RunKeepsOk | src/promise_demo/promise_server_asio.cpp:85-134 | so does every sequence of handler events |
| AsioSession.SameRepliesAsSelect | src/promise_demo/promise_server_asio.cpp:96-104 | for the same received bytes the session queues the bytes the select server sends |
| AsioSession.SessionObject.QueueWriteData | src/promise_demo/promise_server_asio.cpp:111-115 | appends to the queue and starts a write exactly if none was queued |
| AsioSession.SessionObject.HandleRead | src/promise_demo/promise_server_asio.cpp:89-105 | on every stream on which the decoding loop ends: appends the chunk and queues one reply per complete frame, or stops reading on an error |
| AsioSession.SessionObject.AnswerFrames | src/promise_demo/promise_server_asio.cpp:98-103 | where the decoding loop ends it has queued the replies of exactly the drained frames |
| AsioSession.SessionObject.HandleWritten | src/promise_demo/promise_server_asio.cpp:124-133 | removes the written reply and starts the next, or gives up on an error |
| PromiseClient.ReplyIsDigestedIff | src/promise_demo/promise_client.cpp:158-168 | the two reply frames of a request resolve its future with exactly [payload, END] if and only if the payload is not END; otherwise the second one looks up a removed id |
| PromiseClient.SendConserves | src/promise_demo/promise_client.cpp:55-62 | a new id is unused, and every id stays in exactly one of pending, resolved and failed |
| PromiseClient.DeliverConserves | src/promise_demo/promise_client.cpp:161-167 | handling a frame keeps that account |
| PromiseClient.RemoveConserves | src/promise_demo/promise_client.cpp:90-93 | removing a resolved request keeps it |
| PromiseClient.CloseConserves | src/promise_demo/promise_client.cpp:124-131 | closing fails exactly the waiting ones and leaves nothing pending or outgoing |
| PromiseClient.Connection.Send | src/promise_demo/promise_client.cpp:55-62 | throws when closed, else hands out the next id with a waiting future and a queued packet |
| PromiseClient.Connection.HasIncomingData | src/promise_demo/promise_client.cpp:67-75 | reads once if no frame is ready and the socket is readable; a failed read closes |
| PromiseClient.Connection.HandleFrame | src/promise_demo/promise_client.cpp:158-168 | collects the frame, and on END sets the value and removes the request |
| PromiseClient.Connection.PopOutgoing | src/promise_demo/promise_client.cpp:100-105 | takes the oldest packet |
| PromiseClient.Connection.CloseWithError | src/promise_demo/promise_client.cpp:124-131 | every waiting future fails, both collections become empty |
| PromiseProtocol.StepKeeps | src/promise_demo/promise_client.cpp:155-178 | every step of user threads, I/O thread, session and channels keeps the invariant that ties ids, histories, buffers and both byte streams together |
| PromiseProtocol.ClientDecodes | src/promise_demo/promise_client.cpp:77-81 | the next frame the client decodes is the next reply of the server |
| PromiseProtocol.ReadIsSane | src/promise_demo/promise_server_asio.cpp:96-100 | no read ever brings in a header with a wrapping length |
| PromiseRuns.RunsAreSafe | src/promise_demo/promise_client.cpp:155-178 | over every interleaving and chunking, failures included: `pending_.at` never fails; every id handed out is in exactly one of waiting-and-pending, resolved with exactly [its payload, END], or failed after closing; outgoing ids are increasing and pending; after close nothing is pending or outgoing |
| PromiseRuns.FaultlessRuns | src/promise_demo/promise_client.cpp:155-178 | without I/O errors no future fails |
| PromiseRuns.ResolvedForGood | src/promise_demo/promise_client.cpp:161-167 | from every reachable state on, a resolved or failed future never changes again and a closed connection stays closed |
| PromiseRuns.WorkLowersRank | src/promise_demo/promise_client.cpp:155-178 | every step that moves data lowers a lexicographic rank, so only finitely many fit between two requests |
| PromiseRuns.ReachableInv | src/promise_demo/promise_client.cpp:155-178 | every reachable state satisfies the invariant |
| PromiseRuns.QuietRunIsAnswered | src/promise_demo/promise_client.cpp:155-178 | in every reachable healthy state in which no data can move, `pending_` is empty and every future has its reply |
| PromiseRuns.Completes | src/promise_demo/promise_client.cpp:155-178 | from every reachable healthy state, all frames still to be sent having at most 2^31 - 1 bytes, some run of the two sides alone answers everything |
| PromiseFairness.FairSchedulesAnswer | src/promise_demo/promise_client.cpp:155-178 | from there every fair schedule without new requests, stops and faults answers everything |
| PromiseFairness.FairScheduleExists | src/promise_demo/promise_client.cpp:155-178 | the I/O thread going round its loop is a fair schedule |
| PromiseFairness.SomethingWorks | src/promise_demo/promise_client.cpp:155-178 | on such a schedule data is moved again and again while anything is left to do |
| DecimalDigits.CountDigits64 | rpclib/dependencies/include/format.h:769-777 | the bit-length approximation with table fix-up is the true number of decimal places of every 64-bit value |
| DecimalDigits.CountDigits32 | rpclib/dependencies/include/format.h:796-802 | the same for every 32-bit value |
| DecimalDigits.CountDigitsByDivision | rpclib/dependencies/include/format.h:778-794 | the loop version gives the same number |
| DecimalDigits.TableIsRight | rpclib/dependencies/include/format.h:772-777 | the fix-up is right whenever the approximation is off by at most one, which it is for every bit length of the word |
| DecimalDigits.TablesHoldPowers | rpclib/dependencies/src/format.cc:652-676 | entry t of the tables is 10^t |
| DecimalDigits.DigitsTable | rpclib/dependencies/src/format.cc:645-650 | entry v of the pair table is the two-digit numeral of v |
| Numerals.NumeralMeans | rpclib/dependencies/include/format.h:805-824 | a numeral evaluates back to its value |
| Numerals.NumeralDigits | rpclib/dependencies/include/format.h:805-824 | it consists of digits of its base and has no leading zero |
| Numerals.NumeralIsSpelled | rpclib/dependencies/include/format.h:2410-2414 | its letters are all small or all capital, as asked |
| Numerals.DigitsSpelled | rpclib/dependencies/include/format.h:2410-2414 | the sixteen digit characters of both spellings |
| Numerals.NumeralLength | rpclib/dependencies/include/format.h:769-802 | it has exactly as many places as its value calls for |
| IntegerWriter.FormatDecimal | rpclib/dependencies/include/format.h:805-824 | fills exactly the counted places with the decimal numeral and touches nothing outside |
| IntegerWriter.MagnitudeIsAbs | rpclib/dependencies/include/format.h:2045-2052 | converting to the unsigned word and negating there gives the magnitude, minimum value included |
| IntegerWriter.Writer.WriteUnsignedDecimal | rpclib/dependencies/include/format.h:2034-2041 | appends room for a prefix and the numeral |
| IntegerWriter.Writer.WriteDecimal | rpclib/dependencies/include/format.h:2043-2053 | appends the signed numeral of every value of the type |
| IntegerWriter.SignedTextIsUnique | rpclib/dependencies/include/format.h:2043-2053 | different values are written differently |
| IntegerWriter.Writer.FillPadding | rpclib/dependencies/include/format.h:2297-2311 | half of the padding before, the rest behind the content |
| IntegerWriter.Writer.PrepareIntBuffer | rpclib/dependencies/include/format.h:2313-2373 | appends left text, a gap for the digits and right text, and returns the place of the last digit |
| IntegerWriter.LayoutSize | rpclib/dependencies/include/format.h:2313-2373 | the text has max(width, prefix + max(precision, digits)) characters in every alignment |
| IntegerWriter.LayoutMeaning | rpclib/dependencies/include/format.h:2313-2373 | left of the digits stand fill, the prefix once (without its octal 0 when a precision pads), then precision zeros or numeric fill; right of them only fill |
| IntegerWriter.Writer.PutDigits | rpclib/dependencies/include/format.h:2404-2446 | the backward loop writes exactly the numeral of the value in its base |
| IntegerWriter.CountPlaces | rpclib/dependencies/include/format.h:2404-2446 | the shift loop counts its digits |
| IntegerWriter.Writer.WriteInt | rpclib/dependencies/include/format.h:2375-2455 | appends sign, base prefix, digits of |value| and layout in every base; an unknown type is an error and appends nothing |
| IntegerMeaning.WrittenIff | rpclib/dependencies/include/format.h:2375-2455 | the written text is the one made of sign, base mark, digits and padding as the specification describes them without the writer: which sign and mark, which digits, how much padding on which side |
| IntegerMeaning.NumeralIsOnly | rpclib/dependencies/include/format.h:2404-2446 | a value has one numeral in a base: no other digits without leading zero mean it |
| IntegerMeaning.PlainIsSigned | rpclib/dependencies/include/format.h:2378-2400 | without flags, width and precision an integer is written as its sign and its decimal numeral |
| IntegerMeaning.ReadBack | rpclib/dependencies/include/format.h:2375-2455 | with a fill that is neither a minus nor a digit, or zeros in front, the digits in the text give the magnitude and the text holds a minus exactly for negative values |
| IntegerMeaning.SameTextSameValue | rpclib/dependencies/include/format.h:2375-2455 | then different values are written differently under one specification |
| IntegerMeaning.FillHides | rpclib/dependencies/include/format.h:2297-2373 | with the fill 1, 1 and 111 are written alike in width 3 |
| FormatIntegers.SignFields | rpclib/dependencies/src/format.cc:1158-1172 | what `{}`, `{:+}`, `{: }` and `{:-}` write for every integer |
| FormatIntegers.BaseFields | rpclib/dependencies/src/format.cc:1269-1271 | what `{:d}`, `{:x}`, `{:X}`, `{:o}`, `{:b}` and `{:B}` write for every integer, small letters and capital ones included |
| FormatIntegers.MarkedFields | rpclib/dependencies/src/format.cc:1174-1178 | what the hash flag puts before the digits in every base |
| FormatIntegers.AlignedFields | rpclib/dependencies/src/format.cc:1124-1190 | what a width writes for every integer and every width with each alignment and with the zero flag |
| FormatInteger.FormatInt.FormatDecimal | rpclib/dependencies/include/format.h:2908-2928 | writes the numeral backwards without leaving the buffer |
| FormatInteger.FormatInt.OfSigned | rpclib/dependencies/include/format.h:2930-2943 | holds the signed numeral of every 64-bit value, minimum included |
| FormatInteger.FormatInt.OfUnsigned | rpclib/dependencies/include/format.h:2944-2946 | holds the numeral of every unsigned 64-bit value |
| FormatInteger.DigitsFit | rpclib/dependencies/include/format.h:2902-2905 | twenty digits always suffice, so sign and terminator fit |
| FormatInteger.FormatInt.Size | rpclib/dependencies/include/format.h:2951 | the number of characters of the text |
| FormatParser.ParseNonnegativeInt | rpclib/dependencies/src/format.cc:268-286 | the accumulation loop, its wrap test and its range error |
| FormatNumerals.ParseIntExactly | rpclib/dependencies/src/format.cc:268-286 | a numeral of any size is read as its value modulo 2^32 if the values of its prefixes modulo 2^32 never decrease and the result is an int, and is refused otherwise |
| FormatNumerals.ParseIntIsExact | rpclib/dependencies/src/format.cc:268-286 | the result is the written number exactly when that is at most INT_MAX; up to UINT_MAX larger ones are errors |
| FormatNumerals.DecimalIsGood | rpclib/dependencies/src/format.cc:268-286 | the numeral of every int is accepted and read as that int |
| FormatNumerals.UnnoticedWrap | rpclib/dependencies/src/format.cc:274-283 | 5368709120 is read as 1073741824 |
| FormatParser.Formatter.CheckNoAutoIndex | rpclib/dependencies/src/format.cc:926-934 | refuses after an automatic reference and leaves the counter alone, otherwise settles on choosing by hand |
| FormatParser.Formatter.NextArg | rpclib/dependencies/src/format.cc:919-924 | takes the next automatic argument or reports the switch |
| FormatParser.Formatter.GetArg | rpclib/dependencies/src/format.cc:936-939 | takes an argument by index or reports the switch |
| FormatParser.Formatter.GetNamedArg | rpclib/dependencies/src/format.cc:864-876 | takes the first argument of that name or reports the switch |
| FormatParser.Formatter.ParseArgIndex | rpclib/dependencies/src/format.cc:877-887 | an empty or numeric reference, with its error precedence |
| FormatParser.Formatter.ParseArgName | rpclib/dependencies/src/format.cc:889-902 | a named reference |
| FormatParser.Formatter.ParseCountArg | rpclib/dependencies/src/format.cc:1191-1221 | a width or precision taken from an argument |
| FormatParser.Formatter.FormatField | rpclib/dependencies/src/format.cc:1113-1280 | the specification parser as a function of text, counter and argument |
| FormatParser.Formatter.Format | rpclib/dependencies/src/format.cc:1282-1301 | the outer loop with its delayed writes hands on exactly the text and fields of the string, or the error |
| FormatReferences.AutomaticOrByHand | rpclib/dependencies/src/format.cc:904-939 | in every accepted string all references (field, then width, then precision) are automatic, the k-th naming argument k, or none is; an index counts the arguments from the first, a name means the first argument that bears it, and a width or precision is the value of the integer argument its reference points to |
| FormatReferences.RunFollows | rpclib/dependencies/src/format.cc:919-939 | the same from every state of the counter |
| FormatReferences.ReferredTo | rpclib/dependencies/src/format.cc:864-916 | what every index and name refers to, and which error a missing one gives |
| FormatReferences.CountsAccepted | rpclib/dependencies/src/format.cc:1197-1220 | exactly the non-negative int-sized values of the four integer types serve as width or precision, with the error for each other argument |
| FormatReferences.MixedFails | rpclib/dependencies/src/format.cc:919-934 | `{}{0}` and `{0}{}` fail with the error for their order, whatever follows |
| FormatArguments.SignFlag | rpclib/dependencies/src/format.cc:301-310 | for every argument: the flags it gets from a sign, or the error for text or for unsigned integers |
| FormatArguments.NumericFlag | rpclib/dependencies/src/format.cc:293-299 | for every argument: what `#`, `0` and `=` set, or the error for text |
| FormatArguments.AlignFlag | rpclib/dependencies/src/format.cc:1124-1156 | fill and the other alignments are taken for every argument |
| FormatArguments.PrecisionFlag | rpclib/dependencies/src/format.cc:1262-1266 | a precision is taken for floating-point and text arguments and refused for integers and pointers |
| FormatArguments.Characters | rpclib/dependencies/src/format.cc:288-291 | by code: digits, name characters and alignment characters |
| FormatArguments.Unmatched | rpclib/dependencies/src/format.cc:1294-1295 | a single closing brace is refused |
| FormatArguments.Unclosed | rpclib/dependencies/src/format.cc:1274-1275 | an unclosed field is refused, with another error if its argument is missing |
| FormatArguments.SpecRefusals | rpclib/dependencies/src/format.cc:1146-1147 | a brace as fill and a full stop without precision are refused |
| FormatRoundTrip.RunRendered | rpclib/dependencies/src/format.cc:1112-1301 | the text of any list of literals and fields produces exactly what the pieces mean, in every combination of fill, alignment, sign, flags, width, precision and type character, errors included |
| FormatGrammar.AcceptedIff | rpclib/dependencies/src/format.cc:1113-1301 | a string is accepted exactly when it is the text of well-formed pieces that mean something, and it produces what they mean |
| FormatGrammar.AcceptedIsRendered | rpclib/dependencies/src/format.cc:1113-1301 | every accepted string can be taken apart into well-formed pieces |
| FormatGrammar.SpecRead | rpclib/dependencies/src/format.cc:1124-1273 | every accepted specification is the text of a well-formed one |
| FormatRoundTrip.EmptySpec | rpclib/dependencies/src/format.cc:1124-1156 | `{:}` means the same as `{}` exactly when no alignment character comes right behind it |
| FormatRoundTrip.StrayAlignment | rpclib/dependencies/src/format.cc:1124-1156 | `{:}=` formats its argument with numeric alignment |
| FormatRoundTrip.ReadAlign | rpclib/dependencies/src/format.cc:1124-1156 | fill and alignment are read as written; a bare `:` picks up an alignment character from behind the closing brace |
| FormatRoundTrip.TextComesThrough | rpclib/dependencies/src/format.cc:1282-1301 | text with doubled braces and no arguments comes out as it was |

## Left out

- Sockets, `select`, `accept`, Asio, signals, threads and clocks: they appear as nondeterministic steps and parameters; sections under the mutex and strand handlers are atomic steps.
- A second connection in the set: a connection closed by a failed send may still hold complete frames whose requests are gone.
- The order in which `close_with_error` visits the map of pending requests: the map is a Dafny map and the failures happen in one step.
- Framing.SendAll: the socket has an int for the size and takes nothing if it is offered nothing or a negative number of bytes; what a system makes of such a size where the parameter is a `size_t` is left to it.
- Streams with a header whose size is 0 in 32 bits, on which the decoding loops never end: `AsioSession.AnyStreamIsOrdered` covers every step on them, the handlers as a whole do not.
- The select server's listener, its connection list and logging: one connection's receive, decode and answer loop is modelled.
- EditScript.ScriptCost: floating-point addition is an arbitrary rounding function that is exact on the whole numbers of the table's border; overflow and NaN cannot arise.
- EditDistance.ShortestIff: at most 190000 elements on both sides together, because from about 200000 on the surcharges of 0.00001 per replacement can add up to a whole edit; the literal 1.00001 stands for the nearest double, whose distance from it is part of the rounding.
- MatchMatrix: `HasEdge`, `LhsSize` and `RhsSize` live in a header that is not part of this model; the matrix is a boolean table with two sizes.
- The explanations that `FindPairing` and `VerifyAllElementsAndMatchersAreMatched` write to a listener: only the result is modelled.
- SimpleRegex.MatchRegexAtHead: the regex must be the text of a valid regex without leading `^`, as the source demands; null pointers, the `FullMatch` wrapping and the error texts of the validator are not modelled.
- TestFilter: the split of a filter at `-` into a positive and a negative part.
- Utf8.ChopLowBits: takes off six bits, the only number it is called with; other numbers of bits are not modelled.
- Utf8.CodePointToUtf8: bytes are bit vectors, strings have no terminator.
- Raw pointers into fmt's buffer: places are indices into a growable array.
- Formatting of floating-point, string, pointer, character and custom arguments, wide characters and locales: the parser hands an argument and its specification on and stops there; custom arguments, which parse the format string themselves, are not among the modelled arguments.
- IntegerMeaning.ReadBack: the condition on the fill is enough but not necessary: other fills are harmless where a width leaves no room for them (`IntegerMeaning.FillHides` shows one that is not).
- FormatParser.Formatter.Format: on an error the text written so far stays in the writer; how much of it is not stated.
- printf-style formatting, named-argument storage and packed argument lists: arguments are a sequence of optionally named values.
- rpclib's client, server and dispatcher: most of what decides their behaviour is in sources that are not part of this model.
