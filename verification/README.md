# Verification of the text-processing core of llama.cpp `common/`

This project models the part of llama.cpp's `common/` library that turns model output into
chat messages, the string algorithms around it, and the low-rank tensor algebra of
`convert_lora_to_gguf.py`. It proves what these parts promise: meaning kept by translations,
round trips, conservation, streams that only grow, fast forms equal to simple ones.

Loops and objects that change are methods and classes, each proved against a function. The
theorems are lemmas about these functions. Where a promise is false of the code, a lemma shows
an input for which it fails, and another says exactly when it holds.

| module | what it models |
|---|---|
| `PyQuotes`, `PyStreaming` | `normalize_quotes_to_json`: the automaton that rewrites Python quotes, escapes and literals; its behaviour on cut input |
| `PyValues`, `PyToJson`, `PyStrings` | values as Python prints them, strings in any way of writing them, and what the automaton makes of them |
| `JsonText`, `BraceDepth` | JSON text: `dump()`, a reader (RFC 8259), and `json_brace_depth` |
| `ToolMapper`, `CallBody`, `ToolCalls` | `common_chat_peg_mapper`: the event state machine as a class, and whole tool calls |
| `ToolTexts` | the texts, names and ids of a visit |
| `ToolStreaming` | the mapper run afresh on longer and longer parts of a text, with the deltas between the messages |
| `GemmaAst`, `MinimaxAst` | printing complete and cut syntax trees as JSON |
| `GemmaArrived`, `MinimaxArrived` | cut trees show all that has arrived |
| `Permute`, `Orderings` | the memoised grammar of `permute`, and its words |
| `Segments`, `DiffSplit` | marker segmentation and the two-ended diff |
| `DiffConservation`, `DiffMaximal` | the diff loses nothing, and leaves nothing shared apart |
| `Tensors`, `LoraTensor`, `LoraShapes`, `LoraIndexing`, `LoraPicks`, `LoraEllipsis`, `LoraJoin` | tensors with leading dimensions, and `LoraTorchTensor` on the factors (A, B) |
| `CommonSubstring`, `Glob`, `Escapes` | `string_lcs`, `glob_match`, `string_process_escapes` |
| `MessageDiffs`, `ToolResultOrder`, `MessageSpans` | streaming deltas, tool-result reordering, message spans |
| `WordWrap`, `CsvRow`, `Base64` | `break_str_into_lines`, `parse_csv_row`, base64 (RFC 4648 sections 4 and 5) |
| `ChatMessage`, `Options`, `Sequences`, `CType` | messages, optional values, facts about concatenation, `isspace` |

## How to read it

- A character is a byte. `std::isspace` and `std::isalnum` are those of the "C" locale, and
  characters are compared as unsigned values, as on Android for ARM64.
- Exceptions and assertions of the source are results (`None`), never preconditions.
- `Print(v, sp, rest)` is the text of `v` followed by `rest`, `sp` being the space after
  separators: `""` for `dump()`, `" "` for Python.
- A LoRA tensor is a list of leading dimensions, rows, columns and an entry for every index.
  `Materialize` is the product B·A, A being broadcast over leading dimensions of size 1. An
  operation is right when it commutes with `Materialize`. What it does to the product is told
  entry by entry as well: `Entry(t, i)` is the entry at an index of all dimensions.
- A parse visits a node before the nodes it encloses, with the text that has arrived of it. Nodes
  that only enclose others have tags the mapper does not read, or are tool-args nodes whose text is
  no object; `Visible` leaves them out.
- In `ToolMapper` the pointer `current_tool` is one of four cases: none, the pending call, the
  last recorded call, or a pending call that was dropped when it was closed without a name.
- A word of a grammar is a word of one alternative of a choice, in any order.

Some promises hold only with a condition, and the lemmas give it in both directions:

- Translated Python text is JSON if and only if no string has a character that Python prints as
  a `\x` escape (`PyToJson.TranslationIsJson`; it fails in `VerticalTabIsNotJson`).
- A Python string is translated to a JSON string of the same characters if and only if it is
  written without plain control characters, `\a`, `\v`, and `\'` between double quotes
  (`PyStrings.StringReadsBack`; `EscapedQuoteIsNotJson`).
- A cut of any text is translated to a prefix if and only if the cut is safe
  (`PyStreaming.CutIsPrefix`; `DanglingBackslashIsTakenBack`, `OpenWordIsTakenBack`).
- The place of the name of a tool call does not matter if and only if nothing is added before
  the first argument name (`CallBody.NamePlaceIff`; `ValueAheadOfName`).
- A text that ends inside a node gives a message that longer texts extend if and only if the cut
  is safe (`ToolStreaming.CutExtendsIff`; `WordValueIsTakenBack`).
- The diff conserves both texts if and only if no used-up segment is matched again unrepaired
  (`DiffConservation.SplitConserves`; `RepeatedMarkerIsLost`).
- Indexing the factors is right if and only if no leading dimension that A does not repeat is
  sliced in part (`LoraIndexing.GetTupleMeansGetItem`; `PartialBatchSliceFails`). This settles the
  open question noted at line 98 of the converter. The expansion of an ellipsis before it is the
  library's only for some numbers of dimensions (`LoraEllipsis.EllipsisIsExpanded`;
  `EllipsisCutsRows`).
- Joining both factors along a leading dimension denotes a tensor if and only if the leading sizes
  of A add up (`LoraJoin.CatLeadingMeansCat`; `TwoRepeatedFail`). It is the right one whatever the
  entries are if and only if they add up to 1 or no A is repeated, empty products aside
  (`CatLeadingIff`; `RepeatedBesideEmpty`).
- An integer index is refused, although valid for the product, if and only if A is repeated and it
  is neither 0 nor -1 (`LoraIndexing.GetFirstAccepts`; `RepeatedIndexIsRefused`).
- A reshape is accepted if and only if the library would accept it and A is a single matrix
  (`LoraShapes.ReshapeAccepts`, and `SeveralUnknownsAccepted` for requests with more than one -1;
  `TwoUnknownsAccepted`, `RankZeroReshapes`).
- Deltas are computed if and only if no text and no name diverges and no call is gone
  (`MessageDiffs.ThrowsIff`).
- The deltas between two messages rebuild the later one if and only if it extends the earlier one
  (`MessageDiffs.RebuildsIffExtends`; `ErasedStopWordStays`, `ErasedIdStays`).
- Skipped regions are skipped if and only if the scan arrives at them
  (`MessageSpans.DocumentedIffNoneMissed`; `OverlappedSkipIsIgnored`).

Two things in the source differ from its own comments. In `string_process_escapes` the two
characters after `\x` are read with `strtol`, so a space or a sign before one hexadecimal digit
is accepted as well; the model does the same. In `split`, a skip that the scan does not reach
exactly stops all later skips.

## Model

| member | source | states |
|---|---|---|
| `PyQuotes.NormalizeQuotesToJson` | app/src/main/cpp/llama.cpp/common/chat-peg-parser.cpp:86-188 | the loop over the whole input computes the translation specified step by step as a function of the remaining text and the quoting mode |
| `PyQuotes.Turn` | app/src/main/cpp/llama.cpp/common/chat-peg-parser.cpp:95-185 | one turn of the loop: the text written and the characters consumed are those of one step of the translation, and the two quote flags are never both set |
| `PyQuotes.Idempotent` | app/src/main/cpp/llama.cpp/common/chat-peg-parser.cpp:86-188 | for every text, unterminated quotes, trailing backslashes and near-literals included, a second translation changes nothing; the second run sees every single-quoted string double-quoted |
| `PyValues.ValueTranslates` | app/src/main/cpp/llama.cpp/common/chat-peg-parser.cpp:86-188 | a Python-printed value, in either quote and at any depth, followed by any text that may follow a value, is translated to its JSON-style text followed by the translation of what follows |
| `PyToJson.TranslationIsJson` | app/src/main/cpp/llama.cpp/common/chat-peg-parser.cpp:86-188 | for every printed value: the translation reads back as JSON to the same value if and only if no string in it has a character that Python prints as a `\x` escape, and then it is exactly the JSON printing |
| `PyToJson.VerticalTabIsNotJson` | app/src/main/cpp/llama.cpp/common/chat-peg-parser.cpp:116-120 | the law fails for a string holding a vertical tab: its `\x0b` is copied and is not JSON |
| `PyStreaming.CutIsPrefix` | app/src/main/cpp/llama.cpp/common/chat-peg-parser.cpp:86-188 | for any text and any cut of it: translating the cut gives a prefix of translating the whole if and only if the cut is safe, where the two unsafe cuts are a dangling backslash before a single quote and a literal that turns out to be another word |
| `PyStreaming.CutInWord` | app/src/main/cpp/llama.cpp/common/chat-peg-parser.cpp:159-181 | the cut inside a word that begins like True, False or None: a prefix exactly when the whole word still is one |
| `PyStreaming.DanglingBackslashIsTakenBack` | app/src/main/cpp/llama.cpp/common/chat-peg-parser.cpp:98-121 | cutting `'\'` before its last quote shows a backslash that is taken back |
| `PyStreaming.OpenWordIsTakenBack` | app/src/main/cpp/llama.cpp/common/chat-peg-parser.cpp:159-181 | cutting "Trust" after "Tr" shows "tr", which is taken back |
| `PyStrings.StringReadsBack` | app/src/main/cpp/llama.cpp/common/chat-peg-parser.cpp:98-157 | a Python string in either quotes, with each character as it is or behind a backslash, is translated to a JSON string of the characters meant if and only if it has no plain control character, no `\a` or `\v`, and no `\'` between double quotes; in every other case the translation is not JSON |
| `PyStrings.EscapedQuoteIsNotJson` | app/src/main/cpp/llama.cpp/common/chat-peg-parser.cpp:121-127 | a single quote escaped between double quotes is copied with its backslash, which is not JSON |
| `PyStrings.OtherTextIsKept` | app/src/main/cpp/llama.cpp/common/chat-peg-parser.cpp:159-185 | text without quotes is kept as it is where no word of it begins like True, False or None and may be one of them |
| `PyToJson.StreamedTranslationIsPrefix` | app/src/main/cpp/llama.cpp/common/chat-peg-parser.cpp:86-188 | for a printed value cut anywhere, inside a literal too: a prefix unless the cut separates a backslash from a single quote inside a single-quoted string |
| `JsonText.ReadEscaped` | app/src/main/cpp/llama.cpp/common/chat-peg-parser.cpp:73-84 | reading a string undoes `escape_json_string_inner`, for every string (RFC 8259 section 7) |
| `JsonText.ReadPrinted` | app/src/main/cpp/llama.cpp/common/chat-peg-parser.cpp:1127-1200 | the JSON reader gives back every value from its printed text, followed by any text that may follow, with any spacing between tokens (RFC 8259) |
| `BraceDepth.JsonBraceDepth` | app/src/main/cpp/llama.cpp/common/chat-peg-parser.cpp:44-70 | the loop over the three flags counts the braces open outside strings |
| `BraceDepth.ValueBalances` | app/src/main/cpp/llama.cpp/common/chat-peg-parser.cpp:44-70 | the printed text of any value, braces and escapes inside its strings included, leaves the brace depth as it was |
| `BraceDepth.DepthCounts` | app/src/main/cpp/llama.cpp/common/chat-peg-parser.cpp:44-70 | without strings the depth is the number of opening braces less that of closing ones; brackets do not count |
| `BraceDepth.StringsDoNotCount` | app/src/main/cpp/llama.cpp/common/chat-peg-parser.cpp:44-70 | a string between two texts opens and closes nothing, whatever characters it holds |
| `ToolMapper.Mapper.Map` | app/src/main/cpp/llama.cpp/common/chat-peg-parser.cpp:317-458 | one visited node changes the fields of the mapper as the step function says, whichever call `current_tool` points to |
| `ToolMapper.Mapper.FromAst` | app/src/main/cpp/llama.cpp/common/chat-peg-parser.cpp:286-315 | visiting all nodes and finishing gives the state of the run and its final correction |
| `ToolTexts.RunTexts` | app/src/main/cpp/llama.cpp/common/chat-peg-parser.cpp:318-330 | for any visit from any state: content grows by the texts of the content nodes in order, reasoning by those of the reasoning nodes |
| `ToolTexts.VisitTexts` | app/src/main/cpp/llama.cpp/common/chat-peg-parser.cpp:286-330 | so the message of a visit, and the state the mapper ends in, have these texts, blank reasoning shown as none |
| `ToolMapper.Mapper.SetName` | app/src/main/cpp/llama.cpp/common/chat-peg-parser.cpp:362-376 | naming moves the buffered arguments into the call and records it |
| `ToolMapper.Mapper.Close` | app/src/main/cpp/llama.cpp/common/chat-peg-parser.cpp:434-457 | closing flushes the buffer, closes the open string and every open brace, and records or drops the call |
| `ToolTexts.CallWithId` | app/src/main/cpp/llama.cpp/common/chat-peg-parser.cpp:352-358 | a call sent with an id anywhere between its opening and its closing is recorded with that id, and with the name and the arguments it has without it |
| `ToolTexts.WholeArgumentsRecorded` | app/src/main/cpp/llama.cpp/common/chat-peg-parser.cpp:317-458 | a call sent with its arguments as a whole, before or behind its name and with enclosing nodes anywhere, is recorded with them, without trailing space and with every open brace closed |
| `ToolTexts.IdMeans` | app/src/main/cpp/llama.cpp/common/chat-peg-parser.cpp:352-358 | an id is recorded the same with or without quotes around it and with any space behind it |
| `ToolTexts.TrimEndMeans` | app/src/main/cpp/llama.cpp/common/chat-peg-parser.cpp:14-24 | trimming takes away the trailing space, all of it and nothing else |
| `CallBody.OneCallRecorded` | app/src/main/cpp/llama.cpp/common/chat-peg-parser.cpp:317-458 | from any state, a call sent with any argument nodes and enclosing nodes before and after its name is recorded once, with its name and the arguments text of these nodes |
| `CallBody.NamePlaceIff` | app/src/main/cpp/llama.cpp/common/chat-peg-parser.cpp:362-432 | for any argument nodes and the nodes that enclose them: the recorded arguments are the same wherever the name falls if and only if nothing is added before the first argument name |
| `CallBody.ValueAheadOfName` | app/src/main/cpp/llama.cpp/common/chat-peg-parser.cpp:362-432 | a value without an argument name gives other arguments when the name comes after it than when it comes first |
| `CallBody.BodyVisible` | app/src/main/cpp/llama.cpp/common/chat-peg-parser.cpp:317-458 | the nodes that only enclose others, rules and the tool-arg and tool-args nodes of tagged calls, play no part in the arguments |
| `ToolMapper.VisibleRuns` | app/src/main/cpp/llama.cpp/common/chat-peg-parser.cpp:317-458 | a visit from any valid state follows no dangling pointer if and only if the visit without the enclosing nodes does not, and both end in the same state |
| `CallBody.SameWhereverNamed` | app/src/main/cpp/llama.cpp/common/chat-peg-parser.cpp:362-432 | the arguments recorded for a name between two given parts are those recorded for a name in front of both |
| `ToolCalls.SameCallWhereverNamed` | app/src/main/cpp/llama.cpp/common/chat-peg-parser.cpp:317-458 | the instance for a list of arguments with one value each, visited with enclosing nodes anywhere among theirs: wherever the name falls, the one call recorded has that name and the complete object as its arguments |
| `ToolCalls.ArgumentsReadBack` | app/src/main/cpp/llama.cpp/common/chat-peg-parser.cpp:390-457 | the recorded arguments read back as one JSON object with the pairs in order, for string values and for translated Python values |
| `CallBody.ArgumentsOnlyGrow` | app/src/main/cpp/llama.cpp/common/chat-peg-parser.cpp:384-432 | once named, the arguments after any sequence of argument nodes and enclosing nodes begin with the arguments before it |
| `ToolCalls.OneBraceOpen` | app/src/main/cpp/llama.cpp/common/chat-peg-parser.cpp:445-448 | when the call is closed exactly one brace is open, so one is added |
| `ToolStreaming.StepExtends` | app/src/main/cpp/llama.cpp/common/chat-peg-parser.cpp:317-458 | a visited node extends the message in the sense of the streaming deltas, for any state and any node that a call is sent with |
| `ToolStreaming.CutExtendsIff` | app/src/main/cpp/llama.cpp/common/chat-peg-parser.cpp:317-458 | the message of a text that ends inside a node is extended by the message of the whole node if and only if the cut is safe: any cut of a text, a string or a name; of a Python value where its translation is a prefix; never inside an argument name |
| `ToolStreaming.WordValueIsTakenBack` | app/src/main/cpp/llama.cpp/common/chat-peg-parser.cpp:400-427 | in any named call, a value cut after "Tr" shows arguments that are not kept when it turns out to be "Trust" |
| `ToolStreaming.FinishShows` | app/src/main/cpp/llama.cpp/common/chat-peg-parser.cpp:286-315 | ending the visit shows the recorded calls and drops blank reasoning |
| `ToolStreaming.ParsesAreRebuilt` | app/src/main/cpp/llama.cpp/common/chat-peg-parser.cpp:286-315 | the mapper run afresh on longer and longer safely cut parts of a text, where the enclosing nodes of each part have the text that has arrived of them: the deltas between the messages never fail, and applied in order they rebuild the last message |
| `ToolStreaming.ConversationIsRebuilt` | app/src/main/cpp/llama.cpp/common/chat-peg-parser.cpp:286-458 | the same for every conversation of texts and tool calls, down to the message of the whole: a call has its name and at most one id anywhere, its arguments node by node or as a whole, enclosing nodes anywhere, and a closing node or none |
| `GemmaAst.WholeTreePrints` | app/src/main/cpp/llama.cpp/common/chat-peg-parser.cpp:966-1059 | the complete tree of any value prints as `dump()` prints the value |
| `GemmaAst.WholeTreeReadsBack` | app/src/main/cpp/llama.cpp/common/chat-peg-parser.cpp:966-1059 | the printed tree of any complete value reads back as the value |
| `GemmaAst.CutPrintsPrefix` | app/src/main/cpp/llama.cpp/common/chat-peg-parser.cpp:966-1059 | a tree cut along its rightmost spine prints a prefix of what the longer tree prints, complete or cut further on; only nodes whose end is printed need be marked partial |
| `GemmaArrived.ArrivedReadsBack` | app/src/main/cpp/llama.cpp/common/chat-peg-parser.cpp:967-1060 | a cut tree shows all that has arrived: its text, followed by the missing end of a word, quote and brackets, reads back as the value that has arrived |
| `GemmaArrived.CutShowsAllArrived` | app/src/main/cpp/llama.cpp/common/chat-peg-parser.cpp:967-1060 | and every cut of the tree of a value is such a tree: what has arrived of it is a value up to the end of its text, cut strings, keys, numbers and words included |
| `MinimaxAst.WholeValuePrints` | app/src/main/cpp/llama.cpp/common/chat-peg-parser.cpp:1179-1200 | the complete tree of any value prints as `dump()` prints the value, its entries found by tag through wrapper nodes |
| `MinimaxAst.WholeObjectPrints` | app/src/main/cpp/llama.cpp/common/chat-peg-parser.cpp:1139-1177 | the same for the arguments of a call, collected from the node of the tool |
| `MinimaxAst.WholeValueReadsBack` | app/src/main/cpp/llama.cpp/common/chat-peg-parser.cpp:1179-1200 | the printed tree of any complete value reads back as the value |
| `MinimaxAst.CutValuePrintsPrefix` | app/src/main/cpp/llama.cpp/common/chat-peg-parser.cpp:1179-1200 | an open value prints a prefix of what it prints when cut further on or closed |
| `MinimaxAst.CutContainerPrintsPrefix` | app/src/main/cpp/llama.cpp/common/chat-peg-parser.cpp:1139-1177 | an open container prints a prefix, entries that print as nothing being skipped on both sides |
| `MinimaxAst.CollectCut` | app/src/main/cpp/llama.cpp/common/chat-peg-parser.cpp:1100-1112 | collecting by tag keeps the cut: all entries but the last are the same and the last is a cut of its counterpart |
| `MinimaxAst.ArgumentsOnlyGrow` | app/src/main/cpp/llama.cpp/common/chat-peg-parser.cpp:1139-1200 | the arguments shown for a call that is cut, anywhere but inside an argument name, are a prefix of those shown for the longer call |
| `MinimaxAst.CollectSeesThrough` | app/src/main/cpp/llama.cpp/common/chat-peg-parser.cpp:1100-1112 | collecting takes a tagged node as it is and looks through any other node at its children, in their place |
| `MinimaxAst.FindsFirst` | app/src/main/cpp/llama.cpp/common/peg-parser.cpp:138-152 | searching by tag gives the first tagged node in document order, and looks one level less deep inside a node of another tag |
| `MinimaxArrived.ArrivedReadsBack` | app/src/main/cpp/llama.cpp/common/chat-peg-parser.cpp:1127-1200 | an open value shows all that has arrived: its text, followed by what is missing, reads back as the value that has arrived |
| `MinimaxArrived.CutShowsAllArrived` | app/src/main/cpp/llama.cpp/common/chat-peg-parser.cpp:1127-1200 | and every cut of the tree of a value is such a value |
| `MinimaxArrived.CutCallShowsAllArrived` | app/src/main/cpp/llama.cpp/common/chat-peg-parser.cpp:1127-1240 | the same for the arguments of a cut call |
| `Permute.Builder.RemainingOf` | app/src/main/cpp/llama.cpp/common/chat-peg-parser.cpp:253-273 | the memoised recursion over masks returns what the unmemoised recursion builds, and every remembered rule stays right |
| `Permute.BuildPermutation` | app/src/main/cpp/llama.cpp/common/chat-peg-parser.cpp:241-276 | the grammar for any number of parsers, the cases of none, one and too many included |
| `Permute.WordsAreOrdered` | app/src/main/cpp/llama.cpp/common/chat-peg-parser.cpp:254-273 | every word of the rule for a mask arranges one word of each parser of the mask, in some order |
| `Permute.OrderedAreWords` | app/src/main/cpp/llama.cpp/common/chat-peg-parser.cpp:254-273 | every such arrangement is a word of the rule |
| `Permute.PermutationWords` | app/src/main/cpp/llama.cpp/common/chat-peg-parser.cpp:241-276 | for up to six parsers, none and one included: a text is a word of the grammar if and only if it is one word of each parser in some order |
| `Permute.ManyInOrder` | app/src/main/cpp/llama.cpp/common/chat-peg-parser.cpp:241-276 | more than six parsers are matched in the order they are given in |
| `Segments.SegmentizeMarkers` | app/src/main/cpp/llama.cpp/common/chat-auto-parser-helpers.cpp:269-299 | the loop over `in_marker`, `last_border` and `marker_opener` computes the segmentation |
| `Segments.SegmentsMakeText` | app/src/main/cpp/llama.cpp/common/chat-auto-parser-helpers.cpp:269-299 | the segments of any text concatenate to it and are well formed: markers, with text between them that opens no marker |
| `Segments.TextMakesSegments` | app/src/main/cpp/llama.cpp/common/chat-auto-parser-helpers.cpp:269-299 | segmenting the concatenation of any well-formed list gives the list back |
| `Segments.SegmentsOfAppend` | app/src/main/cpp/llama.cpp/common/chat-auto-parser-helpers.cpp:269-299 | when the last segment of `a` is a marker, the segments of `a + b` are those of `a` and those of `b` |
| `DiffSplit.CommonPrefixLen` | app/src/main/cpp/llama.cpp/common/chat-auto-parser-helpers.cpp:69-76 | the loop counts the common prefix |
| `DiffSplit.CommonSuffixLen` | app/src/main/cpp/llama.cpp/common/chat-auto-parser-helpers.cpp:78-85 | the loop counts the common suffix |
| `DiffSplit.CommonPrefixIsLongest` | app/src/main/cpp/llama.cpp/common/chat-auto-parser-helpers.cpp:69-76 | the texts agree on it and it cannot be made longer |
| `DiffSplit.CommonSuffixIsLongest` | app/src/main/cpp/llama.cpp/common/chat-auto-parser-helpers.cpp:78-85 | the same from the end |
| `DiffSplit.MatchLoop` | app/src/main/cpp/llama.cpp/common/chat-auto-parser-helpers.cpp:102-139 | the two-ended loop over four iterators and two flags ends in the state of the specified matching |
| `DiffConservation.RematchKeepsLeft` | app/src/main/cpp/llama.cpp/common/chat-auto-parser-helpers.cpp:141-165 | the case taken after the loop keeps the left text unless the left side was used up and is matched again |
| `DiffConservation.RematchKeepsRight` | app/src/main/cpp/llama.cpp/common/chat-auto-parser-helpers.cpp:141-165 | and the right text likewise |
| `DiffSplit.TrimRest` | app/src/main/cpp/llama.cpp/common/chat-auto-parser-helpers.cpp:167-183 | common text is cut from both ends of the unmatched segments without overlap |
| `DiffSplit.CalculateDiffSplit` | app/src/main/cpp/llama.cpp/common/chat-auto-parser-helpers.cpp:87-207 | the whole function, both corrections at its end included, computes the specified split |
| `DiffMaximal.LoopStops` | app/src/main/cpp/llama.cpp/common/chat-auto-parser-helpers.cpp:102-139 | where the loop stops with more than one segment left on both sides, their first segments differ and so do their last ones |
| `DiffMaximal.SplitDiffers` | app/src/main/cpp/llama.cpp/common/chat-auto-parser-helpers.cpp:87-207 | for all texts: nothing shared is left over. The unmatched segments differ at both ends unless a side is used up or both are one same text, and where unmatched text of both sides begins or ends, the two parts of the split differ in their first or in their last character |
| `DiffMaximal.PlainTextsDiffer` | app/src/main/cpp/llama.cpp/common/chat-auto-parser-helpers.cpp:87-207 | for texts without markers the two parts of the split, when neither is empty, differ in their first and in their last character |
| `DiffConservation.LoopConserves` | app/src/main/cpp/llama.cpp/common/chat-auto-parser-helpers.cpp:102-139 | at the end of the loop, prefix, unmatched segments and suffix still make up each of the two texts |
| `DiffConservation.EndConserves` | app/src/main/cpp/llama.cpp/common/chat-auto-parser-helpers.cpp:141-206 | from a loop state with nothing matched again after being used up, the cases, the trimming and both corrections conserve both texts |
| `DiffConservation.SplitConservesFrom` | app/src/main/cpp/llama.cpp/common/chat-auto-parser-helpers.cpp:141-206 | from any loop state with nothing lost yet: the cases, the trimming and both corrections conserve both texts unless exactly one side was used up and is matched again, and it was not the left one with right still longer and left a prefix of right |
| `DiffConservation.SplitConserves` | app/src/main/cpp/llama.cpp/common/chat-auto-parser-helpers.cpp:87-207 | for all texts: prefix+left+suffix and prefix+right+suffix are the two texts if and only if no used-up segment is matched again without being repaired |
| `DiffConservation.LeftUsedUp` | app/src/main/cpp/llama.cpp/common/chat-auto-parser-helpers.cpp:114-139 | when only the left side is used up, its segments are the right segments with one run cut out |
| `DiffConservation.RepeatedMarkerIsLost` | app/src/main/cpp/llama.cpp/common/chat-auto-parser-helpers.cpp:114-190 | `<a><e>` against `<a><e><e>` is split as if there were no difference |
| `LoraTensor.MulMeansScale` | app/src/main/cpp/llama.cpp/convert_lora_to_gguf.py:211-216 | multiplying B is accepted exactly where the library multiplies the product by a single column (or number) without adding a dimension, and gives the multiplied product, with all repetition of dimensions of size 1 on either side |
| `LoraTensor.MulScalesEntries` | app/src/main/cpp/llama.cpp/convert_lora_to_gguf.py:213-218 | entry by entry: each entry of the product is multiplied by the number found at the same index, lined up at the end, where scaling keeps the shape |
| `LoraTensor.ChunkMeansNarrow` | app/src/main/cpp/llama.cpp/convert_lora_to_gguf.py:190-206 | one chunk along any dimension denotes that chunk of the product, A being kept where it repeats |
| `LoraTensor.SplitMeansSplit` | app/src/main/cpp/llama.cpp/convert_lora_to_gguf.py:190-206 | every chunk of a split along any dimension, with any sizes, denotes the chunk of the product |
| `LoraTensor.SplitMovesEntries` | app/src/main/cpp/llama.cpp/convert_lora_to_gguf.py:190-208 | entry by entry, for rows, columns and every batch dimension: position p of a part is the position of the product that comes p after all the parts before |
| `LoraTensor.SplitIsUndone` | app/src/main/cpp/llama.cpp/convert_lora_to_gguf.py:190-208 | the product is the concatenation of the products of the parts when their sizes add up |
| `LoraTensor.EqualSizesCover` | app/src/main/cpp/llama.cpp/convert_lora_to_gguf.py:190-206 | an integer split size gives chunks of that size, the last one smaller, that cover the dimension |
| `LoraTensor.PermuteMeansPermute` | app/src/main/cpp/llama.cpp/convert_lora_to_gguf.py:168-179 | permuting the factors, where it is implemented, permutes the product, the transposition of a matrix by swapping the factors included |
| `LoraTensor.TransposeIsAccepted` | app/src/main/cpp/llama.cpp/convert_lora_to_gguf.py:168-185 | the transpositions that are implemented: two dimensions other than the last, or a dimension with itself, if the leading dimensions of A are 1; or the two dimensions of a matrix |
| `LoraTensor.TransposeSwaps` | app/src/main/cpp/llama.cpp/convert_lora_to_gguf.py:181-185 | transposing exchanges the two sizes and moves every entry of the product to the index with the two numbers exchanged |
| `LoraTensor.MatrixTransposes` | app/src/main/cpp/llama.cpp/convert_lora_to_gguf.py:176-185 | transposing a matrix exchanges rows and columns of the product |
| `Tensors.PermuteMovesEntries` | app/src/main/cpp/llama.cpp/convert_lora_to_gguf.py:168-179 | the library's permutation, as modelled, moves every entry to the permuted index |
| `Tensors.ReshapeKeepsPositions` | app/src/main/cpp/llama.cpp/convert_lora_to_gguf.py:155-160 | the library's reshape, as modelled, keeps every row at its row-major position |
| `Tensors.CatIsUnique` | app/src/main/cpp/llama.cpp/convert_lora_to_gguf.py:243-252 | the concatenation of given tensors along a dimension, told by where each entry of each part is found, is unique |
| `LoraJoin.CatMeansCat` | app/src/main/cpp/llama.cpp/convert_lora_to_gguf.py:243-259 | matrices are concatenated if and only if all of them share A, and then concatenating the B factors concatenates the products |
| `LoraJoin.CatJoins` | app/src/main/cpp/llama.cpp/convert_lora_to_gguf.py:253-257 | entry by entry: the rows of the product are those of the products, one after the other |
| `LoraJoin.CatLeadingMeansCat` | app/src/main/cpp/llama.cpp/convert_lora_to_gguf.py:248-252 | with leading dimensions, concatenating both factors denotes a tensor if and only if the leading sizes of A add up to 1 or to those of B; it is the concatenation of the products when they add up to 1 or no A is repeated, and otherwise some entry takes A and B from different tensors |
| `LoraJoin.CatLeadingJoins` | app/src/main/cpp/llama.cpp/convert_lora_to_gguf.py:248-252 | entry by entry: the first dimension of the product is that of the products, one after the other, when the leading sizes of A add up to 1 or no A is repeated |
| `LoraJoin.CatLeadingIff` | app/src/main/cpp/llama.cpp/convert_lora_to_gguf.py:248-252 | for given shapes: the result is the concatenation of the products whatever the entries are if and only if the leading sizes of A add up to 1, or no A is repeated, or the sizes add up to those of B and there is nothing to multiply |
| `LoraJoin.RepeatedBesideEmpty` | app/src/main/cpp/llama.cpp/convert_lora_to_gguf.py:248-252 | two tensors whose sizes add up, although A is repeated, and whose result is not the concatenation of the products |
| `LoraJoin.TwoRepeatedFail` | app/src/main/cpp/llama.cpp/convert_lora_to_gguf.py:248-252 | two tensors that both repeat A along the dimension do not fit together |
| `LoraJoin.StackMeansStack` | app/src/main/cpp/llama.cpp/convert_lora_to_gguf.py:234-242 | stacking both factors stacks the products |
| `LoraJoin.StackHolds` | app/src/main/cpp/llama.cpp/convert_lora_to_gguf.py:234-242 | entry by entry: index i of tensor j is found at index [j] + i |
| `LoraShapes.ReshapeMeansReshape` | app/src/main/cpp/llama.cpp/convert_lora_to_gguf.py:136-160 | an accepted reshape has the requested shape wherever the request is not -1, and is the reshaped product whenever the product has as many entries, which is always so unless the rank is 0 |
| `LoraShapes.RankZeroReshapes` | app/src/main/cpp/llama.cpp/convert_lora_to_gguf.py:155-160 | with rank 0 a matrix of two rows is reshaped to three |
| `LoraShapes.ReshapeAccepts` | app/src/main/cpp/llama.cpp/convert_lora_to_gguf.py:136-160 | a request with at most one -1 is accepted if and only if the leading dimensions of A are 1 and the library finds a shape for the product that keeps the last dimension |
| `LoraShapes.SeveralUnknownsAccepted` | app/src/main/cpp/llama.cpp/convert_lora_to_gguf.py:146-160 | a request with several -1, which the library refuses, is accepted if and only if A is a single matrix, the filled-in request keeps the last dimension, and the known dimensions already hold all entries or there is none |
| `LoraShapes.TwoUnknownsAccepted` | app/src/main/cpp/llama.cpp/convert_lora_to_gguf.py:146-150 | a request with two -1, which the library refuses, is accepted for a single row |
| `LoraShapes.ReshapableA` | app/src/main/cpp/llama.cpp/convert_lora_to_gguf.py:155-160 | an A with columns and with a leading dimension other than 1 is not accepted |
| `LoraIndexing.GetTupleMeansGetItem` | app/src/main/cpp/llama.cpp/convert_lora_to_gguf.py:99-112 | picking in the factors denotes a tensor if and only if no leading dimension that A does not repeat is sliced in part, and then it is the picked product |
| `LoraPicks.GetTuplePicks` | app/src/main/cpp/llama.cpp/convert_lora_to_gguf.py:80-113 | entry by entry: an index tuple that denotes a tensor gives exactly the entries of the product that it picks, dimension by dimension |
| `LoraPicks.GetFirstPicks` | app/src/main/cpp/llama.cpp/convert_lora_to_gguf.py:67-75 | the same for a single integer or slice |
| `LoraPicks.SlicePicks` | app/src/main/cpp/llama.cpp/convert_lora_to_gguf.py:64-75 | a slice picks, from its first position on and one every step, the positions before its stop; bounds below zero count from the end |
| `LoraPicks.LastRows` | app/src/main/cpp/llama.cpp/convert_lora_to_gguf.py:64-75 | the slice from -k on picks the last k positions |
| `LoraIndexing.TwoSlices` | app/src/main/cpp/llama.cpp/convert_lora_to_gguf.py:99-112 | two slices of a matrix always denote the sliced product |
| `LoraIndexing.PartialBatchSliceFails` | app/src/main/cpp/llama.cpp/convert_lora_to_gguf.py:98-112 | slicing half of a leading dimension of both factors leaves factors that do not fit |
| `LoraIndexing.IntegersNeverFit` | app/src/main/cpp/llama.cpp/convert_lora_to_gguf.py:99-112 | an integer for row or column is refused, but for two integers where the last leading dimension left of A equals the rank; the result then has one dimension too many |
| `LoraIndexing.GetFirstMeansGetItem` | app/src/main/cpp/llama.cpp/convert_lora_to_gguf.py:67-75 | a single integer or slice denotes a tensor if and only if a repeated first dimension of A survives a slice that keeps anything of B, and then it is the picked product |
| `LoraIndexing.GetFirstAccepts` | app/src/main/cpp/llama.cpp/convert_lora_to_gguf.py:67-75 | a single slice is always taken, and an integer if and only if it is valid for the product and, where A is repeated, is 0 or -1 |
| `LoraIndexing.RepeatedIndexIsRefused` | app/src/main/cpp/llama.cpp/convert_lora_to_gguf.py:67-75 | of three matrices that share one A the last cannot be taken |
| `LoraIndexing.GetRows` | app/src/main/cpp/llama.cpp/convert_lora_to_gguf.py:67-76 | a single slice of a matrix cuts the rows of the product; a single integer is refused |
| `LoraEllipsis.EllipsisIsExpanded` | app/src/main/cpp/llama.cpp/convert_lora_to_gguf.py:77-96 | the expansion of a tuple with one ellipsis is the library's if and only if the ellipsis is last and not alone, or there are too many entries for both, or exactly as many full slices are missing as there are other entries, or more and only full slices follow |
| `LoraEllipsis.EllipsisMeansPicks` | app/src/main/cpp/llama.cpp/convert_lora_to_gguf.py:77-112 | and then the tuple means what the library's expansion means |
| `LoraEllipsis.EllipsisMisplaced` | app/src/main/cpp/llama.cpp/convert_lora_to_gguf.py:82-96 | for three dimensions `[..., p]` is taken for `[:, p, :]` |
| `LoraEllipsis.EllipsisCutsRows` | app/src/main/cpp/llama.cpp/convert_lora_to_gguf.py:82-112 | so `[..., 0:1]` cuts the rows of such a tensor and keeps its columns |
| `CommonSubstring.SuffixLenIsLongest` | app/src/main/cpp/llama.cpp/common/common.cpp:469-488 | the table entry is the length of the longest common suffix of the two prefixes |
| `CommonSubstring.StringLcs` | app/src/main/cpp/llama.cpp/common/common.cpp:469-488 | filling the table returns a longest common substring, the one that ends first in the first argument |
| `Glob.GlobClassMatch` | app/src/main/cpp/llama.cpp/common/common.cpp:727-765 | the pointer loop decides membership in the bracket class, ranges and negation included |
| `Glob.ClassMeans` | app/src/main/cpp/llama.cpp/common/common.cpp:727-765 | a class of ordinary entries matches the characters they name, single ones and those from the lower to the upper end of a range; with `!` exactly the others |
| `Glob.MatchIffSplits` | app/src/main/cpp/llama.cpp/common/common.cpp:768-812 | matching is true if and only if the text splits into one piece per pattern token that the token accepts |
| `Glob.GlobMatchIffSplits` | app/src/main/cpp/llama.cpp/common/common.cpp:814-816 | the same for strings passed as C strings |
| `Glob.PlainPattern` | app/src/main/cpp/llama.cpp/common/common.cpp:768-812 | a pattern without special characters matches itself alone |
| `Glob.StarsMatch` | app/src/main/cpp/llama.cpp/common/common.cpp:768-812 | `*` alone matches exactly the texts without a slash, `**` every text |
| `Escapes.ProcessOne` | app/src/main/cpp/llama.cpp/common/common.cpp:648-675 | one turn: what is read at the read index is written at the write index, and nothing else changes |
| `Escapes.ProcessEscapes` | app/src/main/cpp/llama.cpp/common/common.cpp:644-679 | the text overwritten in place is the functional unescape of the original text |
| `Escapes.UnescapeIsShort` | app/src/main/cpp/llama.cpp/common/common.cpp:644-679 | the result is never longer than the input |
| `Escapes.UnescapeUndoesEscaping` | app/src/main/cpp/llama.cpp/common/common.cpp:644-679 | for every text and every way of writing its characters (plain, short escape, `\xHH` in either case) processing gives the text back |
| `Escapes.UnchangedOrShorter` | app/src/main/cpp/llama.cpp/common/common.cpp:644-679 | processing leaves the text as it is or makes it shorter |
| `Escapes.UnchangedIff` | app/src/main/cpp/llama.cpp/common/common.cpp:644-679 | a text is left as it is if and only if no escape begins in it: backslashes before any other character stay |
| `MessageDiffs.ComputeDiffs` | app/src/main/cpp/llama.cpp/common/chat.cpp:266-332 | the loop over the calls computes the specified deltas, or none where the source throws |
| `MessageDiffs.ThrowsIff` | app/src/main/cpp/llama.cpp/common/chat.cpp:266-332 | no deltas are computed if and only if reasoning, content or the arguments of the call that was the last one diverge, there are fewer calls, or that call gets a name that does not continue the old one |
| `MessageDiffs.ApplyDeltas` | app/src/main/cpp/llama.cpp/tests/test-chat.cpp:1159-1179 | what the accumulator of the streaming test has after the deltas of one step, for every pair of messages for which they are computed |
| `MessageDiffs.RebuildsIffExtends` | app/src/main/cpp/llama.cpp/common/chat.cpp:266-332 | the deltas are computed and the accumulator rebuilds the later message from them if and only if the later message extends the earlier one: texts grow, calls are added, the last call grows, and neither its name nor its id is taken back |
| `MessageDiffs.ErasedStopWordStays` | app/src/main/cpp/llama.cpp/common/chat.cpp:56-69 | when the new content is cut back no exception is thrown and the client keeps the old content |
| `MessageDiffs.ErasedIdStays` | app/src/main/cpp/llama.cpp/common/chat.cpp:315-323 | when the id of the last call is taken back no exception is thrown and the client keeps it |
| `MessageDiffs.StreamRebuilds` | app/src/main/cpp/llama.cpp/common/chat.cpp:266-332 | the deltas of a whole stream, applied in order to the empty message, rebuild its last message |
| `ToolResultOrder.CallOrder` | app/src/main/cpp/llama.cpp/common/chat.cpp:2051-2058 | the order is filled in call by call |
| `ToolResultOrder.OrderOfIsLastCall` | app/src/main/cpp/llama.cpp/common/chat.cpp:2051-2058 | exactly the non-empty ids have an order, and it is the place of the last call with that id |
| `ToolResultOrder.StableSortIsStable` | app/src/main/cpp/llama.cpp/common/chat.cpp:2086-2092 | the sort is sorted by call order, a permutation, and keeps messages of equal order in order, unknown ids counting as 0 |
| `ToolResultOrder.CollectRun` | app/src/main/cpp/llama.cpp/common/chat.cpp:2068-2078 | the maximal run of user and tool messages and the places of its tool messages |
| `ToolResultOrder.WriteBack` | app/src/main/cpp/llama.cpp/common/chat.cpp:2093-2095 | the sorted results go to the places of the tool messages and nothing else changes |
| `ToolResultOrder.SortToolResultsInPlace` | app/src/main/cpp/llama.cpp/common/chat.cpp:2041-2102 | the loop over the array, with its guard for short runs and empty orders, computes the specified reordering |
| `ToolResultOrder.SortingPermutes` | app/src/main/cpp/llama.cpp/common/chat.cpp:2041-2102 | the result is a permutation that leaves every message of another role in place and keeps the places of tool messages |
| `ToolResultOrder.RunsAreSorted` | app/src/main/cpp/llama.cpp/common/chat.cpp:2041-2102 | around any maximal run the result splits, and the tool messages of the run are sorted stably by the calls of the latest assistant message before it |
| `ToolResultOrder.SortFromAppend` | app/src/main/cpp/llama.cpp/common/chat.cpp:2041-2102 | a conversation is reordered piece by piece wherever no run is cut |
| `ToolResultOrder.SortingIsIdempotent` | app/src/main/cpp/llama.cpp/common/chat.cpp:2041-2102 | reordering a second time changes nothing |
| `MessageSpans.FindMatches` | app/src/main/cpp/llama.cpp/common/chat.cpp:152-171 | the loop over positions and skips collects the specified matches |
| `MessageSpans.SplitTokens` | app/src/main/cpp/llama.cpp/common/chat.cpp:152-184 | the spans from each match to the next |
| `MessageSpans.ScanIsLive` | app/src/main/cpp/llama.cpp/common/chat.cpp:155-160 | only the skips that the scan arrives at matter to it, for all skips |
| `MessageSpans.SpansBeginAtDelimiters` | app/src/main/cpp/llama.cpp/common/chat.cpp:152-184 | for all skips: a span begins at a position if and only if a delimiter stands there outside every skip that the scan arrives at, and its role is that of the first such delimiter in the list |
| `MessageSpans.RoleOfFirst` | app/src/main/cpp/llama.cpp/common/chat.cpp:152-171 | the role at a position is that of the first delimiter in the list that stands there |
| `MessageSpans.DocumentedIffNoneMissed` | app/src/main/cpp/llama.cpp/common/chat.h:211-212 | the documented law, which speaks of all skips, holds for all roles and positions if and only if no delimiter stands in a skip that the scan passes over |
| `MessageSpans.SeparateIsDocumented` | app/src/main/cpp/llama.cpp/common/chat.h:211-212 | with skips in order that do not overlap, the documented law holds for every role and position |
| `MessageSpans.SpansTile` | app/src/main/cpp/llama.cpp/common/chat.cpp:175-181 | no span is empty and together they are the tokens from the first delimiter on |
| `MessageSpans.OverlappedSkipIsIgnored` | app/src/main/cpp/llama.cpp/common/chat.cpp:156-160 | a delimiter in a skip behind two overlapping ones begins a span all the same |
| `WordWrap.BreakStringIntoLines` | app/src/main/cpp/llama.cpp/common/arg.cpp:157-182 | the loops over lines and words compute the specified lines |
| `WordWrap.WrapLine` | app/src/main/cpp/llama.cpp/common/arg.cpp:161-177 | a short line is kept as it is, a long one packed word by word |
| `WordWrap.LinesMakeText` | app/src/main/cpp/llama.cpp/common/arg.cpp:178-180 | the lines read are the text, but for a newline missing at its end |
| `WordWrap.LinesAreUnique` | app/src/main/cpp/llama.cpp/common/arg.cpp:178-180 | and they are the only lines without a newline in them that make it up |
| `WordWrap.WordsOfJoin` | app/src/main/cpp/llama.cpp/common/arg.cpp:165-175 | the words of words joined with single spaces are those words |
| `WordWrap.LongLineIsWrapped` | app/src/main/cpp/llama.cpp/common/arg.cpp:161-177 | a long line keeps its words with one space between them, yields an over-long line only for a single word, and no lines that do the same are fewer |
| `WordWrap.WordsAreKept` | app/src/main/cpp/llama.cpp/common/arg.cpp:157-182 | the output has the words of the input, in order |
| `WordWrap.FittingLineStays` | app/src/main/cpp/llama.cpp/common/arg.cpp:161-177 | a line that fits stays as it is and where it is among the lines that others are broken into, indentation and blank lines included |
| `WordWrap.FittingTextStays` | app/src/main/cpp/llama.cpp/common/arg.cpp:161-177 | a text whose lines all fit is returned as its lines |
| `CsvRow.ParseCsvRow` | app/src/main/cpp/llama.cpp/common/arg.cpp:1289-1329 | the loop over characters computes the specified fields |
| `CsvRow.ParseUndoesWriting` | app/src/main/cpp/llama.cpp/common/arg.cpp:1289-1329 | any non-empty list of fields, each written quoted with doubled quotes or plain where that is possible, is read back |
| `Base64.EncodeBytes` | app/src/main/cpp/llama.cpp/common/base64.hpp:80-145 | the loop writes the specified symbols, padding included |
| `Base64.DecodeString` | app/src/main/cpp/llama.cpp/common/base64.hpp:200-244 | the loop over `last` and `bits`, with alphabet detection, errors and the padding check, computes the specified result |
| `Base64.DecodeInPlace` | app/src/main/cpp/llama.cpp/common/base64.hpp:200-312 | decoding over the text itself gives the bytes of decoding into a new buffer, because the write position never passes the read position |
| `Base64.DecodeOfEncode` | app/src/main/cpp/llama.cpp/common/base64.hpp:80-244 | decoding undoes encoding for all byte strings, in the standard, the URL-safe and the detected alphabet, in both behaviours |
| `Base64.EncodedSize` | app/src/main/cpp/llama.cpp/common/base64.hpp:338-341 | the encoded length is `required_encode_size` |
| `Base64.DecodedSize` | app/src/main/cpp/llama.cpp/common/base64.hpp:324-327 | the decoded length is six bits per symbol, and at most `max_decode_size` |
| `Base64.AutoIsEither` | app/src/main/cpp/llama.cpp/common/base64.hpp:344-392 | with a detected alphabet exactly what one of the two alphabets accepts is accepted, with the same bytes |
| `Base64.AcceptedIff` | app/src/main/cpp/llama.cpp/common/base64.hpp:200-244 | accepted is exactly symbols of one alphabet, then padding only, or anything after the first padding when loose |
| `Base64.SymbolIsTabled` | app/src/main/cpp/llama.cpp/common/base64.hpp:80-92 | the symbol of a value is its entry in the table of RFC 4648 section 4 or 5 |
| `Base64.ValueIsPlace` | app/src/main/cpp/llama.cpp/common/base64.hpp:344-392 | the value of a character is its place in the table of the alphabet, for a fixed and for a detected one, and no other character has a value |
| `Base64.GroupBits` | app/src/main/cpp/llama.cpp/common/base64.hpp:80-145 | the four values of a group hold the bits of its three bytes in order |

## Left out

- Invalid UTF-8: `dump()` throws on it; strings here are byte strings that are printed as they are.
- PyToJson.TranslationIsJson: of characters above 127, Python also prints those it does not count as printable as escapes, U+0080 to U+00A0 and U+00AD as `\xHH`. In the byte model they count as plain, so `Clean` holds for them.
- PyStrings.StringReadsBack: escapes longer than one letter (`\x`, `\u`, octal) and line continuations; PyToJson.TranslationIsJson covers the `\x` that Python prints.
- Dictionary keys other than strings in Python values.
- `\u` escapes above `\u007f` in the JSON reader: the printers modelled here never write them.
- ToolMapper.Mapper.Map: requires that no node that acts on a call follows a call closed without a name and before the next one is opened, because the source follows a dangling pointer there.
- ToolStreaming.ConversationIsRebuilt: that a parse of part of the text has the first nodes of the whole, the last one cut, is taken from the parser, which is not part of this model; this leaves out nodes that only enclose others, whose texts grow while they are not last.
- ToolMapper.Mapper.FromAst: the arena traversal is replaced by the list of visited nodes in order.
- ToolCalls.SameCallWhereverNamed: one value per argument, and Python values whose translation is JSON; CallBody.OneCallRecorded and CallBody.NamePlaceIff say the same of any argument nodes. A tool id is added by ToolTexts.CallWithId, and ToolTexts.WholeArgumentsRecorded is about calls with whole arguments; both kinds mixed are left to ToolStreaming.ConversationIsRebuilt.
- MinimaxAst.WholeValuePrints: numbers, booleans and null are leaf values whose text is taken as it is.
- LoraTensor.PermuteMeansPermute: like every tensor lemma here, it speaks of tensors with at least two dimensions.
- LoraIndexing.GetTupleMeansGetItem: indexing with a tensor of positions is not modelled; several ellipses in a tuple are expanded in the model but not compared with the library, which refuses them.
- Tensor entries are real numbers; element types and rounding are not modelled.
- `size`, `contiguous`, `to`, `reshape_as`, `view` and the other cases of `__torch_function__`: thin wrappers.
- MessageDiffs.ComputeDiffs: content parts, tool name and tool call id of a message play no part in the deltas.
- ToolResultOrder.SortToolResultsInPlace: a message is its role, the id it answers, the ids it calls and a text; JSON type errors are not modelled, and `std::stable_sort` is its specification, insertion in order.
- Base64.DecodeInPlace: what the buffer holds after an error is not stated.
- The PEG engine, the arena, grammar output and the template runtime: only trees, visit order and the words of choices and sequences are modelled; ordered choice is read as union.
- The traversals `visit` of the Gemma 4 and MiniMax-M3 mappers around the printed arguments: lookups by tag without further state.
- `string_split`, `string_join`, `string_replace_all` and trimming helpers that nothing here uses: they would add easy members only.
- The per-model parameter functions, template analysis, option tables, downloads, model loading, samplers and platform code: calls into libraries that are not part of this model.
