# Verified model of the DeepSeek-V4 serving stack

The project models the parts of the serving stack where a mistake would be silent: protocols over
shared memory, text formats written by one component and read by another, incremental filters over
generated text, a tokenizer, a file rewrite, integer kernels, and the request cache and queue. Each
module is one component; what the component computes is a function or a step relation, the loops and
classes of the source are methods proved against it, and the theorems are about every input, every
chunking, every run or every interleaving.

- `AllReduce`, `WorkerTeam`, `SharedRing`, `RingCells`: three shared-memory protocols as step
  relations over processes, the third also without a cell for every rank. A step is one access to
  shared memory or one lock-held section; schedules are arbitrary.
- `Json`, `JsonParser`, `JsonAccepted`, `JsonText`, `JsonValues`, `RequestLine`: the JSON parser, the
  texts it accepts and the values it can return, the escaper, the bracket scanner that cuts arrays out
  of a request body, and the flattener that keeps a request on one line.
- `Tokens`, `Dsml`, `DsmlAccepted`: rendering an assistant message with tool calls, parsing a
  completion back, and which completions parse at all.
- `StopFilter`, `ToolMarker`, `Utf8Stream`: streaming filters measured against the whole text.
- `ByteCodes`, `Pretokens`, `Tokenizer`: byte alphabet, pretokens, merges, special tokens, decoding.
- `Gguf`, `GgufReader`, `GgufRewrite`: the header format, the parser, and the rewrite it reads back.
- `SimdDot`, `Quantize`: int8 dot products instruction by instruction, and quantization in reals.
- `Routes`, `RouteGrouping`, `RouteCompaction`: grouping expert routes without changing any sum.
- `PrefixCache`, `ServingEngine`: the snapshot cache and the batching worker as state machines.
- `Sums`, `Multiples`, `Texts`: totals, rounding to multiples, occurrences in sequences.

Where the code does not establish what a theorem needs, the condition is a `requires` clause; where a
promise fails, the exact condition is proved:

- Streaming with stop strings equals cutting the whole text exactly when no stop string has a proper
  prefix in which another stop occurs later than at its start (`StopFilter.StreamingIsOneShotExactly`).
- Of messages free of special tokens, those with a tool-call key that contains `" string="true">` or
  `" string="false">` do not read back, all others do (`Dsml.RoundTripExactly`).
- The tool-call parser accepts a completion that was cut off behind a complete line of a call, with
  the arguments read so far, as if the model had finished (`DsmlAccepted.CutCallIsAccepted`; all
  completions accepted are those of `DsmlAccepted.ParsedExactly`).
- A space directly before another whitespace byte is lost or moved by the pretokenizer; text made of
  whole characters and without special tokens comes back from encoding and decoding exactly when it
  has none (`Pretokens.PretokensKeepExactly`, `Tokenizer.RoundTripExactly`).
- The sign-trick dot product turns the sign of a product of a negative activation and the weight -128;
  the results agree exactly when the products turned add up to nothing modulo 2^32, which for rows of
  fewer than 131072 entries means that there are none (`SimdDot.SequencesAgreeExactly`, and
  `SimdDot.LongRowsCancel` for the bound).
- With batching and a bounded queue, arrivals can block the worker for good while it puts an unfit
  candidate back (`ServingEngine.NeverStuckExactly`).
- Storing into the prefix cache keeps the order of last use exactly when no entry other than the
  newest has the new entry's hash: a colliding entry keeps its place, and the entry to be evicted first
  is the least recently used one exactly when that place is not the first
  (`PrefixCache.StoreKeepsOrderExactly`, `PrefixCache.FirstToGoIsLeastRecentExactly`;
  `PrefixCache.CollisionEvictsNewest` is an instance).
- A routed tensor that is F16 in the template is converted from the checkpoint even when the options
  leave it out (`GgufRewrite.ConvertedExactly`).
- `json_escape` writes control characters without a short escape as `\u00XX`, which the parser reads
  as a question mark (`JsonText.EscapeRoundTrip`).
- Decoding with special tokens skipped also drops every token whose text stands in angle brackets; what
  was encoded comes back exactly when no space is stranded and no such token was needed
  (`Tokenizer.RoundTripSkippingExactly`).
- Reasoning is streamed without hold-back, so a beginning of its end marker can be sent before the marker
  is complete, and is not taken back (`ToolMarker.ReasoningAddsUp`).
- The streaming decoder never flushes a held-back suffix that could still begin a tool-call marker
  (`ToolMarker.WholeContentDelivered`).
- Nothing compares the number of ranks with the number of acknowledgement cells a slot of the shared
  ring has (both are settings; the C++ server, which never touches the cells, takes eight at
  src/csrc/deepseek_cpu_moe_ext.cpp:2495). All runs copy their own outputs and stay in the buffer
  exactly when the last cell acknowledged in lies in it (`RingCells.SafeExactly`); once requests reach
  the last slot that means a cell in each slot for every rank (`SharedRing.FitsMeansOwnCells`). Besides
  leaving the buffer, two ranks too many can make a rank copy the output of a later request
  (`RingCells.SharedCellReadsLaterOutput`).
- The two GGUF readers take the alignment for the same number exactly when it is absent, a
  non-negative integer, or something Python's int() turns into the default
  (`GgufReader.AlignmentsAgreeExactly`).

## Model

| member | source | states |
|---|---|---|
| `AllReduce.StepKeepsInv` | src/csrc/deepseek_cpu_moe_ext.cpp:2418-2436 | every memory access of every rank keeps the barrier invariant: counters equal arrivals and departures, ranks at most one generation apart |
| `AllReduce.ReadersSeeStableBuffers` | src/csrc/deepseek_cpu_moe_ext.cpp:2425-2431 | while any rank still adds up a generation, every rank's buffer holds its input to that generation |
| `AllReduce.AllArrived` | src/csrc/deepseek_cpu_moe_ext.cpp:2421-2424 | a rank passes the first spin only when all ranks have arrived in its generation |
| `AllReduce.AllDeparted` | src/csrc/deepseek_cpu_moe_ext.cpp:2433-2436 | a rank passes the second spin only when all ranks have finished reading |
| `AllReduce.CountersFit` | src/csrc/deepseek_cpu_moe_ext.cpp:2413-2436 | the 64-bit counters never wrap within the generations considered |
| `AllReduce.EveryRunIsCorrect` | src/csrc/deepseek_cpu_moe_ext.cpp:2413-2436 | in every interleaving a rank that left a generation holds the rank-order sum of all ranks' inputs to it |
| `AllReduce.SomeRankCanStep` | src/csrc/deepseek_cpu_moe_ext.cpp:2422-2436 | no deadlock: until all ranks have finished, some rank can move |
| `AllReduce.MovesSpendWork` | src/csrc/deepseek_cpu_moe_ext.cpp:2419-2436 | every effective move of a rank spends one unit of the work its remaining generations need |
| `AllReduce.EveryRunEnds` | src/csrc/deepseek_cpu_moe_ext.cpp:2371-2436 | moves of a rank are bounded over all schedules, and a rank has finished exactly when it has made them all |
| `WorkerTeam.Call.SharesPartition` | src/csrc/deepseek_cpu_moe_ext.cpp:108-112 | every index of the range lies in exactly one worker's chunk, for any thread count |
| `WorkerTeam.Call.SharesAreFair` | src/csrc/deepseek_cpu_moe_ext.cpp:108-112 | no worker's chunk is larger than the range divided by the thread count, rounded up |
| `WorkerTeam.RunsOwnIndex` | src/csrc/deepseek_cpu_moe_ext.cpp:91-112 | a worker inside the function runs the call that is out, on an index it owns |
| `WorkerTeam.StepKeepsInv` | src/csrc/deepseek_cpu_moe_ext.cpp:38-122 | every step of caller and workers, restarts of the team included, keeps the exactly-once invariant |
| `WorkerTeam.EveryRunIsExactlyOnce` | src/csrc/deepseek_cpu_moe_ext.cpp:57-122 | in every interleaving, when a call returns its function has run exactly once on each index of its range and nowhere else |
| `WorkerTeam.NoLostWakeUp` | src/csrc/deepseek_cpu_moe_ext.cpp:64-121 | in every run a thread sleeps on a condition variable only while its predicate is false: whoever makes it true notifies |
| `WorkerTeam.SomebodyCanStep` | src/csrc/deepseek_cpu_moe_ext.cpp:71-121 | no deadlock, and no need of spurious wake-ups: until the last call has returned, the caller or a worker is awake and can move |
| `WorkerTeam.EveryMoveMakesProgress` | src/csrc/deepseek_cpu_moe_ext.cpp:38-122 | every move but a spurious wake-up spends some of a potential computed from the calls still to come |
| `WorkerTeam.EveryRunEnds` | src/csrc/deepseek_cpu_moe_ext.cpp:38-122 | over all schedules caller and workers make no more moves than the calls' budget and the spurious wake-ups allow, and until the last call has returned one of them can move |
| `SharedRing.SlotIsStillMine` | src/components/moe/ipc.py:69-92 | while a rank has not acknowledged a request, no later request uses its output slot |
| `SharedRing.ServerKeepsSlots` | src/csrc/deepseek_cpu_moe_ext.cpp:2533-2574 | the server's steps change no slot that holds an output still to be read |
| `SharedRing.AckKeepsCells` | src/components/moe/ipc.py:76-92 | in the one flat buffer the cell a rank writes is nobody else's, so every rank's cells go on saying exactly which requests it has read |
| `SharedRing.PassedMeansRead` | src/components/moe/ipc.py:80-92 | when every rank has its own cells, rank 0 goes on past a cell only if its rank has read the request the slot was used for |
| `SharedRing.FitsMeansOwnCells` | src/components/moe/ipc.py:10-24 | as soon as requests reach the last slot, all acknowledgements lie in the buffer if and only if there is a cell for every rank |
| `SharedRing.StepKeepsInv` | src/components/moe/ipc.py:69-130 | every step of rank 0, the other ranks and the server keeps the ring invariant |
| `SharedRing.EveryReadIsOwnOutput` | src/components/moe/ipc.py:76-114 | while the acknowledgements fit the buffer: in every run no access leaves it and a rank that waits for request q reads the output computed from q's own input and layer |
| `SharedRing.ResponseNeverGoesBack` | src/components/moe/ipc.py:125-130 | the response sequence never decreases along a run |
| `SharedRing.SomebodyCanStep` | src/components/moe/ipc.py:80-123 | until all requests are answered and read, somebody can move |
| `SharedRing.EveryRunEnds` | src/components/moe/ipc.py:80-123 | no rank and not the server makes more moves than the requests call for, over all schedules, and until all is answered and read somebody can move |
| `RingCells.LeavesBuffer` | src/components/moe/ipc.py:76-78 | when the last cell acknowledged in lies beyond the buffer, some run acknowledges there |
| `RingCells.SafeExactly` | src/components/moe/ipc.py:10-92 | for every number of ranks, slots, cells and requests: all runs read their own outputs and stay in the buffer if and only if the last cell acknowledged in lies in it; once requests reach the last slot, if and only if every acknowledging rank has its own cell in each slot |
| `RingCells.SharedCellReadsLaterOutput` | src/components/moe/ipc.py:76-92 | with two ranks more than cells some run stays in the buffer and lets a rank copy the output of a later request |
| `Json.ParsesValue` | cpp_engine/src/json_lite.cpp:47-59 | at the text of any value, in any spelling, the parser returns what the text denotes and stops at its end |
| `Json.ParsesArray` | cpp_engine/src/json_lite.cpp:79-91 | the same for arrays, with any blanks around elements |
| `Json.ParsesObject` | cpp_engine/src/json_lite.cpp:61-77 | the same for objects; of equal keys the first one's value counts |
| `Json.EveryTextParses` | cpp_engine/src/json_lite.cpp:38-145 | every RFC 8259 text parses, as a whole, to what it denotes |
| `JsonAccepted.ParsesExactly` | cpp_engine/src/json_lite.cpp:38-145 | the parser accepts a text, with a value, if and only if the text is a lenient spelling of that value with space around it, so that trailing characters, missing or extra separators, unclosed strings and brackets, keys that are no strings and unknown escapes are rejected |
| `JsonParser.Parser.SkipWs` | cpp_engine/src/json_lite.cpp:142-144 | moves the position over all space and nothing else |
| `JsonParser.Parser.ReadString` | cpp_engine/src/json_lite.cpp:93-124 | the in-place loop reads the string and position the grammar gives |
| `JsonParser.Parser.ReadArray` | cpp_engine/src/json_lite.cpp:79-91 | the loop returns the elements and position the grammar gives, or fails with it |
| `JsonParser.Parser.ReadObject` | cpp_engine/src/json_lite.cpp:61-77 | the loop returns the members and position the grammar gives, or fails with it |
| `JsonParser.Parser.ReadValue` | cpp_engine/src/json_lite.cpp:47-59 | the recursive descent agrees with the grammar, failures included |
| `JsonParser.Parser.ParseAll` | cpp_engine/src/json_lite.cpp:38-44 | returns what the grammar makes of the whole text, and fails when it is not one value with space around it |
| `JsonValues.ParsedValuesExactly` | cpp_engine/src/json_lite.cpp:38-145 | a value is what some RFC 8259 text parses to if and only if its strings and keys have no control character but \b \f \n \r \t and its numbers are number tokens; a printer gives the text |
| `JsonValues.DigitsParse` | cpp_engine/src/json_lite.cpp:126-133 | beyond RFC 8259: any digits are a number, leading zeros included |
| `JsonValues.RawControlParses` | cpp_engine/src/json_lite.cpp:93-124 | beyond RFC 8259: any character but quote and backslash stands for itself in a string |
| `JsonValues.AnyFourParse` | cpp_engine/src/json_lite.cpp:93-124 | beyond RFC 8259: any four characters may follow \u and are read as a question mark |
| `JsonText.JsonEscape` | cpp_engine/src/openai_server.cpp:20-43 | the escaping loop writes one RFC 8259 string unit for each byte |
| `JsonText.EscapeRoundTrip` | cpp_engine/src/openai_server.cpp:20-43 | an escaped string in quotes parses; it parses back to itself if and only if it has no control character but \b \f \n \r \t |
| `JsonText.HexIsTheCode` | cpp_engine/src/openai_server.cpp:32-36 | a control character written as \u has its own code behind it |
| `JsonText.ScanEndMeaning` | cpp_engine/src/openai_server.cpp:79-94 | the scan ends behind the first square bracket outside strings with which all brackets opened so far are closed, and finds no end when there is none |
| `JsonText.ExtractedMeaning` | cpp_engine/src/openai_server.cpp:73-96 | for every body and key: without the key, without a bracket behind it or with that bracket never closed the answer is the default; otherwise it is the slice from the first bracket behind the key's first occurrence to where it closes |
| `JsonText.Extract` | cpp_engine/src/openai_server.cpp:49-96 | the search and the scanner loop return the text that `ExtractedMeaning` characterises |
| `JsonText.WalksValue` | cpp_engine/src/openai_server.cpp:58-69 | scanning a whole value at any depth comes back to that depth outside strings without stopping |
| `JsonText.ScanEndsWithTheArray` | cpp_engine/src/openai_server.cpp:55-70 | started at an array's bracket, the scanner stops exactly where the parser does |
| `JsonText.ExtractsFirstArray` | cpp_engine/src/openai_server.cpp:49-96 | what is cut out is the text of the first array behind the first occurrence of the key, and parses to that array |
| `JsonText.Flatten` | cpp_engine/src/python_sidecar.cpp:170-183 | the flattening loop replaces line breaks and tabs outside strings and keeps everything else |
| `JsonText.FlatMeaning` | cpp_engine/src/python_sidecar.cpp:170-183 | on every text, at every position: a line break or tab outside strings becomes a space, everything else stays |
| `JsonText.FlattensValue` | cpp_engine/src/python_sidecar.cpp:170-183 | flattening the text of a value gives the text of the value with its blanks made spaces |
| `JsonText.FlatOneLine` | cpp_engine/src/python_sidecar.cpp:166-183 | the flattened text has no line break and no tab, inside or outside strings |
| `JsonText.FlattenKeepsMeaning` | cpp_engine/src/python_sidecar.cpp:166-183 | flattening any RFC 8259 text keeps its length and parsed value and puts it on one line |
| `RequestLine.Assemble` | cpp_engine/src/python_sidecar.cpp:184-198 | the encode request is assembled from flattened arrays and escaped strings, optional fields left out when empty |
| `RequestLine.LineIsText` | cpp_engine/src/python_sidecar.cpp:184-198 | the assembled line is the text of one JSON object and a line break |
| `RequestLine.LineIsFramedObject` | cpp_engine/src/python_sidecar.cpp:184-198 | the line's only line break is its last byte, and it parses to an object with exactly the request's fields |
| `Dsml.EncodeArguments` | src/encoding/dsv4.py:139-167 | the loop renders the arguments in order, one line each |
| `Dsml.RenderAssistant` | src/encoding/dsv4.py:319-361 | the rendered prompt is reasoning, content, tool calls and end token in that order |
| `Dsml.ArgLayout` | src/encoding/dsv4.py:139-167 | every argument is one parameter element with its key, string="true" exactly for strings, and its value |
| `Dsml.ReadUntil` | src/encoding/dsv4.py:606-628 | the loop over stops finds the earliest one, of equals the first listed |
| `Dsml.ParseToolCalls` | src/encoding/dsv4.py:631-680 | the nested loops read calls and arguments as the grammar does, format errors and duplicates included |
| `Dsml.ParseMessage` | src/encoding/dsv4.py:683-744 | the parser's result, all its assertions and errors included |
| `Dsml.NameReadsBack` | src/encoding/dsv4.py:655-658 | any tool name reads back through its pattern, with arguments and without any |
| `Dsml.ArgReadsBack` | src/encoding/dsv4.py:664-667 | an argument reads back as itself if and only if its key contains no flag marker |
| `Dsml.ParsesArgs` | src/encoding/dsv4.py:661-675 | rendered arguments are read in order, each through its own pattern, up to the end of the call |
| `Dsml.ParsesCalls` | src/encoding/dsv4.py:646-680 | rendered calls are read in order up to the end of the block |
| `Dsml.ParsesRendered` | src/encoding/dsv4.py:683-744 | what parsing makes of any rendered message, for every choice of thinking and end token |
| `Dsml.RoundTripExactly` | src/encoding/dsv4.py:319-361 | content, rendered reasoning and calls come back exactly when thinking was rendered if expected, the text ends properly and no key contains a marker |
| `DsmlAccepted.ParsedExactly` | src/encoding/dsv4.py:606-744 | a completion is parsed to a message if and only if it is spelled as one: clean reasoning and content, then the end token or a block of well-formed calls without repeated keys, which ends properly, behind a call, or inside a call behind a complete line |
| `DsmlAccepted.CutCallIsAccepted` | src/encoding/dsv4.py:631-680 | a rendered call that is cut off behind any of its complete lines is a beginning of the rendered text and is parsed as the call with the arguments up to there |
| `StopFilter.EarliestStop` | src/server/openai.py:367-371 | the loop over stops finds the first position at which any of them occurs |
| `StopFilter.Completion.ApplyStop` | src/server/openai.py:362-374 | the content is cut at the first stop and the finish reason set exactly when there is one |
| `StopFilter.StopStream.Feed` | src/server/openai.py:967-984 | one delta: emitted text, held-back tail and stopped flag as the filter has them |
| `StopFilter.StopStream.Finish` | src/server/openai.py:1000-1005 | the held-back tail is sent unless a stop was found |
| `StopFilter.StreamingIsOneShot` | src/server/openai.py:949-1005 | for stops that never overtake each other, any chunking sends exactly the one-shot result |
| `StopFilter.OvertakenDiffers` | src/server/openai.py:967-984 | for any other stops some text and chunking send something else |
| `StopFilter.StreamingIsOneShotExactly` | src/server/openai.py:949-1005 | streaming equals one-shot for all chunkings if and only if no stop's proper prefix contains a stop it does not start with |
| `StopFilter.CommonLengthIsSafe` | src/server/openai.py:949-984 | stops of one common length meet that condition |
| `ToolMarker.VisibleMeaning` | src/server/openai.py:653-666 | what is shown is cut at the first marker, or lacks the longest suffix that could still become one |
| `ToolMarker.VisibleGrows` | src/server/openai.py:653-666 | extending the text never takes back or changes anything shown |
| `ToolMarker.StreamingDecoder.TruncateForToolCalls` | src/server/openai.py:653-666 | the hold-back loop and its remembered cut give the visible text |
| `ToolMarker.StreamingDecoder.Append` | src/server/openai.py:668-699 | one append: fields and deltas in both thinking modes |
| `ToolMarker.DeltasAddUpToVisible` | src/server/openai.py:668-699 | for any appends whose text grows by extension, the content deltas concatenate to the visible content |
| `ToolMarker.ShorterIsIgnored` | src/server/openai.py:668-673 | every stream, however its text changes, leaves the same fields and deltas as without the texts that are shorter than one before |
| `ToolMarker.ContentAddsUp` | src/server/openai.py:668-699 | so the content deltas add up to the visible content whenever the other texts grow by extension |
| `ToolMarker.WholeContentDelivered` | src/server/openai.py:653-699 | the whole content has been delivered exactly when it does not end in a beginning of the marker and has none in it |
| `ToolMarker.DecodedMeaning` | src/server/openai.py:668-671 | what is streamed is the decoded text less one end token and then all replacement characters at its end |
| `ToolMarker.ReasoningAddsUp` | src/server/openai.py:668-699 | for any appends whose text grows by extension, the reasoning deltas add up to the text in front of the end marker, or to what of the marker itself had been sent before it was complete |
| `Utf8Stream.SplitUtf8Complete` | cpp_engine/src/openai_server.cpp:120-148 | the backward walk splits where the model says |
| `Utf8Stream.SplitIsBoundary` | cpp_engine/src/openai_server.cpp:116-148 | on any beginning of well-formed UTF-8 the split keeps the longest well-formed prefix and withholds fewer than four bytes |
| `Utf8Stream.KeptExactly` | cpp_engine/src/openai_server.cpp:116-148 | on any bytes, well formed or not: withheld is exactly a start byte at the end with fewer tail bytes than it announces |
| `Utf8Stream.Handler.EmitDelta` | cpp_engine/src/openai_server.cpp:377-386 | one emission: what is sent and how far the offset moves |
| `Utf8Stream.Handler.Run` | cpp_engine/src/openai_server.cpp:360-408 | all emissions of a generation and the final flush |
| `Utf8Stream.StreamKeepsText` | cpp_engine/src/openai_server.cpp:377-408 | whatever the tokens decode to, chunks and flush concatenate to exactly that |
| `Utf8Stream.StreamIsWellFormed` | cpp_engine/src/openai_server.cpp:377-408 | while the text can still become well formed: every chunk is well formed, less than a character is held back, and a well-formed output leaves nothing to flush |
| `ByteCodes.PrefixFree` | cpp_engine/src/tokenizer.cpp:44-75 | no byte's code is a prefix of another's |
| `ByteCodes.ByteAlphabet` | cpp_engine/src/tokenizer.cpp:59-75 | the table filled by the loops holds each byte's code |
| `ByteCodes.CodesAreTheAlphabet` | cpp_engine/src/tokenizer.cpp:44-75 | printable bytes stand for themselves, the others in order for the code points from 256 on, in UTF-8 |
| `ByteCodes.DecodePiece` | cpp_engine/src/tokenizer.cpp:252-269 | decoding a token's text does not depend on the order of the hash table |
| `ByteCodes.DecodesCodes` | cpp_engine/src/tokenizer.cpp:252-269 | a sequence of codes decodes to its bytes, whatever follows |
| `ByteCodes.DecodedExactly` | cpp_engine/src/tokenizer.cpp:252-269 | on any bytes: decoding turns every code into its byte and leaves alone every byte with which no code begins, and nothing else has that meaning |
| `Pretokens.BytelevelPretokens` | cpp_engine/src/tokenizer.cpp:119-152 | the scanning loops produce the pretokens turn by turn |
| `Pretokens.PretokensAreRuns` | cpp_engine/src/tokenizer.cpp:94-152 | for every text: the pretokens are all longest runs of spaces, of bytes 9 to 13, of letters with bytes from 128 on, of digits and of the rest, in order; the last space of a run goes in front of the next run of letters, digits or the rest |
| `Pretokens.PretokensExactly` | cpp_engine/src/tokenizer.cpp:94-152 | no other list of byte strings is those runs |
| `Pretokens.PretokensKeepExactly` | cpp_engine/src/tokenizer.cpp:119-152 | the pretokens concatenate to the text if, and for whole UTF-8 characters only if, no space stands directly before another whitespace byte |
| `Tokenizer.BestMeaning` | cpp_engine/src/tokenizer.cpp:284-292 | the pair selected is the leftmost of least rank, and none only if none can be merged |
| `Tokenizer.MergePieces` | cpp_engine/src/tokenizer.cpp:283-296 | the merge loop ends with the merged pieces that `MergedExactly` characterises |
| `Tokenizer.MergedExactly` | cpp_engine/src/tokenizer.cpp:283-296 | the merged pieces are exactly what joining the leftmost pair of least rank, again and again until no pair can be merged, leads to |
| `Tokenizer.TraceIsUnique` | cpp_engine/src/tokenizer.cpp:283-296 | from any pieces there is only one such series of merges |
| `Tokenizer.MergedMeaning` | cpp_engine/src/tokenizer.cpp:283-296 | merging keeps the text and whole codes and ends with no mergeable adjacent pair |
| `Tokenizer.Encode` | cpp_engine/src/tokenizer.cpp:274-342 | the ids of segments and longest special tokens in order, or failure when a piece is missing |
| `Tokenizer.EncodedExactly` | cpp_engine/src/tokenizer.cpp:306-342 | an encoding is the begin token if asked for and the ids of the text's parts, which are the longest special token wherever one begins and what stands between them |
| `Tokenizer.PartsAreUnique` | cpp_engine/src/tokenizer.cpp:306-342 | a text has one way of being cut into such parts |
| `Tokenizer.SegmentIdsAre` | cpp_engine/src/tokenizer.cpp:274-304 | what stands between special tokens is encoded to the ids of the merged pieces of its pretokens, in order, and fails exactly when the vocabulary lacks one of them |
| `Tokenizer.DecodeTokens` | cpp_engine/src/tokenizer.cpp:252-272 | the decoded text of a token list, with special tokens skipped or not |
| `Tokenizer.DecodesEach` | cpp_engine/src/tokenizer.cpp:252-272 | each id adds its own decoded text; with special tokens skipped only an id of the vocabulary that is not listed as special and whose text is not in angle brackets does |
| `Tokenizer.RoundTrip` | cpp_engine/src/tokenizer.cpp:252-342 | for every text without a stranded space, decoding what encoding returns gives the text back |
| `Tokenizer.RoundTripExactly` | cpp_engine/src/tokenizer.cpp:252-342 | for whole UTF-8 characters without special tokens, decoding gives back what was encoded if and only if no space is stranded |
| `Tokenizer.RoundTripSkippingExactly` | cpp_engine/src/tokenizer.cpp:252-342 | with special tokens skipped, begin token included: whole UTF-8 characters without special tokens come back if and only if no space is stranded and every token they were encoded to is shown |
| `Tokenizer.SkipsMarks` | cpp_engine/src/tokenizer.cpp:252-342 | with special tokens in the text, decoding with them skipped gives the text without them |
| `Tokenizer.FromGguf` | cpp_engine/src/tokenizer.cpp:212-232 | a vocabulary from GGUF metadata is consistent: every id a token is given stands for that token, merges are split at their first space and ranked by their last listing; it fails exactly on a length mismatch or a merge without a space |
| `Gguf.ReadsHeader` | cpp_engine/src/gguf_reader.cpp:105-142 | a well-formed header reads back from its bytes, whatever follows |
| `Gguf.HeaderIsBytes` | cpp_engine/src/gguf_reader.cpp:105-142 | whatever reads as a header consists of exactly that header's bytes |
| `Gguf.ReadsValue` | cpp_engine/src/gguf_reader.cpp:165-260 | every metadata value reads back from its bytes |
| `Gguf.ValueIsBytes` | cpp_engine/src/gguf_reader.cpp:165-260 | reading a metadata value consumes exactly its bytes |
| `GgufReader.File.ReadMetadataValue` | cpp_engine/src/gguf_reader.cpp:175-260 | the typed reading loops return the value or fail as the format says |
| `GgufReader.File.Parse` | cpp_engine/src/gguf_reader.cpp:105-152 | parsing fills version, tensors, alignment and data start and the metadata map with exactly the keys read, each with its last value, or fails exactly when the file is rejected |
| `GgufReader.ParsesExactly` | cpp_engine/src/gguf_reader.cpp:105-152 | a file is parsed if and only if it begins with the bytes of a header of version 2 or 3 and holds the data of all its tensors; the data begins at the first aligned position behind the header |
| `GgufReader.SizesAgree` | src/loader/gguf/reader.py:109-118 | the planner's tensor size is never below the parser's, and equal for types both know |
| `GgufReader.AlignmentsAgreeExactly` | src/loader/gguf/reader.py:135-136 | the two readers take the alignment for the same number if and only if it is absent, a non-negative integer, or converts to the default |
| `GgufReader.SkipMetadataValue` | src/cli/make_routed_source_gguf.py:205-228 | where the skipping loop stops |
| `GgufReader.SkipsAsRead` | src/cli/make_routed_source_gguf.py:205-228 | skipping advances exactly as far as reading consumes |
| `GgufReader.MetadataRawBytes` | src/cli/make_routed_source_gguf.py:231-244 | the raw bytes between the counts and the tensor records |
| `GgufReader.RawMetadataIsEntries` | src/cli/make_routed_source_gguf.py:231-244 | those bytes are the bytes of the entries the parser reads |
| `GgufRewrite.PlanRewrite` | src/cli/make_routed_source_gguf.py:334-354 | types and sizes by name, or failure on a tensor of unknown size |
| `GgufRewrite.LayOut` | src/cli/make_routed_source_gguf.py:488-492 | offsets by name, each aligned behind the one before |
| `GgufRewrite.WriteTensorRecords` | src/cli/make_routed_source_gguf.py:253-260 | the record bytes, or failure when an offset does not fit |
| `GgufRewrite.CopyBytes` | src/cli/make_routed_source_gguf.py:270-280 | copying in chunks of any size copies the extent, or fails when the template ends early |
| `GgufRewrite.Rewrite` | src/cli/make_routed_source_gguf.py:487-523 | the whole output file, or failure |
| `GgufRewrite.WrittenWhereLaidOut` | src/cli/make_routed_source_gguf.py:509-523 | after any number of tensors, each one's data stands at its planned offset |
| `GgufRewrite.RewriteThenRead` | src/cli/make_routed_source_gguf.py:487-523 | with the alignment as the Python reader takes it, absent or a non-negative integer: the output parses with the template's version, metadata, names and dimensions; every tensor's data stands where its header entry says, aligned and disjoint |
| `GgufRewrite.LaidOutWithoutGaps` | src/cli/make_routed_source_gguf.py:487-523 | the output's data begins at offset 0 and every tensor's at the first aligned offset behind the one before |
| `GgufRewrite.PaddingIsZero` | src/cli/make_routed_source_gguf.py:263-267 | every byte of the output that is neither header nor a tensor's data is zero |
| `GgufRewrite.RewriteSucceedsExactly` | src/cli/make_routed_source_gguf.py:334-523 | a parsed template is rewritten if and only if sizes are known, offsets fit and every tensor's data is there |
| `GgufRewrite.CopiedTensorsReadBack` | src/cli/make_routed_source_gguf.py:512-522 | copied tensors read back with the template's type and bytes |
| `GgufRewrite.ConvertedTensorsReadBack` | src/cli/make_routed_source_gguf.py:512-522 | converted tensors read back as F16 with the checkpoint's data |
| `GgufRewrite.ConvertedExactly` | src/cli/make_routed_source_gguf.py:515-518 | which tensors take their data from the checkpoint: the selected ones and the routed ones that were F16 already |
| `GgufRewrite.ConvertsFirstAsked` | src/cli/make_routed_source_gguf.py:318-354 | a tensor is converted if and only if it is routed and was F16 already, or its layer and role are asked for and fewer tensors asked for than the limit stand in front of it |
| `SimdDot.DotBaseline` | src/csrc/dot_microbench.cpp:24-46 | for all inputs the result is the dot product as a 32-bit integer |
| `SimdDot.DotPmaddubsw` | src/csrc/dot_microbench.cpp:89-107 | for all inputs the result is the 32-bit sum of the sign-trick terms |
| `SimdDot.DotPmaddubswPair` | src/csrc/dot_microbench.cpp:109-140 | the pair form gives both single results |
| `SimdDot.NeverSaturates` | src/csrc/dot_microbench.cpp:96-101 | no 16-bit pair sum reaches a saturation bound, for any int8 inputs |
| `SimdDot.LanesAreTheSum` | src/csrc/deepseek_cpu_moe_ext.cpp:542-560 | either way of dealing terms to lanes, the lanes add up to the sum of the covered terms |
| `SimdDot.SequencesAgreeExactly` | src/csrc/dot_microbench.cpp:89-107 | for rows of any length the two instruction sequences agree if and only if the products turned round add up to 0 modulo 2^32; below 131072 entries if and only if no weight -128 meets a negative activation in the vector part |
| `SimdDot.LongRowsCancel` | src/csrc/dot_microbench.cpp:89-107 | that length is sharp: 131072 products turned round cancel modulo 2^32 |
| `SimdDot.DotsAreExact` | src/csrc/dot_microbench.cpp:24-107 | for entries in [-127,127] and rows up to 133144 both equal the mathematical dot, and no intermediate value leaves 32 bits |
| `Quantize.RowMax` | src/csrc/deepseek_cpu_moe_ext.cpp:692-702 | eight lane maxima and the scalar tail give the row's largest magnitude |
| `Quantize.ScaleExactly` | src/csrc/deepseek_cpu_moe_ext.cpp:692-702 | 127 scales are the largest magnitude of the row, or the floor of 1e-6 if that is larger, and nothing else is the scale |
| `Quantize.RoundsExactly` | src/csrc/deepseek_cpu_moe_ext.cpp:706-718 | rounding gives the nearest integer, and of two equally near ones the even one |
| `Quantize.QuantizeRow` | src/csrc/deepseek_cpu_moe_ext.cpp:703-722 | every entry becomes the nearest multiple of the scale, within half a scale, and the clamp never acts |
| `Quantize.DequantizedDotIsNear` | src/csrc/deepseek_cpu_moe_ext.cpp:692-722 | the dequantized dot is within n·127·s·t/2 of the true one |
| `Routes.GroupingKeepsSums` | src/csrc/deepseek_cpu_moe_ext.cpp:2061-2108 | grouping by expert keeps every in-range route exactly once and every token's sum |
| `Routes.InRangeExactly` | src/csrc/deepseek_cpu_moe_ext.cpp:2072-2085 | the routes kept are those of loaded experts in the range, each as often as it was chosen |
| `Routes.SelectExactly` | src/csrc/deepseek_cpu_moe_ext.cpp:2077-2085 | an expert's routes are those at all positions that chose it, in increasing order of position |
| `Routes.RangesAddUp` | src/csrc/deepseek_cpu_moe_ext.cpp:2061-2075 | sums over any split of the experts into consecutive ranges add up to the unsplit sum |
| `RouteGrouping.CountingSort` | src/csrc/deepseek_cpu_moe_ext.cpp:2061-2085 | the arrays hold, between the offsets, each expert's routes in their order with their own weights |
| `RouteGrouping.RoutesAreChoices` | src/csrc/deepseek_cpu_moe_ext.cpp:2071-2085 | route t·topk + k has token t and the expert and weight of choice k of that token |
| `RouteGrouping.FilledStep` | src/csrc/deepseek_cpu_moe_ext.cpp:2078-2084 | a route goes to its expert's cursor, inside that expert's segment, disturbing no other segment |
| `RouteGrouping.PerRoute` | src/csrc/deepseek_cpu_moe_ext.cpp:1291-1355 | the per-route path adds to each token the contributions of its in-range loaded routes |
| `RouteGrouping.GroupedForward` | src/csrc/deepseek_cpu_moe_ext.cpp:2061-2108 | the grouped path adds to each token exactly the same sums |
| `RouteCompaction.CompactRoutes` | src/csrc/cuda_kernel.cpp:1217-1270 | slots are exactly the experts with routes, in increasing order, each with a non-empty run of its positions |
| `RouteCompaction.ChoicesExactly` | src/csrc/cuda_kernel.cpp:1217-1238 | the choice at each position has that position's expert, counted from the first local one, and weight |
| `RouteCompaction.RoutedIsSegments` | src/csrc/cuda_kernel.cpp:1246-1281 | each compact route has the expert its position chose and that position's weight |
| `RouteCompaction.CompactionKeepsSum` | src/csrc/cuda_kernel.cpp:1217-1281 | compact routes are the in-range choices, each once, and every weighted sum is the same |
| `PrefixCache.ShortPromptHasNoPrefix` | src/runtime/prefix_snapshot.py:81-86 | the early answer for short prompts loses no stored prefix |
| `PrefixCache.ProbeDecides` | src/runtime/prefix_snapshot.py:90-99 | a prefix is stored if and only if the probe under its hash finds it |
| `PrefixCache.Cache.LookupHint` | src/runtime/prefix_snapshot.py:80-113 | the hint names the longest stored proper prefix of the prompt, and the positions to capture: the last block multiple, or in order all block multiples up to it |
| `PrefixCache.Cache.Restore` | src/runtime/prefix_snapshot.py:115-134 | a snapshot is returned if and only if the hinted entry is still there, and it was captured for exactly the prompt's first tokens |
| `PrefixCache.Cache.CaptureProbe` | src/runtime/prefix_snapshot.py:136-149 | positions out of range, off a block boundary or below the minimum are refused; otherwise whether the prefix is stored already |
| `PrefixCache.Cache.CaptureCommit` | src/runtime/prefix_snapshot.py:150-165 | the prefix is stored afterwards, the size is within the limit, and the order of last use is kept if and only if the prefix was stored already or no entry but the newest has its hash |
| `PrefixCache.StoreKeepsOrderExactly` | src/runtime/prefix_snapshot.py:159-161 | storing a newest entry keeps the order of last use if and only if no entry other than the newest has its hash |
| `PrefixCache.FirstToGoIsLeastRecentExactly` | src/runtime/prefix_snapshot.py:159-164 | the entry to be evicted first is the least recently used one if and only if the new entry did not take the first place |
| `PrefixCache.EvictsLeastRecent` | src/runtime/prefix_snapshot.py:160-164 | in that case every evicted entry was used less recently than every kept one, and the new one is kept |
| `PrefixCache.CollisionEvictsNewest` | src/runtime/prefix_snapshot.py:160-164 | an instance of the other case: a collision after which the newest entry is evicted first |
| `ServingEngine.IsBatchCompatible` | src/server/engine.py:210-234 | the comparison loop decides compatibility |
| `ServingEngine.CompatibleWithFirst` | src/server/engine.py:210-234 | comparing with the first request makes any two requests of a batch compatible |
| `ServingEngine.CompatibleExactly` | src/server/engine.py:210-234 | a candidate fits if and only if it is not streamed, has the same token limit and agrees with the first request on each of twelve options by name |
| `ServingEngine.BatchAgrees` | src/server/engine.py:210-234 | requests may run as one batch if and only if none is streamed and any two agree in that way |
| `ServingEngine.Engine.CollectBatch` | src/server/engine.py:184-208 | the batch and the queue the collecting loop leaves |
| `ServingEngine.CollectIsGood` | src/server/engine.py:184-208 | collecting loses and doubles nothing and gives a batch within the limit that may run as one |
| `ServingEngine.CollectTakesExactly` | src/server/engine.py:184-208 | collecting takes requests from the front of the queue as long as they fit, the batch has room and time is left; the first that does not fit goes to the back and ends it |
| `ServingEngine.CollectIsSteps` | src/server/engine.py:184-208 | the collecting loop is a run of worker steps from the collecting state to the running one, with the batch and queue it leaves |
| `ServingEngine.Engine.Deliver` | src/server/engine.py:169-182 | behind the earlier signals, the i-th request is told the i-th result if there are as many results as requests, and every one a failure otherwise |
| `ServingEngine.EachToldItsOwn` | src/server/engine.py:169-182 | a step that finishes a batch tells the i-th request the i-th result, or each that it failed, and changes no earlier signal |
| `ServingEngine.ResultsAreOwn` | src/server/engine.py:150-182 | in every run a result a request was told comes from the end of a batch in which the request stands where that result stands |
| `ServingEngine.QueueIsServedInOrder` | src/server/engine.py:150-208 | what is taken from the queue is its first request; every other one moves up one place, and no other step moves any |
| `ServingEngine.StepKeepsInv` | src/server/engine.py:112-208 | every step, arrivals included, keeps conservation and the shape of the batch |
| `ServingEngine.EveryRunConserves` | src/server/engine.py:112-208 | in every run accepted requests are the queued, held and finished ones, each signalled at most once |
| `ServingEngine.WorkerMovesExactly` | src/server/engine.py:150-208 | the worker can move exactly when it has something to do and is not blocked on a full queue |
| `ServingEngine.StuckForever` | src/server/engine.py:201-206 | a worker blocked on a full queue is blocked for good |
| `ServingEngine.IdleIsRoomy` | src/server/engine.py:112-208 | in every run the queue keeps its bound, so wherever the worker is idle a time without arrivals starts as the next theorem asks |
| `ServingEngine.QuietRoundsFinish` | src/server/engine.py:150-208 | without arrivals the worker is never blocked, and each round leaves strictly fewer requests |
| `ServingEngine.WorkerStepsMakeProgress` | src/server/engine.py:150-208 | every worker step finishes a request or brings the end of the round nearer |
| `ServingEngine.NeverStuckExactly` | src/server/engine.py:112-208 | no run blocks the worker if and only if the queue is unbounded or batching is off |

## Left out

- Weak memory ordering: shared-memory accesses are sequentially consistent, lock-held sections atomic.
- Mapping, sizing and zeroing the shared segments; the counters are taken to start at zero. What a rank
  does after an access beyond the acknowledgement cells has raised.
- `stop` of the shared ring and `close` of the serving engine; idle back-off and profiling.
- Floating-point rounding: the all-reduce combine and contributions of routes are uninterpreted or
  real, quantization is real, `nearbyint` rounds halves to even.
- `strtod` beyond decimal numbers (hexadecimal, infinities, NaN) and the double it returns; the
  locale of `isspace`; recursion depth of the JSON parser.
- Decoding of `\uXXXX`: the JSON parser itself does not do it.
- The JSON library on the Python side of the request line: the line is read back with the C++ parser.
- `json.loads` and `json.dumps` around tool arguments: an argument is its key, whether its value is a
  string, and the value's text.
- The regular-expression engine: the two anchored patterns are predicates, with `$` before a final
  line break and the alternatives of `\s`.
- HTTP, server-sent-event framing, sockets, processes and environment variables.
- Reading `tokenizer.json`; token ids and merge ranks are taken to fit 32 bits.
- Wrap-around of 64-bit sizes and offsets in malformed GGUF files, and element counts beyond 64 bits.
- Python's int() on alignment metadata that is a float, a string or an array: a parameter.
- Tensor names that are not valid UTF-8, which the Python reader would replace; equal tensor names,
  for which the plan's dictionaries keep only the last.
- Conversion of FP4 data to F16: the converted bytes are a parameter, their length is checked.
- `_routed_spec`: which names are routed is a parameter.
- `GgufReader.File.Parse`: an alignment of zero, a division by zero there, is modelled as failure.
- `dot_baseline_pair` and `dot_i8_avx2_4`: the same lane sums as the forms modelled.
- `RouteGrouping.GroupedForward`: one output column, the loop over four routes at a time written as
  one over single routes.
- `RouteCompaction.CompactRoutes`: starts are unbounded integers where the source casts to 32 bits.
- `Quantize.QuantizeRow`: the blocks of eight and the tail are one loop, entries do not interact.
- The event queues of streaming requests: putting an event is taken not to block.
- `PDScheduler`, placement, capability tables, model configuration, kernels on the GPU.
