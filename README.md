# xsbug debug-protocol layer of moddable-webide, in Dafny

This project models the part of the moddable-webide that talks to a
device running the XS engine. It also models the small data logic
around that part.

- **The xsbug text protocol.** Incoming XML messages are parsed into
  typed messages: login, frames, local, global, grammar, break, log,
  samples and instruments. Outgoing commands are text templates framed by
  CRLF. Both connection classes are covered: the newer one in
  `src/xs/DeviceConnection.ts` and the older one in
  `src/xs/XsbugConnection.ts`.
- **The binary control protocol.** A frame is an opcode, an optional
  request id and a payload. Requests are restart, uninstall, install
  chunks, set-preference and get-preference. Replies with opcode 5 are
  matched against a table of pending requests.
- **The connection lifecycle.**
  - `DeviceConnection` counts its connection attempts and retries a
    closed socket while at most 10 attempts have been made.
  - It numbers requests that expect a reply, keeps them in a `pending`
    table, and removes the first matching entry when its reply arrives.
- **The overmind state logic fed by the protocol.**
  - Instrument grouping and the 100-sample history window per series.
  - The `/mc` prefix strip on break paths, and breakpoint sync.
  - Path lookup in the project tree and project storage keys.
  - The editor's tab actions and the project tree's deletions.
  - The sidebar toggle.
- **Two display orderings of the debug sidebar.**
  - Property names get their numeric indices zero-padded before sorting.
  - Breakpoints are sorted by line, then stably by file name.

Modules follow the source files:

| file | module | source |
|---|---|---|
| wrappers.dfy | `Wrappers` | `Option`, and `Result` where an `Err` stands for a thrown exception |
| strings.dfy | `JsText` | `parseInt`, `split`/`join`, `indexOf`, `startsWith`/`endsWith`, the string order used for `localeCompare` |
| sorting.dfy | `Sorting` | `Array.prototype.sort` with a comparator, as a stable insertion sort |
| xsbug_parser.dfy | `XsbugParser` | the parsers of src/xs/DeviceConnection.ts over an abstract DOM tree |
| xsbug_commands.dfy | `XsbugCommands` | the text command templates shared by both connections |
| binary_frames.dfy | `BinaryFrames` | binary frame layout, reply decoding, preference payloads, install chunks |
| device_connection.dfy | `DeviceConnectionModel` | class `DeviceConnection` |
| xsbug_connection.dfy | `XsbugConnectionModel` | classes `XsbugMessage` and `XsbugConnection` |
| instruments.dfy | `Instruments` | `cleanInstrumentData` |
| device_operators.dfy | `DeviceOperators` | the debug operators of src/overmind/Device/operators.ts |
| storage_utils.dfy | `StorageUtils` | `getPath`, `getIdByPath`, `isFilePartOf` |
| storage_effects.dfy | `StorageKeys` | storage keys of projects |
| editor_actions.dfy | `EditorActions` | editor tab actions |
| storage_actions.dfy | `StorageActions` | project tree actions |
| sidebar.dfy | `Sidebar` | `setActiveSidebarView` |
| properties_panel.dfy | `DebugPropertiesPanel` | name padding, ordering and rows of the property panel |
| breakpoint_panel.dfy | `BreakpointPanel` | ordering of the breakpoint list |

Modelling decisions:

- **Exceptions.** Where the source throws, the model returns an `Err` or
  a `Threw` outcome. Examples: reading `.value` of a missing attribute,
  calling an undefined node parser, sending before the first connect, or
  reading `.id` of a `find` that found nothing.
- **Socket, timer and promise.** These are abstract:
  - socket events are method calls (`OnOpen`, `OnError(readyState)`,
    `OnClose`, `OnTextMessage`, `OnBinaryMessage`);
  - `socket.send` appends to `sent`;
  - hooks and promise settlements are appended to `events`;
  - the retry timer is the flag `timerArmed` and the method `FireTimer`.
- **Numbers.** Integers are unbounded. Where the source truncates, the
  truncation is written out:
  - `Uint8Array` stores keep the low 8 bits (`ToUint8`);
  - `>>` first takes ToInt32 (`ToInt32`, `ShiftedByte`);
  - `getUint16`/`getInt16` read big-endian (`Uint16`, `Int16`).
- **`requestID`.** It is reset to 1 by every `initSocket` and is never
  wrapped. Only its two wire bytes are truncated.
- **Ordering.** `localeCompare` is plain lexicographic order on
  characters (`JsText.StrLe`), which are Unicode scalar values. `sort` is a stable sort by the comparator.
- **Dictionaries.** Iteration order of a dictionary is an explicit key
  sequence (`KeyOrder`) wherever the source iterates with
  `Object.values`.

Behaviour of the code worth knowing:

- **Retries.** A socket whose opening fails is retried while the attempt
  count is at most 10, so the connection is rejected at the error of the
  11th attempt (`RetryUntilRejected`). The counter is never reset
  (`NoRetryAfterRejection`).
- **Request ids.** Stored request ids do not wrap within 16 bits. A
  request numbered 65536 or more can never be matched by a reply
  (`HighIdsNeverMatch`, `WireId`).
- **Repeated `connect`.** `connect` always disconnects and opens a new
  socket. A second call is not a no-op.
- **`disconnect`.** It leaves the pending table as it is.
- **Install.** Chunks are a fixed 512 bytes and are sent back to back,
  with no probe chunk and no wait for an acknowledgement.

## Model

| member | source | states |
|---|---|---|
| JsText.ParseInt | src/xs/DeviceConnection.ts:85 | `parseInt` skips leading white space, reads an optional sign and the longest run of decimal digits; NaN exactly when no digit follows |
| JsText.ParseIntReads | src/xs/DeviceConnection.ts:85 | the value read from white space, a sign, a digit run and text not starting with a digit is the digit run's value, negated exactly when the sign is `-` |
| JsText.ParseIntOfIntToString | src/xs/DeviceConnection.ts:176 | `parseInt` reads back the decimal text of every integer, so a line number survives the attribute round trip |
| JsText.SplitPieces | src/xs/XsbugConnection.ts:139 | `split(',')` yields one more piece than there are commas and no piece holds a comma |
| JsText.JoinSplit | src/xs/XsbugConnection.ts:139 | joining the pieces of a split with the separator gives the text back |
| JsText.SplitJoin | src/xs/XsbugConnection.ts:139 | splitting a join of comma-free pieces gives the pieces back |
| JsText.NonEmptyAppend | src/overmind/Storage/utils.ts:58 | `filter(l => l.length > 0)` distributes over concatenation |
| JsText.IndexOf | src/xs/DeviceConnection.ts:97-99 | `indexOf` is the first position of the character, or -1 exactly when it does not occur |
| JsText.StrLeTotal | src/xs/DeviceConnection.ts:107 | the string order used for `localeCompare` relates any two strings |
| JsText.StrLeTransitive | src/xs/DeviceConnection.ts:107 | the string order is transitive |
| JsText.StrLeAntisymmetric | src/xs/DeviceConnection.ts:107 | two strings ordered both ways are equal |
| Sorting.SortBy | src/xs/DeviceConnection.ts:107 | `sort` returns a permutation of its input |
| Sorting.SortBySorted | src/xs/DeviceConnection.ts:107 | under a total preorder the result of `sort` is ordered by the comparator |
| Sorting.SortByAfterSorted | src/components/SidebarDebug/BreakpointPanel.tsx:30-31 | sorting stably by a second key a list already ordered by a first key orders it by the second key, then the first |
| Sorting.SortedUnique | src/xs/DeviceConnection.ts:107 | two ordered permutations of one list are equal when the comparator never ties distinct elements |
| XsbugParser.Attr | src/xs/DeviceConnection.ts:80 | `attributes[key].value` succeeds exactly on an element that has the attribute, and returns its text |
| XsbugParser.OptAttr | src/xs/DeviceConnection.ts:81 | the guarded read is undefined for a missing attribute; the older parser's unguarded read throws instead |
| XsbugParser.ParseFrame | src/xs/DeviceConnection.ts:78-88 | a frame has name and value from the attributes; it has path and parsed line exactly when a path attribute exists; a path without a line throws |
| XsbugParser.ParseFlags | src/xs/DeviceConnection.ts:91-100 | `delete`, `enum` and `set` are true exactly when `C`, `E`, `W` are absent from the flags, and `value` keeps the raw string |
| XsbugParser.SortByName | src/xs/DeviceConnection.ts:107 | the property list sorted by name is a permutation of the input and ordered by name |
| XsbugParser.SortByNameCanonical | src/xs/DeviceConnection.ts:103-108 | with distinct names, the sorted child list is the same whatever order the children arrived in |
| XsbugParser.ParseProperty | src/xs/DeviceConnection.ts:90-111 | a property parses iff its node and all descendants carry flags and name; it gets a `property` list iff the node has children, and that list is exactly the children's parses (the same multiset) sorted by name, at every level |
| XsbugParser.ParseProperties | src/xs/DeviceConnection.ts:103-106 | the sibling loop parses each child in document order and fails iff some child fails |
| XsbugParser.ParseSamples | src/xs/DeviceConnection.ts:121-126 | one `parseInt` per comma-separated field, in order |
| XsbugParser.ParseFrames | src/xs/DeviceConnection.ts:127-136 | `frames` keeps one frame per child in document order |
| XsbugParser.ParseInstrument | src/xs/DeviceConnection.ts:189-192 | an instrument is the name and value attributes of its node |
| XsbugParser.ParseInstruments | src/xs/DeviceConnection.ts:186-198 | one instrument per child, in document order |
| XsbugParser.ParseMessage | src/xs/DeviceConnection.ts:113-199 | for each node name, when the message parses and what it holds: `login` its name and value attributes, `samples` the parsed fields, `log` the text, `break` path, parsed line and text; `local`, `global` and `grammar` lists are exactly the children's parses sorted by name, while `frames` and `instruments` keep document order; a name with no parser of its own throws |
| XsbugParser.ParseMessages | src/xs/DeviceConnection.ts:205-207 | one message per child, in document order, failing iff some child fails |
| XsbugParser.ParseDocument | src/xs/DeviceConnection.ts:201-209 | fails with "not xsbug" exactly when the root is not `xsbug`; an `xsbug` root parses exactly when every child parses, giving one message per child in document order, each of the child's kind |
| XsbugParser.SamplesRoundTrip | src/xs/XsbugConnection.ts:138-140 | the comma-joined decimal text of a list of integers parses back to exactly that list |
| XsbugParser.ParseMessageBreak | src/xs/DeviceConnection.ts:172-179 | a break element with path and line yields that path, the parsed line and the text content |
| XsbugParser.BreakRoundTrip | src/xs/XsbugConnection.ts:166-172 | a break report whose line attribute is the decimal form of a line parses to that path, line and message |
| XsbugCommands.BreakpointEntries | src/xs/DeviceConnection.ts:386-392 | the entry list is the start entry if asked, then the exceptions entry if asked, then the user breakpoints |
| XsbugCommands.UserEntries | src/xs/DeviceConnection.ts:387-389 | one breakpoint element per user breakpoint, in input order |
| XsbugCommands.StartEntryIsElement | src/xs/DeviceConnection.ts:392 | the start entry is the breakpoint element for path `start`, line 0 |
| XsbugCommands.ExceptionsEntryIsElement | src/xs/DeviceConnection.ts:391 | the exceptions entry is the breakpoint element for path `exceptions`, line 0 |
| XsbugCommands.EntriesText | src/xs/XsbugConnection.ts:54-63 | the joined entries are the start text, the exceptions text, then the user entries |
| XsbugCommands.SetAllBreakpointsWire | src/xs/DeviceConnection.ts:386-396 | the wire text is CRLF, the opening tag, the optional start and exceptions entries, the user entries in order, the closing tag and CRLF |
| XsbugCommands.PathLineInjective | src/xs/DeviceConnection.ts:374-382 | for quote-free paths the path-and-line text determines the path and the line |
| XsbugCommands.BreakpointTextsInjective | src/xs/XsbugConnection.ts:42-50 | distinct set-breakpoint, clear-breakpoint and breakpoint-entry texts name distinct breakpoints |
| BinaryFrames.ToUint8 | src/xs/DeviceConnection.ts:480 | storing into a `Uint8Array` keeps the value modulo 256 |
| BinaryFrames.ToInt32 | src/xs/DeviceConnection.ts:434-437 | the shift operands are first taken to a signed 32-bit value congruent modulo 2^32 |
| BinaryFrames.Uint16 | src/xs/DeviceConnection.ts:347 | `getUint16` reads a big-endian value in 0..65535 |
| BinaryFrames.Int16 | src/xs/DeviceConnection.ts:348 | `getInt16` reads a signed 16-bit value congruent to the unsigned one |
| BinaryFrames.WireId | src/xs/DeviceConnection.ts:482-484 | the two id bytes read back as the id modulo 65536, and equal the id iff it is below 65536 |
| BinaryFrames.BinaryFrame | src/xs/DeviceConnection.ts:468-488 | byte 0 is the opcode; length 1 with neither payload nor callback, 3 with a callback only, 3 + payload with a payload; bytes 1-2 are the id big-endian with a callback and zero otherwise; the payload starts at 3 |
| BinaryFrames.DecodeBinary | src/xs/DeviceConnection.ts:344-348 | a frame throws iff it is empty or a reply shorter than 5 bytes; it is a reply iff byte 0 is 5, with id, code and data at bytes 1-2, 3-4 and 5 onwards |
| BinaryFrames.ReplyRoundTrip | src/xs/DeviceConnection.ts:344-348 | an encoded reply decodes to itself |
| BinaryFrames.CharBytes | src/xs/DeviceConnection.ts:423 | each character is stored as its code modulo 256 |
| BinaryFrames.GetPreferencePayload | src/xs/DeviceConnection.ts:419-426 | the get-preference payload is domain, NUL, key, NUL |
| BinaryFrames.SetPreferencePayload | src/xs/DeviceConnection.ts:446-456 | the set-preference payload is domain, NUL, key, NUL, value, NUL |
| BinaryFrames.PreferencePayloadsRoundTrip | src/xs/DeviceConnection.ts:446-457 | for NUL-free 8-bit strings, reading the payloads as NUL-terminated strings gives back domain, key and value |
| BinaryFrames.Be32 | src/xs/DeviceConnection.ts:434-437 | the offset is written as four bytes |
| BinaryFrames.Be32RoundTrip | src/xs/DeviceConnection.ts:434-437 | the four offset bytes read big-endian give the offset modulo 2^32 |
| BinaryFrames.ChunkCount | src/xs/DeviceConnection.ts:430-431 | the install loop runs ceil(n / 512) times |
| BinaryFrames.ChunkData | src/xs/DeviceConnection.ts:432-438 | each chunk holds 1 to 512 bytes of the image |
| BinaryFrames.ChunksPrefix | src/xs/DeviceConnection.ts:431-438 | the first k chunks concatenate to the first min(n, 512k) bytes of the image |
| BinaryFrames.InstallReassembles | src/xs/DeviceConnection.ts:429-442 | the payloads of all chunks, without their offsets, concatenate back to the image |
| BinaryFrames.InstallOffsets | src/xs/DeviceConnection.ts:431-437 | chunk k carries the offset `offset + 512k`, modulo 2^32 |
| DeviceConnectionModel.DeliveriesShape | src/xs/DeviceConnection.ts:317-342 | the hook calls are, in document order, one per handled message and nothing else: each call is that message's hook, positions strictly increase, and every handled message has its call |
| DeviceConnectionModel.DeliveriesAllHandled | src/xs/DeviceConnection.ts:317-342 | when every message is of a handled kind, each message is handed to its hook, in document order |
| DeviceConnectionModel.DeliveriesNoneHandled | src/xs/DeviceConnection.ts:317-342 | when no message is of a handled kind, no hook is called |
| DeviceConnectionModel.FindPending | src/xs/DeviceConnection.ts:349 | `findIndex` returns the first pending entry with the id, or -1 exactly when none has it |
| DeviceConnectionModel.HighIdsNeverMatch | src/xs/DeviceConnection.ts:347-349 | a reply never matches a pending id of 65536 or more |
| DeviceConnectionModel.InstallFrames | src/xs/DeviceConnection.ts:429-442 | `doInstall` sends one frame per chunk |
| DeviceConnectionModel.DeviceConnection.constructor | src/xs/DeviceConnection.ts:254-258 | a new connection has made no attempt, has an empty pending table, and has sent nothing |
| DeviceConnectionModel.DeviceConnection.Disconnect | src/xs/DeviceConnection.ts:267-272 | the timer is cleared and an existing socket is closed; nothing else changes |
| DeviceConnectionModel.DeviceConnection.InitSocket | src/xs/DeviceConnection.ts:274-283 | request ids restart at 1, a socket exists, and the attempt count grows by one |
| DeviceConnectionModel.DeviceConnection.Connect | src/xs/DeviceConnection.ts:260-265 | disconnect, then a new socket, then a pending connection promise |
| DeviceConnectionModel.DeviceConnection.OnOpen | src/xs/DeviceConnection.ts:285-290 | the timer is cleared, the hook runs, and the promise is resolved once; a second open throws on the null promise |
| DeviceConnectionModel.DeviceConnection.Send | src/xs/DeviceConnection.ts:369-371 | with a socket the data is appended to what was sent; before the first connect `this.socket` is undefined, so it throws and nothing is sent |
| DeviceConnectionModel.DeviceConnection.OnError | src/xs/DeviceConnection.ts:292-306 | a closed socket is retried iff at most 10 attempts were made, and otherwise the error hook runs and the promise is rejected; other errors go only to the error hook |
| DeviceConnectionModel.DeviceConnection.OnClose | src/xs/DeviceConnection.ts:308-310 | only the close hook runs |
| DeviceConnectionModel.DeviceConnection.FireTimer | src/xs/DeviceConnection.ts:295-297 | an armed retry timer opens a new socket; otherwise nothing happens |
| DeviceConnectionModel.DeviceConnection.SendCommand | src/xs/DeviceConnection.ts:464-466 | with a socket, exactly the CRLF-framed text is sent; without one it throws and nothing is sent; nothing else changes |
| DeviceConnectionModel.DeviceConnection.DoCommand | src/xs/DeviceConnection.ts:374-408 | each text command sends its template, framed; without a socket it throws and nothing is sent |
| DeviceConnectionModel.DeviceConnection.SendBinaryCommand | src/xs/DeviceConnection.ts:468-488 | the frame is sent when there is a socket and the call throws when there is none; with a callback, exactly one pending entry with the current id is appended and the id advances, before the send and so even when it throws; without one, neither changes |
| DeviceConnectionModel.DeviceConnection.DoGetPreference | src/xs/DeviceConnection.ts:419-428 | opcode 6 with the get-preference payload, and the callback registered; without a socket it throws after registering |
| DeviceConnectionModel.DeviceConnection.DoSetPreference | src/xs/DeviceConnection.ts:446-458 | opcode 4 with the set-preference payload and no id; without a socket it throws; nothing else changes |
| DeviceConnectionModel.DeviceConnection.DoRestart | src/xs/DeviceConnection.ts:443-445 | the single byte 1 is sent; without a socket it throws and nothing is sent |
| DeviceConnectionModel.DeviceConnection.DoUninstall | src/xs/DeviceConnection.ts:459-461 | opcode 2, with the request id when a callback is given; without a socket it throws |
| DeviceConnectionModel.DeviceConnection.DoInstall | src/xs/DeviceConnection.ts:429-442 | the install frames are sent in order, one per 512-byte chunk, and nothing else changes; without a socket the first chunk throws and nothing is sent, while empty data sends nothing and succeeds |
| DeviceConnectionModel.DeviceConnection.SendInstallChunk | src/xs/DeviceConnection.ts:432-440 | one loop pass sends the frame of chunk k, or throws when there is no socket |
| DeviceConnectionModel.DeviceConnection.OnTextMessage | src/xs/DeviceConnection.ts:312-342 | a document that does not parse throws before any hook; otherwise the hooks of the handled messages run in document order |
| DeviceConnectionModel.DeviceConnection.Deliver | src/xs/DeviceConnection.ts:317-342 | the dispatch loop appends exactly the deliveries of the messages |
| DeviceConnectionModel.DeviceConnection.OnBinaryMessage | src/xs/DeviceConnection.ts:343-360 | an opcode-5 reply removes only the first pending entry with its id and calls that entry's callback; an unmatched reply or another opcode changes nothing; a short reply throws |
| DeviceConnectionModel.CopyBytes | src/xs/DeviceConnection.ts:486 | `msg.set(bytes, at)` writes exactly those bytes at that offset |
| DeviceConnectionModel.CopyChars | src/xs/DeviceConnection.ts:423 | the character loop writes the character codes at the offset |
| DeviceConnectionModel.InstallPayloadAt | src/xs/DeviceConnection.ts:432-438 | a chunk's payload is the four offset bytes followed by up to 512 image bytes |
| DeviceConnectionModel.ChunkCountExit | src/xs/DeviceConnection.ts:431 | the install loop stops after exactly ceil(n / 512) passes |
| DeviceConnectionModel.RegisterAsWritten | src/xs/DeviceConnection.ts:484 | with `pending` never assigned, registering a callback throws |
| DeviceConnectionModel.PendingAsWrittenThrows | src/xs/DeviceConnection.ts:250-258 | as written, the first command with a callback throws; from an empty table it is recorded |
| DeviceConnectionModel.RetryUntilRejected | src/xs/DeviceConnection.ts:292-302 | a socket that keeps closing is retried ten times, and the 11th attempt's error rejects the connection |
| DeviceConnectionModel.NoRetryAfterRejection | src/xs/DeviceConnection.ts:257 | the attempt counter is never reset, so a later connect is rejected at its first error |
| XsbugConnectionModel.Apply | src/xs/XsbugConnection.ts:125-184 | a child parses iff its parser succeeds; then the field of its own kind holds the child's value and every other field is unchanged; a name with no parser of its own throws |
| XsbugConnectionModel.ChildValue | src/xs/XsbugConnection.ts:131-183 | for each node name, when its parser succeeds and the value it stores: `login` name and value, `samples` the parsed fields, `frames` and `instruments` one entry per child in document order, `local` its frame and its children's parses in document order, `global` and `grammar` exactly the children's parses sorted by name, `break` path, parsed line and text, `log` the text |
| XsbugConnectionModel.ChildValueKind | src/xs/XsbugConnection.ts:126 | the parser chosen by a node's name stores into the field of that name |
| XsbugConnectionModel.Store | src/xs/XsbugConnection.ts:132-175 | assigning one field sets that field and leaves the eight others as they were |
| XsbugConnectionModel.FieldsDetermine | src/xs/XsbugConnection.ts:112-120 | a message is determined by its nine fields |
| XsbugConnectionModel.LastNamed | src/xs/XsbugConnection.ts:125 | the last child with the name, or none exactly when no child has it |
| XsbugConnectionModel.LaterChildWins | src/xs/XsbugConnection.ts:125-127 | for every field: a kind no child has keeps its initial value, and otherwise the field holds the value of the last child of that kind |
| XsbugConnectionModel.XsbugMessage.constructor | src/xs/XsbugConnection.ts:112-121 | a new message has no field set |
| XsbugConnectionModel.XsbugMessage.Load | src/xs/XsbugConnection.ts:122-129 | fails with "not xsbug" unless the root is `xsbug`; otherwise the fields are those the children set, in document order |
| XsbugConnectionModel.Dispatch | src/xs/XsbugConnection.ts:29-35 | exactly one hook, the first applicable one in the order break, login, instruments, local, log, samples; none when none applies |
| XsbugConnectionModel.XsbugConnection.constructor | src/xs/XsbugConnection.ts:6-13 | a new connection has sent nothing and called no hook |
| XsbugConnectionModel.XsbugConnection.SendCommand | src/xs/XsbugConnection.ts:86-88 | the text framed by CRLF is sent |
| XsbugConnectionModel.XsbugConnection.DoCommand | src/xs/XsbugConnection.ts:42-76 | each command sends its template, framed |
| XsbugConnectionModel.XsbugConnection.OnMessage | src/xs/XsbugConnection.ts:23-36 | the message is handled exactly when the root is `xsbug` and every child parses; then the hook `Dispatch` chooses is called once with the message, and a document that does not parse calls none |
| Instruments.Step | src/overmind/Device/utils.ts:7-16 | an instrument joins the last group iff that group's values are exactly the separator; otherwise it starts a new group named after itself |
| Instruments.CleanInstrumentData | src/overmind/Device/utils.ts:3-19 | the reduce loop computes the grouping of the instruments |
| Instruments.Range | src/overmind/Device/utils.ts:6 | the positions 0..n-1 |
| Instruments.GroupedShape | src/overmind/Device/utils.ts:6-18 | the groups' positions are 0..n-1 in order; each group is one instrument or a separator with its successor |
| Instruments.GroupSizes | src/overmind/Device/utils.ts:12-15 | each group holds one or two values, as many as positions |
| Instruments.ValuesCounted | src/overmind/Device/utils.ts:12-15 | the values across groups number the instruments, and each position appears exactly once |
| DeviceOperators.SpliceFront | src/overmind/Device/operators.ts:118-121 | `splice(0, count)` removes nothing for a negative count and everything past the end |
| DeviceOperators.SlideAll | src/overmind/Device/operators.ts:116-122 | series i takes sample i; series beyond the message's samples are unchanged |
| DeviceOperators.Singletons | src/overmind/Device/operators.ts:113-114 | the first samples message creates one single-sample series per sample |
| DeviceOperators.SlideKeepsLast | src/overmind/Device/operators.ts:116-122 | an updated series is the last min(length + 1, 100) values of the old series followed by the sample |
| DeviceOperators.SlideAllBounded | src/overmind/Device/operators.ts:116-122 | series of at most 100 values stay so |
| DeviceOperators.DeviceDebug.constructor | src/overmind/Device/state.ts:39-43 | no instruments, samples or break yet |
| DeviceOperators.DeviceDebug.DebugInstrument | src/overmind/Device/operators.ts:105-109 | the grouped instruments replace the old ones |
| DeviceOperators.DeviceDebug.DebugInstrumentSample | src/overmind/Device/operators.ts:110-124 | the first message creates the series and later ones slide each series; more samples than series throws at the first missing one |
| DeviceOperators.DeviceDebug.DebugBreak | src/overmind/Device/operators.ts:149-184 | the break is logged with the stripped path; a found file gets a breakpoint and is opened; the active break records path, id, line and message; the sidebar ends on Debug |
| DeviceOperators.StripCompiledPrefix | src/overmind/Device/operators.ts:156-158 | a path starting with `/mc` loses exactly those three characters, and any other path is unchanged |
| DeviceOperators.StripCompiledPrefixExact | src/overmind/Device/operators.ts:153-158 | stripping undoes prefixing with `/mc` |
| DeviceOperators.DeviceBreakpoints | src/overmind/Device/operators.ts:35-38 | one device breakpoint per editor breakpoint, in order, with its device path and line |
| DeviceOperators.SyncBreakpoints | src/overmind/Device/operators.ts:31-41 | with a connection that has a socket, exactly the set-all-breakpoints command for those breakpoints is sent; with no connection nothing happens; with a connection that has no socket it throws and nothing changes |
| DeviceOperators.SetActiveSidebarToDebug | src/overmind/Device/operators.ts:48-52 | the sidebar ends on Debug whatever it showed before |
| StorageUtils.Fragment | src/overmind/Storage/utils.ts:16-29 | the walk starts at the file of that id before a directory of it; an unknown or absent id ends it |
| StorageUtils.FileStep | src/overmind/Storage/utils.ts:17-21 | a file contributes its name, then the walk continues at its parent |
| StorageUtils.DirStep | src/overmind/Storage/utils.ts:22-26 | a directory contributes its name, then the walk continues at its parent |
| StorageUtils.Reverse | src/overmind/Storage/utils.ts:33 | `reverse()` puts the element at i at n - 1 - i |
| StorageUtils.GetPath | src/overmind/Storage/utils.ts:31-35 | an unknown id gives the empty path |
| StorageUtils.FindFile | src/overmind/Storage/utils.ts:51 | the found file has that name and parent; none exactly when no file has both |
| StorageUtils.FindDir | src/overmind/Storage/utils.ts:45-47 | the found directory has that name and parent; none exactly when no directory has both |
| StorageUtils.GetIdForPathResult | src/overmind/Storage/utils.ts:37-53 | a found id is a file named by the last segment; a single segment succeeds iff such a file sits under the parent; an empty path throws |
| StorageUtils.SegmentsOfSlash | src/overmind/Storage/utils.ts:58 | leading, trailing and doubled slashes add no segment |
| StorageUtils.GetIdByPathIgnoresEmptySegments | src/overmind/Storage/utils.ts:55-60 | `getIdByPath` gives the same result with leading, trailing or doubled slashes |
| StorageUtils.IsFilePartOf | src/overmind/Storage/utils.ts:62-78 | false for an undefined parent, else true iff the file exists and is a direct child of that parent |
| StorageUtils.PathRoundTrip | src/overmind/Storage/utils.ts:31-60 | in a well-formed tree, looking up the path of a file gives back that file |
| StorageUtils.ChildPath | src/overmind/Storage/utils.ts:16-35 | the path of a direct child is its directory's path, a slash and its name |
| StorageKeys.ProjectStorageKey | src/overmind/Storage/effects.ts:10-12 | a truthy name maps to `name.storage` and a falsy one to `storage` |
| StorageKeys.ListedName | src/overmind/Storage/effects.ts:28 | the listed name is the text before the key's first dot |
| StorageKeys.ProjectList | src/overmind/Storage/effects.ts:24-29 | the list never grows beyond the keys |
| StorageKeys.RemoveProjectKey | src/overmind/Storage/effects.ts:31-33 | a falsy name removes the `storage` key, a truthy one its own key |
| StorageKeys.DefaultKeyNotListed | src/overmind/Storage/effects.ts:27 | the default key is never listed, wherever it sits |
| StorageKeys.ProjectListNames | src/overmind/Storage/effects.ts:26-28 | every listed name is the text before the first dot of a key ending in `.storage`; the list is empty iff no key does |
| StorageKeys.ProjectKeys | src/overmind/Storage/effects.ts:10-12 | one key per project |
| StorageKeys.ProjectListRoundTrip | src/overmind/Storage/effects.ts:10-29 | the keys of non-empty names without dots list back as those names, in order |
| StorageKeys.KeyReadsBack | src/overmind/Storage/effects.ts:10-28 | the key of a plain name ends in `.storage` and reads back as the name |
| StorageKeys.DottedNameListedAsPrefix | src/overmind/Storage/effects.ts:28 | as written, the project `my.app` is listed as `my`, whose key is a different one |
| StorageKeys.ProjectListBySuffix | src/overmind/Storage/effects.ts:24-29 | the corrected listing strips the `.storage` suffix |
| StorageKeys.ProjectListBySuffixRoundTrip | src/overmind/Storage/effects.ts:10-29 | with the suffix stripped, every non-empty name lists back as itself, dots included |
| StorageKeys.DefaultKeyNotListedBySuffix | src/overmind/Storage/effects.ts:27 | the corrected listing does not list the default key either |
| EditorActions.Opened | src/overmind/Editor/actions.ts:51-61 | an unknown name changes nothing; a known file is flagged open, made active, and added to the tabs only if absent |
| EditorActions.ClosedAll | src/overmind/Editor/actions.ts:32-36 | no files, no tabs, no active file |
| EditorActions.Loaded | src/overmind/Editor/actions.ts:38-49 | the new dictionary is kept; loading an empty one throws |
| EditorActions.Updated | src/overmind/Editor/actions.ts:103-125 | an unknown name throws before any change; otherwise tabs and active file stay |
| EditorActions.ActiveKey | src/overmind/Editor/actions.ts:115-118 | the key read is the name if it is a tab, else the text `undefined` |
| EditorActions.EditorState.constructor | src/overmind/Editor/actions.ts:32-36 | an empty editor |
| EditorActions.EditorState.OpenFile | src/overmind/Editor/actions.ts:51-61 | the new state is `Opened` of the old |
| EditorActions.EditorState.CloseFile | src/overmind/Editor/actions.ts:73-94 | the new state is `Closed` of the old |
| EditorActions.EditorState.CloseAllFiles | src/overmind/Editor/actions.ts:32-36 | the new state is empty |
| EditorActions.EditorState.LoadFiles | src/overmind/Editor/actions.ts:38-49 | the new state is `Loaded` of the old |
| EditorActions.EditorState.UpdateFile | src/overmind/Editor/actions.ts:103-125 | the new state is `Updated` of the old |
| EditorActions.EditorState.RemoveFile | src/overmind/Editor/actions.ts:18-30 | confirmed, the file is closed and dropped; unconfirmed, nothing changes |
| EditorActions.Without | src/overmind/Editor/actions.ts:80-82 | the tabs without one name, order kept |
| EditorActions.OpenedIdempotent | src/overmind/Editor/actions.ts:51-61 | opening twice is opening once, and opening keeps tabs equal to the open files, each once |
| EditorActions.ClosedShape | src/overmind/Editor/actions.ts:73-94 | closing removes the name from the tabs, keeps the other tabs in order, makes the last tab active or none, and keeps the invariant |
| EditorActions.ClosedUnknown | src/overmind/Editor/actions.ts:77-78 | closing an unknown name changes nothing |
| EditorActions.LoadedShape | src/overmind/Editor/actions.ts:38-49 | the tabs are the open files in key order, and the first tab, or else the first file, is opened |
| EditorActions.UpdatedShape | src/overmind/Editor/actions.ts:107-122 | the dirty flag is always set, content only when the new content is non-empty; the keys and the file's open flag are kept; every other file is unchanged except that, when the file is not an open tab, a file stored under the key `undefined` also gets the dirty flag, because the source indexes `files` by the active-tab lookup |
| EditorActions.RemovedShape | src/overmind/Editor/actions.ts:25-29 | a confirmed removal drops exactly that file and its tab, and keeps the invariant |
| StorageActions.StorageState.constructor | src/overmind/Storage/state.ts:25-29 | an empty tree |
| StorageActions.StorageState.CreateNewFile | src/overmind/Storage/actions.ts:7-22 | a truthy name adds exactly one empty file under the folder and opens it; no name adds nothing |
| StorageActions.StorageState.CreateNewFolder | src/overmind/Storage/actions.ts:24-37 | a truthy name adds exactly one directory under the folder |
| StorageActions.StorageState.UpdateFile | src/overmind/Storage/actions.ts:39-47 | only an existing file's content is replaced; everything else is unchanged |
| StorageActions.StorageState.ForceRemoveFile | src/overmind/Storage/actions.ts:82-90 | only that file's entry is removed and closed; an unknown id does nothing |
| StorageActions.StorageState.RemoveFile | src/overmind/Storage/actions.ts:92-106 | a confirmed removal of an existing file removes and closes only it; otherwise nothing changes |
| StorageActions.StorageState.RemoveDir | src/overmind/Storage/actions.ts:55-79 | an unknown or unconfirmed directory changes nothing; otherwise exactly the visited nodes hit are deleted, and the deleted files are closed |
| StorageActions.StorageState.PruneDirectories | src/overmind/Storage/actions.ts:64-68 | the directory loop deletes the hit directories |
| StorageActions.StorageState.PruneFiles | src/overmind/Storage/actions.ts:70-75 | the file loop closes and deletes the hit files, in visiting order |
| StorageActions.DoomedMembers | src/overmind/Storage/actions.ts:64-75 | an id is deleted exactly when a visited node with that id is the directory or its child |
| StorageActions.DoomedOfMap | src/overmind/Storage/actions.ts:64-75 | over a dictionary keyed by id, the deleted keys are the directory and its direct children |
| StorageActions.Pruned | src/overmind/Storage/actions.ts:64-75 | what remains is every other entry, unchanged; grandchildren stay |
| StorageActions.RemoveDirEffect | src/overmind/Storage/actions.ts:55-79 | a confirmed removal deletes the directory, its child directories and the files in it, and nothing else; the closed files are exactly the deleted ones |
| Sidebar.Toggled | src/overmind/actions.ts:53-57 | selecting the shown view, or Hidden, hides the sidebar; selecting another view shows it |
| Sidebar.RootState.constructor | src/overmind/rootState.ts:11-13 | the file explorer is shown first |
| Sidebar.RootState.SetActiveSidebarView | src/overmind/actions.ts:49-58 | the new view is the toggle of the old one |
| Sidebar.SelectTwice | src/overmind/actions.ts:49-58 | selecting a view that is not shown twice shows it, then hides the sidebar |
| Sidebar.SelectShown | src/overmind/actions.ts:53-54 | selecting the shown view hides the sidebar, and Hidden while Hidden stays Hidden |
| DebugPropertiesPanel.FindMatch | src/components/SidebarDebug/DebugPropertiesPanel.tsx:89 | the leftmost match of the pattern, or none exactly when it matches nowhere |
| DebugPropertiesPanel.Exec | src/components/SidebarDebug/DebugPropertiesPanel.tsx:89-91 | a match yields the pattern's texts around a non-empty digit run |
| DebugPropertiesPanel.ZerosFor | src/components/SidebarDebug/DebugPropertiesPanel.tsx:94 | `slice(0, -n)` of the ten zeros pads to ten characters, and gives nothing for ten or more digits |
| DebugPropertiesPanel.SortingName | src/components/SidebarDebug/DebugPropertiesPanel.tsx:88-99 | the first-match loop computes the rewritten name |
| DebugPropertiesPanel.RewrittenFirstMatch | src/components/SidebarDebug/DebugPropertiesPanel.tsx:88-99 | the first matching pattern decides: its opening text, the zero-padded digits, its closing text; text outside the match is dropped |
| DebugPropertiesPanel.RewrittenNoMatch | src/components/SidebarDebug/DebugPropertiesPanel.tsx:88-100 | a name no pattern matches is unchanged |
| DebugPropertiesPanel.PaddedLength | src/components/SidebarDebug/DebugPropertiesPanel.tsx:92-96 | padded digits are ten characters, and runs of ten or more digits are kept unpadded |
| DebugPropertiesPanel.BracketRewritten | src/components/SidebarDebug/DebugPropertiesPanel.tsx:10 | `[digits]` is rewritten by the first pattern to the padded index |
| DebugPropertiesPanel.PaddedOrder | src/components/SidebarDebug/DebugPropertiesPanel.tsx:92-96 | padded digit strings of up to ten digits are in string order exactly as in value order |
| DebugPropertiesPanel.PaddedIndexOrder | src/components/SidebarDebug/DebugPropertiesPanel.tsx:86-102 | for indices of up to ten digits, padded `[a]` sorts strictly before padded `[b]` when a is below b |
| DebugPropertiesPanel.DisplayOrder | src/components/SidebarDebug/DebugPropertiesPanel.tsx:86-102 | the listing is a permutation of the renamed properties, sorted by the rewritten name |
| DebugPropertiesPanel.RowOf | src/components/SidebarDebug/DebugPropertiesPanel.tsx:25-44 | a property is a value iff its value is non-empty and does not start with `@`; only non-values get a toggle; a value has no marker, a non-value `+` while its children are absent and `-` once they are listed |
| DebugPropertiesPanel.RowAsWritten | src/components/SidebarDebug/DebugPropertiesPanel.tsx:25-44 | as written, every non-value row shows `+` |
| DebugPropertiesPanel.ExpandedObjectShownCollapsed | src/components/SidebarDebug/DebugPropertiesPanel.tsx:44 | an object whose children arrived is `-` in the intended row and `+` as written |
| BreakpointPanel.Listed | src/components/SidebarDebug/BreakpointPanel.tsx:25-31 | the listing is a permutation of the annotated breakpoints, ordered by file name and then by line |
| BreakpointPanel.ListedEntries | src/components/SidebarDebug/BreakpointPanel.tsx:25-29 | each entry is a breakpoint annotated with its own file name |
| BreakpointPanel.ListedOrder | src/components/SidebarDebug/BreakpointPanel.tsx:30-31 | file names ascend, and lines ascend within one file |

## Left out

- USB transport: `DeviceConnectionUsb` is not part of this model. The
  same goes for the reassembly of a byte stream into messages and the
  acknowledgement-gated installer with a probe chunk. None of these is
  in src/xs/DeviceConnection.ts, which sends whole socket messages and
  fixed 512-byte chunks without waiting.
- WebSocket construction, the `x-xsbug` subprotocol and `binaryType`:
  the socket is abstract.
- `setTimeout`/`clearTimeout`: the timer is a flag, and its firing is the
  call `FireTimer`. The 1000 ms delay is not modelled.
- `createDeferred` and the Promise machinery: settling is an event, and
  a null `deferredConnection` is a `Threw(NullDeferred)` outcome.
- The `debugger` statements of `_onMessage` and `onmessage`: they have no
  effect in the model.
- `DOMParser`: parsing starts from a node tree (`XsbugParser.Node`).
  Malformed XML and processing instructions are not modelled.
- `JsText.ParseInt`: decimal text only. A `0x` prefix is read as the
  number 0, not as hexadecimal. White space is ASCII only: U+00A0,
  U+FEFF, U+2028, U+2029 and the other Zs characters are not skipped as
  `parseInt` skips them. Integers above 2^53 are kept exact, where a
  JavaScript number loses precision.
- `XsbugParser.ParseMessage`: a node name inherited through the
  prototype chain (`toString`, `valueOf`, `hasOwnProperty`,
  `constructor`, ...) names a function in the source, so it does not
  throw there; the model treats every name outside the nine kinds as
  having no parser, and the document fails.
- `XsbugConnectionModel.Apply`: the same holds for the older parser's
  `XsbugMessage[node.nodeName]` lookup; names reached through the
  prototype chain fail the document in the model.
- `XsbugConnectionModel.XsbugConnection.SendCommand`: always appends
  to `sent`. The older connection's `send` calls `this.socket.send`,
  which throws `InvalidStateError` while the socket is still connecting,
  and drops the data once it is closed; the model has no socket state,
  so neither case is modelled. The same holds for
  `XsbugConnectionModel.XsbugConnection.DoCommand`, which sends through
  it.
- `DeviceConnectionModel.DeviceConnection.Send`: a socket still
  connecting (where `send` throws `InvalidStateError`) and a closed
  socket (where the data is silently dropped) are not told apart from an
  open one; the model only tells a missing socket from a present one.
- The `console.log` calls of the older connection
  (src/xs/XsbugConnection.ts:15-24 and 38): logging only, with no effect
  on state.
- `JsText.StrLe`: stands for `localeCompare` as plain lexicographic
  order on characters. Locale collation is not modelled. Model
  characters are Unicode scalar values, not UTF-16 code units, so a
  character above U+FFFF sorts after one in U+E000-U+FFFF here, while
  its leading surrogate (U+D800-U+DBFF) sorts before it in JavaScript.
- `BinaryFrames.CharBytes`: stores the low 8 bits of a character code,
  as `Uint8Array` does. Model strings are sequences of Unicode scalar
  values, so a character above U+FFFF is one byte here (its code point
  modulo 256). The source counts `length` and writes `charCodeAt` per
  UTF-16 unit, so it writes two bytes, the low bytes of the two
  surrogate halves. The preference payloads of such strings are one byte
  shorter per such character than the source's.
- `DeviceConnectionModel.DeviceConnection.constructor`: starts `pending`
  as an empty table, where the source leaves it unassigned (see
  Findings). It also starts `requestID` at 1, where the source leaves it
  undefined until the first `initSocket`.
- Data of a reply: `OnBinaryMessage` carries it as the bytes after
  offset 5, as `event.data.slice(5)` does. The callback's own effects are
  not modelled, only that it is called.
- Request timeouts: there are none in the source, and none in the model.
- The overmind pipelines `ensureConnection`, `connectAfterRestart`,
  `disconnect`, `installMod` and `debugRestart`: effect sequencing
  around the connection, not data logic.
- The operators `debugLogin`, `debugFrames`, `debugLocal`,
  `debugGlobal`, `debugGrammer` and `debugLog`: each only assigns the
  message to a state field or logs it.
- `getDevicePath` and `getFileName`: taken as function parameters.
  `getDevicePath` is imported, and its definition is not part of this
  model.
- `generateNodeId`: crypto randomness; the id is a parameter.
- `window.prompt` and `window.confirm`: their answers are parameters.
- Persistence: `localforage`, `saveToLocalStorage`, `hasProject`,
  `loadFromLocalStorage` and the `o.persist` step after each storage
  action. Only key construction and the key listing are modelled.
- `addFile`, `openFileOnBreakPoint`, `addDroppedFiles`, `addFiles`,
  `loadSampleData`, `restoreFromLocalStorage` and `importGist`: they
  read files, fetch a gist or load sample data, which is I/O around the
  modelled maps.
- Editor effects: `EditorActions.EditorState.RemoveFile` and
  `StorageActions.StorageState.RemoveDir` return the ids they close in
  the editor rather than calling `closeFile`. `CreateNewFile` returns the
  id it opens.
- React rendering, CSS and the recursive `DebugFrameProperties`
  rendering of nested rows. Only each row's marker, name, value text and
  click handler, and the order of rows, are modelled.
- The compiler and ESLint workers and the Monaco and webpack setup:
  wrappers over tools whose code is not part of this model.

## Findings

| source | as written | input that shows it | evidently intended | confidence | as-written member | corrected member |
|---|---|---|---|---|---|---|
| src/components/SidebarDebug/DebugPropertiesPanel.tsx:25 | the row reads `properties` from a parsed property, whose children are in `property`, so the marker is always `+`; the same field is read at lines 87, 100 and 104, so nested rows are never rendered either | property `o` with value `@Object` and one child | `-` once the children have arrived | high, not executed | DebugPropertiesPanel.RowAsWritten, DebugPropertiesPanel.ExpandedObjectShownCollapsed | DebugPropertiesPanel.RowOf |
| src/overmind/Storage/effects.ts:28 | the project name is read as the text before the key's FIRST dot | project `my.app`, stored under `my.app.storage`, is listed as `my` | the name is the key without its `.storage` suffix | medium, not executed | StorageKeys.ProjectList, StorageKeys.DottedNameListedAsPrefix | StorageKeys.ProjectListBySuffix, StorageKeys.ProjectListBySuffixRoundTrip |
| src/xs/DeviceConnection.ts:254-258 | `pending` is never assigned, so `this.pending.push` throws on the first command with a callback | `doUninstall(callback)` on a new connection | an empty pending table from construction | high, not executed | DeviceConnectionModel.RegisterAsWritten, DeviceConnectionModel.PendingAsWrittenThrows | DeviceConnectionModel.DeviceConnection.constructor, DeviceConnectionModel.DeviceConnection.SendBinaryCommand |
