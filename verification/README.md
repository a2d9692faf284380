# YServer, modelled and verified

A model in Dafny of the parts of the YServer network library that carry its weight, with proofs about all their
inputs and all their interleavings. `dafny verify dfyconfig.toml` checks everything.

- **The incremental HTTP parser** (`TableSearch`, `ParserEngine`, `ParserResume`): the driver generated by Ragel,
  over any well-formed tables. The binary searches are methods, proved to find what a linear reading of a state's
  row finds; the parser is a class whose methods update its fields in place, proved to do what the function `Run`
  says. From there: resumability on a growing buffer, and that no assertion of the driver ever fails.
- **The request grammar in the tables** (`RequestTable`, `RequestText`, `RequestRuns`, `RequestTheorems`): the rows
  of the method, query, fragment and header states as the tables hold them, the other states of the request line
  decoded, and an invariant that divides the bytes read so far into the parts of a request, down to byte classes and
  escapes. From there: order of callbacks, where slices lie, what the finish code means, all of it also for a request
  that arrives in pieces, and that the uninitialised `query_start` never shows.
- **The text parser and the printer** (`Splitting`, `TextParser`, `Response`): splitting, trimming, the accumulating
  `parse_packet`, `serialize` and `send`; round trips, packet cuts and framing.
- **What the incremental parser accepts** (`RequestPaths`, `HeaderRuns`, `RequestLines`, `AcceptedRequests`,
  `RequestSpelling`): exactly the requests of a grammar of schemes, hosts, paths, queries, fragments, versions and
  header lines, each read in one way only. The grammar is given twice: by classes of signed bytes, as the tables have
  it, and on the characters and places of the text.
- **The two parsers side by side** (`PrintedRequests`, `Agreement`): printed requests through both, and when both
  report the same thing.
- **The completion loop** (`CompletionLoop`, `CompletionRing`, `MultishotAccept`): the event loop's pass while the
  kernel posts and coroutines write, what the awaiters of a shared cell read, the same pass over a ring with
  wrapping 32-bit counters, and the accept request that re-arms itself.
- **Coroutine tasks and the thread pool** (`TaskFrames`, `TaskCalls`, `TaskMisuse`, `ThreadPool`): ownership of frames
  under any use, continuation and reads where tasks are used in turn, exactly what goes wrong where they are not, and
  the interleaved workers with mutex, queue and condition variable.

Where a thread, the kernel or ordinary code may act in between, the code's atomic steps are methods of a class, the
same steps are a function `Step` on values, each method is proved equal to its step, and the theorems quantify over
every sequence of steps.

What came out other than one would hope, each with its exact condition and an input that fails:

- splitting undoes joining only for delimiters without a border (`SplitJoinExactly`, `BorderLosesPieces`);
- a first line with fewer than two spaces indexes past the end of the word list (`UndefinedExactly`,
  `OneWordUndefined`);
- a NUL in front of the empty line jams the text parser (`JamsExactly`, `NulInMethodJams`), and header values with a
  colon are lost in it (`ParseInvertsPrint`, `HostWithPortLost`);
- `send` leaves an earlier Content-Length in front (`SendsFrameExactly`, `SecondSendMisframes`,
  `LengthByHandMisframes`);
- the time-out test of the event loop reads a slot it has already released (`TestReadsOwnExactly`,
  `LappedSlotDestroys`), and so can destroy a coroutine for another's time-out (`CompletionLoop.DestroyedExactly`);
- accept errors other than -1 are taken for descriptors (`DescriptorsExactly`, `FailureHandled`);
- a task detached after its frame has finished leaks the frame (`FinishedExactly`, `LateDetachLeaks`); one given up
  while it is awaited is read after its end, and one moved from and awaited is read without a frame
  (`KeptTasksReadLive`, `DroppedWhileAwaited`, `MovedFromAwaited`);
- a task awaited while it is queued, runs or awaits is resumed twice, as in `listen` (`DoubleResumeExactly`,
  `QueuedTaskResumedTwice`, `RunningTaskResumedTwice`, `CallingTaskResumedTwice`), and caller links can close a cycle
  (`NoCyclesExactly`, `CalleeAwaitsCaller`);
- a stop of the pool can miss a worker that is about to sleep (`StopReachesAllExactly`, `StopMissed`).

The generated tables and the documentation disagree in two places, and the model follows the tables: the grammar's
set of control characters amounts to NUL and DEL, so header names may hold CR and LF; and the grammar's address
literals are not those of RFC 3986.

## Model

| member | source | states |
|---|---|---|
| TableSearch.SearchSingles | YServer/BaseNet/src/http11_parser(todo).c:657-678 | The binary search of the single keys terminates, stays inside the key array and returns the index a linear scan finds, or the count if there is none. |
| TableSearch.SearchPairs | YServer/BaseNet/src/http11_parser(todo).c:680-700 | The binary search over interval pairs: both pointers stay on whole pairs, and the index is that of the one interval holding the key, or the count. The condition search is the same loop. |
| TableSearch.PickIsUnique | YServer/BaseNet/src/http11_parser(todo).c:648-703 | In any well-formed table the transition of a byte is that of every equal single key, else of every interval holding it, else the default: sorted order leaves no ambiguity for a search to resolve. |
| TableSearch.Lookup | YServer/BaseNet/src/http11_parser(todo).c:620-703 | One lookup with its three searches and the `uri_relaxed` widening finds exactly the transition of the linear reading of the row, for every table, state, byte and flag, and never leaves an array. |
| TableSearch.RowOf | YServer/BaseNet/src/http11_parser(todo).c:59-560 | Cutting the flat arrays at the offsets of a state gives a row of matching lengths whose targets are all states. |
| TableSearch.RowIsCutOut | YServer/BaseNet/src/http11_parser(todo).c:59-379 | Entry by entry: pairs side by side from twice the condition offset, single keys and then range pairs from the key offset, one transition for each of them and one more. |
| TableSearch.EdgeIsCutOut | YServer/BaseNet/src/http11_parser(todo).c:380-560 | Each transition is found through `indicies` at the index offset; its target is in `trans_targs`, its actions are the counted list behind its offset in `actions`, none at offset 0. |
| TableSearch.WidensExactly | YServer/BaseNet/src/http11_parser(todo).c:631-652 | A byte moves up by 256, or 512 with the flag on, exactly when the first condition pair that holds it has condition 0. |
| ParserEngine.HttpParser.constructor | YServer/BaseNet/src/http11_parser(todo).c:570-588 | A new parser is in state 1 with every field but `query_start` 0, false or empty; that one keeps whatever was there. |
| ParserEngine.HttpParser.Init | YServer/BaseNet/src/http11_parser(todo).c:570-588 | Initialising a used parser leaves nothing of the earlier run but `query_start`. |
| ParserEngine.SignedByte | YServer/BaseNet/src/http11_parser(todo).c:620 | A byte of the buffer enters the comparisons in two's complement: the one number from -128 to 127 that leaves its remainder modulo 256, negative exactly from 128 up. |
| ParserEngine.HttpParser.Perform | YServer/BaseNet/src/http11_parser(todo).c:708-819 | The switch by its case numbers, field by field: which cases write a field, with what, and that no other case touches it; 12 alone leaves the driver. |
| ParserEngine.HttpParser.Fire | YServer/BaseNet/src/http11_parser(todo).c:707-819 | The counted action loop performs the actions of a transition in order on the marks, flags and callbacks, and stops at `done`. |
| ParserEngine.HttpParser.ActionList | YServer/BaseNet/src/http11_parser(todo).c:705-712 | The counted list behind a transition index is read within the action array: as many codes as the count says, in order, none at offset 0. |
| ParserEngine.HttpParser.Drive | YServer/BaseNet/src/http11_parser(todo).c:613-833 | The goto loop, byte by byte over the real tables with the binary searches, is the function `Run` on the linear rows: same state, fields, callbacks and position. |
| ParserEngine.HttpParser.Execute | YServer/BaseNet/src/http11_parser(todo).c:591-848 | A call returns the new `nread`, the old one plus what the loop consumed, or 0 for an empty buffer; it leaves an errored parser's state alone, and `ok` says whether the five closing assertions and the one on the offset hold. |
| ParserEngine.HttpParser.FinishResult | YServer/BaseNet/src/http11_parser(todo).c:850-866 | The finish code is -1 exactly in state 0, 1 exactly from state 348 on, else 0. |
| ParserResume.RunPrefix | YServer/BaseNet/src/http11_parser(todo).c:591-833 | A run on a prefix of the buffer is the beginning of the run on the whole: it stopped there for good, or the whole goes on from the state it reached. |
| ParserResume.DeadByte | YServer/BaseNet/src/http11_parser(todo).c:826-829 | A run that ends in error stops at the byte that kills it: on the bytes before it the run lives, and with it it dies. |
| ParserResume.RunBounded | YServer/BaseNet/src/http11_parser(todo).c:713-806 | Marks, field start, field length and body start stay within what has been read, over any table and run. |
| ParserResume.DoneAccounts | YServer/BaseNet/src/http11_parser(todo).c:788-806 | A run that reaches done accounts for the whole buffer: for the socket formats the body runs from the mark to the last byte read, else it starts behind that byte, is announced last, and the trailing count is what is left. |
| ParserResume.ExecuteStays | YServer/BaseNet/src/http11_parser(todo).c:834-845 | On a growing buffer no assertion of a call fails, and the parser is fit for the next call. |
| ParserResume.ErrorAbsorbs | YServer/BaseNet/src/http11_parser(todo).c:591-838 | Once in error, further calls change nothing. |
| ParserResume.FeedIsOneCall | YServer/BaseNet/src/http11_parser(todo).c:591-848 | Resumability: however the buffer is cut, calls on its growing prefixes end with the state, marks, `nread` and callbacks of one call on the whole, but for the trailing-byte count; the last call returns what that one call returns, and no assertion fails. |
| RequestTable.StateKinds | YServer/BaseNet/src/http11_parser(todo).c:60-149 | Each of the 350 states is of one kind, by its number: known byte by byte, inside an address literal, of a socket message, error, or one of the two final ones. |
| RequestTable.TakenIsDelta | YServer/BaseNet/src/http11_parser(todo).c:380-560 | In the method, start, path, query, fragment, version and header states the tables take, on each of the 256 bytes and for both flags, the transition that a readable decision on the byte gives. |
| RequestTable.MethodRowDecodes | YServer/BaseNet/src/http11_parser(todo).c:380-560 | In each method state every byte does one thing: a capital letter or digit goes on to the next of the states 2, 175 to 193; a space behind at least one byte reports the method; from the first state "<" and "@" start the socket formats; anything else, a twenty-first byte included, fails. |
| RequestTable.QueryTextDecodes | YServer/BaseNet/src/http11_parser(todo).c:620-652 | For query text, widening and the keys 512 higher amount to: the bytes "^{}" are accepted only when the flag is on. |
| RequestTable.FragmentTextDecodes | YServer/BaseNet/src/http11_parser(todo).c:620-652 | The same for fragment text. |
| RequestTable.HeaderRowDecodes | YServer/BaseNet/src/http11_parser(todo).c:380-388 | The header rows: names of token bytes (control bytes but NUL, HT, DEL among them), blanks skipped behind the colon, values up to a line break, and done at the empty line. |
| RequestRuns.StepHolds | YServer/BaseNet/src/http11_parser(todo).rl:212-241 | Every byte in every state of a request keeps the invariant that ties state, marks and callbacks to a division of the bytes read so far, or ends the request, or fails. |
| RequestRuns.StepStart | YServer/BaseNet/src/http11_parser(todo).rl:197-213 | At the start of a path: the path begins here, or is empty and followed by a query, a fragment or the version. |
| RequestRuns.StepPath | YServer/BaseNet/src/http11_parser(todo).rl:197-213 | Each byte of a path keeps its division into bytes of the path class and whole %-escapes, address literals apart, until the path is reported and a query, a fragment or the version begins. |
| RequestRuns.StepQuery | YServer/BaseNet/src/http11_parser(todo).rl:142 | Query text goes on, or is reported and then the URI around it; what follows is a fragment or the version. |
| RequestRuns.StepFragment | YServer/BaseNet/src/http11_parser(todo).rl:140 | Fragment text goes on, or is reported before the version. |
| RequestRuns.StepVersion | YServer/BaseNet/src/http11_parser(todo).rl:220-222 | Byte by byte "HTTP/1.0" or "HTTP/1.1", reported at its line break. |
| RequestRuns.StepHeader | YServer/BaseNet/src/http11_parser(todo).rl:235-241 | Header lines extend the division by one name and value each, at the line break behind the value; the empty line completes the request. |
| RequestRuns.RunStands | YServer/BaseNet/src/http11_parser(todo).c:613-833 | From any such state a run ends at a finished request, at a socket message, at a byte without a transition, or at the end of the buffer with the invariant. |
| RequestRuns.FreshRunStands | YServer/BaseNet/src/http11_parser(todo).c:570-833 | Hence every run of a fresh parser stands in one of these ways. |
| RequestTheorems.CallbackOrder | YServer/BaseNet/src/http11_parser(todo).rl:212-241 | A finished request logged method, path, at most one query, URI, at most one fragment, version, any number of fields, `header_done`, in this order. |
| RequestTheorems.FinishedRequestIsItsParts | YServer/BaseNet/src/http11_parser(todo).rl:212-241 | Accounting: the bytes of a finished request up to the body are its method of 1 to 20 method bytes, target, version and header lines with their separators, nothing else; path, query and fragment hold only bytes of their classes and % followed by two hex digits (a path with an address literal only lacks the separators); and the callbacks are exactly these slices. |
| RequestTheorems.FinishTellsOutcome | YServer/BaseNet/src/http11_parser(todo).c:850-866 | `http_parser_finish` returns 1 exactly when done fired, -1 exactly when some byte had no transition, 0 exactly when the buffer ran out. |
| RequestTheorems.SlicesInside | YServer/BaseNet/src/http11_parser(todo).c:713-806 | In any run, finished or not, every slice handed to a callback lies in the buffer, and a header's name ends strictly before its value. |
| RequestTheorems.FedIsFreshRun | YServer/BaseNet/src/http11_parser(todo).c:591-848 | A fresh parser fed a buffer in any pieces ends as one run on the whole buffer: done or not, state, position, callbacks and body start; and the last call returns the position of that run. |
| RequestTheorems.FedReturns | YServer/BaseNet/src/http11_parser(todo).c:591-866 | What the last call returns, however the buffer was cut: at done the start of the body, or for the socket formats its end; at the end of the buffer its length; in error the place of the first byte that no prefix survives. |
| RequestTheorems.FedRequests | YServer/BaseNet/src/http11_parser(todo).c:591-866 | So however a request arrives: no assertion of the driver fails, every slice lies in the buffer, the callbacks of a finished request are in order, and the finish code is 1 exactly at done, -1 exactly at a dead byte, 0 exactly at the end of the buffer. |
| RequestTheorems.EdgesBlind | YServer/BaseNet/src/http11_parser(todo).c:762-773 | Query text is entered only through an action list that sets `query_start` first; no other transition reads it. |
| RequestTheorems.GarbageNeverShows | YServer/BaseNet/src/http11_parser(todo).c:570-588 | Although `http_parser_init` never sets `query_start`, runs from different leftovers make the same callbacks and end alike in every other field. |
| Splitting.JoinSplit | YServer/BaseNet/src/http_parser.cpp:51-68 | Joining the pieces of a split gives the text back, for any non-empty delimiter. |
| Splitting.PiecesAreClean | YServer/BaseNet/src/http_parser.cpp:51-68 | No piece contains the delimiter. |
| Splitting.SplitJoin | YServer/BaseNet/src/http_parser.cpp:51-68 | Splitting a join of clean pieces gives them back when no proper prefix of the delimiter is its suffix. |
| Splitting.SplitJoinExactly | YServer/BaseNet/src/http_parser.cpp:51-68 | That condition on the delimiter is exact: it holds if and only if splitting undoes joining for every list of clean pieces. |
| Splitting.BorderLosesPieces | YServer/BaseNet/src/http_parser.cpp:51-68 | A delimiter with such a border, and two clean pieces that come back differently. |
| Splitting.SplitExactly | YServer/BaseNet/src/http_parser.cpp:51-68 | For any delimiter the pieces are the one leftmost cut of the text: joined they give it back, each but the last ends where the delimiter first stands in what is left, and the last does not hold it. |
| Splitting.SplitAtChar | YServer/BaseNet/src/http_parser.cpp:32-48 | The loop over a one-character delimiter terminates and computes the split. |
| Splitting.SplitAt | YServer/BaseNet/src/http_parser.cpp:51-68 | The loop over a string delimiter terminates and computes the split. |
| Splitting.TrimIsUnique | YServer/BaseNet/src/http_parser.cpp:17-29 | Trimming gives the only middle part without white space at its ends that white space alone surrounds. |
| Splitting.TrimSplits | YServer/BaseNet/src/http_parser.cpp:17-29 | What trimming takes off is white space, and none is left at the ends. |
| Splitting.SpaceCharacters | YServer/BaseNet/src/http_parser.cpp:17-29 | White space is space, HT, LF, VT, FF and CR. |
| TextParser.HttpTextParser.ParsePacket | YServer/BaseNet/src/http_parser.cpp:71-102 | A call answers the parse of all text accumulated, asks for more and keeps the text if it does not end in an empty line, and empties the buffer when it answers a request. |
| TextParser.HttpTextParser.CollectHeaders | YServer/BaseNet/src/http_parser.cpp:90-98 | The loop over the lines behind the first gives the header list that `HeaderExactly` and `FinishedIsRead` read off the lines. |
| TextParser.HeaderExactly | YServer/BaseNet/src/http_parser.cpp:90-98 | A line is a header exactly when it has one colon; the name is what stands in front of it, the value what stands behind it, trimmed. Any other line gives nothing. |
| TextParser.FinishedIsRead | YServer/BaseNet/src/http_parser.cpp:71-102 | Any finished text, printed or not: the first line begins with the three words, single spaces between them; the headers are, in order, one for each later line with exactly one colon, cut at it, and no other line leaves a trace. |
| TextParser.FinishedExactly | YServer/BaseNet/src/http_parser.cpp:76-79 | A packet is answered exactly when the text in front of the first NUL ends in CR LF CR LF. |
| TextParser.PrintedSplits | YServer/BaseNet/src/http_parser.cpp:76-83 | Printed text ends in an empty line and splits into exactly its printed lines. |
| TextParser.PrintedHeaderReads | YServer/BaseNet/src/http_parser.cpp:90-98 | A printed header line is read as its name and trimmed value when neither holds a colon, and is dropped otherwise. |
| TextParser.PrintedParses | YServer/BaseNet/src/http_parser.cpp:71-102 | Round trip: a printed head parses to its words and, in order, to its headers less those with a colon inside, values trimmed; the third word stops at its first space. |
| TextParser.ParseInvertsPrint | YServer/BaseNet/src/http_message.cpp:13-22 | Parsing inverts printing exactly when the third word has no space, no header holds a colon and every value is trimmed; for a response, when its status text has no space. |
| TextParser.HostWithPortLost | YServer/BaseNet/src/http_parser.cpp:90-98 | A printed "Host: localhost:80" is dropped: the request comes back without it. |
| TextParser.UndefinedExactly | YServer/BaseNet/src/http_parser.cpp:84-88 | The word list is indexed past its end exactly when a finished text has fewer than two spaces in its first line. |
| TextParser.OneWordUndefined | YServer/BaseNet/src/http_parser.cpp:84-88 | "GET" and an empty line is such a text. |
| TextParser.CutsDoNotMatter | YServer/BaseNet/src/http_parser.cpp:71-101 | A request cut into packets anyhow, no earlier cut looking finished, is answered once, at the last packet, by the parse of the whole, and leaves an empty buffer. |
| TextParser.QuietCutsExactly | YServer/BaseNet/src/http_parser.cpp:77-79 | All answers before the last ask for more exactly when no earlier cut ends in CR LF CR LF. |
| TextParser.StreamParses | YServer/BaseNet/src/http_parser.cpp:71-101 | A stream of such requests yields the list of their parses and leaves nothing behind. |
| TextParser.JamsExactly | YServer/BaseNet/src/http_parser.cpp:76-79 | Every later packet is answered by asking for more exactly when a NUL stands in the buffer and the text before it does not end in an empty line. |
| TextParser.NulInMethodJams | YServer/BaseNet/src/http_parser.cpp:76-79 | Behind a first packet "GET" with a NUL no packet is ever answered. |
| Response.HttpResponse.constructor | YServer/BaseNet/src/http_message.cpp:9-10 | A new response is "HTTP/1.0 200 OK" without headers. |
| Response.HttpResponse.SetStatus | YServer/BaseNet/src/http_message.cpp:28-30 | The status becomes the code's decimal text: digits that read back as it, behind a minus sign if it is negative; nothing else changes. |
| Response.StatusesDiffer | YServer/BaseNet/src/http_message.cpp:28-30 | No two codes have the same status text. |
| Response.HttpResponse.SetStatusText | YServer/BaseNet/src/http_message.cpp:32-34 | The status text is replaced; nothing else changes. |
| Response.HttpResponse.SetVersion | YServer/BaseNet/src/http_message.cpp:36-38 | The version is replaced; nothing else changes. |
| Response.HttpResponse.SetHeader | YServer/BaseNet/src/http_message.cpp:40-43 | A header is appended, never replaced. |
| Response.HttpResponse.Serialize | YServer/BaseNet/src/http_message.cpp:13-22 | The loop prints status line, headers and empty line; the response is unchanged. |
| Response.PrintsNext | YServer/BaseNet/src/http_message.cpp:17-20 | One more header is one more line at the end: name, colon, value, CR LF, nothing between them. |
| Response.HttpResponse.Send | YServer/BaseNet/include/BaseNet/http_message.h:70-74 | Sending appends a Content-Length header with the body's length and hands off the printed head followed by the body. |
| Response.DecimalReadsBack | YServer/BaseNet/include/BaseNet/http_message.h:72 | The decimal text of a length stands for that length. |
| Response.DecimalExactly | YServer/BaseNet/include/BaseNet/http_message.h:72 | It is the one run of digits that does, without a zero in front. |
| Response.FirstEmptyLine | YServer/BaseNet/src/http_message.cpp:13-22 | In a printed head of break-free parts followed by any body, the first CR LF CR LF is the end of the head. |
| Response.SentMessageFrames | YServer/BaseNet/include/BaseNet/http_message.h:70-74 | Framing: cut at its first empty line, a sent message gives its head and exactly its body, and the last header reads back as the body's length. |
| Response.ParserReadsLength | YServer/BaseNet/include/BaseNet/http_message.h:70-74 | The text parser reads a sent head and finds the Content-Length as its last header. |
| Response.SendsFrameExactly | YServer/BaseNet/include/BaseNet/http_message.h:70-74 | Whatever headers a response has and whatever was sent on it before: a reader who goes by the first Content-Length gets exactly the last body if and only if that header, set by hand or by the first `send`, is its length. |
| Response.LaterSendsFrameExactly | YServer/BaseNet/include/BaseNet/http_message.h:70-74 | Without a Content-Length set by hand: if and only if the last body is as long as the first. |
| Response.LengthByHandMisframes | YServer/BaseNet/src/http_message.cpp:40-43 | With a Content-Length set by hand already the first body is misframed. |
| Response.SecondSendMisframes | YServer/BaseNet/include/BaseNet/http_message.h:70-74 | Sending "hello" and then "bye" on one response misleads that reader. |
| HeaderRuns.NameLine | YServer/BaseNet/src/http11_parser(todo).c:718-727 | From a line start the header states pass over any good name and its colon and hold exactly the name as field slice. |
| HeaderRuns.ValueLine | YServer/BaseNet/src/http11_parser(todo).c:728-741 | Behind the colon they skip blanks and report the value up to its CR LF, empty values included. |
| HeaderRuns.HeaderLine | YServer/BaseNet/src/http11_parser(todo).c:718-741 | One printed header line makes one `http_field` whose slices are the name and the value less its leading blanks. |
| HeaderRuns.PrintedHeadersRun | YServer/BaseNet/src/http_message.cpp:17-20 | Header round trip: over any printed block of good headers the states make one `http_field` for each, in order, with these slices, and fire done at the last LF. |
| RequestPaths.PathsExactly | YServer/BaseNet/src/http11_parser(todo).rl:125-208 | A readable path is accepted exactly when it has the form of the grammar: behind "//" a user and "@" or not, a name without colon, a port of digits or not; without a scheme no colon in front of the first slash. Any other makes the run die. Escapes and the two bytes that start a path included. |
| RequestPaths.SchemeCloses | YServer/BaseNet/src/http11_parser(todo).rl:195-212 | A scheme and its colon start the path anew, and leave no callback. |
| RequestLines.QueryRuns | YServer/BaseNet/src/http11_parser(todo).rl:142 | Over any readable query text, empty or not, they run to its end and report query and URI. |
| RequestLines.FragmentRuns | YServer/BaseNet/src/http11_parser(todo).rl:140 | Over any readable fragment they run to its end and report it. |
| RequestLines.LineRuns | YServer/BaseNet/src/http11_parser(todo).rl:212-232 | A whole request line, with a scheme and a host or without: from the start state to behind its LF or CR LF, reporting each part. |
| HeaderRuns.PartsRun | YServer/BaseNet/src/http11_parser(todo).rl:235-241 | Any header lines, broken by LF or CR LF: from line start to line start, one callback for each with its slices. |
| RequestLines.RequestFinishes | YServer/BaseNet/src/http11_parser(todo).rl:210-241 | Every request of the grammar is accepted, with exactly its parts reported. |
| AcceptedRequests.RequestsExactly | YServer/BaseNet/src/http11_parser(todo).rl:210-241 | The central statement: a fresh parser finishes at a place and reports a list of parts if and only if the bytes before that place are the request of the grammar with these parts. |
| AcceptedRequests.AcceptedExactly | YServer/BaseNet/src/http11_parser(todo).rl:210-241 | Without a bracket in it, a buffer is accepted if and only if it begins with some request of the grammar. |
| AcceptedRequests.OneReading | YServer/BaseNet/src/http11_parser(todo).rl:210-241 | No bytes can be read as two requests, or as one request in two ways. |
| RequestSpelling.LineCharacters | YServer/BaseNet/src/http11_parser(todo).rl:129-146 | The classes of the request line on the characters themselves: which of them a method, a scheme, an escape and path, query and fragment text hold, "^{}" with the flag only, none from 128 up. |
| RequestSpelling.HeaderCharacters | YServer/BaseNet/src/http11_parser(todo).c:150-312 | The same for header names and values, as the tables have them: names hold no byte from 128 up, values every one. |
| RequestSpelling.OpeningCharacters | YServer/BaseNet/src/http11_parser(todo).rl:188-251 | A bracket opens an address literal at the start of a host only, behind "//" or "@"; a message of the socket formats begins with "<" or "@" and nothing else does. |
| RequestSpelling.ReadableExactly | YServer/BaseNet/src/http11_parser(todo).rl:135-142 | Text of path, query or fragment is readable exactly when each character is one that needs no escape or a percent sign with two hex digits behind it. |
| RequestSpelling.PathFormExactly | YServer/BaseNet/src/http11_parser(todo).rl:148-208 | The form of a path by the places of its characters: behind "//", up to the next slash, at most one "@" and only digits behind a colon of the host; else, without a scheme, no colon in front of the first slash. |
| RequestSpelling.MethodExactly | YServer/BaseNet/src/http11_parser(todo).rl:218 | A method is 1 to 20 capital letters or digits with a space behind. |
| RequestSpelling.SchemeExactly | YServer/BaseNet/src/http11_parser(todo).rl:195 | A scheme is a letter and then letters, digits, "+", "-" or ".". |
| RequestSpelling.LineExactly | YServer/BaseNet/src/http11_parser(todo).rl:212-222 | A request line is method, space, scheme and colon or neither, path, "?" and query, "#" and fragment, space and "HTTP/1.0" or "HTTP/1.1", each where the lengths of its parts put it. |
| RequestSpelling.PartExactly | YServer/BaseNet/src/http11_parser(todo).rl:235-239 | A header line is a name that is not empty, a colon, blanks, and a value that does not start with one. |
| RequestSpelling.LineBreakExactly | YServer/BaseNet/src/http11_parser(todo).rl:125 | A line ends in LF or CR LF, nothing else. |
| RequestSpelling.PartsExactly | YServer/BaseNet/src/http11_parser(todo).rl:241 | Header lines stand one behind the other, each behind a line break, and none starts like an empty line. |
| RequestSpelling.IsRequestExactly | YServer/BaseNet/src/http11_parser(todo).rl:241 | A request is its line, its header lines and two line breaks behind the last of them. |
| RequestSpelling.FinishesInNumbers | YServer/BaseNet/src/http11_parser(todo).c:713-806 | The callbacks of a finished request by case number, offset and length: method 5, path 11, query 9, URI 6, fragment 7, version 10, one field for each header line, and `header_done` at its end. |
| RequestSpelling.RequestAscii | YServer/BaseNet/src/http11_parser(todo).rl:210-241 | In a request every byte from 128 up, in front of the body, belongs to the value of a header. |
| RequestSpelling.FinishedAscii | YServer/BaseNet/src/http11_parser(todo).c:613-833 | So in a finished request whose path has no bracket, method, target, version, header names and all between them are below 128. |
| RequestSpelling.HighByteDies | YServer/BaseNet/src/http11_parser(todo).c:620-833 | A byte from 128 up, wherever a run comes to it outside of header values, address literals and socket messages, kills the run there and reports nothing more; in a value the run goes on. |
| RequestSpelling.HighPathDies | YServer/BaseNet/src/http11_parser(todo).c:620-833 | For one, behind "GET /": the finish code is -1, the place is 5, and only the method was reported, whatever follows. |
| RequestLines.PrintedBlockFinishes | YServer/BaseNet/src/http_message.cpp:17-20 | Every such line followed by any printed block of good headers is accepted: a fresh run finishes at the end of the block, whatever body follows, and reports exactly its parts. |
| PrintedRequests.PrintedRequestFinishes | YServer/BaseNet/src/http_message.cpp:13-22 | Printed requests: for every method, target of the grammar (scheme, host, query and fragment or none), either version, good headers and any body, the incremental parser finishes at the end of the printed head with exactly these parts. |
| Agreement.TrimmedValuesAreSeenAlike | YServer/BaseNet/src/http_parser.cpp:90-98 | Values without a colon and without white space at their ends are seen alike by both parsers, whatever blanks stand before them. |
| Agreement.BlocksAgreeExactly | YServer/BaseNet/src/http_parser.cpp:90-98 | Both parsers on any printed block of good headers report the same list exactly when no value has a colon and blanks are all there is to trim. |
| Agreement.RequestPrints | YServer/BaseNet/src/http11_parser(todo).rl:212-241 | A finished request whose lines end in CR LF is, byte for byte, the print of its parts. |
| Agreement.FinishedRequestsAgree | YServer/BaseNet/src/http_parser.cpp:71-102 | Whenever the automaton finishes a request with CR LF lines, the text parser reads the same bytes as the same method, target and version and as the reported headers less those with a colon in the value; the lists are equal exactly when no reported value has a colon or white space at its ends. |
| PrintedRequests.PrintedRequestsAgree | YServer/BaseNet/src/http_parser.cpp:71-102 | Both parsers on every such request, without supposing that either accepts: the incremental one finishes, the text one reads the same method, target and version, and the header lists are equal exactly when every header is seen alike. |
| CompletionRing.Ring.CqeSeen | YServer/BaseNet/src/io_uring.cpp:59-61 | Releasing moves the head by one modulo 2^32 and makes the oldest slot the last; the others keep their order. |
| CompletionRing.Ring.PendingInSlots | YServer/BaseNet/src/io_uring.cpp:54-61 | Pending completions stand in the slots from the head's on, modulo the size, as many as the two 32-bit counters are apart. |
| CompletionRing.EventLoop.Take | YServer/BaseNet/src/http_server.cpp:130-135 | Result and flags are copied to the cell, and its coroutine read, before the slot is released. |
| CompletionRing.EventLoop.Resume | YServer/BaseNet/src/socket.cpp:101-108 | The resumed awaiter takes result and flags out of the cell as it then is, behind the release; what runs next may write to any cell. |
| CompletionRing.EventLoop.VisitOne | YServer/BaseNet/src/http_server.cpp:129-146 | One iteration, with the kernel posting and the resumed coroutine writing to any cells meanwhile. |
| CompletionRing.EventLoop.Pass | YServer/BaseNet/src/http_server.cpp:129-146 | One pass visits (tail - head) mod 2^32 completions and ends with the ring head at the tail as it was when the pass began. |
| CompletionRing.EventLoop.Once | YServer/BaseNet/src/http_server.cpp:127-147 | One turn of the endless loop: completions arrive, then a pass. |
| CompletionLoop.LoopBodyExactly | YServer/BaseNet/src/http_server.cpp:129-146 | The loop body field by field: result and flags to the cell, which keeps its coroutine; nothing resumed without one; destroyed if the released slot then holds -62, else resumed, and its awaiter reads the completion's own result and flags. |
| CompletionLoop.RoundVisitsAll | YServer/BaseNet/src/http_server.cpp:127-147 | A turn visits exactly what is pending when its pass begins, what the wait brought included, and leaves exactly what was posted during the pass. |
| CompletionLoop.PassVisitsInOrder | YServer/BaseNet/src/http_server.cpp:129-146 | A pass visits exactly the completions that were pending, each once and in order; what is posted meanwhile waits behind. |
| CompletionLoop.PassConserves | YServer/BaseNet/src/http_server.cpp:129-146 | Visited and pending completions together are what was pending and posted, in order. |
| CompletionLoop.AwaitersHearExactly | YServer/BaseNet/src/http_server.cpp:127-147 | Over any run of the loop, for every cell: what its awaiters read, followed by what is pending for it, is what was posted for it, in order and once each, exactly when every visit of the cell resumed its awaiter. Completions of one multishot request share a cell, and the kernel posts and coroutines write in between. |
| CompletionLoop.SharedCellHearsExactly | YServer/BaseNet/src/http_server.cpp:127-147 | When the cell has an awaiter that nobody nulls, this is so exactly when no visit of the cell finds a time-out in its slot, its own or that of the completion posted a whole ring behind it. |
| CompletionLoop.SharedCellHearsAll | YServer/BaseNet/src/http_server.cpp:127-147 | In particular when no completion of the cell, and none posted a whole ring behind one, is a time-out. |
| CompletionLoop.AwaitersStay | YServer/BaseNet/src/http_server.cpp:130-134 | While no coroutine writes to a cell, every visit of a completion with that cell finds the awaiter stored there: storing results never loses one. |
| CompletionLoop.TestReadsOwnExactly | YServer/BaseNet/src/http_server.cpp:135-138 | The test for `-ETIME` reads the slot after its release: it reads the visited result exactly when the kernel has not filled the ring since, or posted an equal result there. |
| CompletionLoop.DestroyedExactly | YServer/BaseNet/src/http_server.cpp:130-143 | Over any run of the loop, a visit destroys the coroutine it finds exactly when the slot, read again, holds a time-out: its own result if the kernel has not come round the ring to it by then, or else that of the completion posted a whole ring behind it. |
| CompletionLoop.LappedSlotDestroys | YServer/BaseNet/src/http_server.cpp:135-140 | A run from an empty ring in which a completed accept has its coroutine destroyed by a time-out that fills its slot. |
| CompletionLoop.EveryCompletionOnce | YServer/BaseNet/src/http_server.cpp:127-147 | Over any run of the loop every posted completion is visited once, in the order of posting, or is still pending. |
| MultishotAccept.AcceptServer.AwaitSuspend | YServer/BaseNet/src/socket.cpp:90-99 | The awaiting coroutine is stored, and only the first await submits the request. |
| MultishotAccept.AcceptServer.AwaitResume | YServer/BaseNet/src/socket.cpp:101-108 | The result is returned; with flags that are 2 or 3 modulo 4 nothing is submitted, with flags 0 or 1 modulo 4 the request is, once. |
| MultishotAccept.AcceptServer.AcceptOne | YServer/BaseNet/src/http_server.cpp:44-52 | A result other than -1 starts one client task. |
| MultishotAccept.AcceptServer.Dispatch | YServer/BaseNet/src/http_server.cpp:130-144 | The next completion's result and flags go to the shared cell before the coroutine is woken, or destroyed if the result read again after the release is a time-out. |
| MultishotAccept.MoreExactly | YServer/BaseNet/src/socket.cpp:102 | The flag tested is the second bit: set in 4k+2 and 4k+3, clear in 4k and 4k+1, for every k. |
| MultishotAccept.PostByFlags | YServer/BaseNet/src/socket.cpp:102 | A completion with flags 4k+2 or 4k+3 leaves the request with the kernel; one with 4k or 4k+1 ends it. |
| MultishotAccept.ResumeByFlags | YServer/BaseNet/src/socket.cpp:101-108 | And `await_resume` submits nothing behind the first, and exactly once behind the second. |
| MultishotAccept.AcceptByFlags | YServer/BaseNet/src/socket.cpp:90-108 | From the first await through any one completion to its resume: one request is armed again, whatever the flags, and it was armed in between exactly when they have the bit. |
| MultishotAccept.StepKeeps | YServer/BaseNet/src/socket.cpp:90-108 | Every step of coroutine, loop and kernel keeps the invariant. |
| MultishotAccept.OneRequest | YServer/BaseNet/src/socket.cpp:90-108 | After the first await, in every reachable state, armed requests plus unconsumed completions without F_MORE make one: never armed twice, and disarmed only until `await_resume` runs. |
| MultishotAccept.ClosingIsLast | YServer/BaseNet/src/socket.cpp:102 | A pending completion without F_MORE has nothing behind it. |
| MultishotAccept.ResultsInOrder | YServer/BaseNet/src/http_server.cpp:44-52 | Results are returned once each and in order, and all but -1 start a client task. |
| MultishotAccept.ServingRearms | YServer/BaseNet/src/socket.cpp:101-108 | From any reachable state that awaits, serving what is pending, nothing being taken for a time-out, leaves the kernel with one request. |
| MultishotAccept.DescriptorsExactly | YServer/BaseNet/src/http_server.cpp:44-50 | Client tasks are started for true descriptors alone exactly when no returned result is negative other than -1. |
| MultishotAccept.FailureHandled | YServer/BaseNet/src/http_server.cpp:44-50 | A run in which a failed accept, reported as a negated error code, starts a client task. |
| TaskFrames.Coroutines.CreateTask | YServer/BaseNet/include/BaseNet/task.h:113-115 | A new frame is suspended, not detached, and held by one new task object. |
| TaskFrames.Coroutines.MoveTask | YServer/BaseNet/include/BaseNet/task.h:34-35 | The new task object takes the handle; the old one is left with none. |
| TaskFrames.Coroutines.Resume | YServer/BaseNet/include/BaseNet/task.h:73-78 | Nothing happens on a null handle or a finished frame; any other is resumed, whatever it is doing. |
| TaskFrames.Coroutines.ResumeFrame | YServer/BaseNet/include/BaseNet/task.h:77 | A frame that is suspended goes on, behind a `co_await` by reading its callee whether that has ended or not; a frame that runs or has ended is resumed twice. |
| TaskFrames.Coroutines.CoAwait | YServer/BaseNet/include/BaseNet/task.h:48-63 | A null or finished task is read at once; any other, whatever it is doing, learns its caller and is resumed in its place. |
| TaskFrames.Coroutines.SuspendFrame | YServer/BaseNet/src/http_server.cpp:155 | A frame that suspends at an awaiter of its own owes one wake-up to whoever got its handle. |
| TaskFrames.Coroutines.WakeFrame | YServer/BaseNet/src/threadpool.cpp:33-36 | Such a wake-up resumes the frame without looking where it is. |
| TaskFrames.Coroutines.ReturnValue | YServer/BaseNet/include/BaseNet/task.h:147-152 | The value is set before the final suspend point. |
| TaskFrames.Coroutines.FinalSuspend | YServer/BaseNet/include/BaseNet/task.h:101-110 | A detached frame is destroyed at its end, and its caller, if any, goes on and reads the value. |
| TaskFrames.Coroutines.DropTask | YServer/BaseNet/include/BaseNet/task.h:23-32 | The destructor destroys a finished frame and detaches an unfinished one. |
| TaskFrames.Coroutines.DetachTask | YServer/BaseNet/include/BaseNet/task.h:80-84 | The flag is set and the handle given up. |
| TaskFrames.StepKeepsOwnership | YServer/BaseNet/include/BaseNet/task.h:23-111 | Every operation on any task at any time, out of turn too, keeps ownership. |
| TaskCalls.StepKeeps | YServer/BaseNet/include/BaseNet/task.h:23-111 | Every operation but resuming or awaiting a task that has started and not ended keeps caller links, logs and wake-ups owed, and resumes nothing twice. |
| TaskFrames.OneOwner | YServer/BaseNet/include/BaseNet/task.h:23-35 | In every reachable state a live frame is held by exactly one task object or detached, never both; no frame is destroyed twice or before it is done. |
| TaskFrames.FinishedExactly | YServer/BaseNet/include/BaseNet/task.h:80-84 | Every finished frame is owned or destroyed exactly when no task of the run was detached after its frame had finished. |
| TaskFrames.LateDetachLeaks | YServer/BaseNet/include/BaseNet/task.h:80-84 | A run of five events in which it was: the frame is neither owned nor destroyed. |
| TaskMisuse.NoCyclesExactly | YServer/BaseNet/include/BaseNet/task.h:58-63 | Over any run, caller links never close a cycle exactly when no frame awaits an unfinished task that is itself or one of its callers, up to any depth. |
| TaskMisuse.CalleeAwaitsCaller | YServer/BaseNet/include/BaseNet/task.h:58-63 | A run in which a callee awaits its caller: each is the other's caller. |
| TaskMisuse.NoCycles | YServer/BaseNet/include/BaseNet/task.h:58-63 | So there is no cycle, finished frames included, in runs without a resume out of turn. |
| TaskCalls.ResumedOnce | YServer/BaseNet/include/BaseNet/task.h:101-110 | In such runs an awaited frame resumes its caller exactly once, when it finishes; until then that caller waits for this frame and for no other. |
| TaskCalls.ReadsExactly | YServer/BaseNet/include/BaseNet/task.h:52-56 | In such runs a read is of a set value in a live frame exactly when it is of a frame at all and the task of that was not given up while the caller waited. |
| TaskMisuse.DroppedWhileAwaited | YServer/BaseNet/include/BaseNet/task.h:23-32 | A run in which it was: the caller reads a destroyed frame. |
| TaskMisuse.MovedFromAwaited | YServer/BaseNet/include/BaseNet/task.h:34-56 | A run in which a task that was moved from is awaited: the value of no frame is read. |
| TaskCalls.CallDelivers | YServer/BaseNet/include/BaseNet/task.h:43-71 | From `co_await` on a fresh task, or one suspended elsewhere, through its return to its end: the caller runs again and has read, from a live frame, the value returned. |
| TaskFrames.DetachedCleansUp | YServer/BaseNet/src/http_server.cpp:49-51 | A task created, resumed and detached, as each client task is, destroys its own frame at its end, once, and touches no other. |
| TaskMisuse.KeptTasksReadLive | YServer/BaseNet/include/BaseNet/task.h:52-56 | However such a run goes on by the rules, all its reads are good, exactly when no task in it was given up while a caller waited and no task without a frame was awaited. |
| TaskMisuse.DoubleResumeExactly | YServer/BaseNet/include/BaseNet/task.h:73-78 | A step lets a run go on, by the rules from then on, to the resume of a frame that runs or has ended, exactly when it resumes or awaits a task that has started and not ended: suspended, awaiting a callee, or running. |
| TaskMisuse.RunResumesTwiceExactly | YServer/BaseNet/include/BaseNet/task.h:48-78 | So some beginning of a run can go on to a double resume exactly when some task of it is resumed or awaited out of turn. |
| TaskCalls.WakesFindSuspended | YServer/BaseNet/src/threadpool.cpp:33-36 | In runs without that, every wake-up finds its frame suspended. |
| TaskMisuse.QueuedTaskResumedTwice | YServer/BaseNet/src/http_server.cpp:154-165 | As `listen` does: a task queued for the pool and then awaited is resumed again by the worker that dequeues it. |
| TaskMisuse.RunningTaskResumedTwice | YServer/BaseNet/src/http_server.cpp:154-165 | If the worker has dequeued it already, the await resumes it while it runs. |
| TaskMisuse.CallingTaskResumedTwice | YServer/BaseNet/src/http_server.cpp:154-165 | If it awaits a callee by then, it goes on behind that `co_await` on an unset value while the callee runs, and is resumed again at the callee's end. |
| ThreadPool.Pool.constructor | YServer/BaseNet/src/threadpool.cpp:5-9 | All workers start at the loop head, with nothing queued. |
| ThreadPool.Pool.Enqueue | YServer/BaseNet/src/threadpool.cpp:40-44 | Under the mutex the handle joins the queue and one sleeper, if any, is woken. |
| ThreadPool.Pool.AtLoopHead | YServer/BaseNet/src/threadpool.cpp:25-26 | A stopped worker leaves; another asks for the mutex. |
| ThreadPool.Pool.Acquire | YServer/BaseNet/src/threadpool.cpp:26-29 | The mutex is taken, at first or behind a wait. |
| ThreadPool.Pool.TestCondition | YServer/BaseNet/src/threadpool.cpp:27-29 | With work or a stop the wait ends; without, the worker is about to sleep and still holds the mutex. |
| ThreadPool.Pool.FallAsleep | YServer/BaseNet/src/threadpool.cpp:27 | Releasing the mutex and sleeping are one step. |
| ThreadPool.Pool.WakeSpuriously | YServer/BaseNet/src/threadpool.cpp:27 | A sleeper may wake without a notification, and asks for the mutex again. |
| ThreadPool.Pool.TakeFront | YServer/BaseNet/src/threadpool.cpp:30-36 | A stopped worker leaves; another takes the front of the queue, unlocks and runs it. |
| ThreadPool.Pool.WakeEveryone | YServer/BaseNet/src/threadpool.cpp:13 | Every sleeper is woken and nobody else moves. |
| ThreadPool.StepKeepsMutex | YServer/BaseNet/src/threadpool.cpp:24-38 | Every step keeps mutual exclusion, an empty queue before a sleep and a filled one before a pop. |
| ThreadPool.OneHolder | YServer/BaseNet/src/threadpool.cpp:26-35 | No two workers hold the mutex. |
| ThreadPool.NoWorkIsLost | YServer/BaseNet/src/threadpool.cpp:24-44 | Without a stop, while some worker sleeps the awake workers heading for the queue are at least as many as the queued handles; a worker about to pop always finds one. |
| ThreadPool.TakenInOrder | YServer/BaseNet/src/threadpool.cpp:33-44 | Scheduled handles are taken once each in order, or are queued. |
| ThreadPool.StepAhead | YServer/BaseNet/src/threadpool.cpp:24-38 | While a handle is queued and a worker is left for it, some worker can step towards it. |
| ThreadPool.Drains | YServer/BaseNet/src/threadpool.cpp:24-38 | Whichever workers step, spurious wake-ups included, the queue is empty after a bounded number of steps. |
| ThreadPool.EachTakesOne | YServer/BaseNet/src/http_server.cpp:159-164 | At most N never-returning coroutines on N workers are each taken once, by a worker of their own, and none stays queued for want of an enabled step. |
| ThreadPool.EveryHandleSettles | YServer/BaseNet/src/http_server.cpp:159-164 | Joined: from every reachable state with at most N such coroutines, whichever workers step and until none can, the queue is empty and every scheduled handle runs inside a worker of its own. |
| ThreadPool.StopReachesAllExactly | YServer/BaseNet/src/threadpool.cpp:11-14 | After a requested stop and its notification no worker sleeps ever again exactly when at the notification none stood between its test and its sleep. |
| ThreadPool.StopMissed | YServer/BaseNet/src/threadpool.cpp:11-14 | A run from the start of a pool of one: the worker finds nothing to do, the stop is requested and notified, and the worker then falls asleep. |

## Left out

- Address literals ("[...]" hosts, states 47-60 and 62-172): only the shape of their transitions is fixed (no action, no way out but the state behind "]" or an error); which literals they accept is not modelled.
- The XML and JSON socket messages (states 194-347): only the shape of their transitions, enough for bounds and outcome.
- Calls made after done: the rows of the two final states are not modelled.
- Callback pointers that are null: every callback is taken as set.
- Widths: lengths and offsets are unbounded integers, so neither the wrap of a `size_t` slice length nor the truncation of `content_len` to `int` is modelled; `char` is taken as signed, as on x86.
- TextParser.HttpTextParser.ParsePacket: where the original indexes past its word list the model answers `Undefined` and keeps the buffer; nothing is claimed of the original there.
- Response.HttpResponse.Send: the hand-off to the socket and the format-string overload are not modelled.
- CompletionRing.Ring.constructor: the state of a ring behind its set-up (io_uring.cpp:14-20) is assumed: empty, its counters anywhere in 32 bits, its size any divisor of 2^32 below it, the mask a remainder.
- CompletionRing.Ring.Post: the kernel posts at the tail (read at io_uring.cpp:54-57) and only while a slot is free; this is assumed of it, and the backlog of an overflowing queue is not modelled.
- CompletionRing.EventLoop.VisitOne: a cell that was never written reads as a default `sqe_data`; that a submitted cell outlives its completions is taken for granted.
- MultishotAccept.AcceptServer.KernelPosts: that the kernel posts only for a request it holds, and none behind a completion without F_MORE, is assumed of it.
- MultishotAccept.AcceptServer.AcceptOne: the client task itself, and the cancel request of the guard's destructor, are not modelled.
- MultishotAccept.AcceptServer.Dispatch: the result read again behind the release is any value here; which values it takes over the ring is `CompletionLoop.DestroyedExactly`. Behind the destruction of the coroutine the model stops taking completions, where the original goes on to resume a destroyed frame.
- AcceptedRequests.RequestsExactly: paths with an address literal are left out of the grammar, since the rows inside "[...]" are known in shape only; of those it is only said what a finished request looks like.
- TaskFrames.Coroutines.CoAwait: values are integers, so a null task that is awaited is read (for `task<void>` the original reads nothing, and such an await is harmless).
- TaskFrames.Coroutines.ResumeFrame: resuming a frame that runs or has ended is undefined in the original; the model records it, leaves the frame as it is, and claims nothing about what follows but ownership.
- TaskFrames.Coroutines.DetachTask: there must be a handle, since the original follows it without a test.
- TaskFrames.Coroutines.FinalSuspend: the original reads the continuation out of a frame it may just have destroyed; the model reads it as it was and claims nothing about that read.
- Frames destroyed by the event loop's time-out branch: the branch is in `CompletionLoop` and `MultishotAccept`, its effect on `TaskFrames` is not modelled.
- `client_socket::send`, `recv` and `splice`, the buffer ring, time-outs and cancellation: partial sends and buffer conservation are not claimed.
- Router, context, engine, configuration, logging and socket set-up: library plumbing and single lookups.
- Memory orderings, allocation failures and exceptions: steps are sequentially consistent and do not throw.
