# agent-httpd in Dafny

A model of the parts of agent-httpd, a C web server with a built-in chat agent, where several
functions have to agree with each other: the framing of a keep-alive connection and its hand-off
between processes, the prefork pool, the JSON and UTF-8 core with the session store on top, the
FastCGI and SQL transformations, and the machinery of an agent round.

How the C program is represented:

- Text is a Dafny `string` with one `char` per byte. A C string is the text without its terminator,
  and a pointer into it is the text that remains, so `p++` is `p[1..]`; reading past the end yields
  the terminator (`CText.At`). FastCGI uses integers 0..255.
- Loops of the source are methods with loops, proved against functions; objects that the source
  updates in place are classes (`Connection`, `Loop`, `Sbuf`, `Session`, `RoundState`).
- Sockets, pipes and files are byte sequences. `Connection.Recv` may return any non-empty prefix of
  what is left, so every result about it holds for every fragmentation. What the network, the
  kernel, tools and clients decide is a nondeterministic choice.
- `parse_request` with the checks before the body is a function from a header block to a verdict,
  `is_fast_request` a predicate on header blocks, keeping a connection open a predicate on the
  exchange and its number (`Framing.Rules`), and the handler of a line a predicate on the lines handed on so far that
  says whether to stop. Clocks are parameters. The upstream and the tools are an object that records
  what was sent and run.
- The prefork pool and the event loop are state machines; a run is any sequence of their steps. The
  class `EventLoop.Loop` is proved to take the event loop's steps on its arrays.

Modules, from the bottom: `CText`, `Decimal`; `Utf8`, `MiniJson`, `JsonEscapes`, `Router`, `JsonTree`,
`StringBuffer`, `SessionStore`, `SessionLaws`; `SqlLex`, `SqlGuard`, `SqlCase`, `SqlText`, `Placeholders`,
`Numbering`; `FcgiParams`, `FcgiRecords`; `RequestStream`, `Framing`, `Handoff`, `Prefork`, `EventLoop`;
`Lines`, `Shards`, `JsonText`, `SessionText`, `MessageLog`, `AgentRounds`, `AgentBodies`; `HtmlEscape`.

Where a property one would expect is false of the code, the code is modelled as it is, the exact
condition is proved, and a concrete failing case is given: a connection that stays open
after a malformed block loses what was received behind it (`Framing.Connection.HandleClient`,
`FirstStretchPasses`, `LostRequest`), an over-long fact key is stored twice
(`SessionLaws.RunKeepsUnique`, `LongKeyDuplicates`), a line of exactly 65536 bytes depends on the
chunking (`Lines.LinesAreSplit`, `SameBytesDifferentLines`), a record of 65536 bytes arrives empty
(`FcgiRecords.FrameReadBack`, `OneByteTooMany`), the idle sweep breaks the ring when a parked
connection expires (`EventLoop.RunKeeps`, `StaleEntry`), a member key of more than 63 bytes is
compared by its front (`JsonTree.HitIsExact`, `LongKeyMissesItself`), a tool call longer than its
signature is taken for another one with the same front (`AgentBodies.SameSignature`,
`LongCallsCollide`), and the forward UTF-8 walk leaves text that ends inside a character
(`Utf8.ClipStaysInside`, `CutCharacter`).

## Model

| member | source | states |
|---|---|---|
| Framing.Connection.HandleClient | src/http/http.c:422-1017 | for every fragmentation: in every stretch of the stream between malformed blocks that are passed, what is dispatched is the front of splitting the stretch by Content-Length and the rest is exactly the bytes behind it; the server closes by its own choice exactly after a request it does not keep the connection for or the hundredth exchange, otherwise it stops for a reason the bytes left show, and with headers that fit the buffer the dispatch of that stretch is then its whole split; a malformed block is passed only if `Passes` holds of the stream, with all requests before it dispatched, and with headers that fit the buffer if and only if; when the stream arrives at once, nothing behind the block is dispatched |
| Framing.PassedPasses | src/http/http.c:434-501 | a malformed block is passed only when every request before it and the answer to it keep the connection open, and the requests before it are exactly the split of the stream |
| Framing.FirstStretchPasses | src/http/http.c:434-501 | and with headers that fit the buffer, such a stream does not end before its malformed block is passed |
| Framing.BadBlockPasses | src/http/http.c:500-501 | a request line ended by a bare newline is such a block, whatever follows it |
| Framing.LostRequest | src/http/http.c:435-449 | a well-formed request pipelined behind it is never dispatched when both arrive together |
| Framing.Behind | src/http/http.c:422-1017 | the well-sized headers and the malformed blocks of a stream are those of what is left of it after whole requests |
| Framing.Connection.NextRequest | src/http/http.c:434-758 | one turn yields the first request of carried plus unread bytes and leaves exactly the bytes behind it, or names a reason to stop that holds of those bytes |
| Framing.ReasonIsEnd | src/http/http.c:464-758 | with headers that fit the buffer, every such reason means that the split of what is left is empty |
| Framing.Connection.StartRequest | src/http/http.c:435-449 | the carried bytes move to the front, terminated, nothing else stays |
| Framing.Connection.FindHeaderEnd | src/http/http.c:465-469 | the search finds the first empty line before the first NUL, or none exists there |
| Framing.Connection.ReadHeader | src/http/http.c:464-493 | no byte is lost or read twice while waiting for headers; it gives up only with a full buffer or at end of stream |
| Framing.Connection.FillBody | src/http/http.c:705-718 | buffered bytes plus unread bytes stay the same text until the body is there or the stream ends |
| Framing.Connection.Spool | src/http/http.c:318-379 | the file holds exactly the declared length, buffered bytes first; it fails only if the stream is shorter |
| Framing.Connection.ReadBody | src/http/http.c:654-758 | buffered or spooled, the body is the bytes behind the header and carry plus unread bytes are what follows it |
| Framing.Connection.Fill | src/http/http.c:485-492 | received bytes go behind the held ones in order |
| RequestStream.SplitWire | src/http/http.c:422-1017 | splitting the concatenation of well-framed requests gives the requests back |
| RequestStream.WireSplit | src/http/http.c:422-1017 | the split's requests, written out, are a prefix of the stream |
| RequestStream.HeaderGrows | src/http/http.c:464-493 | later bytes never move the end of a header block already present |
| Handoff.ConnReadable | src/core/event.c:251-354 | every event is the one that the bytes seen call for: it waits exactly while they hold no whole header block and the peek buffer is not full, a peek that sees all of a short stream included; waiting and parking consume nothing, and only a request that is slow or needs streaming is parked; serving consumes exactly the first request, which is fast and bodiless; a malformed block loses exactly its header; closing happens only on end of stream, a refused block, oversized headers or a missed deadline |
| Handoff.EventIsDecided | src/core/event.c:251-354 | the bytes seen, the policy and the deadline admit one event only, and unless it closes the connection, one remainder |
| Handoff.EventMeans | src/core/event.c:251-354 | what each event says about the whole stream and not only the bytes seen; when the peek saw all that fits, waiting means that no header block is complete |
| Handoff.RecvConsume | src/core/event.c:172-180 | exactly n bytes leave the socket, or all of them if fewer are left |
| Handoff.FindHeaderEnd | src/core/event.c:103-111 | the first empty line of the peeked bytes, NULs included |
| Handoff.MasterServe | src/core/event.c:186-354 | over any number of readiness events, all requests served are fast and bodiless; a connection handed over has lost exactly the requests served and the malformed blocks answered on it, and starts with a request for a worker; the master closes by choice exactly after a request it does not keep the connection for, and drops a connection only at end of stream, on oversized headers, a refused or late block, or a malformed one it does not keep the connection for; when every byte is there at once and the connection is still open, each event answered one block unless no whole block was left |
| Handoff.CaughtUp | src/core/event.c:186-354 | a connection that is still open with no header block left has been served the whole split of the stretch |
| Handoff.DroppedAtEnd | src/core/event.c:251-354 | with headers that fit the buffer and no missed deadline, a dropped connection has been served the whole split |
| Handoff.TakenAndNext | src/core/event.c:172-199 | malformed blocks included, the master takes no byte beyond the blocks it answered |
| Handoff.ServeConnection | src/core/event.c:150-354 | the stream is the blocks the master took followed by what the worker receives; if neither passes a malformed block, master then worker dispatch a prefix of one direct split, which is all of it when headers fit the buffer and the worker stopped without closing by choice, or the master dropped the connection without a missed deadline; neither passes one if there is none, and the worker does so if and only if `Passes` holds of what it was handed |
| Prefork.EveryRun | src/core/worker.c:103-277 | in every interleaving tokens in the pipe, in the master's hand, with queued connections and with workers add up to n; at most n are in service; a queued connection always has an idle worker; connections start in sending order, none lost or doubled |
| Prefork.StepKeeps | src/core/worker.c:251-277 | each claim, send, failed send, take, finish and release keeps the token balance and the order |
| Prefork.StartPool | src/core/worker.c:139-158 | between 1 and 64 idle workers start, with one token each |
| Prefork.SentIsClaimed | src/core/worker.c:251-277 | in every run the descriptors sent are those of the claims whose send succeeded, in claiming order |
| Prefork.ServesOne | src/core/worker.c:103-137 | from any free pool state with an idle worker and a token, claim, send, take, finish and release serve the descriptor and give the token back |
| Prefork.Progress | src/core/worker.c:103-277 | while anything is held, queued or in service some step other than a claim is enabled, and it leaves less to do |
| Prefork.ComesToRest | src/core/worker.c:103-277 | so every state has a run to one where all workers are idle, all tokens are in the pipe and everything sent is finished |
| Prefork.NoTokenMeansFull | src/core/worker.c:265-273 | an empty pipe with no token in hand means every worker is taken |
| EventLoop.EveryRun | src/core/event.c:113-522 | from an empty table, in every run whose sweeps meet no expired parked connection, each in-use connection is registered or in the ring exactly once, the ring has at most 1023 entries, and connections left it in the order they were parked |
| EventLoop.RunKeeps | src/core/event.c:113-522 | the invariant holds after every step of a run if and only if none of its sweeps meets an expired parked connection |
| EventLoop.StepKeeps | src/core/event.c:113-522 | one event keeps the invariant if and only if it is not such a sweep |
| EventLoop.StepMeans | src/core/event.c:113-522 | what every event does to each slot, to the ring and to the two logs, slot by slot: who is registered, who joins the ring or is turned away at 1023, who leaves it for a claimed worker, who is swept |
| EventLoop.DrainDispatches | src/core/event.c:131-145 | a drain with n claimed workers takes the n oldest entries off the ring, or all of them, in order, and frees their slots only |
| EventLoop.DispatchedAtOnce | src/core/event.c:150-161 | a slow connection that finds the ring empty and a worker free leaves the ring in the same event |
| EventLoop.SweepKeeps | src/core/event.c:515-522 | a sweep keeps the invariant if and only if no parked connection has expired |
| EventLoop.StaleEntry | src/core/event.c:515-522 | a run of three events after which a closed connection is still in the ring |
| EventLoop.Loop.Run | src/core/event.c:413-524 | the table and the ring arrays go through exactly the states of the state machine, stale entries included |
| EventLoop.Loop.Park | src/core/event.c:150-161 | the ring array grows by this slot at its end without overwriting an entry, or with 1023 entries the connection is closed; all other slots stay as they were |
| EventLoop.Loop.Drain | src/core/event.c:131-145 | the oldest entries leave, one for each claimed worker, and only their slots are freed |
| EventLoop.Loop.LeaveRing | src/core/event.c:131-145 | the oldest entry leaves, its slot and no other is freed |
| EventLoop.Loop.Accept | src/core/event.c:356-388 | the first free slot is registered, or nothing changes when the table is full |
| EventLoop.Loop.SweepIdle | src/core/event.c:515-522 | every expired connection is freed, the ring is not touched |
| Utf8.ValidIffEncoded | src/core/minijson.c:92-117 | the byte-range syntax of RFC 3629 section 4 accepts exactly the encodings of scalar values |
| Utf8.Utf8ValidPrefix | src/core/util.c:70-86 | on memory of any content the loop returns the forward clip of the text it holds, or a position past its terminator when the clip leaves the text |
| Utf8.ClipLongest | src/core/util.c:65-86 | on valid text the forward clip is the longest prefix within the limit that ends on a character |
| Utf8.WidthMeans | src/core/util.c:75-79 | the walk steps over a character by the length of its encoding, over a stray byte below C2 by one and over one above F4 by four |
| Utf8.ClipStaysInside | src/core/util.c:65-86 | the walk stays inside the text if and only if the text ends on a whole sequence or the limit comes first |
| Utf8.ValidStaysInside | src/core/util.c:65-86 | valid text is never left by the walk |
| Utf8.CutCharacter | src/core/util.c:65-86 | a lone three-byte lead is counted as three bytes of a one-byte text |
| Utf8.SetStrUtf8 | src/core/util.c:90-95 | the copy, read as a C string, is the clip at size - 1, and the whole text when the walk steps over the terminator |
| Utf8.Utf8TrimTail | src/core/router.c:210-222 | the backward loop drops exactly an incomplete last character |
| Utf8.TrimOfCutIsClip | src/core/router.c:210-222 | cutting valid text anywhere and trimming the tail gives what the forward clip keeps |
| Utf8.TrimWhole | src/core/router.c:210-222 | trimming leaves whole text alone |
| Router.ReadDescription | src/core/router.c:262-271 | reading into m bytes and trimming is the forward clip of the full decode, the longest valid prefix that fits |
| MiniJson.Utf8Put | src/core/minijson.c:92-117 | the bytes of the code point that fit are appended |
| MiniJson.DecodeEscape | src/core/minijson.c:119-182 | an escape is decoded with its surrogate pair, a lone surrogate becomes U+FFFD, and malformed escapes are refused |
| JsonEscapes.PairReads | src/core/minijson.c:119-182 | for every code point above U+FFFF the two escapes of its surrogates, hexadecimal digits in either case, read as its UTF-8 encoding |
| JsonEscapes.UnitReads | src/core/minijson.c:119-182 | for every other scalar value the one escape reads as its UTF-8 encoding |
| JsonEscapes.LoneReads | src/core/minijson.c:119-182 | a surrogate that is not the first half of a pair reads as the bytes EF BF BD |
| JsonEscapes.ShortReads | src/core/minijson.c:119-182 | the eight short escapes read as the bytes of the table |
| JsonEscapes.OtherEscapesRefused | src/core/minijson.c:119-182 | any other escape, and a unicode escape without four hexadecimal digits, refuses the literal |
| JsonEscapes.PrintedAs | src/core/minijson.c:45-68 | the seven bytes with a short escape other than the slash are printed so, other bytes below 32 as a unicode escape with the four digits of their value, and the rest as themselves |
| MiniJson.JreadString | src/core/minijson.c:119-182 | decoding into a small buffer gives the prefix of the full decode that fits |
| MiniJson.ReadStringIffLiteral | src/core/minijson.c:119-182 | the reader accepts exactly the literals built from raw bytes, short escapes and unicode escapes, and returns their meaning |
| MiniJson.ReadStringValid | src/core/minijson.c:77-182 | a literal of valid UTF-8 decodes to valid UTF-8 |
| MiniJson.StringRoundTrip | src/core/minijson.c:45-182 | reading undoes printing for every C string, whatever follows |
| JsonTree.SkipPrinted | src/core/minijson.c:184-217 | skipping a printed value stops exactly at its end |
| JsonTree.FindPrinted | src/core/minijson.c:219-240 | lookup returns the start of the value of the first top-level member with the key |
| JsonTree.HitIsExact | src/core/minijson.c:219-240 | a member key is compared exactly if and only if it is not one of more than 63 bytes that equals the wanted key, wholly or in its first 63 |
| JsonTree.LongKeyMissesItself | src/core/minijson.c:219-240 | an object with a 64-byte key is not found under that key, but under its first 63 bytes |
| JsonTree.JskipValue | src/core/minijson.c:184-217 | the cursor loop computes the skip, nesting and strings included |
| JsonTree.JfindValue | src/core/minijson.c:219-240 | the cursor loop computes the lookup |
| JsonText.SkipDoc | src/core/minijson.c:184-217 | skipping any value as others may write it, with blanks between its parts and any escapes in its strings, comes to the delimiter behind it |
| JsonText.FindReads | src/core/minijson.c:219-240 | lookup in any such object returns the text at the value of the first member whose key, decoded and cut to 63 bytes, is the one wanted, and nothing if there is none |
| JsonTree.ItemsSnoc | src/core/minijson.c:37-43 | appending a separator and a value to printed items prints the longer list |
| StringBuffer.Sbuf.Reserve | src/core/minijson.c:14-27 | room for the text and its terminator, or failure only if the doubled size exceeds what can be allocated |
| StringBuffer.Sbuf.Mem | src/core/minijson.c:29-35 | the buffer holds everything appended, unless it failed because the whole would not fit |
| StringBuffer.Sbuf.AppendJson | src/core/minijson.c:45-68 | the printed literal of the string is appended |
| StringBuffer.DoubledFrom | src/core/minijson.c:14-27 | growing in steps ends at the capacity of growing at once |
| StringBuffer.DoubledMeans | src/core/minijson.c:14-27 | the capacity is the first one doubled as few times as the need allows |
| SessionStore.Session.Append | src/agent/session.c:286-294 | the clipped message joins, and the oldest leaves a full window |
| SessionStore.Session.FactSet | src/agent/session.c:296-311 | an accepted key is updated in place or added at the end while there is room |
| SessionStore.Session.FactGet | src/agent/session.c:313-319 | the value of the first fact with the key |
| SessionStore.Session.Save | src/agent/session.c:232-258 | the text written is the printed session, refused exactly for a bad id or when it cannot be allocated |
| SessionStore.Session.Load | src/agent/session.c:100-203 | the nested cursor loops compute the load of the text; a bad id, a missing file, one that cannot be opened and one that cannot be held in memory give an empty session with their own codes; the session can be appended to |
| SessionStore.ReadAll | src/agent/session.c:111-119 | the reading loop returns the whole file, or fails exactly when it cannot be held |
| SessionLaws.TranscriptIsLastTen | src/agent/session.c:286-294 | after any run the transcript is the last ten messages said |
| SessionLaws.FactsAreLastWrites | src/agent/session.c:296-311 | after any run the facts are the first 24 accepted keys with the values last given |
| SessionLaws.LookupAfterRun | src/agent/session.c:296-319 | lookup after any run returns the last write |
| SessionLaws.SetKeepsUnique | src/agent/session.c:296-311 | keys stay unique if and only if the set does not add a key whose clipped form is stored |
| SessionLaws.RunKeepsUnique | src/agent/session.c:296-311 | keys are unique after every step of a run if and only if no step adds a key whose clipped form is stored |
| SessionLaws.LongKeyDuplicates | src/agent/session.c:296-311 | a 65-byte key set twice is stored twice |
| SessionLaws.LoadOfSaved | src/agent/session.c:100-258 | loading a saved session gives it back without other roles and empty facts |
| SessionLaws.SaveLoadRoundTrip | src/agent/session.c:100-258 | save then load is the identity if and only if roles are known and no text is empty |
| SessionLaws.RunRoundTrip | src/agent/session.c:100-319 | after any run of well-formed operations, load returns what was saved |
| SessionLaws.SavedFileLoads | src/agent/session.c:100-258 | a session that could be saved after such a run is read back with the same memory |
| SessionLaws.ShortRunComesBack | src/agent/session.c:100-319 | after any run of messages by the user or the assistant of up to 2000 bytes and values of up to 768 bytes under legal keys, the file gives back byte for byte the last ten messages and, for the first 24 keys, the value last given |
| SessionLaws.OneMessageLoads | src/agent/session.c:131-168 | a saved message comes back if it is the user's or the assistant's, an empty one as "(no text)" |
| SessionLaws.IllegalKeyRefused | src/agent/session.c:296-311 | a key that is empty or has a brace, colon, quote, comma or line break changes nothing |
| SessionLaws.IdMeans | src/agent/session.c:47-57 | an id is 1 to 64 letters, digits, `-`, `_` or `+`, so it has no slash and no dot |
| SessionText.FileLoads | src/agent/session.c:100-203 | any JSON object, with whatever blanks, escapes and other members, loads as its messages and facts in order, each field cut to its buffer |
| SqlLex.SqlSkipWsComment | src/agent/sqlite_tool.c:254-269 | the loop skips blanks and comments, an unfinished comment to the end |
| SqlLex.SqlSkipString | src/agent/sqlite_tool.c:273-282 | the loop ends behind the closing quote, doubled quotes staying inside |
| SqlLex.SqlMatchParen | src/agent/sqlite_tool.c:286-306 | the loop finds the closing parenthesis outside strings and comments |
| SqlLex.InStep | src/agent/sqlite_tool.c:254-306 | up to the matched parenthesis every token of the body ends before it, and the matcher goes on where the token ends |
| SqlGuard.SqlCteBodyOk | src/agent/sqlite_tool.c:326-357 | the walk computes the body check |
| SqlGuard.WalkIsLex | src/agent/sqlite_tool.c:326-357 | the walk accepts a body if and only if no listed word is one of its tokens at any depth |
| SqlGuard.HeadIsLex | src/agent/sqlite_tool.c:326-331 | the head test looks at the first token that is not blank or comment |
| SqlGuard.BodyBalanced | src/agent/sqlite_tool.c:286-306 | the parentheses among the tokens of a matched body balance |
| SqlGuard.BodyCheckIsReadOnly | src/agent/sqlite_tool.c:286-357 | for the body the matcher finds, the check accepts exactly the balanced read-only token lists |
| SqlGuard.KwIsWord | src/agent/sqlite_tool.c:150-154 | a keyword test at a word is a case-insensitive test of the whole word |
| SqlGuard.KwAnywhere | src/agent/sqlite_tool.c:167-175 | for every identifier word the jumping search finds it if and only if it occurs with boundaries on both sides |
| SqlGuard.DbValidateWriteStmt | src/agent/sqlite_tool.c:362-396 | the bare-statement rules |
| SqlGuard.DbValidateWriteCte | src/agent/sqlite_tool.c:401-450 | the list loop computes the verdict on a WITH statement |
| SqlGuard.CheckedList | src/agent/sqlite_tool.c:409-439 | checking bodies while reading accepts exactly the lists that parse and whose bodies are all read-only |
| SqlGuard.AcceptedWith | src/agent/sqlite_tool.c:401-450 | a WITH statement passes if and only if its list parses, every body is balanced and read-only, and an INSERT, or an UPDATE or DELETE with the word WHERE, follows that does not mention the mirror table |
| SqlGuard.AcceptedBare | src/agent/sqlite_tool.c:362-396 | a statement without WITH passes if and only if it does not mention the mirror table and is an INSERT, an UPDATE or DELETE with the word WHERE, a CREATE TABLE, or an ALTER TABLE that adds a column |
| SqlGuard.AlterAdds | src/agent/sqlite_tool.c:204-233 | an accepted ALTER falls into ALTER TABLE name ADD, an optional COLUMN, a name and a type of plain characters, each word ending where the next part begins |
| SqlGuard.AddIsAccepted | src/agent/sqlite_tool.c:204-233 | every text put together so is accepted, unless COLUMN is missing before a column named `column` |
| SqlGuard.AlterRule | src/agent/sqlite_tool.c:204-233 | the column rule accepts a text if and only if it has this form |
| SqlGuard.DbValidateWrite | src/agent/sqlite_tool.c:452-466 | the whole guard: one statement, leading comments stripped, text cut to the body buffer |
| SqlGuard.AcceptedWrite | src/agent/sqlite_tool.c:452-466 | whatever comments or truncation come first, a text is accepted if and only if it is a single statement that passes the rule for WITH or the rule for bare statements |
| SqlGuard.StripLeading | src/agent/sqlite_tool.c:110-127 | at most 64 leading comments go, an unfinished one takes everything |
| SqlCase.CaseDoesNotMatter | src/agent/sqlite_tool.c:150-466 | statements that differ only in the case of their letters, the two alphabets written out, get the same verdict |
| SqlCase.CiPrefixMeans | src/agent/sqlite_tool.c:150-164 | a keyword stands at a place exactly when each byte there is its letter as a small or a capital one |
| SqlCase.IdentMeans | src/agent/sqlite_tool.c:150-193 | the bytes of a word are the letters of both alphabets, the ten digits and the underscore |
| SqlCase.InsertIsAccepted | src/agent/sqlite_tool.c:362-396 | one INSERT in any case that fits the buffer is accepted if and only if it does not mention the mirror table |
| SqlText.LexReads | src/agent/sqlite_tool.c:254-306 | text written from names, literals with doubled quotes, comments, blanks and other bytes lexes to exactly these |
| SqlText.GapReads | src/agent/sqlite_tool.c:254-269 | blanks and finished comments in any number and order are skipped |
| SqlText.MatchReads | src/agent/sqlite_tool.c:286-306 | behind lexemes whose parentheses balance, whatever their literals and comments contain, the matcher finds the parenthesis that closes them |
| SqlText.ListReads | src/agent/sqlite_tool.c:401-442 | a list of name, optional columns, AS and a body in parentheses, with any gaps, is read as its bodies in order and what follows it |
| SqlText.ListSplit | src/agent/sqlite_tool.c:401-442 | and every list that is read was written so |
| SqlText.AcceptedWithText | src/agent/sqlite_tool.c:401-450 | a WITH statement is accepted if and only if it can be written as WITH, an optional RECURSIVE and such a list whose bodies are balanced read-only queries, with an INSERT, or an UPDATE or DELETE with the word WHERE, behind it that does not mention the mirror table |
| SqlText.AcceptedText | src/agent/sqlite_tool.c:452-466 | the same for the whole guard, whatever blanks and fewer than 64 comments stand before the statement: no semicolon except at the end, and a WITH statement of this form or an accepted bare one |
| Placeholders.PgConvertQmarks | src/agent/db_layer.c:179-229 | the output is the segments between placeholders joined by $1, $2, ..., and the count is their number |
| Placeholders.MarksRestore | src/agent/db_layer.c:179-229 | joining the same segments by question marks gives back the input |
| Placeholders.RewriteIsNumbering | src/agent/db_layer.c:179-229 | the byte-by-byte rewriting is the numbering of segments |
| Placeholders.NoneLeft | src/agent/db_layer.c:179-229 | the output has no placeholder outside quotes and comments, which end where they did |
| Placeholders.RewriteTwice | src/agent/db_layer.c:179-229 | rewriting twice is rewriting once |
| Numbering.NumbersOnlyMarks | src/agent/db_layer.c:179-229 | in text written from lexemes exactly the question marks outside literals and comments become $1, $2, ... in order, and everything else is copied |
| Numbering.ConvertMeans | src/agent/db_layer.c:179-229 | every text is such lexemes and perhaps a literal or comment it does not finish, which is copied |
| Decimal.DecReads | src/agent/db_layer.c:179-229 | the numeral of n read in base ten is n, without a leading zero |
| FcgiParams.ParseParams | src/cgi/fastcgi.c:144-198 | the offset loop computes the pair-by-pair parse |
| FcgiParams.ParseEncode | src/cgi/fastcgi.c:144-224 | parsing undoes encoding for lengths below 2^31 |
| FcgiParams.ParseCut | src/cgi/fastcgi.c:144-198 | an encoding cut at any byte parses to exactly the pairs wholly before the cut |
| FcgiParams.WholeIsLargest | src/cgi/fastcgi.c:144-198 | the number of those pairs is the largest whose encoding fits before the cut |
| FcgiParams.GetPut | src/cgi/fastcgi.c:214-224 | a length prefix reads back, in one byte or four |
| FcgiParams.EncodeParams | src/cgi/fastcgi.c:282-292 | the block is the encoding of the pairs that have a value and parses back to them; it fails exactly when the room check does |
| FcgiParams.LengthBytes | src/cgi/fastcgi.c:214-224 | a length below 128 is one byte, another four with the high byte first and its top bit set |
| FcgiParams.NonEmptyMeans | src/cgi/fastcgi.c:282-292 | what is sent keeps its order and leaves out exactly the parameters without a value |
| FcgiParams.FitsMeans | src/cgi/fastcgi.c:282-292 | the room check passes if and only if at each parameter sent nine bytes beside its name and value are free in 4096 |
| FcgiRecords.SendResponse | src/cgi/fastcgi.c:621-630 | the loop writes the records of the response and the end record |
| FcgiRecords.ResponseArrives | src/cgi/fastcgi.c:332-402 | the relay forwards a response byte for byte and stops at its end record |
| FcgiRecords.OnlyOutputArrives | src/cgi/fastcgi.c:332-402 | of records of any type the relay forwards the contents of type 6, in order, up to the first of type 3 |
| FcgiRecords.HeaderMeans | src/cgi/fastcgi.c:104-121 | version, type, id and length with the high byte first, padding to a multiple of eight, and a reserved zero |
| FcgiRecords.ForwardStdout | src/cgi/fastcgi.c:332-402 | the read loop computes what is forwarded |
| FcgiRecords.CutResponse | src/cgi/fastcgi.c:332-402 | a stream that breaks off forwards a prefix and is taken for complete only at its very end |
| FcgiRecords.FrameReadBack | src/cgi/fastcgi.c:104-121 | a record reads back as sent if and only if its content is at most 65535 bytes |
| FcgiRecords.OneByteTooMany | src/cgi/fastcgi.c:104-121 | 65536 bytes in one record read back as none |
| FcgiRecords.FrameAligned | src/cgi/fastcgi.c:104-121 | every record is a multiple of eight bytes |
| FcgiRecords.ResponseAligned | src/cgi/fastcgi.c:621-630 | so is every response |
| Lines.LineBufAppend | src/agent/agent.c:372-382 | the line keeps its first 65536 bytes and remembers that more came |
| Lines.ReadLines | src/agent/agent.c:568-599 | for every chunking, the lines handed on are the kept lines in order, through the one after which the reader stops for what it has handed on so far, an unterminated last one included |
| Lines.LinesAreSplit | src/agent/agent.c:372-599 | at any point of a stream, the lines are the fitting lines of the newline split if and only if no newline that opens a chunk ends a line of exactly 65536 bytes; otherwise lines are missing, never added |
| Lines.ChunkingDoesNotMatter | src/agent/agent.c:568-599 | for every chunking of a whole stream, the same if and only if |
| Lines.NoExactLine | src/agent/agent.c:568-599 | without a terminated line of that length the chunking never matters |
| Lines.LinesComeBack | src/agent/agent.c:568-599 | however the text arrives, non-empty lines of less than 65536 bytes are handed on whole and in order |
| Lines.UpToMeans | src/agent/agent.c:568-599 | what is handed on is the shortest start of the lines at which the reader has enough, or all of them |
| Lines.ExactLine | src/agent/agent.c:372-382 | a first line of exactly 65536 bytes is handed on if and only if its newline is not the first byte of a chunk |
| Lines.SameBytesDifferentLines | src/agent/agent.c:568-599 | two chunkings of the same bytes that hand on different lines |
| Shards.RoundState.Process | src/agent/agent.c:218-256 | one element changes its own call only: first id and name kept, arguments extended within the cap |
| Shards.RoundState.ProcessArray | src/agent/agent.c:351-365 | the loop applies every element of the array in order |
| Shards.RoundIsPerCall | src/agent/agent.c:181-256 | for every interleaving each call has its first id and name and the first 32768 bytes of its own fragments, and the count is one more than the largest index |
| Shards.OrderAcrossCallsDoesNotMatter | src/agent/agent.c:218-256 | arrival orders that agree on each call give the same round |
| Shards.ShardOfTree | src/agent/agent.c:218-256 | reading a printed element without a tree finds what its tree says |
| Shards.ArrayOfTrees | src/agent/agent.c:351-365 | a printed array yields the shards of its trees in order |
| Shards.IndexReads | src/agent/agent.c:218-230 | an element whose index is the numeral of n belongs to call n |
| Shards.FirstIdIsFirst | src/agent/agent.c:231-238 | the id of a call is that of its first shard that has one |
| Shards.FirstNameIsFirst | src/agent/agent.c:239-247 | so is its name |
| JsonText.ElementsRead | src/agent/agent.c:218-256 | every element of a `tool_calls` array is read, in order, with its index, id, name and arguments, however the JSON is written |
| Shards.DecodedFits | src/agent/agent.c:243-254 | a scratch buffer as long as the remaining text never truncates a fragment |
| MessageLog.MsgsSystem | src/agent/agent.c:146-159 | the open log is the system message |
| MessageLog.MsgsRoleText | src/agent/agent.c:161-168 | the open log grows by one message |
| MessageLog.MsgsAppendRound | src/agent/agent.c:189-214 | the open log grows by one assistant message and a tool message per call |
| MessageLog.Closed | src/agent/agent.c:429-446 | the open log plus a bracket is the printed array |
| MessageLog.LogFits | src/agent/agent.c:140-214 | an allocation has failed if and only if the log does not fit |
| AgentRounds.AgentRun | src/agent/agent.c:758-940 | every body recorded upstream is the printed system, history and user messages followed by exactly the rounds completed before it; a completed round is the reply received for it with the results its calls were given when run, in order, nothing else was run; the run ends only after its last round, a reply not to be acted on, or a departed client; an allocation fails if and only if the log does not fit |
| AgentBodies.ExchangeTells | src/agent/agent.c:758-940 | every exchange of a run sent the body of the rounds before it, and for each call of each of those rounds that body, read back as JSON, has the id, name and arguments received and a tool message under the same id with the result its run gave |
| AgentBodies.BodyTells | src/agent/agent.c:189-214 | a tool message carries its result, and "(no output)" exactly when the result is empty; an assistant message carries the name or "?", the arguments or "{}", and the id or one made up from the place |
| AgentBodies.BodyOpens | src/agent/agent.c:146-168 | before the rounds stand the system prompt with its addition, the history in order and the message of the user |
| AgentBodies.BodyCount | src/agent/agent.c:146-214 | and there are no other messages |
| AgentBodies.RunsAt | src/agent/agent.c:921-931 | the runs are those of the calls, round by round, with the name and arguments received |
| AgentBodies.MadeUpIdsDiffer | src/agent/agent.c:903-907 | calls of a round without ids get different ones |
| AgentRounds.TryRound | src/agent/agent.c:798-866 | one to three attempts send the same bytes, each but the last failed in a way worth repeating, and the last is the first not to be repeated or the third |
| AgentRounds.RunCalls | src/agent/agent.c:921-931 | the calls are run in order with their own name and arguments until the client leaves |
| AgentRounds.AllRepeat | src/agent/agent.c:871-887 | an answer is cut off if and only if it has content and calls and every call's signature is remembered |
| AgentBodies.RepeatMeans | src/agent/agent.c:732-752 | when names and arguments fit the signature, an answer is cut off if and only if it has content and calls and each of them is one of the first 64 that were run |
| AgentBodies.SameSignature | src/agent/agent.c:735-752 | two calls have the same signature if and only if their names agree and so does what 511 bytes hold of their arguments |
| AgentBodies.LongCallsCollide | src/agent/agent.c:735-752 | calls that differ only behind the 511th byte are taken for one another |
| AgentRounds.Record | src/agent/agent.c:744-752 | the signatures remembered are those of the first 64 tool runs |
| AgentRounds.RoundDone | src/agent/agent.c:901-937 | completing a round adds its messages, runs and exchanges and nothing else |
| MessageLog.SameIds | src/agent/agent.c:189-214 | the tool messages of a round carry the ids of its calls in order |
| HtmlEscape.EscapeScalar | src/core/util.c:154-168 | the destination holds every character mapped to its entity, terminated |
| HtmlEscape.EscapeFast | asm-demo/html_escape_bench.c:63-81 | the same text |
| HtmlEscape.EscapeSimd | asm-demo/html_escape_bench.c:84-150 | the same text, sixteen bytes at a time |
| HtmlEscape.UnescapeEscaped | src/core/util.c:154-168 | reading the entities back gives the input |
| HtmlEscape.EscapedIsInert | src/core/util.c:154-168 | escaped text has no angle bracket or double quote |

## Left out

- HandleClient: timeouts, chunked bodies, spool I/O errors and upgrade requests; after a body the client cuts short the run ends, while the code dispatches the request without it.
- ConnReadable: assumes that fast requests have no body; a GET with `Transfer-Encoding: chunked` is fast for the code, which never looks at that header, and so is a GET whose Content-Length exceeds the spool cap, which the parser only marks; their bodies stay on the socket as if they were the next request.
- ServeConnection: master and worker share one parser verdict; the host allow-list is asked only by the worker, so with one the master serves hosts that the worker refuses.
- EveryRun: that of `Prefork` assumes all n workers were started and none dies or is told to stop.
- StartPool: a fork that fails, after which there are more tokens than workers.
- Run: readiness of a listening socket and the FastCGI listener are not modelled; descriptors are numbers.
- Utf8ValidPrefix: the bytes behind a terminator that the walk steps over are readable and arbitrary.
- ForwardStdout: padding of more than 8 bytes is skipped like any other, while the source reads it into an array of 8; the records it writes never have more than 7.
- PgConvertQmarks: the output buffer has enough room; a tight buffer makes the code return -1.
- EscapeScalar: the destination has at least 6n + 1 bytes.
- EscapeFast: the same.
- EscapeSimd: the same, and sixteen readable bytes from the terminator on.
- AgentRun: events to the client, back-off times, which failures of the upstream are worth repeating, and request bodies once an allocation has failed.
- Process: an index too large for a C long counts as out of range, which it is.
- Session files: path building, pruning and the atomic rename.
- db_validate_read, the database drivers, the router catalogue beyond descriptions, metrics, configuration, authentication, rate limits, static files, CGI and the scripts around the server: thin wrappers, I/O or easy members.
- The FastCGI request side beyond its parameters, where a spooled body is sent in 65536-byte chunks that the record format cannot carry.
- count_crlf_neon of asm-demo/crlf_scan.c.
