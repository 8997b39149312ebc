# A verification model of the Timestream ODBC driver

This project models the parts of the Amazon Timestream ODBC driver in which state, concurrency or text
transformations are hard to get right, and proves what they keep. It is written in Dafny 4.11;
`dafny verify dfyconfig.toml` checks all of it.

**Asynchronous paging.** `PagingProtocol` is a state machine over the steps of the main thread (Execute,
FetchNextRow, SwitchCursor, InternalClose) and of the fetch threads, with the one-slot queue, the mutex
and the condition variable with its sleeps, notifications and spurious wake-ups. The service
(`ResultPages`) is an arbitrary function from tokens to pages or failures. `PagingSafety`,
`PagingTheorems`, `PagingLiveness` and `PagingDelivery` hold the results over all interleavings; `DataQuery` and
`TimestreamCursor` are the driver's classes, whose methods are proved to be runs of the protocol.

**From rows to buffers.** `BlockFetch` cuts the row stream into rowsets; its `RunQuery` joins the parts
into one result: it executes a query, fetches any list of blocks and closes, and the blocks are the chain's
rows. `ChunkedRead` specifies reading a text cell in parts (ODBC Programmer's Reference, SQLGetData Function,
"Retrieving Variable-Length Data in Parts") and `ApplicationDataBuffer` is the code that writes the
application's memory.

**Texts.** `SearchPattern` and `PatternMeaning` compile a search pattern (section 8.5 of ISO/IEC 9075:1992)
to a regular expression (section 9.3.5 of POSIX.1-2017 XBD for brackets); `Configuration`,
`ConnectionStringParser` and `ConnectionRoundTrip` print a configuration and parse it from the right, and
`ConnectionCase` reads the documented options in any mixture of cases;
`NestedValue` renders arrays, rows and time series through bounded buffers; `IntervalText` prints and
scans day-to-second intervals.

**Catalogs and cursor names.** `CatalogContents` says once, for both database modes, what the tables and
columns result sets hold; `TableMetadataQuery` and `ColumnMetadataQuery` are the classes that build and
hand out those sets; `CatalogTheorems` holds the mirror and enumeration results, and `CatalogRows` says
field by field, from the arguments and the service's answers, what is listed. `CursorNames` keeps the set of
names in agreement with the map from statements to names.

Where a property the driver's comments suggest does not hold for all inputs, the exact condition is
proved:

- An empty page behind rows makes FetchNextRow wait for ever on the call after it
  (`HangsOnlyOnLaterEmptyPages`), and the rows behind such a page are lost: the call that takes it says
  "no more data" (`DeliversAllExactly`, `RowsBehindEmptyPageAreLost`).
- SQLGetData with room for fewer than two characters hands out nothing (`FaithfulExactlyWithTwoCharacters`),
  and a bound column that was truncated once starts the next row's value in the middle
  (`BoundColumnStartsOver`).
- SQLExtendedFetch does not forget how far a cell was read: the next row's cell of that column is read
  from its start only if no part had been read (`InternalExtendedFetch`, `NextCellIsReadWhole`,
  `PartlyReadCellSkips`).
- A dot, star, plus or question mark in a search pattern changes its meaning unless it is escaped, and a
  blank pattern matches only the empty text (`ConversionKeepsMeaningExactly`).
- With room for one wide character SQLGetData reports success and passes over the rest of the cell
  (`WithoutRoom`).
- The documentation of the connection options lets a timeout of zero disable the timeout; the parser refuses
  it, and the timeout stays as it was (`ZeroTimeoutIsRefused`).
- A value with ';' or '=', or with white space or braces at its edges and no space in it, does not survive
  the connection string (`RoundTripExactly`).
- A columns query that ends in a warning cannot be fetched from, although a tables query can
  (`ColumnMetadataQuery.Execute`, `ColumnsSucceedExactly`); its RowNumber is 1 before the first fetch (`RowNumber`).
- The limit on the length of a cursor name does not bind names passed up to their terminator
  (`LimitBindsGivenLengths`).
- Interval fields wider than their format, a minus in front of a zero and needless zeros in the day do not
  survive (`PrintedIntervalSurvivesExactly`, `ReproducedExactlyWhenCanonical`).

## Model

| member | source | states |
|---|---|---|
| PagingTheorems.RowsComeInOrder | src/odbc/src/query/data_query.cpp:151-257 | on every interleaving and for every server, finite or not, failing or not, the answers given so far are a prefix of the chain's rows in token order, each once, with "no more data" only behind them |
| PagingTheorems.OverMeansComplete | src/odbc/src/query/data_query.cpp:212-257 | if nothing follows an empty page behind rows, "no more data" is told before Close only when the whole chain has been told |
| PagingTheorems.EveryRowOnceThenNoMore | src/odbc/src/query/data_query.cpp:129-257 | for a chain of n outcomes in which nothing follows an empty page behind rows, the answers to any number of fetches are every row once (and the failure that ends the chain, once), then "no more data" for ever |
| PagingTheorems.EveryAnswerTellsItsRow | src/odbc/src/query/data_query.cpp:212-257 | the same answer by answer: answer i is row i of the chain, fetched exactly if all its bound columns convert and an error otherwise; behind the rows the failure that ends the chain, once, then "no more data" |
| PagingDelivery.DeliversAllExactly | src/odbc/src/query/data_query.cpp:129-257 | on every interleaving the whole chain is delivered so if and only if no row and no failure follows an empty page behind rows |
| PagingDelivery.RowsBehindEmptyPageAreLost | src/odbc/src/query/data_query.cpp:172-176 | otherwise some run is told "no more data" although rows, or a failure, of the chain were never told |
| PagingDelivery.EmptyPageEndsTheAnswers | src/odbc/src/query/data_query.cpp:172-176 | some run reaches the first empty page behind rows, and its call that takes that page is told "no more data", whatever follows the page |
| PagingTheorems.RequestWrittenAlone | src/odbc/src/query/data_query.cpp:188-206 | whenever the shared request changes, every thread that was handed a reference to it has exited |
| PagingTheorems.EveryPageRequestedOnce | src/odbc/src/query/data_query.cpp:188-206 | tokens are sent in chain order, one request per page, at most one page ahead of the caller |
| PagingTheorems.ThreadsNeverBlock | src/odbc/src/query/data_query.cpp:136-148 | at most one page is queued, at most one thread is unjoined, and a thread finds its wait predicate true whenever it reaches it |
| PagingSafety.ControlStep | src/odbc/src/query/data_query.cpp:129-316 | every step of either side keeps the invariant that says who holds what at each point of the main thread |
| PagingSafety.ToldStep | src/odbc/src/query/data_query.cpp:212-257 | every step keeps the tie between the answers given and the rows of the pages taken |
| PagingSafety.RunKeeps | src/odbc/src/query/data_query.cpp:129-316 | both invariants hold after every run |
| PagingLiveness.Progress | src/odbc/src/query/data_query.cpp:151-210 | deadlock freedom: while a call is open some step of the driver is enabled, unless an empty page behind rows was taken |
| PagingLiveness.AwaitedPageComes | src/odbc/src/query/data_query.cpp:151-154 | while SwitchCursor waits on an empty queue, a thread is still going to push |
| PagingLiveness.WorkIsBounded | src/odbc/src/query/data_query.cpp:129-316 | no schedule of the driver's own steps is longer than a rank computed from the state, so every call ends under every schedule |
| PagingLiveness.EveryCallReturnsOrHangs | src/odbc/src/query/data_query.cpp:151-316 | when no step of the driver is left, the call has returned or the main thread waits for a page nobody will push |
| PagingLiveness.HungForEver | src/odbc/src/query/data_query.cpp:151-154 | once in that wait, nothing that can happen ends it, spurious wake-ups included |
| PagingLiveness.LaterEmptyHangs | src/odbc/src/query/data_query.cpp:172-176 | an empty page behind rows, reached by a run, leads to that wait: line 175 returns without starting a thread or clearing hasAsyncFetch |
| PagingLiveness.HangsOnlyOnLaterEmptyPages | src/odbc/src/query/data_query.cpp:129-316 | from every reachable state every schedule of the driver's steps is short and ends with the caller, in every open call (an Execute that some outcome ends), if and only if the chain has no empty page behind rows |
| PagingLiveness.RunOut | src/odbc/src/query/data_query.cpp:129-316 | any schedule can be carried on until no step of the driver is left |
| DataQueryModel.DataQuery.RunThread | src/odbc/src/query/data_query.cpp:129-149 | one step of the fetch thread is a step of the protocol and lowers the rank |
| DataQueryModel.DataQuery.AwaitPage | src/odbc/src/query/data_query.cpp:153-154 | the wait ends with a page in the queue, whenever the query is not starved |
| DataQueryModel.DataQuery.TakeOutcome | src/odbc/src/query/data_query.cpp:155-186 | pops one outcome: a failure ends the fetching, an empty page changes nothing else, rows give a new cursor on its first row |
| DataQueryModel.DataQuery.StartNext | src/odbc/src/query/data_query.cpp:188-206 | joins the last thread before it writes the request and starts the next one |
| DataQueryModel.DataQuery.SwitchCursor | src/odbc/src/query/data_query.cpp:151-210 | waits, pops, joins, writes the request and starts the next thread as one run of the protocol; the new cursor stands on its first row |
| DataQueryModel.DataQuery.FetchNextRow | src/odbc/src/query/data_query.cpp:212-257 | one new answer; for the row on which the cursor then stands it is success, with the row in the given slot and counted, exactly if the row is readable, and an error with nothing written otherwise; "no data" without a row, an error for a failed page; nothing else is written, and the query is not closed |
| DataQueryModel.DataQuery.GetColumn | src/odbc/src/query/data_query.cpp:259-285 | reads a cell of the row fetched last, or of the first row before any fetch; no data without a cursor, an error past the last row or for a missing column |
| DataQueryModel.DataQuery.InternalClose | src/odbc/src/query/data_query.cpp:296-316 | joins every thread and drops the cursor, from every state between calls, without changing any answer |
| DataQueryModel.DataQuery.QueryFirst | src/odbc/src/query/data_query.cpp:358-399 | one round of the loop: a failure closes, an empty page with a token goes on, rows give a new cursor and, with a token, one thread |
| DataQueryModel.DataQuery.Execute | src/odbc/src/query/data_query.cpp:346-403 | skips leading empty pages; the code is that of the outcomes taken: success exactly if one had rows, with a new cursor, error exactly if the last one failed, with the query closed |
| TimestreamCursorModel.TimestreamCursor.Increment | src/odbc/src/timestream_cursor.cpp:40-48 | the position grows by one and the row index trails it by one, stopping at the end |
| TimestreamCursorModel.TimestreamCursor.HasData | src/odbc/src/timestream_cursor.cpp:50-52 | in a page with rows, exactly whether the row index is on a row, so that GetColumn may read it |
| TimestreamCursorModel.TimestreamCursor.EnsureColumnDiscovered | src/odbc/src/timestream_cursor.cpp:67-90 | succeeds exactly for an existing column, and the cache then holds all columns up to it in order |
| BlockFetch.Statement.FetchBlocks | src/odbc/src/statement.cpp:1126-1178 | successive block fetches, for every list of array sizes and from any point of the query: their slots, one block after the other, are the stream that the chain prescribes; each block marks fetched rows, errors and empty slots as such, counts the fetched ones, and has the result that they mean; the query is left between two calls, open |
| BlockFetch.Statement.RunQuery | src/odbc/src/statement.cpp:740-1178 | end to end: executes a query, fetches any list of blocks and closes; executing says whether the chain has rows, is empty or fails first; place i of the bound columns of all blocks holds row i of the chain if it is readable, and the status arrays say what became of every row; if all rows are readable and there is room, the application has all of them in order |
| BlockFetch.Statement.InternalExecuteSqlQuery | src/odbc/src/statement.cpp:740-785 | the query the statement had is closed, its threads joined; the new one is executed, and no data is passed on as a success with a warning |
| BlockFetch.SaidOfWholeChain | src/odbc/src/statement.cpp:767-785 | what executing says of the outcomes it took is true of the whole chain: success with rows, success with a warning for an empty result, an error for a failure before any row; never "no data" |
| BlockFetch.Statement.InternalClose | src/odbc/src/statement.cpp:1018-1031 | closes a query that has a cursor; without one nothing changes, and that is an error unless errors are ignored |
| DataQueryModel.ExecuteTells | src/odbc/src/query/data_query.cpp:346-403 | the outcomes taken decide what Execute says of the whole chain: rows, only empty pages, or a failure before any row |
| BlockFetch.BlocksFollowScript | src/odbc/src/statement.cpp:1126-1178 | all answers that any run of block fetches added to a reachable query are that stretch of the stream |
| BlockFetch.EachBlockIsARowset | src/odbc/src/statement.cpp:1126-1178 | block i is the rowset that starts where the sizes before it end |
| BlockFetch.RowsThenNone | src/odbc/src/statement.cpp:1126-1178 | a status array is a run of success and error entries followed only by "no row" |
| BlockFetch.CountsAddUp | src/odbc/src/statement.cpp:1147-1178 | fetched, errors and "no row" add up to the rowset size; the first two are zero exactly when every slot is empty |
| BlockFetch.FetchedMeans | src/odbc/src/statement.cpp:1147-1178 | the count of the loop is the number of slots whose row was fetched, and it is positive exactly if there is one |
| BlockFetch.LogReadsChain | src/odbc/src/statement.cpp:1126-1178 | what blocks that make the stream of a chain leave in the bound columns and status arrays, in terms of the rows of the chain alone |
| BlockFetch.Statement.FetchSlot | src/odbc/src/statement.cpp:1151-1166 | one answer goes to one slot of the bound columns and of the status array |
| BlockFetch.BlockSaysNoDataAtTheEnd | src/odbc/src/statement.cpp:1171-1177 | on a reachable query a block fetch returns "no data" exactly when every row of the chain was told before (or the rowset is empty) |
| BlockFetch.BlockFollowsScript | src/odbc/src/statement.cpp:1126-1178 | the slots a block adds to a reachable query are the rowset that the whole chain prescribes at that point |
| BlockFetch.Statement.InternalFetchRow | src/odbc/src/statement.cpp:1126-1178 | the answers the query gave, slot by slot: a fetched row is in the bound columns and marked as success, an error and an empty slot are marked as such, nothing else is written; the count is that of the fetched rows, and the result says whether rows, errors, both or neither were met; the cell offset is reset |
| BlockFetch.Statement.InternalExtendedFetch | src/odbc/src/statement.cpp:1037-1100 | the same loop over its own size and arrays; where reading a cell goes on stays as it was, for every column, and a refused call writes no row count |
| ApplicationBuffers.NextCellIsReadWhole | src/odbc/src/statement.cpp:1037-1100 | behind such a fetch the next row's cell is read from its start if and only if another column is read or the offset is not positive |
| ApplicationBuffers.PartlyReadCellSkips | src/odbc/src/statement.cpp:1037-1100 | a concrete cell that comes out without its first three characters |
| ChunkedRead.NarrowPathsAgree | src/odbc/src/utility.cpp:46-96 | the ANSI-only and the converting copy agree exactly when there is text and the buffer is not one byte long |
| ChunkedRead.PartTakesAndDrops | src/odbc/src/app/application_data_buffer.cpp:249-336 | one call is take and drop of the unread text, with the result and the length that this means |
| ChunkedRead.FaithfulExactlyWithTwoCharacters | src/odbc/src/app/application_data_buffer.cpp:249-336 | a call on unread text hands out the next part, reports what is left and fits its terminator if and only if the buffer has room for two characters |
| ChunkedRead.WithoutRoom | src/odbc/src/app/application_data_buffer.cpp:249-336 | with less room a narrow target reports truncation and stays, or steps back for a buffer of no length; a wide target reports success, and with room for one character passes over all that is left |
| ChunkedRead.PartsMakeTheCell | src/odbc/src/app/application_data_buffer.cpp:249-336 | for every list of such buffer lengths the parts run through the cell from left to right: truncated ones, a final one, then "no data" for ever; enough calls give the whole cell |
| ApplicationBuffers.ReadInParts | src/odbc/src/odbc.cpp:1166-1202 | an application that calls SQLGetData for any list of buffer lengths gets the results and lengths of the parts; with room for two characters each it finds the cell from left to right, every part with a warning while more is to come and with success when nothing is, then "no data" for ever; enough calls give the whole cell |
| ChunkedRead.LengthsShrink | src/odbc/src/app/application_data_buffer.cpp:311-335 | the length reported by a truncated call is the bytes still unread, and it strictly decreases |
| ChunkedRead.BoundColumnStartsOver | src/odbc/src/app/application_data_buffer.cpp:281-334 | for a bound column, the next row's value is read from its start if and only if this row's value was not truncated |
| ApplicationBuffers.CopyUtf8StringToSqlCharString | src/odbc/src/utility.cpp:35-97 | leaves the prefix and its terminator in memory, nothing else changed, with the byte count and truncation flag of the specification |
| ApplicationBuffers.CopyUtf8StringToWcharString | src/odbc/src/utility.cpp:99-187 | the same for wide characters; a buffer with room for no more than the terminator is left alone |
| ApplicationBuffers.ApplicationDataBuffer.PutStrToStrBuffer | src/odbc/src/app/application_data_buffer.cpp:249-336 | memory, indicator, offset and result follow PutStr; a null buffer only reports the length |
| ApplicationBuffers.ApplicationDataBuffer.PutNull | src/odbc/src/app/application_data_buffer.cpp:517-528 | only the indicator is written, and asked for if there is none |
| ApplicationBuffers.StatementCell.GetData | src/odbc/src/odbc.cpp:1166-1202 | the offset is handed over between calls on one column and forgotten for another; with room for two characters the code is "no data" if nothing was unread, success if nothing is left, and a warning otherwise; target and length may be missing |
| SearchPattern.ConvertPatternToRegex | src/odbc/src/utility.cpp:373-410 | the loop with its start index and escape flag is the token-by-token translation; blank patterns give the empty expression |
| SearchPattern.UpdateRegexExpression | src/odbc/src/utility.cpp:359-371 | appends the pending literal and the replacement, and moves past the token |
| SearchPattern.ExtendLiteral | src/odbc/src/utility.cpp:380-402 | a character that is no token extends the pending literal: nothing is lost or duplicated |
| PatternMeaning.TranslationKeepsMeaning | src/odbc/src/utility.cpp:373-410 | without bare dots and quantifiers the translation of a translatable pattern accepts exactly the texts that the pattern matches, a lone trailing backslash included |
| PatternMeaning.LikeNeedsMarks | src/odbc/src/utility.cpp:380-407 | a matching text holds at least one dot or quantifier for every one in the pattern |
| PatternMeaning.SampleOrNothing | src/odbc/src/utility.cpp:380-407 | the translation of every translatable pattern accepts a text without its bare dots and quantifiers, or nothing at all |
| PatternMeaning.MatchesSomething | src/odbc/src/utility.cpp:380-407 | a pattern matches some text if and only if it has no lone trailing backslash |
| PatternMeaning.ConversionKeepsMeaningExactly | src/odbc/src/utility.cpp:373-410 | the conversion keeps the meaning of a translatable pattern if and only if it ends in a lone backslash, or has no bare dot or quantifier and is not blank (the empty pattern keeps it) |
| Segments.SplitJoins | src/odbc/src/config/connection_string_parser.cpp:71-118 | the reference splitting loses nothing: joining gives the text back and no segment holds the delimiter |
| ConnectionStrings.LastSegment | src/odbc/src/config/connection_string_parser.cpp:83-117 | taking the tail behind the last delimiter and erasing it is one step of the fold over the segments |
| ConnectionStrings.ConnectionStringParser.FindSides | src/odbc/src/config/connection_string_parser.cpp:91-112 | searching the equals sign in the whole remaining text finds the sides that the tail has by itself, or that it has none |
| ConnectionStrings.ConnectionStringParser.ReadNumber | src/odbc/src/config/connection_string_parser.cpp:163-205 | accepts exactly the numbers that are digits, short enough and in range; the upper unsigned half wraps around |
| ConnectionStrings.ConnectionStringParser.HandleAttributePair | src/odbc/src/config/connection_string_parser.cpp:138-601 | stores a known key's accepted value and changes nothing otherwise |
| ConnectionStrings.ConnectionStringParser.ParseConnectionString | src/odbc/src/config/connection_string_parser.cpp:71-118 | for every text, delimiter and configuration, the right-to-left loop is the fold of the segments from last to first |
| ConnectionStrings.ConnectionStringParser.ParseConfigAttributes | src/odbc/src/config/connection_string_parser.cpp:125-136 | parses the list up to and with the first of two NULs |
| ConnectionRoundTrip.LeftmostAcceptedWins | src/odbc/src/config/connection_string_parser.cpp:78-117 | after parsing, a key has the value of the leftmost segment whose value is accepted for it, else the value it had |
| ConnectionRoundTrip.ListFormAgrees | src/odbc/src/config/connection_string_parser.cpp:125-136 | the NUL-separated list of delimiter-free attributes gives the configuration that the ';' form gives |
| ConnectionCase.GivesInAnyCase | src/odbc/src/config/connection_string_parser.cpp:138-142 | a segment gives its value to the key that it names in any mixture of cases, and to no other key |
| ConnectionCase.KeysInAnyCase | src/odbc/src/config/connection_string_parser.cpp:138-142 | two segments that differ only in the case of the letters of their keys do the same |
| ConnectionCase.AuthInAnyCase | src/odbc/src/config/connection_string_parser.cpp:377-390 | an authentication mode is named by its own name in any mixture of cases, with white space around it, and by nothing else |
| ConnectionCase.NumberTaken | src/odbc/src/config/connection_string_parser.cpp:163-205 | a number is taken exactly if it is made of digits, short enough and below two to the 32; stored, it is that number or wraps around once |
| ConnectionCase.ZeroTimeoutIsRefused | src/odbc/src/config/connection_string_parser.cpp:193-205 | a timeout of zero is refused, a number of retries may be zero |
| ConnectionCase.DocumentedOptions | src/odbc/src/config/connection_string_parser.cpp:34-64 | every documented option is known in the case in which it is documented, and takes the kind of value it should |
| ConnectionCase.LogLevels | src/odbc/src/config/connection_string_parser.cpp:441-453 | the five documented levels, from off to debug, by their digits |
| TextUtil.SpacesAre | src/odbc/src/utility.cpp:347-357 | what is trimmed is the white space of the C locale |
| ConnectionCase.OptionStores | src/odbc/src/config/connection_string_parser.cpp:138-601 | an option as documented stores what its value gives under its key |
| ConnectionCase.IamConnectionString | src/odbc/src/config/connection_string_parser.cpp:71-118 | the connection string of the documentation for IAM credentials in a region, parsed |
| ConfigurationModel.Configuration.ToConnectString | src/odbc/src/config/configuration.cpp:87-112 | prints the set entries in key order, with braces around values that hold a space |
| ConfigurationModel.WriteEntry | src/odbc/src/config/configuration.cpp:98-107 | an entry is written unless its value is empty, with braces if there is a space in it |
| ConfigurationModel.LessAtFirstDifference | src/odbc/src/config/configuration.cpp:87-112 | the order of the keys is the lexicographic one: decided at the first place where two keys differ |
| ConfigurationModel.Configuration.SetLogPath | src/odbc/src/config/configuration.cpp:422-427 | a path is stored only if it names a directory |
| ConnectionRoundTrip.TextReadsBack | src/odbc/src/config/connection_string_parser.cpp:95-110 | a text comes back from its printed form exactly when it holds a space, or has neither white space nor braces around it |
| ConnectionRoundTrip.NumberReadsBack | src/odbc/src/config/connection_string_parser.cpp:163-205 | a printed 32-bit number is accepted and restored exactly when it reaches the least value of its key |
| ConnectionRoundTrip.PrintedRereads | src/odbc/src/config/configuration.cpp:87-112 | printed and parsed, every key has exactly what its own entry gives |
| ConnectionRoundTrip.RereadIsUnreserved | src/odbc/src/config/connection_string_parser.cpp:71-118 | no value that was parsed holds ';' or '=', whatever the text was |
| ConnectionRoundTrip.RoundTripExactly | src/odbc/src/config/configuration.cpp:87-112 | a printed configuration is restored by the parser, without its empty texts, if and only if each value survives on its own: texts without ';' and '=' that hold a space or have plain edges, numbers in range, a known log level, an existing log directory |
| ConnectionRoundTrip.EqualsSignIsLost | src/odbc/src/config/connection_string_parser.cpp:91-113 | a concrete password that the round trip loses |
| NestedValues.TrailedIsJoined | src/odbc/src/timestream_column.cpp:239-257 | what the loops build is the comma-joined texts and one comma more |
| NestedValues.BufferHoldsCut | src/odbc/src/timestream_column.cpp:243-249 | a zeroed temporary buffer holds the text cut to 1023 characters |
| NestedValues.ElementText | src/odbc/src/timestream_column.cpp:243-249 | the text of an element is its rendering, cut by a temporary buffer of its own |
| NestedValues.AppendPoint | src/odbc/src/timestream_column.cpp:201-220 | a point is its time and its value in braces, either of them possibly missing |
| NestedValues.ParseDatum | src/odbc/src/timestream_column.cpp:60-81 | for a value of any depth the buffer receives the recursive rendering; null succeeds and sets the indicator if there is one |
| NestedValues.ParseTimeSeriesType | src/odbc/src/timestream_column.cpp:193-229 | the bracketed, comma-joined points |
| NestedValues.ParseArrayType | src/odbc/src/timestream_column.cpp:231-261 | the bracketed, comma-joined elements; nothing for an empty array |
| NestedValues.ParseRowType | src/odbc/src/timestream_column.cpp:263-296 | the elements in parentheses; no data for a row without data |
| NestedValues.ElementShrinks | src/odbc/src/timestream_column.cpp:193-296 | an element is rendered shorter through bounded buffers unless everything in it is kept whole |
| NestedValues.BoundedIsWholeExactly | src/odbc/src/timestream_column.cpp:193-296 | the bounded rendering is the unbounded one if and only if every value below the top has a text under 1024 characters (and without NUL) |
| NestedValues.CutSays | src/odbc/src/timestream_column.cpp:243-249 | the bound is 1023 characters |
| NestedValues.ArrayElementStands | src/odbc/src/timestream_column.cpp:231-261 | element i of an array stands in brackets, behind the elements before it and in front of the others, with commas between |
| NestedValues.RowElementStands | src/odbc/src/timestream_column.cpp:263-296 | the same for a row, in parentheses |
| NestedValues.PointSays | src/odbc/src/timestream_column.cpp:201-220 | a point names its time and then its value; what is not set is left empty |
| NestedValues.PointStands | src/odbc/src/timestream_column.cpp:193-229 | point i of a time series stands in its place in brackets |
| TableMetadata.TableMetadataQuery.GetTables | src/odbc/src/query/table_metadata_query.cpp:391-519 | both modes, branch by branch, give the answer of the one mode-neutral specification |
| TableMetadata.TableMetadataQuery.GetMatchedDatabases | src/odbc/src/query/table_metadata_query.cpp:521-558 | no data is a warning without names, another failure is passed on |
| TableMetadata.TableMetadataQuery.GetMatchedTables | src/odbc/src/query/table_metadata_query.cpp:560-599 | the same for the tables of a database |
| TableMetadata.TableMetadataQuery.GetAllDatabases | src/odbc/src/query/table_metadata_query.cpp:601-633 | one row per database, on the side of the mode |
| TableMetadata.TableMetadataQuery.GetTablesWithIdentifier | src/odbc/src/query/table_metadata_query.cpp:635-727 | the tables of the first database with that name in any case, if their name matches in any case |
| TableMetadata.TableMetadataQuery.GetTablesWithSearchPattern | src/odbc/src/query/table_metadata_query.cpp:729-796 | the tables of every matching database in order, up to the first failing listing |
| TableMetadata.TableMetadataQuery.ValidTableType | src/odbc/src/query/table_metadata_query.cpp:355-371 | some item of the list, trimmed and dequoted, is TABLE, or the list is empty or the wildcard |
| TableMetadata.TableMetadataQuery.MakeRequestGetTablesMeta | src/odbc/src/query/table_metadata_query.cpp:339-389 | the list of table types, the refusal of other types, or the tables |
| TableMetadata.TableMetadataQuery.Execute | src/odbc/src/query/table_metadata_query.cpp:178-196 | result and rows are those of the specification; the rows can be fetched after success and after a warning |
| TableMetadata.TableMetadataQuery.FetchNextRow | src/odbc/src/query/table_metadata_query.cpp:214-241 | hands out the rows in order, once each, then "no data" for ever |
| TableMetadata.TableMetadataQuery.RowNumber | src/odbc/src/query/table_metadata_query.cpp:318-333 | the number of rows fetched so far while a row is current; already 1 before the first fetch |
| ColumnMetadata.ColumnMetadataQuery.MakeRequestGetColumnsMetaPerTable | src/odbc/src/query/column_metadata_query.cpp:550-612 | appends the columns that pass the filter, numbered from one |
| ColumnMetadata.ColumnMetadataQuery.AddColumnsOfEach | src/odbc/src/query/column_metadata_query.cpp:513-524 | the loop over the tables found is the fold over all of them, up to the first that cannot be described |
| ColumnMetadata.ColumnMetadataQuery.GetColumnsWithDatabaseSearchPattern | src/odbc/src/query/column_metadata_query.cpp:475-531 | patterns go through the table query, identifiers describe one table |
| ColumnMetadata.ColumnMetadataQuery.CheckArguments | src/odbc/src/query/column_metadata_query.cpp:175-244 | the refusals before any request, in order; missing patterns become the wildcard |
| ColumnMetadata.ColumnMetadataQuery.Execute | src/odbc/src/query/column_metadata_query.cpp:170-261 | result and rows are those of the specification; the rows can be fetched after success only, so after a warning FetchNextRow is an error and not "no data" |
| ColumnMetadata.ColumnMetadataQuery.FetchNextRow | src/odbc/src/query/column_metadata_query.cpp:278-303 | hands out the rows in order, once each, then "no data" for ever |
| ColumnMetadata.ColumnMetadataQuery.RowNumber | src/odbc/src/query/column_metadata_query.cpp:454-469 | the number of rows fetched so far while a row is current; already 1 before the first fetch |
| CatalogTheorems.TablesMirror | src/odbc/src/query/table_metadata_query.cpp:391-519 | for all arguments, settings and services: databases as catalogs with swapped arguments give the rows of the other mode with catalog and schema swapped, under the same code |
| CatalogTheorems.ColumnsMirror | src/odbc/src/query/column_metadata_query.cpp:170-261 | the same for columns |
| CatalogTheorems.EveryTableInOrder | src/odbc/src/query/table_metadata_query.cpp:745-782 | up to the first failing listing, all tables of all databases in order, and the failing code |
| CatalogTheorems.EveryColumnInOrder | src/odbc/src/query/column_metadata_query.cpp:513-524 | up to the first table that cannot be described, all passing columns of all tables in order; "no data" if there is such a table |
| CatalogTheorems.PassingCounts | src/odbc/src/query/column_metadata_query.cpp:590-597 | a column is listed as often as it was described if the filter is the wildcard or the column's own name, and not at all otherwise |
| CatalogTheorems.OrdinalsRun | src/odbc/src/query/column_metadata_query.cpp:590-597 | every row has ordinal one or the next ordinal in the table of the row before |
| CatalogTheorems.ColumnsOfEveryTable | src/odbc/src/query/column_metadata_query.cpp:475-548 | with search patterns and a service that answers, the result is exactly the passing columns of every selected table, a warning if there are none |
| CatalogTheorems.ColumnsSucceedExactly | src/odbc/src/query/column_metadata_query.cpp:475-548 | with search patterns that are not refused, columns can be fetched if and only if every listing and description succeeds and some selected table has a column that passes the filter |
| CatalogRows.TablesByPattern | src/odbc/src/query/table_metadata_query.cpp:729-796 | with search patterns: the databases that the service lists, each with the tables that the service lists for it, in order; the database is on the schema or the catalog side as the mode says, the other side is empty; no table is a warning |
| CatalogRows.DatabasesOnly | src/odbc/src/query/table_metadata_query.cpp:601-633 | the list of databases: one row for each, on the side of the mode, without a table name |
| CatalogRows.TypesOnly | src/odbc/src/query/table_metadata_query.cpp:339-389 | the list of table types is one row with TABLE and nothing else |
| CatalogRows.NothingListed | src/odbc/src/query/table_metadata_query.cpp:391-519 | a name on the side that names no database, or an empty name, lists nothing, with a warning |
| CatalogRows.TypesChosen | src/odbc/src/query/table_metadata_query.cpp:339-389 | a list of table types lists the tables if it is empty, the wildcard, or has TABLE in it, bare or quoted; otherwise nothing, with a warning |
| CatalogRows.TablesByIdentifier | src/odbc/src/query/table_metadata_query.cpp:635-727 | with identifiers: the tables, named so in any mixture of cases, of the first database named so in any mixture of cases |
| CatalogRows.NoSuchDatabase | src/odbc/src/query/table_metadata_query.cpp:635-727 | without such a database nothing is listed, with a warning |
| CatalogRows.AllNamedCounts | src/odbc/src/query/table_metadata_query.cpp:686-712 | a name is kept as often as it occurs if it is the identifier in any mixture of cases, and not at all otherwise |
| CatalogRows.AllNamedInOrder | src/odbc/src/query/table_metadata_query.cpp:686-712 | the names kept stand in their order |
| CatalogRows.ColumnsByPattern | src/odbc/src/query/column_metadata_query.cpp:475-548 | with search patterns: for every table listed, in order, its passing columns numbered from one, the database on the side of the mode |
| CatalogRows.ColumnsByIdentifier | src/odbc/src/query/column_metadata_query.cpp:550-612 | with identifiers: the passing columns of that one table; no data if it cannot be described |
| CatalogRows.RefusedColumns | src/odbc/src/query/column_metadata_query.cpp:175-244 | the arguments that are refused without a request, and with which code |
| CatalogTheorems.PassingInOrder | src/odbc/src/query/column_metadata_query.cpp:590-597 | passing columns keep their order |
| CursorNameModel.RunsKeepNamesApart | src/odbc/src/connection.cpp:808-836 | after every run of naming and dropping, no two statements share a name |
| CursorNameModel.NameIsFreedAgain | src/odbc/src/connection.cpp:798-836 | after every run a name in use is refused to every statement, its own included; once it is replaced or its statement dropped, the same request succeeds |
| CursorNameModel.RangeAfterNaming | src/odbc/src/connection.cpp:808-823 | erasing the old name and inserting the new one keeps the set the range of the map |
| CursorNameModel.RangeAfterDrop | src/odbc/src/connection.cpp:825-836 | the same for dropping |
| CursorNameModel.GivenLengthsKeepNamesShort | src/odbc/src/statement.cpp:1385-1395 | after every run in which the lengths were given, every name is within the limit |
| CursorNameModel.LimitBindsGivenLengths | src/odbc/src/statement.cpp:1385-1395 | a longer name than the limit is accepted if and only if it is passed up to its terminator |
| CursorNameModel.NameComesWhole | src/odbc/src/statement.cpp:1385-1395 | a name without NUL comes in whole, with its length or up to its terminator |
| CursorNameModel.ReservedExactly | src/odbc/src/statement.cpp:1397-1405 | a name is reserved if and only if it begins with SQL_CUR in any mixture of cases |
| CursorNameModel.GivenNameIsStored | src/odbc/src/statement.cpp:1385-1421 | after every run, a name given with its length is stored exactly if it has at most 18 characters, is not reserved and is no statement's name |
| CursorNameModel.Connection.CursorNameExists | src/odbc/src/connection.cpp:798-806 | answers exactly whether some live statement has the name |
| CursorNameModel.Connection.GetCursorNameInto | src/odbc/src/statement.cpp:1357-1378 | a name is read back whole and with success exactly if it fits, else cut and with a warning; without room for a character nothing is written and its length is told |
| CursorNameModel.Connection.AddCursorName | src/odbc/src/connection.cpp:808-823 | the map gains the name and the set still agrees with it |
| CursorNameModel.Connection.RemoveCursorName | src/odbc/src/connection.cpp:825-836 | the statement is forgotten and the set still agrees with the map |
| CursorNameModel.Connection.SetCursorName | src/odbc/src/statement.cpp:1385-1421 | succeeds exactly if the given length is within the limit, the name is not reserved and not taken |
| IntervalTexts.PrintedIntervalSurvivesExactly | src/odbc/src/app/application_data_buffer.cpp:1087-1100 | for all 32-bit fields, the printed text is scanned back if and only if hour, minute and second take two characters and the fraction nine, a sign included |
| IntervalTexts.ReproducedExactlyWhenCanonical | src/odbc/src/timestream_column.cpp:177-184 | a text is scanned and printed as itself if and only if it is in canonical form: full widths, no needless zeros in the day, no minus in front of a zero |
| IntervalTexts.InRangeFits | src/odbc/src/app/application_data_buffer.cpp:1097-1100 | in range, the text and its terminator fit the 32-byte temporary, and nothing is cut |
| IntervalTexts.PrintSays | src/odbc/src/app/application_data_buffer.cpp:1087-1100 | day, hour, minute, second and fraction in their places, two digits or nine, cut to 31 characters |
| IntervalTexts.FieldsReadBackExactly | src/odbc/src/timestream_column.cpp:177-184 | printed fields, even cut at the end, are scanned back exactly when all of them fit |
| IntervalTexts.PutInterval | src/odbc/src/app/application_data_buffer.cpp:1096-1118 | the text is written with its terminator, cut to the buffer, and its full length reported; either may be missing |

## Left out

- Execute: the caller gives, as a ghost argument, a number of outcomes within which one fails, has rows or is the last; against a service that sends empty pages without end the driver's loop does not end either.
- FetchNextRow: required only where the wait in SwitchCursor can end; the other case is HungForEver. Bound columns are written as one row, so the columns written before a failing one in the same row are not modelled.
- SwitchCursor: the object runs the fetch thread only while it waits; every other schedule is covered by the protocol, of which the object is proved to be a run.
- RunQuery: for chains without an empty page behind rows, as FetchNextRow is; the application's arrays are the same for every block.
- ReadInParts: for buffers with less room the results and lengths are stated, not what stands in the buffer, into which such a call may write nothing.
- InternalFetchRow: bind offsets and the addresses of slots are modelled as an array index.
- GetData: the statement's column number and cell offset stand in an object of their own, which the statement owns, and the cell's text is an argument.
- PutStrToStrBuffer: texts are ASCII and without NUL; with other texts the driver adds a count of characters to a byte position. A wide buffer's length is a multiple of the character size, as the driver asserts.
- ConversionKeepsMeaningExactly: only for patterns without an escaped caret and without the bare metacharacters of groups, brackets, braces, alternatives and anchors, because the regular expression dialect, which the driver does not name, is modelled no further; the loop itself is modelled for every pattern.
- TranslationKeepsMeaning: the same restriction; Any stands for every character, line terminators among them.
- HandleAttributePair: diagnostics and log lines; which directories exist is a parameter, and the size of a string object, which bounds the length of a number, is that of a 64-bit GNU library.
- ToConnectString: the order of the argument map is an argument that must be ascending.
- ParseDatum: columns whose own type is scalar and not text, and failing scalar conversions.
- GetTables: name buffers of limited size and the diagnostics; the metadata setting does not change between construction and execution. RowNumber of an executed but empty tables query, whose iterator the driver leaves unset, is 0.
- SetCursorName: sequential; the driver checks for a duplicate outside the lock. The converted name is ASCII.
- PutInterval: a target of length zero, and the wide and structured targets.
- GetCursorNameInto: negative buffer lengths.
- GetColumn: rows with fewer cells than the result has columns, and the conversion of the cell.
- Re-executing one DataQuery object, Cancel's request to the service, row counters beyond their width, and fetching when the service answers the same token differently.
- Date, time and timestamp conversions, numeric conversions and locale facets: library code.
- Authentication, DSN storage, logging, dialogs, SQLGetInfo tables and entry-point forwarding: input and output, or constants.
