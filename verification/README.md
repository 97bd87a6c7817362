# Verified model of the MQTT viewer's model layer

This project models the parts of the viewer in which something can go wrong without anyone
noticing: two payload decoders, a queue and a subscription protocol shared by two threads, the
message history and its database rows, the stored subscription list, and the smaller structures
the user interface reads from. Each is modelled with the branches, limits and edge cases of the C
code, and what the code is for is proved about it.

Code that changes things in place is modelled by classes and methods with loops; every method is
proved against a function or a predicate, and the theorems are lemmas about those. Protocols that
two threads share are step systems, and the theorems hold for every interleaving.

| files | what they cover |
|---|---|
| `Text`, `LineModel`, `Modular` | C strings and bounded copies, the line table both decoders fill, ring indices |
| `Notation`, `LineOutline` | readers: numbers, hexadecimal and quoted characters by their standards, and the tree a line table shows by its depths, keys and dot paths |
| `CborGrammar`, `CborParser`, `CborRender`, `CborDisplay`, `CborDecoder` | the grammar of RFC 8949 as trees and their bytes, the decoder as functions, the picture of a tree, what a reader gets from it, and the decoder in place |
| `JsonScan`, `JsonFormatter`, `JsonRender`, `JsonDisplay`, `JsonFind` | the lenient formatter as functions and in place, JSON texts as trees with whitespace, what a reader gets from their lines, look-ups by dot path |
| `Subscriptions`, `SubscriptionsRoundTrip` | the printer and parser of the stored subscription list |
| `LineDiff` | the line diff of the inspector |
| `SpscQueue` | the lock-free queue between the network thread and the main thread |
| `Reconnect` | subscribing and reconnecting |
| `MessageRing`, `History`, `HistoryRuns` | the message ring with its payload blocks, the flush, and every run of both |
| `ChartSeries` | the chart window |
| `TopicPaths`, `TopicTree` | the topic tree, its paths and its counts |
| `TopicFilter` | the topic matcher against section 4.7 of MQTT 3.1.1 |
| `CsvExport` | the CSV writer and a reader for section 2 of RFC 4180 |

Main results:

- A payload is accepted as CBOR exactly when the whole of it is one item of the grammar, with the
  two-byte rule of section 3.3 of RFC 8949, at most 63 nested containers, at most 8 directly
  nested tags, and untagged scalar map keys. The lines shown read back, in the diagnostic notation
  of section 8, as the item; cutting a string into chunks, or a wider head, cannot be seen in them.
- The JSON formatter takes every byte string, stays inside it, and leaves depth and path as they
  were; while fewer than 2048 lines result, its brackets nest. The lines of a text of RFC 8259, with
  any whitespace, read back as its tree, commas stand between items and nowhere else, and a dot
  path finds the value's opening line.
- In every interleaving, with either side acting on any stale view of the other's index, the queue
  delivers what was received, in order and without what was dropped, never holds more than its capacity, and no thread touches a
  slot the other is using. Every received message is consumed, queued, dropped and counted, or in
  the network thread's hands.
- Whatever the interleaving of subscribing, connecting and losing the connection, every stored
  filter has been sent since the latest connect once both threads are at rest. This holds for the
  runs over a set of filters if and only if all of them fit the 256-byte slots. Every run that asks
  for a list of filters sends all of them if and only if each also is among the first 32.
- The diff of two texts is correct over the first 256 lines of each, and no correct script keeps
  more of them.
- Over every run of messages, flushes, failed saves, Clear History, disconnects and trims, every
  message is written at most once and in order, and what is missing was lost before any flush or
  failed to save; each message is in exactly one of these places, unchanged. The ring owns each payload block exactly once and frees it when it leaves.
- A stored subscription list reads back unchanged if and only if every topic's escaped literal fits
  a line of the formatter, or loses only its closing quote or half of a last backslash.
- Kept chart samples never number more than 2401, so the overflow branch is dead; the bounds always
  enclose the window and are exact unless marked stale; the newest sample is the farthest of all
  that were offered in its bucket.
- After every run the siblings of the topic tree are distinct if and only if no insert cut a segment
  down to a sibling's name, and then the tree is a prefix-closed set of paths; inserting adds the
  path and everything above it, or changes nothing. A topic just inserted is found if and only if
  none of its segments was cut. Message and subtree counts are exact while fewer than 2^32 messages
  are outstanding.
- The topic matcher agrees with section 4.7 of MQTT 3.1.1 except in exactly two shapes.
- The exported file reads back as the selected records.

Where the code and its comments differ, the model follows the code:

- src/model/cbor_pp.c:263 says that text keys are used verbatim; the code escapes quotes,
  backslashes and control characters in them.
- src/model/cbor_pp.c:47 says that a closing quote must survive truncation; under a tag the
  parenthesis overwrites it when the string fills the buffer (`LostQuote`), and with several tags on
  a full buffer only one parenthesis is left (`CloseAllIs`).
- src/model/chart_series.h:13 counts 2400 samples for the window; `FullWindow` keeps 2401.
- src/model/topic_tree.h:70 says that insert returns NULL when memory runs out; it does so for a
  topic without segments and at the limit of 64 children.
- src/model/json_pp.h:17 says that a line holds a quoted 256-byte topic with a few escapes;
  `TopicSurvives` says exactly which topics that covers.

## Model

| member | source | states |
|---|---|---|
| CborDecoder.CborPpRun | src/model/cbor_pp.c:351-357 | a payload is accepted if and only if some supported item encodes to exactly its bytes; then the table holds its lines, clipped to 2048, with commas between entries only; when fewer than 2048 result and every column fits, the lines read back as the item in diagnostic notation and are marked as numbers where they show one; on failure no lines, depth or path are left |
| CborDisplay.ItemIsDisplayed | src/model/cbor_pp.c:186-349 | the lines of an item that fits its columns read back, by a reader of section 8 of RFC 8949 that knows nothing of the printer, as that item: tags, brackets, lengths, keys, values, depths and dot paths |
| CborDisplay.ScalarReads | src/model/cbor_pp.c:186-261 | the text of a scalar that fits, as value or key, is the diagnostic notation of what the scalar is |
| CborDisplay.KeyReads | src/model/cbor_pp.c:264-278 | a key column is the text of a text key, with its escapes, and otherwise the key in diagnostic notation |
| CborDisplay.ItemCommas | src/model/cbor_pp.c:290-312 | in the lines of every item, cut or not, a comma stands exactly after what another entry of the same container follows |
| CborDisplay.ItemNumbersMarked | src/model/cbor_pp.c:186-261 | a line is marked numeric exactly when its column shows an integer, a finite float, or a quoted number, and no tag |
| CborDisplay.FiniteIsIeee | src/model/cbor_pp.c:200-210 | a float is finite by the exponent field of IEEE 754 |
| CborParser.AcceptanceIsGrammar | src/model/cbor_pp.c:57-357 | the decoder yields a tree and consumes everything exactly when that tree is supported and its encoding is the input |
| CborGrammar.ExampleNumbers | src/model/cbor_pp.c:57-96 | examples of appendix A of RFC 8949: integers, simple values and a float have the bytes given there |
| CborGrammar.ExampleStrings | src/model/cbor_pp.c:174-184 | the same for definite and chunked strings |
| CborGrammar.ExampleItems | src/model/cbor_pp.c:280-349 | the same for arrays, maps, an indefinite array and a tag |
| CborParser.EncodingIsPrefixFree | src/model/cbor_pp.c:324-357 | no encoding of a supported item begins another, so the item in a payload is unique |
| CborParser.ItemSound | src/model/cbor_pp.c:324-349 | whatever is decoded, at any depth and under any number of tags, is in the grammar, within the limits, and is what the consumed bytes encode |
| CborParser.ItemComplete | src/model/cbor_pp.c:324-349 | every item of the grammar within the limits is decoded back from its bytes, whatever follows them |
| CborParser.EntriesComplete | src/model/cbor_pp.c:280-312 | the entries of a container, counted or up to a break, are decoded back in order |
| CborParser.WithinMeasures | src/model/cbor_pp.c:281-282 | the depth and tag checks made on the way down hold exactly when nesting is at most 63 and no tag run exceeds 8 |
| CborParser.HeadSound | src/model/cbor_pp.c:57-96 | a head that is read is the encoding of its major type, width and argument |
| CborParser.HeadComplete | src/model/cbor_pp.c:57-96 | every head, in each of its five widths, is read back |
| CborParser.ChunksComplete | src/model/cbor_pp.c:174-184 | a run of definite chunks and its break are read back |
| CborRender.ChunkingIsInvisible | src/model/cbor_pp.c:57-184 | two items, of any shape, that differ only in how their strings are cut into chunks and how wide their heads are show the same lines |
| CborDecoder.CborDec.ReadHead | src/model/cbor_pp.c:57-96 | reads the head at the cursor and moves past it; fails on reserved and cut heads |
| CborDecoder.CborDec.AppendChunk | src/model/cbor_pp.c:145-171 | appends hex or escaped text of the next n bytes, clipped to the buffer, if there are that many |
| CborDecoder.CborDec.AppendString | src/model/cbor_pp.c:174-184 | appends a definite string or the chunks up to a break; fails on chunks of another type |
| CborDecoder.CborDec.FormatSimple | src/model/cbor_pp.c:186-220 | names simple values, rejects two-byte ones below 32 and a break, and marks finite floats numeric |
| CborDecoder.CborDec.FormatScalar | src/model/cbor_pp.c:223-261 | writes the text, kind and numeric flag of a scalar |
| CborDecoder.CborDec.DecodeKey | src/model/cbor_pp.c:264-278 | reads a map key and its path segment; fails on arrays, maps and tags |
| CborDecoder.CborDec.DecodeItem | src/model/cbor_pp.c:324-349 | appends exactly the lines of the item at the cursor and restores depth and path |
| CborDecoder.CborDec.DecodeContainer | src/model/cbor_pp.c:280-322 | the same for a container, with the early check of its count |
| CborDecoder.CborDec.DecodeEntries | src/model/cbor_pp.c:290-312 | the same for the entries, each but the last followed by a comma |
| CborDecoder.MostNegative | src/model/cbor_pp.c:237-240 | the literal used where adding one would overflow is the decimal of that number |
| CborDecoder.CborOut.Ch | src/model/cbor_pp.c:38-41 | appends a character if it fits with the NUL |
| CborDecoder.CborOut.Str | src/model/cbor_pp.c:43-45 | appends what fits of a string |
| CborDecoder.CborOut.Close | src/model/cbor_pp.c:48-55 | the closing character is the last one, after a beginning of what was there; all of it when there is room, one character less when the buffer is full |
| CborDecoder.CborOut.CloseTags | src/model/cbor_pp.c:345 | closes once for each tag |
| CborRender.TagsShownIffFitting | src/model/cbor_pp.c:340-345 | a tagged value is shown whole with all its parentheses if and only if prefix, text and tags together are shorter than the buffer |
| CborRender.ValueShownIffFitting | src/model/cbor_pp.c:340-345 | the value itself, up to its last character, is shown if and only if it fits with one more place under a tag |
| CborRender.LongTaggedTextLosesItsQuote | src/model/cbor_pp.c:47-55 | a string that fills the buffer loses its closing quote under any tag |
| CborRender.LostQuote | src/model/cbor_pp.c:47-55 | tag 0 on a text of 269 letters or more is such an input: its line ends in a letter and a parenthesis |
| LineModel.LineTable.Emit | src/model/json_pp.c:175-186 | adds one line with clipped fields while there is room; the table stays the clipped form of an unbounded list |
| LineModel.LineTable.PushPath | src/model/json_pp.c:188-202 | a segment is joined with a dot, or left out whole when it does not fit |
| LineModel.LineTable.PopPath | src/model/json_pp.c:204-207 | cuts the path back to a mark |
| LineModel.LineTable.MarkTrailingComma | src/model/json_pp.c:209-211 | puts a comma on the last line only; what that gives is stated by CborDisplay.ItemCommas and JsonDisplay.CommasShown |
| JsonFormatter.RunLen | src/model/json_pp.c:247-253 | total on every string; ends at most one past the source, with depth and path as at the start, and with nested brackets unless the table is full |
| JsonFormatter.JsonPP.FormatValue | src/model/json_pp.c:133-162 | reads one value of any input and appends its lines, restoring depth and path |
| JsonFormatter.JsonPP.FormatObjectContents | src/model/json_pp.c:72-105 | reads members up to the closing brace, always making progress |
| JsonFormatter.JsonPP.FormatArrayContents | src/model/json_pp.c:107-131 | reads elements up to the closing bracket, always making progress |
| JsonFormatter.JsonPP.ScanString | src/model/json_pp.c:22-43 | moves past the closing quote, an escaped character never closing, and copies what fits |
| JsonFormatter.JsonPP.ScanAtom | src/model/json_pp.c:45-59 | moves to the next delimiter and copies what fits |
| JsonFormatter.JsonPP.SkipSpace | src/model/json_pp.c:14-20 | moves past whitespace |
| JsonScan.ValueNests | src/model/json_pp.c:133-162 | whatever the input, a value closes the brackets it opens, at their own depth, unless the table fills up |
| JsonScan.ItemsNest | src/model/json_pp.c:72-131 | the same for the contents of an object or array |
| JsonRender.TextIsShown | src/model/json_pp.c:72-162 | the text of a JSON tree no deeper than the limit, with any whitespace, yields the tree's picture, clipped to the table |
| JsonDisplay.TextReadsBack | src/model/json_pp.c:72-186 | every text of RFC 8259 whose values and keys fit their columns, with whitespace of its section 2, is shown so that a reader of depths, keys, values and dot paths gets the tree back, with commas and numeric marks in place |
| JsonDisplay.CommasShown | src/model/json_pp.c:94-97 | in the lines of every printed tree a comma stands exactly after what another item of the same bracket follows |
| JsonDisplay.TextIsWf | src/model/json_pp.c:14-59 | the formatter takes every text of the grammar of RFC 8259 |
| JsonRender.ValueShown | src/model/json_pp.c:133-162 | the same for a value inside a longer text, at any depth and with any lines before it |
| JsonRender.ItemsShown | src/model/json_pp.c:72-131 | the same for members and elements one after the other |
| JsonFind.Find | src/model/json_pp.c:267-272 | the first line with the path, or none |
| JsonFind.PathFindsItsValue | src/model/json_pp.c:188-272 | when keys are distinct, non-empty, free of dots and within the limits, the path of a value finds its opening line first, never its closing bracket or another value |
| JsonFind.LinesUnder | src/model/json_pp.c:188-207 | all lines of a value have its path or one below it |
| Subscriptions.AppendJsonString | src/platform/db.c:127-159 | writes the closed literal of as many characters as fit, never cutting an escape and stopping only where no more fits; the whole one when there is room for the worst case |
| Subscriptions.Serialize | src/platform/db.c:162-177 | writes the whole list; the computed capacity is never exhausted |
| Subscriptions.Deserialize | src/platform/db.c:179-201 | reads entries up to the first missing topic or a full profile, skipping topics that are not strings, and leaves the profile alone unless the text is an array |
| Subscriptions.LineString | src/model/json_pp.c:297-335 | unescapes a string line, keeping unknown escapes, up to the buffer |
| Subscriptions.UnescapeFits | src/model/json_pp.c:297-335 | the result fits the buffer when all escapes are known or the buffer is as large as the text |
| Subscriptions.FitsIffKnown | src/model/json_pp.c:318-331 | a text fits every buffer if and only if it has no unknown escape |
| Subscriptions.EscapedKnown | src/platform/db.c:127-159 | what the printer writes has only known escapes, wherever it is cut |
| Subscriptions.EscapeUndone | src/platform/db.c:127-159 | unescaping undoes escaping for every text that fits |
| Subscriptions.EscapedReads | src/platform/db.c:127-159 | the escapes are those of section 7 of RFC 8259 |
| SubscriptionsRoundTrip.SaveAndLoad | src/platform/db.c:162-201 | printing a profile's list and parsing it returns the list with each topic as it reads back, always within its 256 bytes, and the same list if and only if every topic survives |
| SubscriptionsRoundTrip.TopicSurvives | src/platform/db.c:127-201 | a topic reads back unchanged exactly when its literal is shorter than 272, or is 272 and does not end in a quote, or is 273 and ends in a backslash |
| SubscriptionsRoundTrip.ReadTopicFits | src/platform/db.c:194-195 | a stored topic of any length reads back into fewer than 256 characters |
| SubscriptionsRoundTrip.ShortTopicsSurvive | src/model/json_pp.h:17 | any topic of up to 134 characters survives |
| SubscriptionsRoundTrip.UnescapeCut | src/model/json_pp.c:297-335 | a literal that was cut unescapes to the whole topic only if nothing or half of a last backslash is missing |
| SubscriptionsRoundTrip.StoredReadsBack | src/platform/db.c:179-201 | whatever stop the parser's loop may take on a stored list, it has read every entry |
| SubscriptionsRoundTrip.TreePrints | src/platform/db.c:162-177 | the stored text is the text of a JSON tree |
| LineDiff.DiffIsCorrectAndOptimal | src/ui/inspector_widget.c:173-210 | of the first 256 lines of each text, the script names every current line in order by its entries that are not removed and every previous one by those not added, kept pairs are equal lines of the texts, missing sides are -1, it fits 512 entries, and it keeps as many lines as the longest common subsequence |
| LineDiff.ScriptIsCorrect | src/ui/inspector_widget.c:193-206 | the backtrack yields a script for every pair of prefixes |
| LineDiff.ScriptIsOptimal | src/ui/inspector_widget.c:193-206 | no script keeps more lines |
| LineDiff.DiffOfCut | src/ui/inspector_widget.c:174-175 | cutting both texts to 256 lines changes nothing about which scripts are diffs |
| LineDiff.LcsIsUpperBound | src/ui/inspector_widget.c:177-190 | the table's value bounds the length of every common subsequence |
| LineDiff.DiffTables.Fill | src/ui/inspector_widget.c:177-190 | the table holds the longest common subsequence of every pair of prefixes |
| LineDiff.DiffTables.Backtrack | src/ui/inspector_widget.c:192-206 | the temporary array holds the script backwards |
| LineDiff.DiffTables.DiffCompute | src/ui/inspector_widget.c:173-210 | the result array holds a best diff of the two texts |
| SpscQueue.QueueIsSafe | src/model/spsc_queue.c:23-45 | in every run the popped elements are a prefix of the pushed ones, at most `capacity` are inside, and the slot being written is not the one being read |
| SpscQueue.DeliveredInOrder | src/core/mqtt_client.c:110-137 | in every run what was pushed is the messages the steps received, in order, without the dropped ones and the one in hand, and what was popped begins it; with nothing dropped or in hand it is all of them |
| SpscQueue.NothingIsLost | src/core/mqtt_client.c:110-137 | in every run received = consumed + queued + dropped + the one in hand |
| SpscQueue.StepKeepsInv | src/model/spsc_queue.c:23-45 | the invariant survives every step, stale loads and half-written slots included |
| SpscQueue.RefusalMeansFull | src/model/spsc_queue.c:23-33 | in every run a push is refused exactly when the pops it has seen leave `capacity` elements inside |
| SpscQueue.EmptyMeansEmpty | src/model/spsc_queue.c:35-45 | in every run a pop finds nothing exactly when it has taken every push it has seen |
| SpscQueue.CountIsExact | src/model/spsc_queue.c:56-63 | in every run the count either thread takes, with any value it may see of the other's index, is the pushes less the pops it has seen, and at most the capacity |
| Reconnect.StoredFiltersAreSent | src/core/mqtt_client.c:71-88 | in every run over filters shorter than 256, connected and at rest, every stored filter has been sent since the connect |
| Reconnect.RunKeepsLedger | src/core/mqtt_client.c:60-108 | requests, slots, attempts and the connection are what the steps of the run alone say: since the last connect, the last acknowledgement, and so on |
| Reconnect.RequestedFiltersAreSent | src/core/mqtt_client.c:402-426 | in every such run the first 32 filters asked for have been sent, however many were asked for |
| Reconnect.NoneLostIffFitting | src/core/mqtt_client.c:402-426 | over a set of filters no run loses a stored one, if and only if all of them are shorter than 256 |
| Reconnect.OverlongFilterIsLost | src/core/mqtt_client.c:402-426 | a longer filter is sent whole but stored cut, and the stored one is not sent |
| Reconnect.OnlyTheFirst32MayBeSent | src/core/mqtt_client.c:402-426 | for any filters asked for while connecting a run exists in which only the first 32, cut to their slots, are sent |
| Reconnect.AllSentIffFirstAndFitting | src/core/mqtt_client.c:71-426 | every run that asks for a list of filters sends all of them, if and only if each fits its slot and is among the first 32 of the list |
| Reconnect.StepKeepsInv | src/core/mqtt_client.c:71-108 | every stored filter is sent or about to be sent by one of the threads, after every step |
| Reconnect.StepKeepsTracked | src/core/mqtt_client.c:402-426 | the slots hold the first 32 requests in order |
| MessageRing.MessageBuf.constructor | src/model/message_buf.c:10-16 | an empty ring that owns nothing |
| MessageRing.MessageBuf.Push | src/model/message_buf.c:18-35 | appends a copy and drops the oldest when full, freeing its payload; every live block is held by one slot of the window |
| MessageRing.MessageBuf.Clear | src/model/message_buf.c:37-46 | empties the ring and frees every block |
| MessageRing.MessageBuf.RemoveTopic | src/model/message_buf.c:48-69 | removes exactly the topic's messages in order, frees their blocks once, and raises the generation only if something went |
| MessageRing.MessageBuf.Get | src/model/message_buf.c:77-83 | the message at a position of the window, or none |
| MessageRing.FreedOwns | src/model/message_buf.c:20-25 | freeing the block of a slot that leaves keeps ownership of all the others |
| MessageRing.ScanNext | src/model/message_buf.c:51-63 | one round of the compaction loop keeps the kept messages, the unseen ones and their blocks apart from the stale copies behind |
| History.FlushHistory | src/platform/db.c:637-657 | writes, of the unsaved messages of the ring, message i exactly when batch i / 256 is saved, in order, and marks all as saved |
| History.BatchesByMessage | src/platform/db.c:645-656 | a failed batch stops nothing: the later ones are still written |
| History.ClearTopic | src/main.c:251-264 | the ring and, if the delete works, the rows lose exactly the topic, after what was waiting has been written; the counter is back in step |
| History.Disconnect | src/main.c:267-272 | an empty ring and a counter in step |
| HistoryRuns.WrittenOnceInOrder | src/platform/db.c:637-657 | over every run what is written is strictly increasing in arrival order, and every message is written, failed, lost or waiting |
| HistoryRuns.InOnePlaceOnly | src/platform/db.c:637-657 | over every run each message is in exactly one place, once: written, failed, lost or waiting |
| HistoryRuns.RowsHoldEachOnce | src/platform/db.c:637-657 | over every run, deletes and trims included, the rows hold each new message at most once, in arrival order, and only if it was written |
| HistoryRuns.NothingIsAltered | src/platform/db.c:637-657 | over every run, what is in the ring, in the rows or written is a message the run pushed, with its topic and payload |
| HistoryRuns.LostOnlyWhenFullOrLeaving | src/model/message_buf.c:18-46 | nothing leaves the ring unwritten but by a push into a full ring or a disconnect |
| HistoryRuns.OnlyLostOnesAreMissing | src/platform/db.c:637-657 | if saves succeed, only messages that left the ring before a flush are missing |
| HistoryRuns.ClearedEverywhere | src/main.c:251-264 | after Clear History the ring does not hold the topic, the rows do not if and only if the delete worked or there was nothing to delete, and everything else is still there |
| HistoryRuns.StepKeepsInv | src/main.c:76-272 | each step keeps the counter, the ring and the written rows in step |
| HistoryRuns.Handle | src/main.c:251-272 | each handler, on the real ring and table, is one step of the runs |
| ChartSeries.Series.constructor | src/model/chart_series.c:12-29 | an active series without samples |
| ChartSeries.Series.PushSample | src/model/chart_series.c:31-84 | ignores what is not finite or not newer, replaces the newest sample of the open bucket only by one farther from the reference, otherwise drops what is too old and appends; spacing, span, bounds and farthest value are kept |
| ChartSeries.Series.RecomputeMinMax | src/model/chart_series.c:86-105 | afterwards the bounds are the exact extrema |
| ChartSeries.Series.Get | src/model/chart_series.c:107-111 | the sample at a position of the window, or none |
| ChartSeries.WindowFits | src/model/chart_series.h:13-25 | samples 50 ms apart over at most 120 s are at most 2401 |
| ChartSeries.RecentIsExact | src/model/chart_series.c:52-58 | eviction drops exactly the samples more than 120 s older than the new one |
| ChartSeries.FullWindow | src/model/chart_series.h:13-25 | a run of pushes that keeps 2401 samples |
| ChartSeries.WindowBoundReached | src/model/chart_series.h:13-25 | 2401 samples meet the spacing and the span |
| ChartSeries.OldestLeaves | src/model/chart_series.c:57-70 | dropping the oldest sample keeps enclosing bounds, exact unless it was an extremum |
| ChartSeries.BoundsAppended | src/model/chart_series.c:75-83 | widening the bounds by the new sample keeps them |
| TopicPaths.InsertRefines | src/model/topic_tree.c:60-87 | an insert adds the path, each segment cut to 127 characters, and its beginnings to the set of paths and nothing else, returns the node of the path, refuses exactly when there is no segment or a level is full, and then changes nothing |
| TopicPaths.FindIsMembership | src/model/topic_tree.c:89-110 | with distinct siblings find succeeds exactly on the paths in the tree and returns their node |
| TopicPaths.InsertedIsFoundIffShort | src/model/topic_tree.c:60-110 | a topic just inserted is found, as the node returned, if and only if all its segments are shorter than 128 |
| TopicPaths.NodesCountPaths | src/model/topic_tree.c:138-140 | the number of nodes is the number of paths |
| TopicPaths.PathsArePrefixClosed | src/model/topic_tree.c:60-87 | everything above a path is in the set |
| TopicPaths.FailedInsertKeepsTree | src/model/topic_tree.c:72-80 | an insert without a node has changed nothing, whatever the segments |
| TopicPaths.RefusedWhenFull | src/model/topic_tree.c:74-76 | refusal happens exactly when the first missing level is beside 64 others in the set |
| TopicPaths.DistinctUnlessColliding | src/model/topic_tree.c:71-80 | siblings stay distinct if and only if the first missing segment, cut to 127 characters, names no sibling |
| TopicPaths.CollidesInPaths | src/model/topic_tree.c:71-80 | whether an insert collides can be told from the set of paths |
| TopicPaths.LongSegmentIsDuplicated | src/model/topic_tree.c:71-80 | a segment of 128 characters or more makes two equal siblings when it is inserted twice into an empty tree |
| TopicPaths.GrowPath | src/model/topic_tree.c:60-87 | the node returned has the topic's segments, each cut to what a node holds |
| TopicPaths.AddKeepsWellFormed | src/model/topic_tree.c:9-43 | a new child keeps parents before children, children and parents naming each other, and at most 64 per level |
| TopicTree.TreeIsItsPaths | src/model/topic_tree.c:60-140 | after every run of inserts, counts and clears siblings are distinct if and only if no insert clashed, and then the tree is the set of paths the inserts describe, and total_count its size |
| TopicTree.ShortTopicsNeverClash | src/model/topic_tree.c:60-87 | runs whose segments are all shorter than 128 never clash |
| TopicTree.FoundIffInserted | src/model/topic_tree.c:89-110 | after every run without a clash find succeeds exactly on that set |
| TopicTree.CountsStayExact | src/model/topic_tree.c:112-136 | after every run that never has 2^32 messages outstanding each node shows the messages counted on it since its last clear, and its subtree count is the sum of those below it |
| TopicTree.FewCountsHaveRoom | src/model/topic_tree.c:112-136 | runs with fewer than 2^32 counts never have that many outstanding |
| TopicTree.CountKeepsExact | src/model/topic_tree.c:112-117 | counting keeps the sums, without wrapping below 2^32 |
| TopicTree.ClearKeepsExact | src/model/topic_tree.c:119-136 | clearing takes exactly the cleared messages from the node and everything above it; the subtraction never stops at zero early |
| TopicTree.TokensAreLevels | src/model/topic_tree.c:68-85 | the segments of a topic are its levels without the empty ones |
| TopicTree.PathFindsNode | src/model/topic_tree.c:162-186 | the full path of a node at most 64 levels deep is its segments joined by slashes, and finding it returns the node |
| TopicTree.TopicIndex.constructor | src/model/topic_tree.c:45-51 | an empty tree |
| TopicTree.TopicIndex.FindChildOf | src/model/topic_tree.c:29-36 | the first child with the segment, or none |
| TopicTree.TopicIndex.MakeChild | src/model/topic_tree.c:9-43 | adds a node with the cut segment and links it both ways |
| TopicTree.TopicIndex.InsertTopic | src/model/topic_tree.c:60-87 | the tree and node that inserting the topic's segments gives |
| TopicTree.TopicIndex.FindTopic | src/model/topic_tree.c:89-110 | the node the segments lead to, or none |
| TopicTree.TopicIndex.CountMessage | src/model/topic_tree.c:112-117 | raises the node's count and every subtree count up to the root, 32 bits wide |
| TopicTree.TopicIndex.ClearMessages | src/model/topic_tree.c:119-136 | takes the node's count from every subtree count up to the root, saturating, and returns it |
| TopicTree.TopicIndex.FullPath | src/model/topic_tree.c:162-186 | as many whole segments of the last 64 as fit the buffer, joined by slashes; an empty buffer is left alone |
| TopicFilter.MatchesExactly | src/model/subscription.c:7-49 | for valid filters and topics the answer is the standard's, except where the topic's last level meets '+' and is empty or has only '#' after it |
| TopicFilter.OverlookedOccur | src/model/subscription.c:7-49 | both exceptions occur with every prefix level |
| TopicFilter.WalkIsLevels | src/model/subscription.c:11-45 | the character loop decides level by level |
| TopicFilter.TopicMatches | src/model/subscription.c:7-49 | the two cursors compute that walk |
| CsvExport.SelectedByLevels | src/model/csv_export.c:9-16 | for a prefix that is not empty a record is selected exactly when its levels begin the topic's |
| CsvExport.SelectedBelongs | src/model/csv_export.c:9-16 | and for an empty prefix every record is |
| CsvExport.FileReadsBack | src/model/csv_export.c:40-58 | reading the file by section 2 of RFC 4180 gives the headings and then the columns of the selected records |
| CsvExport.FileIsShown | src/model/csv_export.c:40-58 | those are, oldest first, exactly the records whose topic the prefix's levels begin, each with its stamp, topic, QoS and flag as decimal numbers, and payload, NUL bytes as spaces |
| CsvExport.RowReadsBack | src/model/csv_export.c:49-54 | a row reads back as the record's five columns, whatever follows |
| CsvExport.FieldReadsBack | src/model/csv_export.c:19-30 | a field, quoted or not, reads back as the text the writer cleaned |
| CsvExport.FieldShows | src/model/csv_export.c:19-30 | that is the text itself, with a space for every NUL |
| CsvExport.Stream.WriteField | src/model/csv_export.c:19-30 | writes the whole field, or a beginning of it when the stream fails |
| CsvExport.Stream.WriteRow | src/model/csv_export.c:49-54 | writes the whole row, or a beginning of it when the stream fails |
| CsvExport.ExportCsv | src/model/csv_export.c:40-58 | writes the whole file, which reads back as the chosen records, and returns their number, or returns -1 with a beginning of it when the stream fails |

## Left out

- User interface: drawing, input, and the rest of src/ui and src/platform/ui.c.
- Floating point text: fmt_double and decode_half are one opaque function of the bits, strtod is a parameter, and doubles are reals, so rounding is not modelled. SaveAndLoad assumes that strtod reads back decimal integers.
- CborDisplay.ItemIsDisplayed: columns that are cut, of which CborRender says what is left. A text key and a key that is a number or a name can look alike; the key column is read as each. PrintsFloats takes from fmt_double that a float that is not finite is shown by name and any other with a point or an exponent.
- JsonDisplay.TextReadsBack: columns that are cut; for them TextIsShown and CommasShown hold.
- JsonRender.TextIsShown: trees deeper than the limit of 64 and texts beyond INT32_MAX bytes are covered only by RunLen and ValueNests.
- JsonFind.PathFindsItsValue: duplicate, empty or dotted keys and paths beyond 127 characters make paths ambiguous; for them only Find is stated.
- Subscriptions.LineString: the model writes into an unbounded string, so for an unknown escape on the last free place of a buffer its result is one character too long (`FitsIffKnown`); what the code's write past the buffer does is not part of this model. Stored lists have no unknown escapes (`ReadTopicFits`).
- Subscriptions.Deserialize: for lines with unknown escapes a topic may therefore come out one character too long; and converting a QoS outside 0..255 to a byte has no defined value in C, where the model takes 0.
- json_pp_looks_like_json, json_pp_number_at, the cached run and the JSON text cache: easy members.
- LineDiff.DiffTables.DiffCompute: lines arrive as their depth and text; formatting them and cutting them to 192 bytes is not part of this model.
- SpscQueue.QueueIsSafe: drain is a series of pops; destroy and allocation are left out.
- Reconnect.StoredFiltersAreSent: unsubscribing, the table of pending acknowledgements, the ssh tunnel, TLS and the failure paths of connect are left out; the MQTT library is the list of attempts.
- MessageRing.MessageBuf.Push: timestamp, QoS, flags and stored length of a record are one number; payloads are kept whole; counters are unbounded.
- History.FlushHistory: a missing database handle; SQL is a sequence of rows on which saving and deleting succeed or fail as a whole. The trim after a flush is the separate step Trim, which may remove any rows.
- The Clear History handler's total of messages and the throughput figures of src/main.c.
- ChartSeries.Series.PushSample: the branch for a full array is shown to be unreachable and has no effect in the model.
- TopicTree.TopicIndex.InsertTopic: nodes are a pool addressed by position instead of by pointer; display flags, timestamps, badges and the payload snapshot of a node are left out.
- TopicTree.TreeIsItsPaths: once an insert has clashed the tree is no longer a set of paths; from then on only its shape, its counts, GrowPath and FailedInsertKeepsTree are stated.
- TopicPaths.InsertRefines: starts from a tree with distinct siblings, as every tree before a clash is.
- CsvExport.FileReadsBack: the timestamp text is any text that needs no quotes. The reader is laxer than the grammar of section 2 of RFC 4180: it takes control characters and bytes above 0x7E as text, which TEXTDATA there excludes and the writer does not.
- Pool and arena allocators, the connection log, version, export path, update check and broker profile files, and SQL schema and search.
