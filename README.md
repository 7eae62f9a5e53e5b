# The Silent Buyout backend: event ingestion and ordering, modelled in Dafny

The backend keeps the story of an interactive narrative as rows of an
`events` table. Each row has an `event_order`, a `delay`, an `action`, an
optional actor and text, a voice, a prompt and a JSON `misc_data`. Several
scripts and one server put rows into the table, number them and read them
back. This project models their decision logic over an in-memory event
store and proves what each of them promises.

| module | file | what it models |
|---|---|---|
| `JsValues` | js_values.dfy | JSON values as the scripts see them: property reads, truthiness, `x \|\| d` |
| `Text` | text.dfy | ECMAScript white space, `trim`, and the character order `Array.prototype.sort` uses on strings |
| `EventStore` | event_store.dfy | the `events` table as a class `Store`. It has NOT NULL and integer checks on the statement, a uniqueness rule on `event_order`, a per-chapter delete, and begin/commit/rollback |
| `DbReplies` | db_replies.dfy | the shape of the driver's reply to a one-row SELECT, and the two ways the scripts read a value out of it |
| `ValidateEvents` | validate_events.dfy | `tools/validate_events.js`: the per-event checks, pass/fail and the action histogram |
| `IngestChapter` | ingest_chapter.dfy | `ingest_chapter.js`: the `max+i` order allocation without a transaction, and the quote-doubling SQL fallback |
| `CommandLine` | command_line.dfy | `argv` flag lookup and `parseInt(s, 10)` |
| `IngestEvents` | ingest_events.dfy | `tools/ingest_events.js`: the argument checks and the begin / delete chapter / insert / commit-or-rollback transaction |
| `AudioFiles` | audio_files.dfy | `server_full.js`: `path.basename`, the file-name sanitiser and the voice mapping |
| `WavStub` | wav_stub.dfy | `server_full.js`: the 44-byte little-endian header of the silent WAV stub, written into a buffer field by field |
| `AudioBatch` | audio_batch.dfy | `server_full.js`: `POST /api/audioLogs/batch`, covering per-entry synthesis, order allocation and per-item results |
| `Seeding` | seeding.dfy | `server_full.js`: `populateDatabase`, which seeds the 24 opening events only into an empty table |
| `Listing` | listing.dfy | `server_full.js`: `GET /api/events`, which returns rows ascending by `event_order` |
| `ExtractChapter` | extract_chapter.dfy | `tools/extract_chapter.js`: chapter selection, paragraph cleaning, greedy 650-character packing and the numbered scaffold |
| `Migrations` | run_migrations.dfy | `tools/run_migrations.js`: keep `*.sql`, sort, and apply each once with per-file failure isolation |

The only schema in the repository declares `event_order` globally unique
(`server_full.js:329`). `tools/ingest_events.js` writes a `chapter` column
that this schema lacks, and its replace mode only makes sense if orders are
unique per chapter. The store therefore takes the uniqueness rule as a
parameter:
- `Global`: no two rows share an order.
- `PerChapter`: no two rows of the same chapter share an order. Following SQL NULL semantics, rows without a chapter never clash.

Each lemma about ingestion holds for both rules unless it names one.

Calls the model cannot see are inputs to the model:
- the database connection, its queries and their failures;
- the text-to-speech service;
- the file system;
- `JSON.stringify`;
- the clock and `Math.random` behind default file names.

These appear as booleans, as sets of the indices that fail, or as function parameters. Each promise below holds for every value of those inputs.

## Model

| member | source | states |
|---|---|---|
| JsValues.Or | thesilentbuyout.com/backend/tools/ingest_events.js:39-40 | `v \|\| d` is the value itself when it is truthy and the default otherwise |
| JsValues.Prop | thesilentbuyout.com/backend/tools/ingest_events.js:39-40 | a property read yields a value iff the value is an object that has the key, and then the key's value |
| JsValues.Truthy | thesilentbuyout.com/backend/tools/ingest_events.js:39-40 | JavaScript truthiness: undefined, null, false, 0, NaN and '' are falsy, every other value is truthy |
| JsValues.IsNumber | thesilentbuyout.com/backend/tools/validate_events.js:26-27 | `typeof v === 'number'`: the value is present and a number (NaN included) |
| JsValues.IsObject | thesilentbuyout.com/backend/tools/validate_events.js:28 | `typeof v === 'object' && v !== null`: the value is an array or an object; undefined, null and the primitives fail |
| EventStore.RowOf | thesilentbuyout.com/backend/server_full.js:316-330 | an admissible statement becomes a row with its chapter, integer order, delay, action and misc value |
| EventStore.TryInsert | thesilentbuyout.com/backend/server_full.js:316-330 | an INSERT succeeds iff the connection does not fail, the NOT NULL columns are given, the order is an integer and no stored row clashes under the uniqueness rule. On success exactly that row is appended |
| EventStore.ConsistentAppend | thesilentbuyout.com/backend/server_full.js:329 | appending a row that fits keeps the table free of order clashes |
| EventStore.MaxOrder | thesilentbuyout.com/backend/server_full.js:198 | `COALESCE(MAX(event_order),0)` bounds every stored order, is attained by one when rows exist, and is 0 on an empty table |
| EventStore.AboveMaxFits | thesilentbuyout.com/backend/ingest_chapter.js:23-28 | a row numbered above the maximum never clashes, under either uniqueness rule |
| EventStore.OfChapter | thesilentbuyout.com/backend/tools/ingest_events.js:33 | the rows of chapter c, all tagged c |
| EventStore.WithoutChapter | thesilentbuyout.com/backend/tools/ingest_events.js:33 | what `DELETE ... WHERE chapter = ?` leaves: only rows of other chapters, each one a stored row |
| EventStore.OfChapterAppend | thesilentbuyout.com/backend/tools/ingest_events.js:33 | selecting a chapter distributes over concatenation, so the order of rows is kept |
| EventStore.WithoutChapterAppend | thesilentbuyout.com/backend/tools/ingest_events.js:33 | deleting a chapter distributes over concatenation |
| EventStore.ChapterSplit | thesilentbuyout.com/backend/tools/ingest_events.js:33 | after the delete no row of c remains, deleting again changes nothing, and the deleted and kept rows together account for every row |
| EventStore.AllOfChapter | thesilentbuyout.com/backend/tools/ingest_events.js:33 | rows that are all of chapter c are exactly what the delete removes |
| EventStore.WithoutChapterKeeps | thesilentbuyout.com/backend/tools/ingest_events.js:33 | deleting rows never creates an order clash |
| EventStore.Store.constructor | thesilentbuyout.com/backend/server_full.js:316-330 | a new table is empty, and so is its snapshot |
| EventStore.Store.Insert | thesilentbuyout.com/backend/tools/ingest_events.js:36-41 | the table grows by the statement's row exactly when `TryInsert` succeeds, and is unchanged otherwise |
| EventStore.Store.DeleteChapter | thesilentbuyout.com/backend/tools/ingest_events.js:33 | the table becomes `WithoutChapter`, and the reported count is the number of rows of c it held |
| EventStore.Store.Begin | thesilentbuyout.com/backend/tools/ingest_events.js:30 | the snapshot is the current table |
| EventStore.Store.Commit | thesilentbuyout.com/backend/tools/ingest_events.js:43 | the table is kept and becomes the new snapshot |
| EventStore.Store.Rollback | thesilentbuyout.com/backend/tools/ingest_events.js:46 | the table returns to the snapshot taken at `Begin` |
| DbReplies.MaxOrderReply | thesilentbuyout.com/backend/ingest_chapter.js:24 | the driver's reply to the MAX query is one row object carrying the maximum |
| DbReplies.CountReply | thesilentbuyout.com/backend/server_full.js:333 | the driver's reply to the COUNT query is one row object carrying the number of rows |
| DbReplies.NestedRead | thesilentbuyout.com/backend/server_full.js:198 | the `[[{ x }]]` destructuring throws unless the first element of the reply is itself iterable |
| DbReplies.FirstOf | thesilentbuyout.com/backend/server_full.js:198 | one level of array destructuring: an array yields its first item (undefined when empty), a string its first character, and anything else throws |
| DbReplies.Field | thesilentbuyout.com/backend/server_full.js:198 | object destructuring `{ column } = v` throws exactly when v is undefined or null, and otherwise reads the property |
| DbReplies.RowRead | thesilentbuyout.com/backend/server_full.js:198 | the corrected read of the first row's column (of `maxOrder` here and of `count` at line 333): it throws exactly when there is no row or the row is null, and otherwise yields the column |
| DbReplies.NestedReadThrowsOnRows | thesilentbuyout.com/backend/server_full.js:198 | on a reply made of row objects, the nested destructuring always throws a TypeError |
| DbReplies.RowReadYieldsValue | thesilentbuyout.com/backend/server_full.js:198 | on the same reply, reading the first row's column yields the value |
| DbReplies.NestedReadFitsRowArrays | thesilentbuyout.com/backend/server_full.js:198 | the nested pattern only works for a driver that returns rows as arrays inside an array |
| Text.IsSpace | thesilentbuyout.com/backend/tools/extract_chapter.js:36 | the ECMAScript WhiteSpace and LineTerminator code points that `trim` and `\s` recognise |
| Text.TrimStart | thesilentbuyout.com/backend/tools/extract_chapter.js:36 | the result is a suffix of the input, everything removed is white space, and it does not start with white space |
| Text.TrimEnd | thesilentbuyout.com/backend/tools/extract_chapter.js:36 | the result is a prefix of the input, everything removed is white space, and it does not end with white space |
| Text.Trim | thesilentbuyout.com/backend/tools/extract_chapter.js:36 | the result is a slice of the input with only white space before and after it, and has no white space at either end. Text without white space is unchanged |
| Text.TrimStartKeepsText | thesilentbuyout.com/backend/tools/extract_chapter.js:36 | removing leading white space keeps every other character, in order |
| Text.EndsTrimmed | thesilentbuyout.com/backend/tools/extract_chapter.js:36 | trimming the end and then the start leaves the slice between a white-space prefix and a white-space suffix |
| Text.TrimEndKeepsText | thesilentbuyout.com/backend/tools/extract_chapter.js:36 | removing trailing white space keeps every other character, in order |
| Text.TrimKeepsText | thesilentbuyout.com/backend/tools/extract_chapter.js:36 | trimming keeps every character that is not white space, in order |
| Text.NonSpaceAppend | thesilentbuyout.com/backend/tools/extract_chapter.js:55 | dropping white space distributes over concatenation |
| Text.NonSpaceOfSpaces | thesilentbuyout.com/backend/tools/extract_chapter.js:55 | a text of white space only has no other characters |
| Text.TrimFixes | thesilentbuyout.com/backend/tools/extract_chapter.js:36 | trimming an already trimmed string changes nothing, so trimming is idempotent |
| Text.LexLeTotal | thesilentbuyout.com/backend/tools/run_migrations.js:22 | any two names are ordered one way or the other by the default sort |
| Text.LexLe | thesilentbuyout.com/backend/tools/run_migrations.js:22 | the order the default `.sort()` puts strings in: character by character, a proper prefix first |
| Text.LexLeTransitive | thesilentbuyout.com/backend/tools/run_migrations.js:22 | the default string order is transitive |
| ValidateEvents.MissingViolations | thesilentbuyout.com/backend/tools/validate_events.js:23 | the missing-key reports of one event all carry its index |
| ValidateEvents.Found | thesilentbuyout.com/backend/tools/validate_events.js:24-28 | a type or duplicate check never reports a missing key |
| ValidateEvents.TypeViolations | thesilentbuyout.com/backend/tools/validate_events.js:24-28 | the type and duplicate reports of one event carry its index and are never missing-key reports |
| ValidateEvents.EventViolations | thesilentbuyout.com/backend/tools/validate_events.js:22-29 | every report for one event carries that event's index |
| ValidateEvents.Violations | thesilentbuyout.com/backend/tools/validate_events.js:20-29 | the report for a list of events: each event's messages, given the orders of the events before it, in event order. `ViolationsAt` and `PassIffWellFormed` characterise it |
| ValidateEvents.Actions | thesilentbuyout.com/backend/tools/validate_events.js:33 | one `action` read per event, in order |
| ValidateEvents.CountActions | thesilentbuyout.com/backend/tools/validate_events.js:33 | the `reduce` loop into `{}` builds exactly the accumulator `Histogram` describes, inherited `Object.prototype` names included |
| ValidateEvents.Lookup | thesilentbuyout.com/backend/tools/validate_events.js:33 | `m[a] \|\| 0` is 0 for a new ordinary action and the inherited method for a new `Object.prototype` method name |
| ValidateEvents.PlusOne | thesilentbuyout.com/backend/tools/validate_events.js:33 | `+ 1` adds one occurrence, numerically on a count and as an appended "1" on a function's text |
| ValidateEvents.Histogram | thesilentbuyout.com/backend/tools/validate_events.js:33 | the accumulator after the `reduce`, an ignored assignment for `__proto__`. `HistogramKeys`, `HistogramValues` and `HistogramTotal` characterise it |
| ValidateEvents.CheckKeys | thesilentbuyout.com/backend/tools/validate_events.js:23 | the key loop reports each of the 8 required keys the event lacks, without stopping at the first |
| ValidateEvents.CheckTypes | thesilentbuyout.com/backend/tools/validate_events.js:24-28 | the duplicate, `event_order`, `delay` and `misc_data` checks report what the specification functions find, and the event's order joins the seen set |
| ValidateEvents.CheckEvent | thesilentbuyout.com/backend/tools/validate_events.js:22-29 | one `forEach` step reports exactly the event's violations and adds its order to the seen set |
| ValidateEvents.TypeViolationsAll | thesilentbuyout.com/backend/tools/validate_events.js:24-28 | the four checks run in source order and each may report |
| ValidateEvents.CheckEvents | thesilentbuyout.com/backend/tools/validate_events.js:20-35 | over an array of records, the loop reports every violation of every event and prints the histogram iff nothing was reported. Otherwise it crashes at the first non-record, after reporting the events before it |
| ValidateEvents.Validate | thesilentbuyout.com/backend/tools/validate_events.js:9-36 | no argument gives 1, an unreadable file exits 1, invalid JSON gives 2 and a non-array gives 3, all before any event check. Exit 0 holds iff the array holds only records and is well formed |
| ValidateEvents.IsRecord | thesilentbuyout.com/backend/tools/validate_events.js:23 | the items `k in ev` accepts: objects and arrays. On any other item the `in` operator throws a TypeError |
| ValidateEvents.HasKey | thesilentbuyout.com/backend/tools/validate_events.js:23 | `k in ev` on a record: the key is one of the item's own fields |
| ValidateEvents.ExitCode | thesilentbuyout.com/backend/tools/validate_events.js:10-36 | the exit code is 0 exactly when the file was checked with no violation. Otherwise it is one of 1 to 4 |
| ValidateEvents.WellFormedSnoc | thesilentbuyout.com/backend/tools/validate_events.js:21-29 | a list is well formed iff its prefix is, its last event passes, and that event's order is new |
| ValidateEvents.SeenOfIsOrders | thesilentbuyout.com/backend/tools/validate_events.js:21-25 | the seen set holds exactly the primitive orders of the events so far (object orders never compare equal in a JS `Set`) |
| ValidateEvents.MissingViolationsAt | thesilentbuyout.com/backend/tools/validate_events.js:23 | a missing-key report exists iff that required key is absent from the event |
| ValidateEvents.MissingViolationsEmpty | thesilentbuyout.com/backend/tools/validate_events.js:23 | no missing-key report iff every required key is present |
| ValidateEvents.TypeViolationsAt | thesilentbuyout.com/backend/tools/validate_events.js:24-28 | a type report exists iff one of the checks finds exactly that problem |
| ValidateEvents.EventViolationsAt | thesilentbuyout.com/backend/tools/validate_events.js:22-29 | a report for an event exists iff its problem holds for that event and the orders seen before |
| ValidateEvents.HoldsIffFound | thesilentbuyout.com/backend/tools/validate_events.js:24-28 | a non-key problem holds iff some check reports it |
| ValidateEvents.ViolationsAt | thesilentbuyout.com/backend/tools/validate_events.js:22-29 | a report is in the output iff its problem holds at its index, given the orders of the earlier events |
| ValidateEvents.UnseenIffNew | thesilentbuyout.com/backend/tools/validate_events.js:24-25 | a primitive order is absent from the seen set iff no earlier event has it |
| ValidateEvents.EventViolationsEmpty | thesilentbuyout.com/backend/tools/validate_events.js:22-29 | an event draws no report iff it passes every check and its order was not seen |
| ValidateEvents.PassIffWellFormed | thesilentbuyout.com/backend/tools/validate_events.js:19-31 | validation passes iff every event has the 8 keys, numeric `event_order` and `delay`, an object `misc_data`, and an order no earlier event has |
| ValidateEvents.MissingKeysAllReported | thesilentbuyout.com/backend/tools/validate_events.js:22-23 | every missing key of every event is reported, and nothing else is reported as missing |
| ValidateEvents.DuplicateAtLaterOccurrence | thesilentbuyout.com/backend/tools/validate_events.js:24-25 | a duplicate is reported at the second and later occurrences of a primitive order, never at the first |
| ValidateEvents.DelayOnlyTypeChecked | thesilentbuyout.com/backend/tools/validate_events.js:27 | `delay` is reported iff it is not a number, so negative and fractional delays pass |
| ValidateEvents.MiscObjectCheck | thesilentbuyout.com/backend/tools/validate_events.js:28 | `misc_data` is reported iff it is absent, null or a primitive. Arrays pass |
| ValidateEvents.TotalUpdate | thesilentbuyout.com/backend/tools/validate_events.js:33 | replacing one value changes the summed occurrences by the difference |
| ValidateEvents.HistogramKeys | thesilentbuyout.com/backend/tools/validate_events.js:33 | the accumulator has an own key for each action that occurs except `__proto__`, whose assignment the prototype setter ignores, and no other |
| ValidateEvents.HistogramValues | thesilentbuyout.com/backend/tools/validate_events.js:33 | each key holds the number of events with that action: as a number for an ordinary action, and as the inherited method's text followed by that many "1"s for an `Object.prototype` method name |
| ValidateEvents.HistogramTotal | thesilentbuyout.com/backend/tools/validate_events.js:31-35 | the occurrences sum to the number of events minus those whose action is `__proto__` |
| ValidateEvents.CountOfBound | thesilentbuyout.com/backend/tools/validate_events.js:33 | no action occurs more often than there are events |
| IngestChapter.BaselineIsMax | thesilentbuyout.com/backend/ingest_chapter.js:24-25 | the baseline is the largest stored order, and 0 on an empty table |
| IngestChapter.Baseline | thesilentbuyout.com/backend/ingest_chapter.js:24-25 | the first row's truthy `max_order`, or 0. `BaselineIsMax` ties it to the stored maximum |
| IngestChapter.AllocatedParams | thesilentbuyout.com/backend/ingest_chapter.js:28-30 | the INSERT parameters for an event at an allocated order: `delay \|\| 0`, the action, `actor \|\| null`, content or static text or null, null voice and prompt. `RowMapping` states them |
| IngestChapter.RowMapping | thesilentbuyout.com/backend/ingest_chapter.js:28-30 | the statement carries the allocated order. A falsy `delay` becomes 0. The text is `content`, else `static_text`, else null. Voice and prompt are null. The statement is admissible iff the event is not rejected |
| IngestChapter.AdmissibleIffInsertable | thesilentbuyout.com/backend/ingest_chapter.js:30-31 | the store accepts a non-null event's statement iff the event is insertable (it has an action) |
| IngestChapter.Stop | thesilentbuyout.com/backend/ingest_chapter.js:26-33 | the index of the first event whose insert fails, or the number of events when none fails |
| IngestChapter.StopAt | thesilentbuyout.com/backend/ingest_chapter.js:26-33 | before the loop has stopped, the insert at position n fails exactly when n is where the loop stops |
| IngestChapter.AllocatedRow | thesilentbuyout.com/backend/ingest_chapter.js:28-30 | the row stored for an event carries exactly the order it was allocated, and no chapter |
| IngestChapter.AllocatedRows | thesilentbuyout.com/backend/ingest_chapter.js:26-33 | the i-th event (counting from 1) gets order base + i |
| IngestChapter.AllocationFits | thesilentbuyout.com/backend/ingest_chapter.js:23-28 | the allocated orders are contiguous from max+1, above every stored order, and never clash |
| IngestChapter.EmptyStoreNumbersFromOne | thesilentbuyout.com/backend/ingest_chapter.js:25-28 | on an empty table the events are numbered 1, 2, 3, … |
| IngestChapter.Escape | thesilentbuyout.com/backend/ingest_chapter.js:41-43 | doubling quotes never shortens the text |
| IngestChapter.UnescapeEscape | thesilentbuyout.com/backend/ingest_chapter.js:41-43 | undoing the doubling gives back the original text |
| IngestChapter.Unescape | thesilentbuyout.com/backend/ingest_chapter.js:41-43 | the inverse of the quote doubling, None on a lone quote. `UnescapeEscape` and `EscapeUnescape` tie it to `Escape` |
| IngestChapter.EscapeUnescape | thesilentbuyout.com/backend/ingest_chapter.js:41-43 | every text with only doubled quotes is the escape of exactly one original |
| IngestChapter.TextOf | thesilentbuyout.com/backend/ingest_chapter.js:42-43 | a falsy field gives "", a string field gives itself, and a truthy non-string throws |
| IngestChapter.LineOf | thesilentbuyout.com/backend/ingest_chapter.js:40-45 | one event's fallback line, or None when building it throws. `FallbackKeepsAuthoredValues` states what it keeps |
| IngestChapter.FallbackLines | thesilentbuyout.com/backend/ingest_chapter.js:40-45 | one line per event, in input order, unless building some line throws |
| IngestChapter.FallbackKeepsAuthoredValues | thesilentbuyout.com/backend/ingest_chapter.js:40-44 | a fallback line uses the authored `event_order`, or NULL, instead of the allocated order. `action` is unescaped. Content (or `static_text`, or ''), actor and `misc_data` unescape to their original text |
| IngestChapter.AllocatedBelow | thesilentbuyout.com/backend/ingest_chapter.js:26-28 | after n allocations every order is at most base + n, so the next one is free |
| IngestChapter.InsertOne | thesilentbuyout.com/backend/ingest_chapter.js:28-31 | one INSERT with a fresh order either appends the allocated row or leaves the table as it was |
| IngestChapter.InsertNext | thesilentbuyout.com/backend/ingest_chapter.js:27-32 | one loop turn: a null event throws, and otherwise the next allocated row is appended iff its insert succeeds |
| IngestChapter.InsertAll | thesilentbuyout.com/backend/ingest_chapter.js:26-33 | the loop stops at the first failing event and keeps the rows of every event before it |
| IngestChapter.Fallback | thesilentbuyout.com/backend/ingest_chapter.js:37-48 | the catch block writes one line per event iff every line can be built and the file write succeeds; otherwise it throws out of the catch |
| IngestChapter.InsertEvents | thesilentbuyout.com/backend/ingest_chapter.js:18-49 | it resolves true iff every event was inserted, with orders max+1 onward. On any failure the rows already inserted stay, and the fallback is written, or the catch block throws when a line or the write fails |
| IngestChapter.Characters | thesilentbuyout.com/backend/ingest_chapter.js:27 | `for...of` over a string visits its characters as one-character strings |
| IngestChapter.IngestPayload | thesilentbuyout.com/backend/ingest_chapter.js:8-53 | an array payload is ingested as `InsertEvents` says. A string is iterated by character, and any failure then crashes in the catch's `data.map`. Any other payload crashes with the table unchanged |
| IngestChapter.ExitCode | thesilentbuyout.com/backend/ingest_chapter.js:53 | the exit code is 0 exactly when the inserts went through, and 1 otherwise |
| CommandLine.IndexOf | thesilentbuyout.com/backend/tools/ingest_events.js:11 | `indexOf` is the first position of the flag, or -1 when it is absent |
| CommandLine.Arg | thesilentbuyout.com/backend/tools/ingest_events.js:11 | the value is the word after the first occurrence of the flag, and is absent when the flag is absent or last |
| CommandLine.DigitPrefix | thesilentbuyout.com/backend/tools/ingest_events.js:13 | the longest run of decimal digits at the start of the text |
| CommandLine.DigitsValue | thesilentbuyout.com/backend/tools/ingest_events.js:13 | reading the decimal digits of n gives back n |
| CommandLine.DigitPrefixOf | thesilentbuyout.com/backend/tools/ingest_events.js:13 | digits followed by a non-digit are exactly the digit prefix |
| CommandLine.ParseInt | thesilentbuyout.com/backend/tools/ingest_events.js:13 | `parseInt(s, 10)`, and NaN for an absent argument. The `ParseInt...` lemmas below state its values |
| CommandLine.ParseIntDecimal | thesilentbuyout.com/backend/tools/ingest_events.js:13 | `parseInt` of the decimal text of any integer, followed by anything that does not start with a digit, gives that integer back |
| CommandLine.ParseIntDecimalNatural | thesilentbuyout.com/backend/tools/ingest_events.js:13 | the same round trip for the unsigned decimal text of a natural number |
| CommandLine.ParseIntUnsigned | thesilentbuyout.com/backend/tools/ingest_events.js:13 | `parseInt` reads the leading digits and ignores a trailing non-digit suffix |
| CommandLine.ParseIntNegative | thesilentbuyout.com/backend/tools/ingest_events.js:13 | a leading minus sign negates the value |
| CommandLine.ParseIntSkipsSpace | thesilentbuyout.com/backend/tools/ingest_events.js:13 | leading white space is skipped |
| CommandLine.ParseIntNaN | thesilentbuyout.com/backend/tools/ingest_events.js:13 | text that starts with neither a digit nor a sign, after white space, is NaN |
| IngestEvents.ChapterParams | thesilentbuyout.com/backend/tools/ingest_events.js:36-41 | the statement is tagged with chapter c and carries the authored `event_order`. A falsy `misc_data` becomes `{}` |
| IngestEvents.EventRow | thesilentbuyout.com/backend/tools/ingest_events.js:36-41 | the row stored for an event is tagged with its chapter |
| IngestEvents.EventRows | thesilentbuyout.com/backend/tools/ingest_events.js:35-42 | one row per event, in input order, each tagged c |
| IngestEvents.Staged | thesilentbuyout.com/backend/tools/ingest_events.js:35-42 | when the first n inserts all succeed, every one of those events was storable and the table is the start plus their rows |
| IngestEvents.StagedStep | thesilentbuyout.com/backend/tools/ingest_events.js:35-41 | the (i+1)-th insert is `TryInsert` of event i on the table after the first i, and a null event throws |
| IngestEvents.StagedStaysFailed | thesilentbuyout.com/backend/tools/ingest_events.js:35-42 | once an insert failed, the run stays failed one event later |
| IngestEvents.StagedPrefixFails | thesilentbuyout.com/backend/tools/ingest_events.js:35-48 | a failure at any event fails the whole insert loop |
| IngestEvents.ReplaceInstallsChapter | thesilentbuyout.com/backend/tools/ingest_events.js:31-43 | after a committed replace, chapter c holds exactly the input events, in order and with their authored orders, and every other chapter is unchanged |
| IngestEvents.ReplacedChapter | thesilentbuyout.com/backend/tools/ingest_events.js:31-42 | deleting c and then appending rows of c leaves exactly those rows in c and the rest untouched |
| IngestEvents.AppendWithoutReplace | thesilentbuyout.com/backend/tools/ingest_events.js:31-42 | without `--replace` the existing rows, chapter c included, stay, and the new rows follow them |
| IngestEvents.ReplaceIsIdempotent | thesilentbuyout.com/backend/tools/ingest_events.js:31-43 | replacing the same chapter again with the same file leaves the table as it is |
| IngestEvents.FirstEventClashes | thesilentbuyout.com/backend/tools/ingest_events.js:35-41 | an event whose row is already stored clashes with it |
| IngestEvents.ReingestWithoutReplaceFails | thesilentbuyout.com/backend/tools/ingest_events.js:31-48 | ingesting the same non-empty file twice without `--replace` fails and rolls back, under either uniqueness rule |
| IngestEvents.ReplaceSucceeds | thesilentbuyout.com/backend/tools/ingest_events.js:30-43 | with per-chapter uniqueness and no failing database step, replace always commits a file of storable events with distinct orders, whatever the table held |
| IngestEvents.StagedSucceeds | thesilentbuyout.com/backend/tools/ingest_events.js:35-42 | storable events with distinct orders always insert into a table without rows of c |
| IngestEvents.Transaction | thesilentbuyout.com/backend/tools/ingest_events.js:30-47 | BEGIN, the DELETE under `--replace`, the INSERTs and COMMIT: the table after a commit, None after a rollback. `ReplaceInstallsChapter`, `AppendWithoutReplace` and `ReingestWithoutReplaceFails` characterise it |
| IngestEvents.InsertEvent | thesilentbuyout.com/backend/tools/ingest_events.js:36-41 | one loop turn either advances the staged table by one event or fails the whole loop |
| IngestEvents.InsertAll | thesilentbuyout.com/backend/tools/ingest_events.js:35-42 | the loop succeeds iff every insert succeeds, and then leaves the staged table |
| IngestEvents.RunTransaction | thesilentbuyout.com/backend/tools/ingest_events.js:29-49 | on commit the table is the transaction's result. On any failure the rollback restores the table from before the run, deleted rows included |
| IngestEvents.Run | thesilentbuyout.com/backend/tools/ingest_events.js:11-52 | a missing file or a chapter that parses to 0 or NaN is a usage error before anything else. No `DB_HOST` is exit 2. A non-array payload crashes before the transaction. Ingested and rolled-back runs follow `Transaction`, and the table changes only when one is ingested |
| IngestEvents.UsageError | thesilentbuyout.com/backend/tools/ingest_events.js:15 | the usage check (`file` or `chapter` falsy): the `--file` word is missing or empty, or the chapter is NaN or 0 |
| IngestEvents.ExitCode | thesilentbuyout.com/backend/tools/ingest_events.js:15-52 | the exit code is 0 exactly when the file was ingested. The failures give 1 to 4 |
| AudioFiles.Sanitize | thesilentbuyout.com/backend/server_full.js:108 | same length; every character outside `[A-Za-z0-9._-]` becomes `_` and the others stay |
| AudioFiles.SanitizedIsSafe | thesilentbuyout.com/backend/server_full.js:91 | the sanitised name holds only safe characters, and so no `/` |
| AudioFiles.SanitizeFixes | thesilentbuyout.com/backend/server_full.js:172 | sanitising twice equals sanitising once, and a name is unchanged iff it is already safe |
| AudioFiles.TrimTrailingSlashes | thesilentbuyout.com/backend/server_full.js:91 | only trailing slashes are removed, and all of them |
| AudioFiles.AfterLastSlash | thesilentbuyout.com/backend/server_full.js:91 | the slash-free suffix after the last slash |
| AudioFiles.Basename | thesilentbuyout.com/backend/server_full.js:91 | `path.basename` never contains a slash |
| AudioFiles.BasenameIdempotent | thesilentbuyout.com/backend/server_full.js:91 | taking the base name twice changes nothing |
| AudioFiles.BasenameOfComponent | thesilentbuyout.com/backend/server_full.js:91 | a name without slashes is its own base name |
| AudioFiles.BasenameOfJoin | thesilentbuyout.com/backend/server_full.js:91 | the base name of dir/name, even with trailing slashes, is name |
| AudioFiles.UploadName | thesilentbuyout.com/backend/server_full.js:91 | an uploaded string file name becomes the sanitised base name, with no slash. A non-string throws |
| AudioFiles.SpeechFileName | thesilentbuyout.com/backend/server_full.js:106-108 | a falsy file name uses the generated one. A truthy string is sanitised. A truthy non-string throws |
| AudioFiles.RequestedVoice | thesilentbuyout.com/backend/server_full.js:170 | the destructuring default: 'Charon' only when the voice is absent |
| AudioFiles.VoiceName | thesilentbuyout.com/backend/server_full.js:185 | `voice === 'Charon' ? 'en-US-Wavenet-F' : 'en-US-Wavenet-E'` after the default. `VoiceMapping` states which inputs give which voice |
| AudioFiles.VoiceMapping | thesilentbuyout.com/backend/server_full.js:140 | an absent voice (defaulted to `Charon`) and `Charon` map to `en-US-Wavenet-F`. Every other voice, null included, maps to `en-US-Wavenet-E` |
| AudioFiles.TextUsable | thesilentbuyout.com/backend/server_full.js:106-107 | the text is usable iff it is a string that is not all white space. A truthy non-string throws |
| WavStub.U16LE | thesilentbuyout.com/backend/server_full.js:125 | `writeUInt16LE` writes two bytes |
| WavStub.U32LE | thesilentbuyout.com/backend/server_full.js:122 | `writeUInt32LE` writes four bytes |
| WavStub.U16RoundTrip | thesilentbuyout.com/backend/server_full.js:125-130 | reading the two bytes back, low byte first, gives the value written |
| WavStub.U32RoundTrip | thesilentbuyout.com/backend/server_full.js:122-132 | reading the four bytes back, low byte first, gives the value written |
| WavStub.RiffPart | thesilentbuyout.com/backend/server_full.js:121-123 | `RIFF`, the size and `WAVEfmt ` fill the first 16 bytes |
| WavStub.FormatPart | thesilentbuyout.com/backend/server_full.js:124-130 | the PCM format fields fill the next 20 bytes |
| WavStub.DataPart | thesilentbuyout.com/backend/server_full.js:131-132 | `data` and its length fill the last 8 bytes |
| WavStub.Header | thesilentbuyout.com/backend/server_full.js:117-132 | the header is 44 bytes |
| WavStub.Zeros | thesilentbuyout.com/backend/server_full.js:117-118 | `Buffer.alloc` gives zero bytes |
| WavStub.Put | thesilentbuyout.com/backend/server_full.js:121-132 | one `write` lays its bytes at the end of what is written, and the rest of the buffer stays zero |
| WavStub.WriteRiff | thesilentbuyout.com/backend/server_full.js:121-123 | after the first three writes the buffer holds the RIFF part and zeros |
| WavStub.WriteFormat | thesilentbuyout.com/backend/server_full.js:124-130 | the format writes follow the RIFF part |
| WavStub.WriteData | thesilentbuyout.com/backend/server_full.js:131-132 | the last two writes complete the header |
| WavStub.WriteHeader | thesilentbuyout.com/backend/server_full.js:117-132 | a fresh 44-byte buffer ends up holding exactly the header |
| WavStub.SilentStub | thesilentbuyout.com/backend/server_full.js:114-133 | the file is the header followed by 16000 zero bytes |
| WavStub.StubIsCanonicalWave | thesilentbuyout.com/backend/server_full.js:114-133 | the stub has 16044 bytes and the `RIFF`/`WAVEfmt `/`data` tags. The RIFF size is 36 + data length. It is 1-channel 16-bit PCM at 16000 Hz. Byte rate = rate × block align, and block align = channels × bits / 8. The data size is the data length, and the samples are silent |
| AudioBatch.DefaultedEntry | thesilentbuyout.com/backend/server_full.js:170 | `entry \|\| {}` reads the same properties as the entry |
| AudioBatch.SynthOne | thesilentbuyout.com/backend/server_full.js:169-191 | a synthesised entry's file name has no slash, and it is the stub iff no TTS key is configured |
| AudioBatch.SynthOneOutcome | thesilentbuyout.com/backend/server_full.js:169-191 | an entry synthesises iff its text is a non-blank string, its file name is falsy or a string, and the TTS call succeeds. Missing or blank text gives "text required". The TTS request names the mapped voice, and the stub sends no request |
| AudioBatch.TtsVoice | thesilentbuyout.com/backend/server_full.js:182-185 | the TTS voice named for a synthesised entry, none for the stub |
| AudioBatch.NextOrder | thesilentbuyout.com/backend/server_full.js:198-199 | the first batch order is the stored maximum plus one |
| AudioBatch.StartWith | thesilentbuyout.com/backend/server_full.js:193-203 | a connection is held iff `includeEvents` is truthy, a pool exists and connecting succeeds. Orders are allocated only with a connection |
| AudioBatch.StartAboveStored | thesilentbuyout.com/backend/server_full.js:193-203 | with a connection and a working SELECT, the first order is above every stored order, and is 1 on an empty table |
| AudioBatch.AsWrittenNeverAllocates | thesilentbuyout.com/backend/server_full.js:198 | as written, no order is ever allocated |
| AudioBatch.NextOrderAsWritten | thesilentbuyout.com/backend/server_full.js:198-201 | the first order as the handler reads it, through the nested destructuring. `AsWrittenNeverAllocates` proves it is never set |
| AudioBatch.Made | thesilentbuyout.com/backend/server_full.js:205-208 | one synthesis flag per entry |
| AudioBatch.MadeAt | thesilentbuyout.com/backend/server_full.js:205-208 | flag k says whether entry k synthesises |
| AudioBatch.Consumed | thesilentbuyout.com/backend/server_full.js:209-215 | the number of orders used by the first n entries is at most n |
| AudioBatch.OrderAt | thesilentbuyout.com/backend/server_full.js:209-215 | the order entry i is given: the start plus one per synthesised entry before it. `OrdersIncrease` and `StoredBelow` state its properties |
| AudioBatch.AudioLogParams | thesilentbuyout.com/backend/server_full.js:211-214 | the statement for a log has delay 500, action `audioLog`, no prompt, null misc and the given order. Actor, text and voice are copied when truthy |
| AudioBatch.Preview | thesilentbuyout.com/backend/server_full.js:220 | the first 80 characters of the text |
| AudioBatch.ItemOutcome | thesilentbuyout.com/backend/server_full.js:206-223 | an item is ok iff its entry synthesises, and a failed item keeps the reason. An ok item has the public URL and the preview. It records an order iff orders are allocated and its insert succeeds, and that order is the one the entry was allocated |
| AudioBatch.ItemAt | thesilentbuyout.com/backend/server_full.js:205-223 | the result for entry i: its error, or its preview, URL, voice, stub flag and recorded order |
| AudioBatch.Items | thesilentbuyout.com/backend/server_full.js:205-224 | exactly one result per entry, in request order |
| AudioBatch.AddedRows | thesilentbuyout.com/backend/server_full.js:205-224 | at most one row per entry, and none without allocated orders |
| AudioBatch.ConsumedPrefix | thesilentbuyout.com/backend/server_full.js:213 | the number of used orders never decreases along the batch |
| AudioBatch.OrdersIncrease | thesilentbuyout.com/backend/server_full.js:208-215 | orders start at the first allocated one and strictly increase from a synthesised entry to every later one |
| AudioBatch.ConsumedPast | thesilentbuyout.com/backend/server_full.js:213 | a synthesised entry uses an order, so every later entry counts more used orders |
| AudioBatch.AddedRowsAscend | thesilentbuyout.com/backend/server_full.js:209-215 | the inserted rows ascend strictly and lie between the first order and the next free one |
| AudioBatch.OrderNext | thesilentbuyout.com/backend/server_full.js:213 | `nextOrder++` advances exactly when the entry synthesised: a failed synthesis uses no order, and a failed insert still uses its order |
| AudioBatch.AddedRowsNext | thesilentbuyout.com/backend/server_full.js:209-218 | entry i adds its row iff orders are allocated, it synthesised and its insert succeeds |
| AudioBatch.RecordedRows | thesilentbuyout.com/backend/server_full.js:209-218 | recording entry i moves the table from the rows of the first i entries to those of the first i+1 |
| AudioBatch.StoredBelow | thesilentbuyout.com/backend/server_full.js:198-215 | every stored order stays below the next free order throughout the batch |
| AudioBatch.NoStartNoInserts | thesilentbuyout.com/backend/server_full.js:209 | without allocated orders no row is inserted and no item records an order |
| AudioBatch.InsertLog | thesilentbuyout.com/backend/server_full.js:211-214 | an insert with a free order appends the log's row unless the database refuses it |
| AudioBatch.RecordLog | thesilentbuyout.com/backend/server_full.js:209-218 | one recording step reports the order it inserted, advances `nextOrder` per synthesised entry and keeps the table equal to the planned rows |
| AudioBatch.Step | thesilentbuyout.com/backend/server_full.js:206-223 | one loop turn appends entry i's result and keeps the table and `nextOrder` in step with the plan |
| AudioBatch.ProcessLogs | thesilentbuyout.com/backend/server_full.js:205-224 | the loop returns one result per entry, and the table gains exactly the planned rows |
| AudioBatch.DbInserts | thesilentbuyout.com/backend/server_full.js:226 | `dbInserts` says whether a connection was held when `includeEvents` is truthy, and echoes the falsy value otherwise |
| AudioBatch.HandleBatch | thesilentbuyout.com/backend/server_full.js:161-231 | a missing, empty or non-array `logs` and more than 10 logs are rejected with the table untouched. A failing mkdir gives `batch_failed`. Otherwise the reply holds the per-item results and `dbInserts`, and the table gains the planned rows |
| AudioBatch.AsWrittenReportsPhantomInserts | thesilentbuyout.com/backend/server_full.js:198-226 | as written, a batch with `includeEvents` and a working database reports `dbInserts: true` yet inserts nothing |
| AudioBatch.CorrectedRecordsInserts | thesilentbuyout.com/backend/server_full.js:198-199 | with the row read corrected, the same batch allocates orders from max+1 |
| Seeding.Events | thesilentbuyout.com/backend/server_full.js:339-364 | seed k takes its order, delay, action, actor and voice from cue k, and its text, prompt and misc object from content k |
| Seeding.Str | thesilentbuyout.com/backend/server_full.js:369 | an optional text becomes a JSON string or stays absent |
| Seeding.SeedParams | thesilentbuyout.com/backend/server_full.js:367-369 | the statement for a seed is admissible and carries its order, delay and action, with no chapter. A falsy actor, text, voice, prompt or misc becomes null |
| Seeding.SeedRows | thesilentbuyout.com/backend/server_full.js:368-370 | the first n seeds' rows, in list order |
| Seeding.CuesNumbered | thesilentbuyout.com/backend/server_full.js:339-363 | there are 24 seed events, numbered 1 to 24 in list order |
| Seeding.EventsNumbered | thesilentbuyout.com/backend/server_full.js:339-364 | the seed list has 24 events numbered 1 to 24 |
| Seeding.SeedRowsOrders | thesilentbuyout.com/backend/server_full.js:368-370 | seed row j has order j+1 and no chapter |
| Seeding.SeedRowsConsistent | thesilentbuyout.com/backend/server_full.js:329 | the seed rows never clash under either uniqueness rule |
| Seeding.FirstFault | thesilentbuyout.com/backend/server_full.js:368-370 | the index of the first failing insert, or n when none fails |
| Seeding.FirstFaultAt | thesilentbuyout.com/backend/server_full.js:368-370 | before the first failure, the insert at position i fails exactly when i is the first failure |
| Seeding.InsertSeeds | thesilentbuyout.com/backend/server_full.js:368-370 | into an empty table the loop inserts the seeds in order up to the first failing insert |
| Seeding.Populate | thesilentbuyout.com/backend/server_full.js:307-377 | a population that completes leaves the old rows followed by every seed row |
| Seeding.PopulateWith | thesilentbuyout.com/backend/server_full.js:313-377 | the method's outcome and new table are those `Populate` describes |
| Seeding.PopulateDatabase | thesilentbuyout.com/backend/server_full.js:307-377 | `populateDatabase` with the 24 opening events behaves as `Populate` describes |
| Seeding.CountRead | thesilentbuyout.com/backend/server_full.js:333 | the COUNT read as written (nested destructuring) or corrected (`rows[0].count`). `CountReadsSize` and `AsWrittenNeverSeeds` state both |
| Seeding.CountReadsSize | thesilentbuyout.com/backend/server_full.js:333-334 | the corrected count read yields the number of rows, and it is positive iff the table is not empty |
| Seeding.SeedOnlyIfEmpty | thesilentbuyout.com/backend/server_full.js:333-370 | a populated table is left alone. An empty table receives every seed, numbered 1 upward |
| Seeding.SeedsTwentyFour | thesilentbuyout.com/backend/server_full.js:339-370 | on an empty table, the server's own 24 opening events are stored as 24 rows numbered 1 to 24 |
| Seeding.SeedingIsIdempotent | thesilentbuyout.com/backend/server_full.js:333-337 | running the population twice changes nothing the second time |
| Seeding.PartialSeeding | thesilentbuyout.com/backend/server_full.js:368-373 | an insert failing at seed k leaves the first k seeds stored, numbered 1 to k, with nothing rolled back |
| Seeding.AsWrittenNeverSeeds | thesilentbuyout.com/backend/server_full.js:333 | as written, population always fails at the count read and leaves the table as it was |
| Listing.InsertByOrder | thesilentbuyout.com/backend/server_full.js:40 | inserting into the sorted list adds exactly that row |
| Listing.InsertHead | thesilentbuyout.com/backend/server_full.js:40 | the new head is the smaller of the row and the old head |
| Listing.InsertKeepsSorted | thesilentbuyout.com/backend/server_full.js:40 | insertion keeps the list ascending by `event_order` |
| Listing.InsertKeepsStrict | thesilentbuyout.com/backend/server_full.js:40 | with a fresh order, insertion keeps the list strictly ascending |
| Listing.SortByOrder | thesilentbuyout.com/backend/server_full.js:40 | `ORDER BY event_order ASC` with ties kept in table order. `SortByOrderSorts` proves it ascending and a permutation |
| Listing.SortByOrderSorts | thesilentbuyout.com/backend/server_full.js:40 | `ORDER BY event_order ASC` yields an ascending permutation of the table |
| Listing.SortedListsAsIs | thesilentbuyout.com/backend/server_full.js:40 | an already ascending table is listed as it is |
| Listing.UniqueKeyListsStrictly | thesilentbuyout.com/backend/server_full.js:40 | under global uniqueness the listing is strictly ascending |
| Listing.ListEvents | thesilentbuyout.com/backend/server_full.js:35-46 | with no pool the reply is an empty list. Otherwise it is a database error iff connecting or the query fails |
| Listing.ListingIsOrderedTable | thesilentbuyout.com/backend/server_full.js:35-46 | a working listing returns every row exactly once, ascending by order, and strictly ascending under global uniqueness |
| ExtractChapter.ArgOr | thesilentbuyout.com/backend/tools/extract_chapter.js:10-12 | an absent flag gives the default, and a present one gives the word after it |
| ExtractChapter.ChapterArg | thesilentbuyout.com/backend/tools/extract_chapter.js:14-18 | the chapter is accepted iff `--chapter` parses to a nonzero integer |
| ExtractChapter.ChapterArgAccepts | thesilentbuyout.com/backend/tools/extract_chapter.js:14-18 | `--chapter n` is accepted as n for every nonzero n |
| ExtractChapter.HeadingNumber | thesilentbuyout.com/backend/tools/extract_chapter.js:27 | a part has a heading number only when it starts with `Chapter` |
| ExtractChapter.HeadingAfterSpace | thesilentbuyout.com/backend/tools/extract_chapter.js:27 | after `Chapter ` the heading number is the leading digits, and there is none without digits |
| ExtractChapter.HeadingOfChapter | thesilentbuyout.com/backend/tools/extract_chapter.js:27 | a part headed `Chapter n` has heading number n |
| ExtractChapter.SelectChapter | thesilentbuyout.com/backend/tools/extract_chapter.js:25-33 | the loop picks the first part headed with the requested number, and finds none iff no part has it |
| ExtractChapter.FirstHeadedUnique | thesilentbuyout.com/backend/tools/extract_chapter.js:26-29 | the first matching part is unique |
| ExtractChapter.TrimAll | thesilentbuyout.com/backend/tools/extract_chapter.js:36 | `.map(s => s.trim())`: piece j becomes its trim |
| ExtractChapter.NonEmpty | thesilentbuyout.com/backend/tools/extract_chapter.js:36 | `.filter(Boolean)` keeps exactly the non-empty strings: each kept one is non-empty and from the input, and every non-empty input string is kept |
| ExtractChapter.NonEmptyKeepsAll | thesilentbuyout.com/backend/tools/extract_chapter.js:36 | a list of non-empty strings passes the filter unchanged |
| ExtractChapter.TrimmedKept | thesilentbuyout.com/backend/tools/extract_chapter.js:36 | every piece that is not blank survives the map and filter, trimmed |
| ExtractChapter.TrimmedOnly | thesilentbuyout.com/backend/tools/extract_chapter.js:36 | everything that survives the map and filter is some piece, trimmed |
| ExtractChapter.TrimmedClean | thesilentbuyout.com/backend/tools/extract_chapter.js:36 | everything that survives is non-empty and its own trim |
| ExtractChapter.Paragraphs | thesilentbuyout.com/backend/tools/extract_chapter.js:36 | every piece that is not blank appears trimmed among the paragraphs, and every paragraph is some piece trimmed, non-empty and its own trim |
| ExtractChapter.ParagraphsOfClean | thesilentbuyout.com/backend/tools/extract_chapter.js:36 | pieces that are already trimmed and non-empty are kept as they are |
| ExtractChapter.ParagraphsIdempotent | thesilentbuyout.com/backend/tools/extract_chapter.js:36 | cleaning paragraphs twice equals cleaning them once |
| ExtractChapter.Join | thesilentbuyout.com/backend/tools/extract_chapter.js:44 | `join('\n\n')` is as long as the paragraphs plus two characters per gap |
| ExtractChapter.ChunkTexts | thesilentbuyout.com/backend/tools/extract_chapter.js:44-49 | one text per chunk |
| ExtractChapter.WellChunkedSnoc | thesilentbuyout.com/backend/tools/extract_chapter.js:43-47 | closing a chunk keeps every chunk non-empty and over 650 characters only when alone |
| ExtractChapter.PackStep | thesilentbuyout.com/backend/tools/extract_chapter.js:42-48 | one loop turn: the buffer is closed when the paragraph would take it past 650 characters and it is not empty, then the paragraph is added |
| ExtractChapter.Pack | thesilentbuyout.com/backend/tools/extract_chapter.js:39-49 | the closed chunks, then the last buffer if not empty. `PackIsPacked` and `PackedUnique` characterise it |
| ExtractChapter.PackTurnState | thesilentbuyout.com/backend/tools/extract_chapter.js:42-48 | one loop turn keeps the packing invariant |
| ExtractChapter.PackPrefixState | thesilentbuyout.com/backend/tools/extract_chapter.js:42-48 | the invariant holds after any number of turns |
| ExtractChapter.PackPrefixContent | thesilentbuyout.com/backend/tools/extract_chapter.js:42-48 | the closed chunks followed by the buffer are exactly the paragraphs read so far |
| ExtractChapter.PackStepContent | thesilentbuyout.com/backend/tools/extract_chapter.js:43-47 | one turn extends the packed content by exactly the next paragraph |
| ExtractChapter.FinishPacking | thesilentbuyout.com/backend/tools/extract_chapter.js:49 | flushing a non-empty buffer yields a packing of all paragraphs |
| ExtractChapter.PackIsPacked | thesilentbuyout.com/backend/tools/extract_chapter.js:39-49 | the chunks flatten back to the paragraph sequence, none lost, repeated or reordered. Every chunk is non-empty. A chunk exceeds 650 characters only when it holds one paragraph |
| ExtractChapter.PackChunks | thesilentbuyout.com/backend/tools/extract_chapter.js:39-49 | the packing loop yields exactly that packing, and the joined chunk texts |
| ExtractChapter.PackedUnique | thesilentbuyout.com/backend/tools/extract_chapter.js:39-49 | the greedy packing is the only one meeting those rules, so the rules determine it |
| ExtractChapter.FirstChunkNotShorter | thesilentbuyout.com/backend/tools/extract_chapter.js:43-47 | the greedy first chunk is at least as long as that of any valid packing |
| ExtractChapter.NextChunkStart | thesilentbuyout.com/backend/tools/extract_chapter.js:43-47 | a chunk that does not reach the end is followed by a chunk starting at the next paragraph |
| ExtractChapter.CollapseSpaces | thesilentbuyout.com/backend/tools/extract_chapter.js:55 | collapsing never lengthens the text, and it starts with a space iff the input starts with white space |
| ExtractChapter.CollapseKeepsText | thesilentbuyout.com/backend/tools/extract_chapter.js:55 | collapsing keeps every character that is not white space, in order |
| ExtractChapter.CollapseFixes | thesilentbuyout.com/backend/tools/extract_chapter.js:55 | text whose white space is already single spaces is unchanged |
| ExtractChapter.SourcePreview | thesilentbuyout.com/backend/tools/extract_chapter.js:55 | the preview has at most 140 characters and no white space at either end |
| ExtractChapter.PreviewKeepsText | thesilentbuyout.com/backend/tools/extract_chapter.js:55 | the preview holds exactly the characters other than white space of the chunk's first 140 characters, in order |
| ExtractChapter.PreviewOfClean | thesilentbuyout.com/backend/tools/extract_chapter.js:55 | a chunk of at most 140 characters that is trimmed and single-spaced is its own preview |
| ExtractChapter.CollapsedIsSingleSpaced | thesilentbuyout.com/backend/tools/extract_chapter.js:55 | after `replace(/\s+/g,' ')` white space is only single spaces |
| ExtractChapter.PreviewSingleSpaced | thesilentbuyout.com/backend/tools/extract_chapter.js:55 | the preview is single-spaced |
| ExtractChapter.PreviewSpacing | thesilentbuyout.com/backend/tools/extract_chapter.js:55 | every white space in the preview is a single inner space |
| ExtractChapter.Entry | thesilentbuyout.com/backend/tools/extract_chapter.js:52-59 | entry i has the requested chapter, `provisional_order` i+1 and the chunk's preview |
| ExtractChapter.Scaffold | thesilentbuyout.com/backend/tools/extract_chapter.js:52-59 | one entry per chunk, numbered 1 upward, each with the chapter and a preview of at most 140 characters |
| ExtractChapter.Extract | thesilentbuyout.com/backend/tools/extract_chapter.js:14-64 | a missing or zero chapter exits 1, and a chapter no part is headed with exits 2. Otherwise the report counts the cleaned paragraphs and the chunks, and its scaffold is built from the first matching part |
| ExtractChapter.ExitCode | thesilentbuyout.com/backend/tools/extract_chapter.js:14-32 | the exit code is 0 exactly when the report was written. A missing chapter gives 1 and a chapter not found gives 2 |
| Migrations.SqlFiles | thesilentbuyout.com/backend/tools/run_migrations.js:22 | the kept names are exactly the listed names ending in `.sql` |
| Migrations.InsertName | thesilentbuyout.com/backend/tools/run_migrations.js:22 | inserting a name adds exactly that name |
| Migrations.InsertNameSorted | thesilentbuyout.com/backend/tools/run_migrations.js:22 | insertion keeps names sorted |
| Migrations.SortNames | thesilentbuyout.com/backend/tools/run_migrations.js:22 | `.sort()` on file names. `SortNamesSorts` proves it sorted and a permutation |
| Migrations.SortNamesSorts | thesilentbuyout.com/backend/tools/run_migrations.js:22 | `.sort()` yields a sorted permutation of its input |
| Migrations.Planned | thesilentbuyout.com/backend/tools/run_migrations.js:22 | the sorted `.sql` names. `PlannedAreSortedSqlFiles` characterises it |
| Migrations.PlannedAreSortedSqlFiles | thesilentbuyout.com/backend/tools/run_migrations.js:22 | the plan is sorted and holds each `.sql` name of the listing as often as the listing does, and nothing else |
| Migrations.SqlFilesDistinct | thesilentbuyout.com/backend/tools/run_migrations.js:22 | filtering keeps names distinct |
| Migrations.PlannedDistinct | thesilentbuyout.com/backend/tools/run_migrations.js:22 | a directory listing of distinct names gives a plan of distinct names |
| Migrations.AttemptOf | thesilentbuyout.com/backend/tools/run_migrations.js:28-29 | an attempt is recorded as failed iff its query fails |
| Migrations.ReadableCount | thesilentbuyout.com/backend/tools/run_migrations.js:25-26 | the number of leading files that can be read. The loop stops at the first unreadable one |
| Migrations.Expected | thesilentbuyout.com/backend/tools/run_migrations.js:11-31 | the outcome of a run from its inputs. `AttemptsFollowPlan`, `FailuresAreIsolated`, `ReadFailureStops` and `NoAttemptWithoutConnection` state its properties |
| Migrations.EnvComplete | thesilentbuyout.com/backend/tools/run_migrations.js:12-15 | all four of `DB_HOST`, `DB_USER`, `DB_PASS` and `DB_NAME` are set and non-empty |
| Migrations.ExitCode | thesilentbuyout.com/backend/tools/run_migrations.js:12-34 | the exit code is 0 exactly when there is no migrations directory, or every file was read. A failed query does not change it |
| Migrations.RunMigrations | thesilentbuyout.com/backend/tools/run_migrations.js:11-31 | the runner's outcome is `Expected`: the planned files are attempted in order up to the first unreadable one |
| Migrations.AttemptsFollowPlan | thesilentbuyout.com/backend/tools/run_migrations.js:22-30 | attempts follow the plan in ascending name order, and with distinct names no file is attempted twice |
| Migrations.FailuresAreIsolated | thesilentbuyout.com/backend/tools/run_migrations.js:25-30 | which queries fail changes no attempt and no read failure. When every file reads, every planned file is attempted exactly once and the run exits 0 |
| Migrations.ReadFailureStops | thesilentbuyout.com/backend/tools/run_migrations.js:26 | an unreadable file ends the loop before it, and the run exits 1 |
| Migrations.NoAttemptWithoutConnection | thesilentbuyout.com/backend/tools/run_migrations.js:12-23 | missing settings, a missing directory or a failed connection mean no file is attempted. Only a missing directory exits 0 |

## Left out

- The MariaDB driver's own coercions (a string or fractional `event_order` or `delay` converted on insert) are not modelled. The store refuses a non-integer order and takes other values as given.
- AudioFiles.UploadName: the 400 reply of `POST /api/audio` for a falsy `fileName` or `base64` is not modelled, so the empty name, which that guard refuses, maps to the empty base name here.
- Strings are sequences of characters. UTF-16 code units, surrogate pairs and case rules are not modelled.
- The regular expressions that split the manuscript into parts and paragraphs are left out. The parts are an input, and the paragraph split is a function parameter.
- The SHA-256 `source_hash`, `generated_at`, the output path and the file write of `extract_chapter.js` are left out.
- The file system itself is left out, and so are base64 decoding and `dotenv`. Reads of the chapter, events and migration files are inputs. Failures enter as parameters where the modelled code reacts to them: the fallback SQL write of `ingest_chapter.js` (`writeFails`), the audio directory's `mkdir` in the batch handler (`mkdirFails`), and a failed TTS call or audio file write for a batch entry (`Env.synthFaults`). The writes of the WAV stub and of uploaded audio outside the batch are not modelled.
- The text-to-speech and Gemini HTTP calls are left out. Whether synthesis succeeds is a parameter.
- The clock and `Math.random` in default file names are a parameter (`Env.generated`).
- Requests to the server run one at a time here. Concurrent batches and listings are not modelled.
- `process.exit` and unhandled rejections become outcome values with exit codes.
- `parseInt` is modelled on unbounded integers. The loss of precision of very long digit strings is not modelled.
- Windows path separators in `path.basename` are not modelled; only `/` separates.
- The listing's order among rows with equal `event_order` (possible only under per-chapter uniqueness) is not pinned down. The listing is an ascending permutation.
- Row ids, `AUTO_INCREMENT` and the `CREATE TABLE` statement itself are left out. The table's constraints are the store's checks.
- A rollback that itself fails, and `pool.end`, are left out.
- The other endpoints of `server_full.js` (`/api/ping`, `/api/pearl`, `/api/ai/health`, social posts) are not part of this model, nor is `server.js`.
- ValidateEvents.CountActions: histogram keys are the action values themselves, not the property-key strings JavaScript turns them into. So `1` and `"1"` are two keys here but one key in the source, and only a string action is recognised as an inherited `Object.prototype` name. The text of an inherited method is named, not spelt out.
- IngestChapter.FallbackLines: each line is kept as the structured values it is printed from, not as rendered SQL text. Numbers, the `action` and `NULL` are not printed.
- Migrations.RunMigrations: `conn.release()` and `pool.end()` in the `finally` block are not modelled.
- Migrations.RunMigrations: a query failure is a set of failing file names, so it depends on the name and not on the file contents.

## Findings

| source | as written | input that shows it | evidently intended | confidence | as-written member | corrected member |
|---|---|---|---|---|---|---|
| thesilentbuyout.com/backend/server_full.js:198 | the batch reads `maxOrder` by destructuring the first element of the reply with a nested array pattern | a batch with `includeEvents: true` and a working database. The `mariadb` driver resolves the SELECT to an array of row objects, e.g. `[{ maxOrder: 3 }]`, so destructuring `{ maxOrder: 3 }` as an array throws a TypeError. The catch at 200-201 swallows it and `nextOrder` stays null. No event is inserted, yet the reply says `dbInserts: true` | read the first row's column, so that orders start at max+1 and each synthesised log is recorded | high, not executed | AudioBatch.AsWrittenReportsPhantomInserts | AudioBatch.CorrectedRecordsInserts |
| thesilentbuyout.com/backend/server_full.js:333 | seeding reads `count` by the same nested array pattern | startup with a configured pool and an empty `events` table. The reply `[{ count: 0 }]` makes the destructuring throw, and the catch at 372-373 logs it. The 24 opening events are never seeded | read the first row's `count`, and seed the 24 events when it is 0 | high, not executed | Seeding.AsWrittenNeverSeeds | Seeding.SeedOnlyIfEmpty |
