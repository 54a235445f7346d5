# flink-bigquery connector: the read path, modelled in Dafny

This project models the deterministic core of the Flink BigQuery connector's read path and
proves what it does:

- **BigQuerySourceFunction** (`source_function.dfy`). Each parallel subtask takes every
  `count`-th read stream, starting from its own index. `run` drains those streams one after
  the other. An Arrow response is decoded into a list collector, forwarded to the source
  context and the list is cleared. An Avro response emits `rowCount` rows, each decoded from
  the same payload. An `IOException` is rethrown as `FlinkBigQueryException`. Each stream's
  read-rows helper is closed once that stream is drained.
- **ArrowRowDataDeserializationSchema** (`arrow_deserialization.dfy`). The table's row type is
  re-ordered into the Arrow read session's field order. The collector overload rejects a null
  message, emits every converted row in order and closes the decoded column block on every
  path. The single-message overload maps null to null. `isEndOfStream` holds only for null.
- **BigQueryDynamicTableFactory** (`table_factory.dfy`):
  - the factory identifier and its required and optional option sets;
  - `ensureExpectedException`, which filters Flink's "missing required options" failure down
    to the options the chosen mode (table or query) really needs;
  - the listing of read streams and the field-name strings it accumulates, each name followed
    by a comma, in fields that persist across calls;
  - the hand-over of those strings without their last comma in `createDynamicTableSource`.
- **AvroFormatFactory** (`avro_format.dfy`). It normalises the `selectedFields` option (drops
  a trailing comma and every `selectedFields=`), splits it and `avroFields` on commas the way
  Java's `String.split` does, and fails on a missing option as the Java code does.

Two support modules:

- `java_lib.dfy` states the Java and commons-lang library calls the core relies on: `lastIndexOf`,
  `List.indexOf`, `substringAfterLast`, `trim`, `split` with trailing empty pieces dropped,
  `String.join`, `replace` and `ArrayList.remove(Object)`.
- `flink_runtime.dfy` holds Flink's `ListCollector` and the source context, as append-only
  classes.

The code the connector calls but that is not shown here becomes inputs:

- the read-rows helper is a function from a stream name to its finite sequence of responses;
- the Arrow and Avro decoders are functions from bytes to a result or a failure;
- the read session arrives as a value or a failure, with its stream names and its schemas'
  field names.

Each imperative method is proved against a specification function: `Open` against
`Striped`, the run loops against `RunOutcome` / `DrainOutcome` / `ResponseOutcome`,
`RowTypeForArrowSchema` against `ReorderedRowType`, `EnsureExpectedException` against
`ExpectedException`, `AppendFields` against `CommaTerminated`. The lemmas then state what those
functions promise: striping partitions the streams, the run stops at the first failing stream,
the re-ordering is a permutation, and the field lists round-trip through the Avro format.

## Model

Source paths are relative to the repository root.

| member | source | states |
|---|---|---|
| SourceFunction.StripedIndices | src/main/java/com/google/cloud/flink/bigquery/BigQuerySourceFunction.java:86 | the loop's indices `start, start + step, …` all lie in `[start, n)` and strictly increase |
| SourceFunction.Striped | src/main/java/com/google/cloud/flink/bigquery/BigQuerySourceFunction.java:86-89 | a subtask keeps only streams of the session; `StripedSelectsIndices` shows its `k`-th stream is the one at its `k`-th striped index, and `StreamOwnedByExactlyOneSubtask` that every stream goes to exactly one subtask |
| SourceFunction.StripedSelectsIndices | src/main/java/com/google/cloud/flink/bigquery/BigQuerySourceFunction.java:86-89 | the `k`-th stream a subtask takes is the stream at its `k`-th striped index, and there are as many streams as indices |
| SourceFunction.StripedMembership | src/main/java/com/google/cloud/flink/bigquery/BigQuerySourceFunction.java:86 | index `j` is visited exactly when `start <= j < n` and `j - start` is a multiple of the step |
| SourceFunction.StreamOwnedByExactlyOneSubtask | src/main/java/com/google/cloud/flink/bigquery/BigQuerySourceFunction.java:82-90 | over subtasks `0 .. count-1`, stream `j` is assigned to subtask `j % count` and to no other: the assignments partition the streams |
| SourceFunction.IdleSubtask | src/main/java/com/google/cloud/flink/bigquery/BigQuerySourceFunction.java:86 | a subtask whose index is at or past the number of streams is assigned nothing |
| SourceFunction.FiveStreamsTwoSubtasks | src/main/java/com/google/cloud/flink/bigquery/BigQuerySourceFunction.java:86-90 | five streams over two subtasks: subtask 0 gets streams 0, 2, 4 and subtask 1 gets 1, 3 |
| SourceFunction.Rethrown | src/main/java/com/google/cloud/flink/bigquery/BigQuerySourceFunction.java:131-134 | an `IOException` becomes `FlinkBigQueryException("Error while deserialization:")`, any other exception passes unchanged, and the result is never an `IOException` |
| SourceFunction.ResponseOutcome | src/main/java/com/google/cloud/flink/bigquery/BigQuerySourceFunction.java:114-134 | Arrow: exactly the collector overload's rows, failing exactly when it fails. Avro: `max(rowCount, 0)` rows, each the single-message decoding of the payload, failing only when `rowCount > 0` and that decoding fails. A failure emits nothing and is exactly `Rethrown` of the decoder's exception (the collector overload's for Arrow, the single-message overload's for Avro). Neither kind: nothing |
| SourceFunction.DrainOutcome | src/main/java/com/google/cloud/flink/bigquery/BigQuerySourceFunction.java:112-135 | draining one stream never lets an `IOException` escape; `DrainEmitsResponsesInOrder` shows it emits every response's rows in order when nothing throws, and `DrainStopsAtFirstFailure` that it stops at the first response that throws, with that exception and the rows before it |
| SourceFunction.DrainEmitsResponsesInOrder | src/main/java/com/google/cloud/flink/bigquery/BigQuerySourceFunction.java:112-135 | when no response fails, draining a stream emits every response's rows, in response order, and throws nothing |
| SourceFunction.DrainStopsAtFirstFailure | src/main/java/com/google/cloud/flink/bigquery/BigQuerySourceFunction.java:112-135 | when response `k` is the first to fail, draining throws that response's exception after emitting exactly the rows of responses `0 .. k-1`, and nothing of any later response |
| SourceFunction.RunOutcome | src/main/java/com/google/cloud/flink/bigquery/BigQuerySourceFunction.java:105-137 | a run never lets an `IOException` escape; `RunClosesPrefix` shows the helpers closed are a prefix of the streams (all of them exactly when nothing is thrown), `RunCompletes` that a run without failures emits every stream's rows in stream order, and `RunStopsAtFirstFailure` that the first failing stream ends the run with its exception |
| SourceFunction.RunClosesPrefix | src/main/java/com/google/cloud/flink/bigquery/BigQuerySourceFunction.java:105-137 | the helpers closed are those of a prefix of the assigned streams, in order, and all of them exactly when nothing was thrown |
| SourceFunction.RunCompletes | src/main/java/com/google/cloud/flink/bigquery/BigQuerySourceFunction.java:105-137 | when every stream drains, the run emits every stream's rows in stream order, closes every helper and throws nothing |
| SourceFunction.RunStopsAtFirstFailure | src/main/java/com/google/cloud/flink/bigquery/BigQuerySourceFunction.java:105-137 | when stream `k` is the first to fail, the run throws that stream's exception, has closed exactly the helpers of streams `0 .. k-1`, and has emitted their rows followed by stream `k`'s rows before the failure, and nothing of any later stream |
| SourceFunction.DeserializeIntoCollector | src/main/java/com/google/cloud/flink/bigquery/BigQuerySourceFunction.java:117 | the list behind the collector gains exactly the rows the collector overload produces, in order, and the call throws what that overload throws |
| SourceFunction.ProcessResponse | src/main/java/com/google/cloud/flink/bigquery/BigQuerySourceFunction.java:114-134 | one loop iteration: the context gains exactly `ResponseOutcome`'s rows, the iteration throws `ResponseOutcome`'s exception, and after success the list is empty |
| SourceFunction.EmitArrowBatch | src/main/java/com/google/cloud/flink/bigquery/BigQuerySourceFunction.java:115-121 | the Arrow branch: the context gains exactly the rows the collector overload placed in the list, in order, the branch throws what that overload throws (rethrown), and after success the list is empty again |
| SourceFunction.EmitAvroRows | src/main/java/com/google/cloud/flink/bigquery/BigQuerySourceFunction.java:122-130 | the Avro branch: `rowCount` decodings of the same payload are forwarded, stopping at the first failure |
| SourceFunction.DrainStream | src/main/java/com/google/cloud/flink/bigquery/BigQuerySourceFunction.java:112-135 | the inner loop: the context gains exactly `DrainOutcome`'s rows and the loop throws `DrainOutcome`'s exception; `DrainEmitsResponsesInOrder` and `DrainStopsAtFirstFailure` state what those are |
| SourceFunction.DrainStreams | src/main/java/com/google/cloud/flink/bigquery/BigQuerySourceFunction.java:105-137 | the outer loop: the context gains `RunOutcome`'s rows, the closed helpers are `RunOutcome`'s, and the loop throws `RunOutcome`'s exception |
| SourceFunction.BigQuerySourceFunction.constructor | src/main/java/com/google/cloud/flink/bigquery/BigQuerySourceFunction.java:62-71 | the source starts running, with the given deserializer and streams, `numOfStreams` equal to their number, and no stream names |
| SourceFunction.BigQuerySourceFunction.Open | src/main/java/com/google/cloud/flink/bigquery/BigQuerySourceFunction.java:79-91 | records index and count, then `streamNames` is exactly the striped streams from the subtask's index when running and empty otherwise; it is cleared first, so nothing accumulates |
| SourceFunction.BigQuerySourceFunction.Run | src/main/java/com/google/cloud/flink/bigquery/BigQuerySourceFunction.java:95-138 | `run` over `streamNames` emits, closes and throws exactly as `RunOutcome` says |
| SourceFunction.BigQuerySourceFunction.Close | src/main/java/com/google/cloud/flink/bigquery/BigQuerySourceFunction.java:141-143 | `close` lowers the running flag and changes nothing else |
| SourceFunction.BigQuerySourceFunction.Cancel | src/main/java/com/google/cloud/flink/bigquery/BigQuerySourceFunction.java:145-146 | `cancel` changes no state |
| SourceFunction.ReopenYieldsSameAssignment | src/main/java/com/google/cloud/flink/bigquery/BigQuerySourceFunction.java:85-90 | opening twice with the same subtask index and count yields the same stream list |
| SourceFunction.OpenAfterCloseAssignsNothing | src/main/java/com/google/cloud/flink/bigquery/BigQuerySourceFunction.java:87-89 | after `close`, `open` assigns no streams |
| ArrowDeserialization.SourceIndex | src/main/java/com/google/cloud/flink/bigquery/ArrowRowDataDeserializationSchema.java:75-80 | the source position is `i` when the selected and Arrow names agree at `i`; otherwise it is the first selected position carrying the Arrow name, and -1 exactly when there is none |
| ArrowDeserialization.ReorderedRowType | src/main/java/com/google/cloud/flink/bigquery/ArrowRowDataDeserializationSchema.java:74-84 | the re-ordered type has as many fields as the row type, and keeps the row's field wherever the selected and Arrow names agree |
| ArrowDeserialization.ReorderedTakesNamedField | src/main/java/com/google/cloud/flink/bigquery/ArrowRowDataDeserializationSchema.java:78-82 | every output position holds a field of the row type whose selected name is the Arrow name at that position |
| ArrowDeserialization.Zip | src/main/java/com/google/cloud/flink/bigquery/ArrowRowDataDeserializationSchema.java:85-88 | `RowType.of` pairs the name and type lists position by position |
| ArrowDeserialization.RowTypeForArrowSchema | src/main/java/com/google/cloud/flink/bigquery/ArrowRowDataDeserializationSchema.java:68-90 | the loop succeeds exactly when every position can be filled, yielding `ReorderedRowType`; otherwise it fails with an index-out-of-bounds error |
| ArrowDeserialization.ReorderedNames | src/main/java/com/google/cloud/flink/bigquery/ArrowRowDataDeserializationSchema.java:74-88 | when the row's names are the selected fields and every Arrow name is among them, the re-ordering succeeds and its names are the Arrow names in order |
| ArrowDeserialization.ReorderedKeepsField | src/main/java/com/google/cloud/flink/bigquery/ArrowRowDataDeserializationSchema.java:74-88 | with duplicate-free selected fields, every row field whose name the Arrow list carries appears in the re-ordering |
| ArrowDeserialization.ReorderedSameElements | src/main/java/com/google/cloud/flink/bigquery/ArrowRowDataDeserializationSchema.java:74-88 | the re-ordering holds exactly the row's fields, when every selected name is also an Arrow name |
| ArrowDeserialization.ReorderedIsPermutation | src/main/java/com/google/cloud/flink/bigquery/ArrowRowDataDeserializationSchema.java:74-88 | for a duplicate-free Arrow list that is a permutation of the selected names, the re-ordering succeeds, its names are the Arrow names in order, and it is a permutation of the row's fields |
| ArrowDeserialization.NewArrowRowDataDeserializationSchema | src/main/java/com/google/cloud/flink/bigquery/ArrowRowDataDeserializationSchema.java:48-66 | the constructor fails exactly when the re-ordering does; otherwise the read-session field names are the re-ordered type's names |
| ArrowDeserialization.CollectorOutcome | src/main/java/com/google/cloud/flink/bigquery/ArrowRowDataDeserializationSchema.java:103-123 | null message: `FlinkBigQueryException("Deserializing message is empty")`. Decode or convert failure: `FlinkBigQueryException("Error while deserializing Arrow type")`. Success exactly when both steps succeed, emitting the converted rows. A failure emits nothing |
| ArrowDeserialization.VectorSchemaRoot.Close | src/main/java/com/google/cloud/flink/bigquery/ArrowRowDataDeserializationSchema.java:119-121 | closing the column block marks it closed |
| ArrowDeserialization.Deserialize | src/main/java/com/google/cloud/flink/bigquery/ArrowRowDataDeserializationSchema.java:103-123 | the collector gains exactly `CollectorOutcome`'s rows in order and the call throws its exception; a column block exists exactly when decoding succeeded, and it is then closed on both the success and the failure path |
| ArrowDeserialization.DeserializeRow | src/main/java/com/google/cloud/flink/bigquery/ArrowRowDataDeserializationSchema.java:125-138 | a null message yields null and only it does; any failure is wrapped as `FlinkBigQueryException`; a row returned is the conversion of the decoded block |
| ArrowDeserialization.IsEndOfStream | src/main/java/com/google/cloud/flink/bigquery/ArrowRowDataDeserializationSchema.java:157-160 | the stream ends exactly at a null element |
| ArrowDeserialization.EndOfStreamIffNullMessage | src/main/java/com/google/cloud/flink/bigquery/ArrowRowDataDeserializationSchema.java:126-129 | a successfully deserialized message ends the stream exactly when the message was null |
| ArrowDeserialization.ArrowFailuresPassThroughRun | src/main/java/com/google/cloud/flink/bigquery/BigQuerySourceFunction.java:115-134 | inside `run`, an Arrow response emits and throws exactly what the schema's collector overload does: its exceptions are not `IOException`s and pass through unchanged |
| TableFactory.FactoryIdentifier | src/main/java/com/google/cloud/flink/bigquery/BigQueryDynamicTableFactory.java:119-122 | the identifier is `"bigquery"` |
| TableFactory.RequiredOptions | src/main/java/com/google/cloud/flink/bigquery/BigQueryDynamicTableFactory.java:124-133 | the set is the five required options, has size 5, and its keys are `materializationDataset`, `materializationProject`, `query`, `selectedFields`, `table` |
| TableFactory.OptionalOptions | src/main/java/com/google/cloud/flink/bigquery/BigQueryDynamicTableFactory.java:135-158 | the set built by the nineteen adds is exactly the optional options |
| TableFactory.RequiredOptionCount | src/test/java/com/google/cloud/flink/bigquery/BigQueryDynamicTableFactoryTest.java:68 | there are five required options |
| TableFactory.OptionalOptionCount | src/test/java/com/google/cloud/flink/bigquery/BigQueryDynamicTableFactoryTest.java:104 | there are nineteen optional options: no add repeats an option |
| TableFactory.OptionalOptionKeys | src/test/java/com/google/cloud/flink/bigquery/BigQueryDynamicTableFactoryTest.java:79-110 | the optional options' keys are exactly the nineteen names the test lists |
| TableFactory.OptionSetsDisjoint | src/main/java/com/google/cloud/flink/bigquery/BigQueryDynamicTableFactory.java:124-158 | no option is both required and optional |
| TableFactory.ExceptionHead | src/main/java/com/google/cloud/flink/bigquery/BigQueryDynamicTableFactory.java:277-279 | the head runs up to and including the last marker. Without a marker, the end index is `-1 + 29`: the call fails exactly when the text is shorter than 28 characters, and otherwise yields its first 28 |
| TableFactory.UnneededKeys | src/main/java/com/google/cloud/flink/bigquery/BigQueryDynamicTableFactory.java:284-291 | with `table` set, the query options are removed; otherwise, with `query` set, the table options; otherwise none; the keys are distinct |
| TableFactory.RemoveEach | src/main/java/com/google/cloud/flink/bigquery/BigQueryDynamicTableFactory.java:285-290 | one `remove(Object)` per key leaves the multiset difference of the list and the keys |
| TableFactory.ExpectedException | src/main/java/com/google/cloud/flink/bigquery/BigQueryDynamicTableFactory.java:274-296 | fails exactly when the head fails; otherwise null exactly when the filtered list is empty, else `"null"` + head + blank line + the filtered keys one per line |
| TableFactory.EnsureExpectedException | src/main/java/com/google/cloud/flink/bigquery/BigQueryDynamicTableFactory.java:274-296 | the step-by-step method returns exactly `ExpectedException` |
| TableFactory.RemoveUnneeded | src/main/java/com/google/cloud/flink/bigquery/BigQueryDynamicTableFactory.java:284-291 | the mode-dependent removals leave exactly `RemoveEach` of the unneeded keys |
| TableFactory.RemoveEachEmptyIff | src/main/java/com/google/cloud/flink/bigquery/BigQueryDynamicTableFactory.java:284-292 | for a duplicate-free list, removing the keys leaves nothing exactly when every listed element is a key |
| TableFactory.AcceptedIffOnlyUnneededMissing | src/main/java/com/google/cloud/flink/bigquery/BigQueryDynamicTableFactory.java:284-295 | a validation failure listing distinct keys is swallowed (null) exactly when every listed key is one the mode does not need |
| TableFactory.ModeSpecificOptionsAreNotMissing | src/main/java/com/google/cloud/flink/bigquery/BigQueryDynamicTableFactory.java:284-291 | in table mode a failure listing only query options, and in query mode one listing only table options, is swallowed |
| TableFactory.TableModeStillReportsSelectedFields | src/main/java/com/google/cloud/flink/bigquery/BigQueryDynamicTableFactory.java:284-294 | in table mode a missing `selectedFields` is always reported |
| TableFactory.RemoveEachKeeps | src/main/java/com/google/cloud/flink/bigquery/BigQueryDynamicTableFactory.java:285-290 | an element that is not one of the keys survives their removal |
| TableFactory.MissingArgs | src/main/java/com/google/cloud/flink/bigquery/BigQueryDynamicTableFactory.java:280-283 | the missing keys are at least one line, no line holds a newline, and joining them with newlines gives back the trimmed text after the last marker |
| TableFactory.NoMarkerMissingArgs | src/main/java/com/google/cloud/flink/bigquery/BigQueryDynamicTableFactory.java:280-283 | without the marker, the missing list is a single empty piece |
| TableFactory.NoMarkerIsReported | src/main/java/com/google/cloud/flink/bigquery/BigQueryDynamicTableFactory.java:277-294 | without the marker (and a text of at least 28 characters), the failure is reported as `"null"` + the first 28 characters + a blank line |
| TableFactory.CommaTerminated | src/main/java/com/google/cloud/flink/bigquery/BigQueryDynamicTableFactory.java:253-257 | the accumulated string is empty exactly when there are no names, and otherwise ends with a comma |
| TableFactory.CommaTerminatedAppend | src/main/java/com/google/cloud/flink/bigquery/BigQueryDynamicTableFactory.java:253-257 | accumulating two lists of names one after the other equals accumulating their concatenation |
| TableFactory.StripLastChar | src/main/java/com/google/cloud/flink/bigquery/BigQueryDynamicTableFactory.java:184 | `substring(0, length - 1)` fails exactly on the empty string; otherwise it and the last character make up the string |
| TableFactory.StripCommaTerminated | src/main/java/com/google/cloud/flink/bigquery/BigQueryDynamicTableFactory.java:184 | stripping the last character of the accumulated names gives the names joined by commas, and fails when there are none |
| TableFactory.ReadStreamNames | src/main/java/com/google/cloud/flink/bigquery/BigQueryDynamicTableFactory.java:243-246 | the stream-name list is the session's streams, in session order |
| TableFactory.Absorb | src/main/java/com/google/cloud/flink/bigquery/BigQueryDynamicTableFactory.java:247-266 | an Arrow session appends its Arrow names, each followed by a comma, to the Arrow string and leaves the rest; an Avro session does the same to the Avro string and replaces the schema; any other format changes nothing |
| TableFactory.BigQueryDynamicTableFactory.constructor | src/main/java/com/google/cloud/flink/bigquery/BigQueryDynamicTableFactory.java:116-117 | both field strings start empty and there is no Avro schema |
| TableFactory.BigQueryDynamicTableFactory.GetReadStreamNames | src/main/java/com/google/cloud/flink/bigquery/BigQueryDynamicTableFactory.java:202-272 | a session read that fails with an `IOException` is rethrown as `FlinkBigQueryException("Error while reading big query session:")`, any other failure passes unchanged, and a failure changes nothing; otherwise the result is the session's streams and the fields become `Absorb` of the old ones |
| TableFactory.BigQueryDynamicTableFactory.AppendFields | src/main/java/com/google/cloud/flink/bigquery/BigQueryDynamicTableFactory.java:253-265 | the chosen field string gains each name followed by a comma, in order; the other string and the schema are unchanged |
| TableFactory.BigQueryDynamicTableFactory.CreateDynamicTableSource | src/main/java/com/google/cloud/flink/bigquery/BigQueryDynamicTableFactory.java:164-200 | a failure that `ensureExpectedException` does not swallow becomes `IllegalArgumentException` with its text, one whose head cannot be cut fails with the index error, and both change nothing. When validation passes, a failed session read fails the call as `getReadStreamNames` does (an `IOException` wrapped as `FlinkBigQueryException("Error while reading big query session:")`, anything else unchanged) and changes nothing; an empty accumulated field list fails with the index error of `substring(0, -1)`, and a missing Avro schema with a null dereference. Otherwise the streams are listed and the catalog options gain `selectedFields` and the format's field list without its last comma (and, for a non-Arrow session, the Avro schema). The call succeeds exactly when that field list is non-empty (and the schema present) |
| TableFactory.FreshFactoryArrowFields | src/main/java/com/google/cloud/flink/bigquery/BigQueryDynamicTableFactory.java:178-185 | on a fresh factory, an Arrow session with at least one field hands over exactly its field names joined by commas |
| TableFactory.FailedSessionReadIsWrapped | src/main/java/com/google/cloud/flink/bigquery/BigQueryDynamicTableFactory.java:178 | a session read that fails with an I/O error after validation passed ends the call with `FlinkBigQueryException("Error while reading big query session:")` and leaves both field strings and the schema as they were |
| TableFactory.SecondSessionAccumulates | src/main/java/com/google/cloud/flink/bigquery/BigQueryDynamicTableFactory.java:253-257 | the field strings are never reset: a second session's names follow the first session's |
| AvroFormat.FactoryConstants | src/main/java/com/google/cloud/flink/bigquery/AvroFormatFactory.java:61-80 | the identifier is `"avro"` (not the table factory's), both option sets are empty, and there is no encoding format |
| AvroFormat.NormalisedSelectedFields | src/main/java/com/google/cloud/flink/bigquery/AvroFormatFactory.java:47-50 | a value without a trailing comma is kept as it is; one with a trailing comma gets shorter |
| AvroFormat.NormaliseComma | src/main/java/com/google/cloud/flink/bigquery/AvroFormatFactory.java:47-50 | a value ending in a comma is normalised by dropping that comma and removing every `selectedFields=` |
| AvroFormat.NormaliseTerminated | src/main/java/com/google/cloud/flink/bigquery/AvroFormatFactory.java:47-50 | a comma-terminated text free of `=`, with or without a leading `selectedFields=`, normalises to the text before the comma |
| AvroFormat.SelectedFieldList | src/main/java/com/google/cloud/flink/bigquery/AvroFormatFactory.java:56 | no selected field holds a comma; `SelectedFieldsRoundTrip` and `PrefixedSelectedFields` show which names come back |
| AvroFormat.SingleSelectedField | src/main/java/com/google/cloud/flink/bigquery/AvroFormatFactory.java:47-56 | a value with no comma anywhere selects exactly itself |
| AvroFormat.SelectedFieldsRoundTrip | src/main/java/com/google/cloud/flink/bigquery/AvroFormatFactory.java:47-57 | plain field names, written comma-terminated or comma-joined, are read back as exactly those names |
| AvroFormat.PrefixedSelectedFields | src/main/java/com/google/cloud/flink/bigquery/AvroFormatFactory.java:47-57 | a leading `selectedFields=` on a comma-terminated list is removed and the names are read back exactly |
| AvroFormat.AvroFieldsRoundTrip | src/main/java/com/google/cloud/flink/bigquery/AvroFormatFactory.java:53 | the Avro field string the table factory hands over is split back into exactly the session's field names |
| AvroFormat.AvroFormatFactory.constructor | src/main/java/com/google/cloud/flink/bigquery/AvroFormatFactory.java:39 | the selected-fields field starts null |
| AvroFormat.AvroFormatFactory.CreateDecodingFormat | src/main/java/com/google/cloud/flink/bigquery/AvroFormatFactory.java:42-59 | a missing `selectedFields` fails with a null dereference before anything else. Otherwise the field holds the normalised value, and a missing `avroFields` fails next. With both present, the format gets the split selected fields, the split Avro fields and the schema (null when absent) |
| AvroFormat.TableOptionsRoundTrip | src/main/java/com/google/cloud/flink/bigquery/AvroFormatFactory.java:42-59 | the options the table factory writes are read back, when the configured selected fields are written comma-terminated (the configuration code is not part of this model; `SelectedFieldsRoundTrip` covers the comma-joined form too): plain names on both sides give exactly the selected names, the session's Avro names and the schema |
| JavaLib.LastIndexOf | src/main/java/com/google/cloud/flink/bigquery/BigQueryDynamicTableFactory.java:279 | `lastIndexOf` is -1 or an occurrence, and no occurrence starts later |
| JavaLib.SubstringAfterLast | src/main/java/com/google/cloud/flink/bigquery/BigQueryDynamicTableFactory.java:283 | the text after the last separator, or empty when there is none |
| JavaLib.Trim | src/main/java/com/google/cloud/flink/bigquery/BigQueryDynamicTableFactory.java:283 | `trim` returns a slice of the string with only blanks cut off before and after it, and the slice has no blank at either end; so it keeps a string with no blank ends and empties an all-blank one |
| JavaLib.SplitAll | src/main/java/com/google/cloud/flink/bigquery/AvroFormatFactory.java:56 | splitting yields at least one piece and no piece holds the separator |
| JavaLib.DropTrailingEmpty | src/main/java/com/google/cloud/flink/bigquery/AvroFormatFactory.java:56 | `split` drops exactly the trailing empty pieces |
| JavaLib.JavaSplit | src/main/java/com/google/cloud/flink/bigquery/AvroFormatFactory.java:56 | a string without the separator splits to itself alone (even the empty string); no piece holds the separator; and when the separator occurs no trailing piece is empty. `SplitAll` and `DropTrailingEmpty` give the pieces, `JavaSplitJoin` and `JavaSplitRejoin` the round trips with `Join` |
| JavaLib.JoinSplitAll | src/main/java/com/google/cloud/flink/bigquery/AvroFormatFactory.java:56 | joining every piece of a split, empty ones included, with the separator restores the string |
| JavaLib.SplitAllJoin | src/main/java/com/google/cloud/flink/bigquery/AvroFormatFactory.java:56 | splitting a join of separator-free pieces gives exactly those pieces |
| JavaLib.JavaSplitJoin | src/main/java/com/google/cloud/flink/bigquery/AvroFormatFactory.java:56 | a non-empty list of separator-free pieces whose last piece is not empty (unless alone) survives join-then-split |
| JavaLib.JavaSplitRejoin | src/main/java/com/google/cloud/flink/bigquery/BigQueryDynamicTableFactory.java:283 | a string that does not end with the separator splits into at least one piece, and joining the pieces restores it: no trailing piece is lost |
| JavaLib.TrimmedRejoin | src/main/java/com/google/cloud/flink/bigquery/BigQueryDynamicTableFactory.java:283 | a trimmed string split on a blank separator such as a newline rejoins to itself |
| JavaLib.Join | src/main/java/com/google/cloud/flink/bigquery/BigQueryDynamicTableFactory.java:293 | joining nothing gives the empty string; `JoinFirstAndLast`, `CharNotInJoin`, `JoinSplitAll` and `SplitAllJoin` state what a join holds |
| JavaLib.JoinFirstAndLast | src/main/java/com/google/cloud/flink/bigquery/BigQueryDynamicTableFactory.java:293 | a join starts with its first piece and ends with its last |
| JavaLib.CharNotInJoin | src/main/java/com/google/cloud/flink/bigquery/BigQueryDynamicTableFactory.java:293 | a character in none of the pieces, and not the separator, is not in the join |
| JavaLib.Replace | src/main/java/com/google/cloud/flink/bigquery/AvroFormatFactory.java:49 | `replace` leaves a text without occurrences unchanged, and replacing by "" never lengthens; `ReplaceLeading` and `ReplaceConcat` state which text results |
| JavaLib.ReplaceLeading | src/main/java/com/google/cloud/flink/bigquery/AvroFormatFactory.java:49 | an occurrence at the start is replaced and the scan resumes after it |
| JavaLib.ReplaceConcat | src/main/java/com/google/cloud/flink/bigquery/AvroFormatFactory.java:49 | when no occurrence of the target straddles the boundary of two strings, `replace` on their concatenation is `replace` on each part, concatenated: together with `ReplaceLeading` and the no-occurrence clause this fixes the left-to-right, non-overlapping result |
| JavaLib.IndexOf | src/main/java/com/google/cloud/flink/bigquery/ArrowRowDataDeserializationSchema.java:80 | `indexOf` is the first position of the element, and -1 exactly when it is absent |
| JavaLib.RemoveFirst | src/main/java/com/google/cloud/flink/bigquery/BigQueryDynamicTableFactory.java:285 | `remove(Object)` drops the first equal element and only it, and leaves a list without it unchanged |
| FlinkRuntime.ListCollector.Collect | src/main/java/com/google/cloud/flink/bigquery/BigQuerySourceFunction.java:117 | the list behind the collector gains the row at its end and nothing else changes |
| FlinkRuntime.ListCollector.Clear | src/main/java/com/google/cloud/flink/bigquery/BigQuerySourceFunction.java:121 | the list behind the collector becomes empty |
| FlinkRuntime.SourceContext.Collect | src/main/java/com/google/cloud/flink/bigquery/BigQuerySourceFunction.java:119 | the context's emitted rows gain the row at their end (the Avro branch collects the same way at line 126) |

## Left out

- The read-rows helper, its retry policy (five retries) and the BigQuery client factory: the
  responses of a stream are the input function `readRows`.
- The Arrow IPC and Avro decoders, `ArrowToRowDataConverters` and `ArrowSchemaConverter`:
  they are input functions that yield a result or fail. The model assumes the schema
  converter keeps the re-ordered names, so the read-session field names are those names.
- Read-session creation, credentials, the user-agent provider, `FlinkBigQueryConfig` and
  option validation (`FactoryUtil.validateFactoryOptions`, `helper.validate`): the session
  arrives as a value or a failure, and the validation failure arrives as its message text.
- `JSQLParserException` in `getReadStreamNames`: only the `IOException` case is singled out;
  every other failure passes unchanged.
- `getProducedType`, `open(InitializationContext)`, `equals` and `hashCode` of the
  deserialization schema: they only delegate to objects that are not shown.
- `RowType.of`'s own validation (for example, of duplicate names) is not modelled:
  `ArrowDeserialization.Zip` pairs the lists as given.
- `ArrowDeserialization.RowTypeForArrowSchema` and
  `ArrowDeserialization.NewArrowRowDataDeserializationSchema`: they succeed exactly when
  the re-ordering is possible, so an Arrow list that repeats a name succeeds in the model
  where `RowType.of` would reject the duplicate name.
- Discovering the decoding format and building `BigQueryDynamicTableSource` are not modelled:
  `CreateDynamicTableSource` returns the streams and the catalog options it writes.
- Java `int` and `long` widths: stream indices, `rowCount` and loop counters are unbounded
  integers, so overflow is not modelled.
- `ArrowDeserialization.DeserializeRow`: the row converter is taken to return a row or
  fail, never null, so only a null message yields null; a Java converter that returned null
  for a non-null message would also end the stream, which `EndOfStreamIffNullMessage` does not cover.
- `ArrowDeserialization.DeserializeRow`: the Java single-message overload never closes the
  `VectorSchemaRoot` it decodes, and it casts to one row the same converter result that the
  collector overload casts to a list of rows. The model has no block in this member and takes
  the row conversion as its own input `convertRow`, so it captures neither the unclosed block
  nor the shared converter.
- The Avro branch's single-message `deserialize` result (a row, or null) is taken as a row.
- `SourceFunction.BigQuerySourceFunction.Run`: a collector whose `collect` throws part-way
  through a batch is not modelled; the list collector only appends.
- `SourceFunction.BigQuerySourceFunction.Run`: the helper of a stream that fails is never
  closed, as the Java `run` does; `closed` is a ghost trace of the `close()` calls.
- `SourceFunction.Rethrown` and `TableFactory.BigQueryDynamicTableFactory.GetReadStreamNames`:
  the Java code passes the caught exception as the cause of the new `FlinkBigQueryException`;
  the model keeps only the message and drops the cause.
- `TableFactory.BigQueryDynamicTableFactory.CreateDynamicTableSource`: the Java code writes
  `selectedFields` (and, for Avro, `avroFields`) into the catalog table's own options before
  `substring` or `avroSchema.toString()` can fail, so a failed call leaves those entries
  written. The model returns the catalog options only on success and does not model the
  catalog table as shared state.
- `FlinkBigQueryException` is taken to be unchecked (not an `IOException`), so `run` lets the
  schema's own exceptions through unchanged.
- `AvroFormat.CreateEncodingFormat` and the format's option sets are constants; the
  `context` and `formatOptions` parameters are reduced to the catalog options map.
- `TableFactory.OptionalOptions`: the method's contract states set equality with the
  nineteen options; their number and keys are stated by `OptionalOptionCount` and
  `OptionalOptionKeys`.
- Concurrency between subtasks: one subtask is modelled with its index and count as
  parameters, and the partition property is a lemma over all indices.
