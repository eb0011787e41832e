# Edge data collector: spooler, pipeline manager, HTTP destination, dev-random origin

A Dafny model of four pieces of an edge data-ingestion agent. Files, the
network and the random generator are replaced by in-memory stand-ins.

- **File spooler origin** (`Spooler`, `SpoolerLines`, `SpoolerOrder`,
  `SpoolerScenarios`). The directory is a snapshot: a sequence of files, each
  with a full path, a modification time and contents.
  - `Produce(cfg, snapshot, offset, batchSize)` reads at most `batchSize`
    lines of one file. It starts where the offset points, or at the next file
    in the configured order. It returns the new offset and one record per
    line.
  - Each record carries the `FILE`, `FILE_NAME` and `OFFSET` headers.
    `OFFSET` is the position where the line starts. File contents are
    strings with one character per byte, so that position is the byte index.
  - Files are ordered by full path, or by modification time and then path.
    With sub-directory processing on, files at any depth are included.
  - The spooler's implementation file is not part of this model. The model
    follows the behaviour the origin's tests assert.
  - `SpoolerScenarios` replays those tests on the directories they build.
- **Pipeline manager** (`PipelineManager`). A class whose map field holds one
  runner per pipeline id. `GetRunner` inserts a runner only when the id is
  absent and never removes one. Start, stop and offset reset go through
  `GetRunner`.
- **HTTP client destination** (`HttpDestination`). `Init` applies the named
  configuration entries to the destination's fields, in a loop. `Write` turns
  each record into bytes: a string's own bytes, or the JSON encoding of any
  other value. It then sends one request per record, or a single request whose
  body is every record followed by a newline. Sending goes through a
  `Transport` object that logs each request and answers the k-th one with a
  fixed function of k.
- **Dev-random origin** (`DevRandom`).
  - `Init` splits the field list at commas, with Go's `strings.Split`
    semantics.
  - `Produce` makes exactly `maxBatchSize` attempts, each filling one value
    per field from the generator. The record goes to the batch, or its
    creation error goes to the error sink.
  - `Produce` always returns the offset `"random"`.
  - The generator is reseeded with 99 on every call, so its draws are a fixed
    sequence `seeded: nat -> Int63`.

Two panics in the source are reported in the model as returned errors: a
runner that cannot be built, and a configuration value of the wrong type. The
send to the collector can also panic: it uses a nil request when building the
request fails, and a header entry of the wrong shape fails a type assertion.
The model abstracts the send into the transport's answer, so these two panics
are not modelled.

## Model

| member | source | states |
|---|---|---|
| SpoolerLines.ReadLines | stages/origins/spooler/spooler_test.go:197-253 | reads at most n lines from a byte position; the lines read, followed by every line from the returned position, are exactly the lines from the starting position; it reads fewer than n only at end of file, and nothing only when n is 0 or the file is exhausted |
| SpoolerLines.LinesCoverRest | stages/origins/spooler/spooler_test.go:179-217 | putting the lines back together, each with a newline, gives the unread bytes plus the one newline a final unterminated line lacks, so "123\n456" yields both "123" and "456" |
| SpoolerLines.LinesHaveNoNewline | stages/origins/spooler/spooler_test.go:209-217 | no record value contains a newline |
| SpoolerLines.LineStartsAreByteOffsets | stages/origins/spooler/spooler_test.go:203-275 | each line's start is the number of bytes the earlier lines and their newlines occupy, which is the OFFSET header value |
| SpoolerOrder.KeyLessTransitive | stages/origins/spooler/spooler_test.go:185-193 | the file order (by path, or by modification time then path) is transitive |
| SpoolerOrder.KeyLessTotal | stages/origins/spooler/spooler_test.go:185-193 | any two files with different paths are ordered one way or the other |
| SpoolerOrder.FirstAfter | stages/origins/spooler/spooler_test.go:219-239 | the file picked next is a non-empty file inside the spool directory, strictly after the cursor's file, with no such candidate before it; there is none exactly when no candidate exists |
| SpoolerOrder.FirstAfterIsLeast | stages/origins/spooler/spooler_test.go:255-275 | when paths are distinct, the pick comes strictly before every other candidate |
| Spooler.BaseName | stages/origins/spooler/spooler_test.go:204-205 | FILE_NAME has no '/', is a suffix of the path, and follows the path's last '/' |
| Spooler.Decimal | stages/origins/spooler/spooler_test.go:206-214 | the OFFSET header is a non-empty string of decimal digits whose value is the byte offset, with no leading zero unless the offset is 0 |
| Spooler.Produce | stages/origins/spooler/spooler_test.go:197-239 | a call returns at most batchSize records, all from one file in the spool directory, with its base name; the new offset points into that file; a call stops short of batchSize records only at the end of that file, and then the offset is the file's size; a call that returns nothing leaves the offset unchanged |
| Spooler.ProduceResumes | stages/origins/spooler/spooler_test.go:241-253 | the records of one call, followed by everything still to come from the returned offset, are exactly what was still to come before: nothing is skipped or repeated; a call with positive batch size returns nothing only when nothing is left; the returned offset is again valid |
| Spooler.FileOrderCandidates | stages/origins/spooler/spooler_test.go:219-275 | every file in the visiting order is a file of the snapshot that may be picked after the starting point |
| Spooler.FileOrderSorted | stages/origins/spooler/spooler_test.go:219-275 | the visiting order is strictly increasing, so no file is visited twice |
| Spooler.FileOrderComplete | stages/origins/spooler/spooler_test.go:219-275 | no selectable file after the starting point is missing from the visiting order |
| Spooler.VisitOrder | stages/origins/spooler/spooler_test.go:185-193 | from an empty offset exactly the selectable files are visited, in ascending modification time or ascending path; what is still to come is all their records, file after file |
| Spooler.Drain | stages/origins/spooler/spooler_test.go:428-446 | feeding each returned offset into the next call until a call returns nothing yields non-empty batches, each at most batchSize and from one file; together they are every line of every selectable file, in visiting order, once |
| SpoolerScenarios.LastModifiedFirstCall | stages/origins/spooler/spooler_test.go:197-217 | by modification time, batch size 3 from an empty offset: "123" at 0 and "456" at 4 from a.txt, and nothing from the next file |
| SpoolerScenarios.LastModifiedSecondCall | stages/origins/spooler/spooler_test.go:219-239 | the next call, batch size 2: the first two lines of c.txt at 0 and 10 |
| SpoolerScenarios.LastModifiedThirdCall | stages/origins/spooler/spooler_test.go:241-253 | the next call resumes c.txt and returns its last line at 20 |
| SpoolerScenarios.LastModifiedFourthCall | stages/origins/spooler/spooler_test.go:255-275 | the next call moves on to b.txt: lines at 0 and 7 |
| SpoolerScenarios.LastModifiedExhausted | stages/origins/spooler/spooler_test.go:255-275 | after the test's last call nothing is left: no records and the offset stays |
| SpoolerScenarios.ByNameFirstCall | stages/origins/spooler/spooler_test.go:303-323 | by path: a.txt's two lines first |
| SpoolerScenarios.ByNameSecondCall | stages/origins/spooler/spooler_test.go:325-345 | then b.txt's two lines at 0 and 7 |
| SpoolerScenarios.ByNameAfterB | stages/origins/spooler/spooler_test.go:347-351 | after b.txt, c.txt is the file picked |
| SpoolerScenarios.ByNameThirdCall | stages/origins/spooler/spooler_test.go:347-367 | then the first two lines of c.txt at 0 and 10 |
| SpoolerScenarios.ByNameFourthCall | stages/origins/spooler/spooler_test.go:369-381 | then c.txt's last line at 20 |
| SpoolerScenarios.FirstCallHeaders | stages/origins/spooler/spooler_test.go:211-217 | the header map of the record "456" is FILE "t/a.txt", FILE_NAME "a.txt", OFFSET "4" |
| SpoolerScenarios.OneLineFilesOneRecordPerCall | stages/origins/spooler/spooler_test.go:428-446 | when every file is one line without a trailing newline, each call from the end of a file returns exactly one record, the whole next file at offset 0 with its path and base name, and leaves the cursor at that file's end |
| SpoolerScenarios.NestedOnlyWhenRecursing | stages/origins/spooler/spooler_test.go:390-423 | with sub-directory processing on, a file at any depth below the spool directory is inside it; with it off, only a file directly in it |
| PipelineManager.InsertIfAbsent | container/execution/manager/pipeline_manager.go:18-25 | the keys grow by exactly the id; an existing entry wins over the offered value; every other entry is kept |
| PipelineManager.InsertIfAbsentIdempotent | container/execution/manager/pipeline_manager.go:17-26 | a second insert-if-absent of the same id changes nothing, whatever value it offers |
| PipelineManager.InsertIfAbsentExtends | container/execution/manager/pipeline_manager.go:23 | anything that extends the map after an insert contains the id and keeps every earlier entry |
| PipelineManager.Manager.constructor | container/execution/manager/pipeline_manager.go:43-56 | a new manager has an empty runner map |
| PipelineManager.Manager.GetRunner | container/execution/manager/pipeline_manager.go:17-26 | a present id returns the stored runner and leaves the map unchanged; an absent id gets one fresh runner for that id, stored and returned; a failed construction inserts nothing and reports the error; no entry is ever removed or replaced |
| PipelineManager.Manager.StartPipeline | container/execution/manager/pipeline_manager.go:28-33 | goes through GetRunner; that id's runner receives the start with the runtime parameters and its answer is returned; the map gains at most that id, bound to a fresh runner when it was absent; if building that runner fails, the error is returned and the map is unchanged; other runners are untouched |
| PipelineManager.Manager.StopPipeline | container/execution/manager/pipeline_manager.go:35-37 | goes through GetRunner; that id's runner receives the stop and its answer is returned; the map gains at most that id, bound to a fresh runner when it was absent; if building that runner fails, the error is returned and the map is unchanged; other runners are untouched |
| PipelineManager.Manager.ResetOffset | container/execution/manager/pipeline_manager.go:39-41 | goes through GetRunner; that id's runner receives the reset and its error is returned; the map gains at most that id, bound to a fresh runner when it was absent; if building that runner fails, the error is returned and the map is unchanged; other runners are untouched |
| PipelineManager.Runner.StartPipeline | container/execution/manager/pipeline_manager.go:32 | the runner logs the start command and returns its answer |
| PipelineManager.Runner.StopPipeline | container/execution/manager/pipeline_manager.go:36 | the runner logs the stop command and returns its answer |
| PipelineManager.Runner.ResetOffset | container/execution/manager/pipeline_manager.go:40 | the runner logs the reset command and returns its answer |
| PipelineManager.GetRunnerTwice | container/execution/manager/pipeline_manager.go:17-26 | two GetRunner calls for one id return the same runner object; the map gains only that id |
| HttpDestination.Apply | stages/destinations/http/http.go:47-69 | an entry fails exactly when its value has the wrong type for its field; otherwise the field with the entry's name takes its value, every other field keeps its own, and an unknown name changes nothing |
| HttpDestination.ApplyAllFailsOnFirstIllTyped | stages/destinations/http/http.go:46-70 | the configuration loop fails exactly when some entry is ill-typed, and then with the error of the first such entry |
| HttpDestination.LastEntryWins | stages/destinations/http/http.go:46-70 | the last entry with a field's name decides that field; a field no entry names keeps its value |
| HttpDestination.HttpClientDestination.constructor | stages/destinations/http/http.go:34-37 | a new destination has every field at its zero value |
| HttpDestination.HttpClientDestination.Init | stages/destinations/http/http.go:40-72 | a base-stage error is returned with no field set; otherwise the fields end as the entries applied in order leave them, stopping at the first ill-typed one |
| HttpDestination.ResponseError | stages/destinations/http/http.go:155-166 | a send succeeds exactly when the response has status 200; a transport failure reports its reason; any other status reports the status text (what this means for a batch is stated by PerRecordSucceedsIff and PerRecordStopsAtFirstError) |
| HttpDestination.Transport.Post | stages/destinations/http/http.go:155 | the request is appended to the log and the answer is the one fixed for its position |
| HttpDestination.HttpClientDestination.SendToSDC | stages/destinations/http/http.go:107-167 | exactly one request is sent, to the resource URL, with the payload and the gzip choice; its error is the response's error |
| HttpDestination.RecordBytes | stages/destinations/http/http.go:80-89 | a string record's bytes are exactly its own bytes; any other value is JSON-encoded, and the encoder's error comes back as is (what this means for a batch is stated by StringsGoOutVerbatim) |
| HttpDestination.StringsGoOutVerbatim | stages/destinations/http/http.go:80-99 | whatever the JSON encoder does, a batch of strings has the single-request body of the strings' own bytes, each followed by a newline; when every send is answered with 200, per-record mode sends exactly those bytes in order and reports no error |
| HttpDestination.FramedFirstError | stages/destinations/http/http.go:78-93 | when the single-request body cannot be built, the error is the encoding error of the first record that does not encode, and every record before it encodes |
| HttpDestination.FramedIsFrame | stages/destinations/http/http.go:91-93 | the single-request body exists exactly when every record encodes, and is then each record's bytes followed by a newline, in batch order |
| HttpDestination.UnframeFrame | stages/destinations/http/http.go:91-93 | when no record's bytes contain a newline, cutting the body at newlines gives back the records' bytes |
| HttpDestination.PerRecordSendsInOrder | stages/destinations/http/http.go:94-99 | per-record mode sends each record's own bytes in batch order, stopping at the first error; it sends every record exactly when it reports no error, and those payloads framed are the single-request body |
| HttpDestination.PerRecordStopsAtFirstError | stages/destinations/http/http.go:94-99 | every send before the last was answered with 200 (every send, when no error is reported); a reported error is either the encoding error of the first record not sent or the failed answer to the last send |
| HttpDestination.PerRecordSucceedsIff | stages/destinations/http/http.go:81-99 | per-record mode reports no error exactly when every record encodes and each of its sends is answered with status 200 |
| HttpDestination.HttpClientDestination.WriteSingle | stages/destinations/http/http.go:78-104 | single-request mode: an encoding error returns it with nothing sent, and it is the error of the first record that does not encode (FramedFirstError); an empty batch sends nothing and succeeds; otherwise exactly one request carries the framed body and its error is returned |
| HttpDestination.HttpClientDestination.WritePerRecord | stages/destinations/http/http.go:78-100 | per-record mode: the requests sent and the error returned are those of PerRecord: one request per record, in order, stopping at the first encoding or send error |
| HttpDestination.HttpClientDestination.Write | stages/destinations/http/http.go:74-105 | the batch goes out in the mode the singleRequestPerBatch setting chooses, with that mode's requests and error |
| DevRandom.JoinSplit | stages/origins/dev_random/dev_random.go:51 | joining the field list with commas gives back the configured string |
| DevRandom.SplitPiecesClean | stages/origins/dev_random/dev_random.go:51 | no field name contains a comma |
| DevRandom.SplitCount | stages/origins/dev_random/dev_random.go:51 | there is one field name more than there are commas, so an empty string gives one empty name |
| DevRandom.DevRandomSource.constructor | stages/origins/dev_random/dev_random.go:34-45 | a new stage holds the configured field string, an empty field list and the generator's draws |
| DevRandom.DevRandomSource.Init | stages/origins/dev_random/dev_random.go:47-53 | a base-stage error is returned unchanged with the field list untouched; otherwise the field list is the configured string split at commas |
| DevRandom.RecordValueKeys | stages/origins/dev_random/dev_random.go:59-62 | a record's keys are exactly the listed field names |
| DevRandom.RecordValueDraws | stages/origins/dev_random/dev_random.go:59-62 | each field holds the draw of its last position in the list |
| DevRandom.AttemptsAccounted | stages/origins/dev_random/dev_random.go:58-68 | records added plus errors sent equal the attempts; every added record has source id "dev-random" and one key per listed field |
| DevRandom.AllAdded | stages/origins/dev_random/dev_random.go:58-68 | with no creation failures there is one record per attempt, the i-th filled from draws i*n onwards for n fields |
| DevRandom.BatchMaker.AddRecord | stages/origins/dev_random/dev_random.go:64 | the record is appended to the batch |
| DevRandom.ErrorSink.ToError | stages/origins/dev_random/dev_random.go:66 | the error is appended to the error sink |
| DevRandom.DevRandomSource.Produce | stages/origins/dev_random/dev_random.go:55-70 | returns offset "random" and no error whatever the last offset; makes max(0, maxBatchSize) attempts, the batch gaining the created records and the sink the creation errors, in attempt order |
| DevRandom.ProduceTwice | stages/origins/dev_random/dev_random.go:56 | two calls on one stage, with different last offsets, produce identical records, and records plus errors number the attempts |

## Left out

- The real file system, the glob file pattern, the initial-file override and the polling timeout of the spooler. The tests use "*", no initial file and a one-second timeout. A snapshot stands for the directory at call time.
- The spooler's offset wire format. The offset is a datatype holding the file's key and a byte position.
- The spooler's record source id.
- File contents are byte strings; the model holds them as strings with one character per byte. Character decoding is not modelled.
- Spooler.Produce: a batch never continues into the next file, and a file's end offset is its size. This is what the tests assert (a batch size of 3 on a.txt returns its 2 lines, lines 197-201). A variant in which a batch continues into the next file is not modelled. The tests do not check the end offset.
- The spooler's implementation file (the Go code behind Produce) is not part of this model.
- PipelineManager.Manager.GetRunner: a runner that cannot be built makes the source panic; the model returns `Err` and inserts nothing. Whether construction fails is a parameter, because it depends on the stored pipeline definition.
- The runner's own state machine and the pipeline store are not part of this model. A runner only logs the commands it receives, and its answers are parameters.
- Concurrent calls on the runner map. The source takes no lock, and the model is sequential.
- HttpDestination.Apply: a value of the wrong type makes the source's type assertion panic; the model returns an error naming the entry. `GetResolvedValue` (expression resolution) is not modelled; values arrive resolved.
- HttpDestination.HttpClientDestination.SendToSDC: gzip compression, request headers, content type, the TLS trust store and the HTTP client are not modelled. The request records the URL, the uncompressed payload and whether gzip was chosen. Failures of these steps are covered by the transport's answer, except the two panics named above (a failed request construction at http.go:120, a header entry of the wrong shape at http.go:123-124), which the model does not have.
- The debug log lines written by Init, Write and the send (http.go:45, 75 and 161) are not modelled; they have no effect on the destination's state or results.
- `json.Marshal` is a parameter that may fail. Its output format is not modelled.
- DevRandom.DevRandomSource.Produce: the `Delay` sleep and the internals of `math/rand` are left out. The draws of a generator seeded with 99 are a fixed function of their position. Record creation can fail through a parameter. The record passed to the error sink alongside the error is not modelled.
- Process start-up, flag parsing, configuration loading and the web server (container/edge/edge.go) are not part of this model.
