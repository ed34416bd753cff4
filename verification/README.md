# Verified model of the examvan backend

This project models the parts of the examination backend where a mistake would lose answers,
leak answer keys or corrupt data, and proves what they do. Every module is a model of the
code as it is: same branches, same constants, same edge cases. Where a promise of the code
or of its comments does not hold, there is a lemma that says exactly what happens instead.

| area | files |
|---|---|
| submission pipeline over any way of writing and reading jobs: Redis lists, workers, batches, grading, retries, dead letters, shutdown | `Rounds`, `Pipeline`, `PipelineTrace`, `PipelineTheorems`, `PipelineRounds`, `PipelineRecords`, `PipelineShutdown` |
| JSON strings and the job codec that searches for field names | `JsonText`, `JsonGrammar`, `JobText`, `JobJson`, `JobCodec`, `JobScalars`, `JobMaps`, `JobRoundTrip`, `JobIdentity`, `JobPrint`, `JobScanners` |
| the pipeline with that codec and the real scorer: what becomes of a job round after round, and the workers' code | `JobRounds`, `JobFate`, `JobGrading`, `JobPipeline`, `SubmissionWorker` |
| WebSocket frames, fragments and limits | `WebSocket`, `WebSocketTheorems`, `WebSocketMessages`, `WebSocketAnswers`, `WebSocketServer` |
| removal of answer keys from question JSON | `Sanitize`, `JsonTree`, `SanitizeText`, `SanitizeTheorems`, `SanitizeDefects` |
| exam tokens and idempotency keys | `ExamStore`, `ExamProtocol`, `ExamEffects` |
| calendar and timestamps | `Calendar`, `Timestamps` |
| ZIP archives, checksums, column letters | `Zip`, `ZipReader`, `ZipExample`, `Crc32`, `CrcDivision`, `Columns` |
| approval list differences | `ApprovalOps`, `ApprovalTheorems`, `ApprovalSteps` |
| rate limiter | `RateLimiter`, `LimiterHistory` |
| Socket.IO text codec | `SocketIo`, `SocketIoTheorems` |
| hub rooms and send queues | `HubModel`, `HubEffects`, `HubServer` |
| scoring | `Scoring`, `ScanTheorems`, `ScoringTheorems`, `ScoringAnswers`, `Grading` |

`Wrappers`, `Text` and `Bytes` hold what several of them share. A byte of a C++ string is a
character with the same code in the text modules, and an integer below 256 in the binary
ones. Code that changes state is a class or a loop proved against a specification function;
what is promised is then proved of the function, over every input or every run. Concurrent
code is a state machine whose steps are the regions under a mutex and the single calls to
Redis or the store, taken in any order.

What the code does not do, although one might expect it:

- A batch whose database callback is never called vanishes: it is neither persisted nor
  failed, and no result is stored. Jobs vanish in a run exactly when this happens.
- A job value that equals a later field's name, or ends in a quote followed by it, is taken
  for that name when the job is read back from Redis; the value of the next field is read. A
  job is read back at every pop, so this happens again in every round. It can concern the
  retry counter itself: the job of a student called "retries" with exam number -7 is retried
  for ever while the database is down, if it can be graded, and with exam number 9 it is not
  retried at all. Three retries are what jobs get whose counter is read from its own field; for
  the others a few readings decide whether they ever come to an end.
- Chunking of a WebSocket stream is invisible exactly when every frame takes at most one
  byte more than 5 MiB; three ways of closing leave the client in the hub, one of which can
  never be reached.
- Stripping answer keys is exact if and only if no member to be removed has a blank before
  its colon, or after its comma when an earlier member of its object stays. With blanks after
  the comma as many characters of the member's end stay; with at least as many blanks as the
  member has characters, as pretty-printed questions can have, the whole key is served. A
  name with an escaped spelling is missed.
- An exam cannot be edited to the token it already has, although a comment says it can.
- `wib_to_utc_iso` accepts letters where hours, minutes and seconds should be.
- Operations for a mere reordering of the approval list do not reorder the table, although a
  comment says they do.
- Repeated answers earn partial credit again and again, so a score can exceed 100.
- A closing bracket outside a quoted token, in a student's answer or in a key, keeps the token
  scanner in its loop for ever; nothing else does. The submission workers grade a job between
  popping it and pushing it to the batch queue, so such a job enters no batch, its worker is
  stuck, and `Worker::stop` waits for ever: the pipeline can be stopped if and only if no worker
  holds such a job. The answer "A]" to a set question is enough; eight such jobs stop all work.

## Model

| member | source | states |
|---|---|---|
| Pipeline.StepMoves | src/queue/submission_queue.cpp:346-540 | every step moves each job id from one place to another, although jobs are printed when pushed and read when popped; only a successful enqueue adds one |
| Pipeline.StepConserves | src/queue/submission_queue.cpp:346-540 | every step keeps: each accepted id is in exactly one place, once, and nothing else is anywhere |
| PipelineTheorems.EveryJobIsSomewhere | src/queue/submission_queue.cpp:388-540 | in every reachable state, with any failures and through shutdown, an accepted job is in exactly one of: pending, held, queued, in the batch, persisted, dead-letter, spool, dropped, vanished |
| PipelineTheorems.OneResultPerJob | src/queue/submission_queue.cpp:388-397 | at most one result per job; success exactly for rows in the database, failure exactly for jobs given up, once nothing is about to be stored |
| PipelineTheorems.ContentIsReread | src/queue/submission_queue.cpp:301-340 | a job on its way, in the database or vanished is exactly the accepted one printed, read and counted once for every time it was sent again; its counter as read allowed each of these, and it was graded before each |
| PipelineTheorems.GivenUpIsReread | src/queue/submission_queue.cpp:388-398 | the same for jobs given up, counted once more if Redis did not take them back |
| PipelineTheorems.SavedIsGraded | src/queue/submission_queue.cpp:449-454 | nothing is in the database, or lost with a batch, for which the scorer does not return |
| PipelineTheorems.BatchesAreTried | src/queue/submission_queue.cpp:534 | a job enters at most one batch more than its counter, as it is read, allows, and was graded before each |
| PipelineTheorems.StepDecreases | src/queue/submission_queue.cpp:444-540 | every step but an enqueue lowers a measure, if every job on its way is used up, or held for ever by a worker, after finitely many failures |
| PipelineTheorems.RunsEnd | src/queue/submission_queue.cpp:444-540 | then a run without enqueues is no longer than the measure of its first state |
| PipelineRounds.BatchesExactly | src/queue/submission_queue.cpp:444-534 | some run brings a new job into its batch number n+1 if and only if its counter, as read after n failures, is below the limit and the scorer returns for it as it is read in each of these rounds |
| PipelineRounds.RestsExactly | src/queue/submission_queue.cpp:444-540 | with one accepted job the length of all further runs has a bound if and only if after finitely many failures the job uses up its counter or the scorer does not return for it |
| PipelineRounds.RestsFrom | src/queue/submission_queue.cpp:444-540 | from any reachable state of a running pipeline whose accepted jobs can all be graded: runs without enqueues are bounded if and only if every job on its way uses up its counter; one that does not keeps the pipeline busy for ever |
| JobRounds.JsonKeeps | src/queue/submission_queue.cpp:171-220 | through JSON every job with an id is read back as a job with that id |
| JobRounds.JsonSearches | src/queue/submission_queue.cpp:171-220 | which field each scalar, and the counter, is read from |
| JobFate.CountsMeans | src/queue/submission_queue.cpp:185-187 | the counter is read from its own field if and only if no string before the start time is taken for its name |
| JobFate.EndsExactly | src/queue/submission_queue.cpp:301-340 | a job uses up its counter after finitely many failures if and only if after five rounds it is read from its own field, or after six it is at the limit: the fields before it no longer change |
| JobFate.CountsRounds | src/queue/submission_queue.cpp:534 | a counter read from its own field holds the number of rounds until it reaches the limit |
| JobPipeline.RetriesAndBatchesAreBounded | src/queue/submission_queue.cpp:420-438 | a job whose counter is read from its own field is retried at most 3 times, enters at most 4 batches, and its counter is the number of times it was sent again |
| JobPipeline.FourBatches | src/queue/submission_queue.cpp:444-534 | such a job can enter a batch for the n+1st time if and only if n < 4 and the scorer returns for it in each round; without opening braces outside the identity data that is decided by the answers as they were sent |
| JobPipeline.ExamNumberDecides | src/queue/submission_queue.cpp:185-216 | a job whose student name is taken for the counter can, if it can be graded, enter more than one batch, and then any number, if and only if its exam number reads as less than 3 |
| JobPipeline.RetriedForEver | src/handlers/api/exams.cpp:958-975 | whatever its id of hexadecimal digits, the job of a student called "retries" with exam number -7 can enter any number of batches if the scorer returns for its answers, and else none |
| JobPipeline.NotRetried | src/handlers/api/exams.cpp:958-975 | with exam number 9 it can enter one batch if the scorer returns for its answers, and never a second |
| JobPipeline.RestsWhenItEnds | src/queue/submission_queue.cpp:444-540 | once one job is accepted, all further runs are bounded if and only if the job passes a test of seven readings or some time cannot be graded |
| JobPipeline.RunsEnd | src/queue/submission_queue.cpp:444-540 | from any reachable state in which every job on its way passes the test, or some time cannot be graded, runs without enqueues are no longer than the measure |
| JobPipeline.RunsEndExactly | src/queue/submission_queue.cpp:444-540 | while the pipeline is running and all accepted jobs can be graded, runs from a reachable state are bounded if and only if every job on its way passes the test |
| JobPipeline.CleanContentStays | src/queue/submission_queue.cpp:476-526 | a job none of whose values is taken for a later field's name is everywhere, so in the database, what was accepted, but for its counter |
| JobPipeline.StrayBracketNeverStops | src/main.cpp:124-129 | once a job whose only answer is A] to set question 1 is popped, no run ever stops the pipeline, and the job enters no batch |
| JobGrading.GradedAlways | src/queue/submission_queue.cpp:183-220 | for a job without opening braces outside the identity data, the scorer returns in every round if it does for the accepted job, and in none if it does not |
| PipelineShutdown.ShutdownCompletes | src/queue/submission_queue.cpp:406-460 | after the flag is cleared some run stops the pipeline if and only if the scorer returns for every job that a worker holds |
| PipelineShutdown.EveryShutdownEnds | src/queue/submission_queue.cpp:406-460 | every run after the flag is cleared is bounded, by some steps more for each job still popped or accepted, and where it cannot go on the pipeline has stopped if and only if no worker holds a job for which the scorer does not return |
| PipelineShutdown.HeldForEver | src/queue/submission_queue.cpp:449-454 | a job for which the scorer does not return is held by its worker in every later state |
| PipelineShutdown.NothingIsPopped | src/queue/submission_queue.cpp:446-450 | when every worker holds such a job, no job is ever popped again |
| PipelineShutdown.NothingInMemoryAfterStop | src/queue/submission_queue.cpp:406-440 | after shutdown an accepted job is pending in Redis or has ended; none is in memory |
| PipelineTheorems.JobsVanishWithTheCallback | src/db/pool_global.hpp:47-66 | jobs vanish in a run if and only if some batch's database callback was not called |
| PipelineTheorems.NothingIsLost | src/queue/submission_queue.cpp:346-374 | if callbacks run and the spool can be written, every accepted job is live, persisted, in the dead-letter list or in the spool |
| PipelineRecords.CommitSaves | src/queue/submission_queue.cpp:485-526 | a committed transaction adds to the database exactly the rows whose flag is set, in order, and leaves exactly the others to be settled, in order; one that is rolled back adds none and leaves all |
| PipelineRecords.SavedByTransaction | src/queue/submission_queue.cpp:485-526 | over every run: a job is in the database if and only if some committed transaction of the run wrote its row, and only then can it have a success result |
| PipelineRecords.ServedInOrder | src/queue/submission_queue.cpp:274-310 | a job is popped when all that were pending before it have been popped, whatever is pushed in between |
| PipelineRecords.GivenUpPlaces | src/queue/submission_queue.cpp:346-374 | over every run: while the dead-letter list takes jobs none is spooled or dropped, while it does not it stays as it is, and the same for the spool |
| SubmissionWorker.Worker.Enqueue | src/queue/submission_queue.cpp:274-299 | does the enqueue step; the empty reply exactly when Redis did not take the job |
| SubmissionWorker.Worker.Dequeue | src/queue/submission_queue.cpp:301-310 | pops the oldest text and reads it with the scanners; a text that is no job is gone |
| SubmissionWorker.Worker.Requeue | src/queue/submission_queue.cpp:312-340 | prints the job and pushes the text unless Redis refuses |
| SubmissionWorker.Worker.PushFailed | src/queue/submission_queue.cpp:346-374 | the job is at the end of the dead-letter list, else of the spool, else dropped, as the two writes come out |
| SubmissionWorker.Worker.CheckedRequeue | src/queue/submission_queue.cpp:388-398 | requeued, or given up with its failed result stored |
| SubmissionWorker.Worker.WorkOnce | src/queue/submission_queue.cpp:444-460 | one turn of a worker pops a job, has it graded and pushes it, or does nothing; if the scorer does not return, the worker is left holding the job |
| SubmissionWorker.Worker.TakeBatch | src/queue/submission_queue.cpp:466-472 | takes the whole queue, in order, as the next batch |
| SubmissionWorker.Worker.RunTransaction | src/queue/submission_queue.cpp:476-526 | the database grows by the persisted rows, which are exactly those whose flag is set, in order, and the failed ones are exactly the others; a failed commit fails every row; a missed callback leaves neither |
| SubmissionWorker.Worker.SettleJob | src/queue/submission_queue.cpp:534 | a failed job is retried if it may be, else given up |
| SubmissionWorker.Worker.RunBatch | src/queue/submission_queue.cpp:462-540 | one turn of the batch thread is a run of the machine that empties the queue, saves exactly the rows whose flag is set if the commit succeeds, and settles the rest |
| SubmissionWorker.Worker.FinalDrain | src/queue/submission_queue.cpp:413-439 | the final drain is a run of the machine that empties the queue and stops |
| JsonText.JsonEscape | src/queue/submission_queue.cpp:47-64 | the escape loop computes the escaped text |
| JsonText.JsonUnescape | src/queue/submission_queue.cpp:65-92 | the unescape loop computes the unescaped text |
| JsonText.UnescapeEscape | src/queue/submission_queue.cpp:47-92 | unescaping undoes escaping on every string |
| JsonGrammar.EscapeIsContent | src/queue/submission_queue.cpp:47-64 | for every text, what the escaper writes is the content of a JSON string by section 7 of RFC 8259, and stands for that text |
| JsonGrammar.UnescapeIsMeaning | src/queue/submission_queue.cpp:65-92 | the unescaper reads the content of every JSON string, with any of the escapes the standard allows, as what it stands for |
| JsonGrammar.Utf8Says | src/queue/submission_queue.cpp:80-84 | the bytes for a code say that code in the shortest form of UTF-8 |
| JobJson.JobIsJson | src/queue/submission_queue.cpp:171-181 | whatever the fields hold, the text of a job is one well-formed JSON object with the eleven members of the code, in their order |
| JobScanners.MapToJson | src/queue/submission_queue.cpp:132-142 | the printing loop writes the map's text |
| JobScanners.ExtractField | src/queue/submission_queue.cpp:185-206 | the field scanner computes the specified value: first occurrence of the quoted name, next colon, string or scalar |
| JobScanners.ParseMapFromJson | src/queue/submission_queue.cpp:94-131 | the map scanner with its nested loops computes the specified map |
| JobScanners.ReadJob | src/queue/submission_queue.cpp:183-220 | reads exactly the specified job, or none without an id |
| JobScanners.WriteJob | src/queue/submission_queue.cpp:171-181 | writes the text of the job, its maps in the order of their keys |
| JobPrint.ListingLists | src/queue/submission_queue.cpp:132-142 | the entries in the order of their keys are those of the map |
| JobMaps.IntReads | src/queue/submission_queue.cpp:209-216 | every 32-bit integer survives being printed and parsed |
| JobMaps.StoiExactly | src/queue/submission_queue.cpp:209-216 | what std::stoi makes of every text of white space, a sign or none, digits and anything behind them: the number if it fits 32 bits, else nothing |
| JobMaps.NatTextDecimal | src/queue/submission_queue.cpp:171-181 | integers are printed in decimal, without leading zeros |
| JobMaps.MapReads | src/queue/submission_queue.cpp:94-142 | a printed map is read back whole, whatever follows it |
| JobCodec.EscapePoison | src/queue/submission_queue.cpp:185-187 | escaping neither makes nor hides an ending that looks like a quoted field name |
| JobScalars.ScalarIsTarget | src/queue/submission_queue.cpp:185-206 | for any scalar field the value read is that of the field after the first earlier value taken for its name, or its own |
| JobRoundTrip.ScalarsSurvive | src/queue/submission_queue.cpp:171-220 | all scalar fields come back right if and only if each is found, or what is found instead is the same |
| JobRoundTrip.NoIdNoJob | src/queue/submission_queue.cpp:207-208 | a printed job is read back as a job if and only if its id is not empty |
| JobRoundTrip.RoundTrip | src/queue/submission_queue.cpp:171-220 | reading a printed job gives exactly that job, if no earlier value, answer name or answer is taken for a later field's name, whatever braces it holds |
| JobIdentity.RoundTripExactly | src/queue/submission_queue.cpp:171-220 | for jobs without an opening brace outside the identity data: exactly that job if and only if all scalars are kept and no scalar is taken for the name of the identity data or both maps are equal |
| JobIdentity.IdentityExactly | src/queue/submission_queue.cpp:94-131 | the identity data are read as they were, or, if a scalar is taken for their name, the answers in their place |
| JobIdentity.AnswersExactly | src/queue/submission_queue.cpp:94-131 | the answers of such jobs are always read as they were |
| JobIdentity.IdentityTakenFromAnswers | src/queue/submission_queue.cpp:94-131 | a student called "identity_data" gets the answers as identity data |
| JobRoundTrip.RetriesTakenFromExamNumber | src/queue/submission_queue.cpp:185-187 | a student called "retries" with exam number 9 comes back with the retries text 9 |
| WebSocketServer.ReadFrame | src/server/server.cpp:191-206 | the cursor-based decoder computes the specified frame, incomplete or too long |
| WebSocketServer.BuildFrame | src/server/server.cpp:169-174 | byte-by-byte framing in three length forms is the specified encoding |
| WebSocketServer.Connection.HandleFrame | src/server/server.cpp:207-238 | what each frame does to fragments, deliveries, sends and registration |
| WebSocketServer.Connection.Receive | src/server/server.cpp:185-242 | one receive, with its inner loop and buffer limit, is the specified step |
| WebSocketServer.Connection.PeerGone | src/server/server.cpp:186-187 | end of stream unregisters the client |
| WebSocketTheorems.DecodeCut | src/server/server.cpp:191-206 | a frame is complete exactly when all its bytes are there |
| WebSocketTheorems.ChunksDoNotMatter | src/server/server.cpp:185-242 | any cutting of a stream whose frames fit gives the same state and deliveries as receiving it at once |
| WebSocketTheorems.ChunkingIsInvisible | src/server/server.cpp:240-241 | cutting a stream in two never changes the result if and only if every frame handled takes at most 5 MiB + 1 byte |
| WebSocketTheorems.DecodeEncoded | src/server/server.cpp:165-184 | decoding a frame as the server sends it gives the frame back and takes exactly its bytes |
| WebSocketTheorems.DecodeMasked | src/server/server.cpp:201-206 | the same for a frame masked with any key |
| WebSocketTheorems.EveryConnectionIsOk | src/server/server.cpp:199-241 | the fragment buffer stays within 5 MiB, the check at line 234 never fires, a closed client is still registered exactly after lines 199 and 228, and closed is for ever |
| WebSocketMessages.MessageArrives | src/server/server.cpp:223-238 | a message in any fragments with control frames between them is delivered as their concatenation |
| WebSocketMessages.MessageTooLong | src/server/server.cpp:225-228 | a fragmented message over 5 MiB closes the connection and is not delivered |
| WebSocketMessages.ConversationIsDelivered | src/server/server.cpp:185-242 | from bytes to messages: any messages, masks, interleaved control frames and chunks are delivered message by message |
| WebSocketAnswers.EveryPingIsAnswered | src/server/server.cpp:207-222 | whatever a peer sends and however it is cut, from the bytes it gets back for its pings it decodes one pong for each, with its payload, in order |
| WebSocketAnswers.ConversationIsAnswered | src/server/server.cpp:185-242 | in a conversation of whole and fragmented messages every ping between them is answered so |
| WebSocketAnswers.FailedSendEnds | src/server/server.cpp:214-238 | on every connection: no send follows one that failed, and the connection is closed for a failed send if and only if the last one failed |
| WebSocketAnswers.MaskedFrameRead | src/server/server.cpp:191-206 | a short masked text frame is read as the text whose octet i is the masked one and octet i modulo 4 of the key, exclusively or |
| WebSocketAnswers.AnnouncedLength | src/server/server.cpp:199 | a frame may announce 5242880 bytes in its field of eight and no byte more |
| WebSocketAnswers.UnmaskedExamples | src/server/server.cpp:165-174 | the unmasked example frames of section 5.7 of RFC 6455, byte by byte |
| Sanitize.StripKey | src/utils/sanitize.cpp:49-89 | the in-place search-and-erase loop for one key ends and computes the specified text |
| Sanitize.StripSensitiveKeys | src/utils/sanitize.cpp:47-91 | both passes compute the specified text |
| JsonTree.RemoveRemoves | src/utils/sanitize.cpp:47-91 | removal leaves no member of that name at any depth and brings none of another name in |
| SanitizeTheorems.StripExactly | src/utils/sanitize.cpp:49-89 | on the text of any tree in any layout, the pass for a name gives the text of the tree with every member of that name removed at every depth if and only if the layout is tidy; otherwise more is left |
| SanitizeTheorems.StripSensitiveOnText | src/utils/sanitize.cpp:47-91 | the first pass is exact if and only if the layout is tidy for it; then both together are if and only if it is tidy for the second |
| SanitizeTheorems.PassBlanksAndMember | src/utils/sanitize.cpp:82-86 | a later member with blanks after its comma always leaves something behind, whatever it holds |
| SanitizeTheorems.StripSensitiveOnCompactText | src/utils/sanitize.cpp:47-91 | in particular for every tree printed compactly, and stripping twice is stripping once |
| SanitizeTheorems.StripSensitiveKeepsTheRest | src/utils/sanitize.cpp:47-91 | text in which neither name is a member comes back unchanged, whatever its layout |
| SanitizeDefects.LaterMemberStays | src/utils/sanitize.cpp:52-86 | of a later member the last characters stay, as many as there are blanks after its comma, or all of it; it stays whole if and only if there are blanks before its colon or at least as many after its comma as it has characters |
| SanitizeDefects.LastMemberStays | src/utils/sanitize.cpp:47-91 | the same for whole objects that end in such a member |
| SanitizeDefects.KeyIsServed | src/handlers/api/exams.cpp:826 | a question printed with a line break and eight blanks before its key keeps the key |
| SanitizeDefects.ValuesRunTogether | src/utils/sanitize.cpp:82-86 | one blank leaves the last digit of a number behind the value before it |
| SanitizeDefects.BlankBeforeColonHides | src/utils/sanitize.cpp:52-54 | any member with a blank before its colon, anywhere, stays; only its value is stripped |
| SanitizeDefects.HiddenKeyGoesWithAnswer | src/utils/sanitize.cpp:47-91 | a key that the first pass misses can go with the answer around it, so that both passes together are exact although the first is not |
| SanitizeDefects.EscapedSpellingStays | src/utils/sanitize.cpp:52-54 | a member whose name is spelled with an escape but means key stays |
| ExamStore.ExamStoreMemory.Add | src/store/exam_store_memory.cpp:30-38 | appends the exam, refused exactly if an exam has the token |
| ExamStore.ExamStoreMemory.ClaimToken | src/store/exam_store_memory.cpp:60-67 | claims the token unless it is claimed or an exam has it |
| ExamStore.ExamStoreMemory.ClaimTokenIfAbsent | src/store/exam_store_memory.cpp:73-82 | the same, but the excluded exam's token counts only through the claimed set |
| ExamStore.ExamStoreMemory.UnclaimToken | src/store/exam_store_memory.cpp:84-87 | releases the token |
| ExamStore.ExamStoreMemory.UpdateToken | src/store/exam_store_memory.cpp:89-95 | gives the exam with the id the new token and tells the old one; every other exam stays as it is |
| ExamStore.ExamStoreMemory.Remove | src/store/exam_store_memory.cpp:97-107 | takes out exactly the exam with the id and releases exactly its token; true if and only if there was one |
| ExamStore.RemovedTakesOut | src/store/exam_store_memory.cpp:97-107 | with distinct ids no exam with the id is left, all others are there in their order, and the claimed set loses exactly its token |
| ExamStore.RetokenedSwaps | src/store/exam_store_memory.cpp:89-95 | with distinct ids the exam with the id has the new token and nothing else changes |
| ExamStore.ExamStoreMemory.ReserveIdempotency | src/store/exam_store_memory.cpp:122-132 | new, replay of the finalized response, or conflict |
| ExamStore.ExamStoreMemory.FinalizeIdempotency | src/store/exam_store_memory.cpp:134-139 | stores the completed response |
| ExamStore.ExamStoreMemory.ReleaseIdempotency | src/store/exam_store_memory.cpp:141-144 | forgets the key |
| ExamProtocol.StepKeepsTokens | src/handlers/admin/exams.cpp:425-523 | every step of every handler keeps: the claimed set is the disjoint union of live tokens and those owned by exactly one handler |
| ExamProtocol.StepKeepsKeys | src/handlers/admin/exams.cpp:275-295 | every step keeps the rules of idempotency keys |
| ExamProtocol.ReachableIsSafe | src/handlers/admin/exams.cpp:425-757 | both hold in every reachable state of any number of create, edit, regenerate and delete handlers |
| ExamProtocol.TokensAtRest | src/handlers/admin/exams.cpp:684-757 | no two exams share a token, and with no handler in flight the claimed set is exactly the live tokens |
| ExamProtocol.AddAlwaysSucceeds | src/handlers/admin/exams.cpp:508-524 | after a successful claim, add never fails |
| ExamProtocol.OwnTokenIsRefused | src/store/exam_store_memory.cpp:69-75 | editing an exam to its own token is refused |
| ExamProtocol.EditRefusedWhenTaken | src/handlers/admin/exams.cpp:702-704 | an edit is refused if and only if some exam has the token or some handler owns it |
| ExamProtocol.OneExamPerKey | src/handlers/admin/exams.cpp:272-295 | a key yields at most one exam, has at most one owner, and every replay gives the finalized response for the same fingerprint |
| ExamProtocol.PendingAtRest | src/handlers/admin/exams.cpp:526-549 | with no handler in flight, the pending keys are exactly those of requests answered in protobuf |
| ExamProtocol.FinalsPersist | src/store/exam_store_memory.cpp:134-139 | a finalized response never changes |
| ExamEffects.StepTouchesOneExam | src/handlers/admin/exams.cpp:425-926 | in every reachable state a step of a handler adds one exam, gives one its new token, removes one or changes none, and it is always the exam whose id the handler carries |
| ExamEffects.DeleteReleasesItsToken | src/handlers/admin/exams.cpp:922-926 | a delete releases the token of its exam and no other |
| ExamEffects.ExamStays | src/handlers/admin/exams.cpp:425-926 | over every run an exam stays as it is until a handler for its own id acts on it |
| ExamEffects.FreeTokenIsClaimed | src/store/exam_store_memory.cpp:60-82 | a handler gets a token if and only if no exam has it and no handler owns it |
| ExamEffects.KeyDecides | src/store/exam_store_memory.cpp:122-132 | in every reachable state the first request under a key goes on, the same request after its answer is final gets exactly that answer, and any other is turned away |
| Calendar.CivilOfDays | src/helpers/utils.cpp:196-215 | converting a date to days and back gives the date, for every valid date |
| Calendar.DaysOfCivil | src/helpers/utils.cpp:196-215 | converting any integer to a date gives a valid date that converts back |
| Calendar.NextDayIsNextNumber | src/helpers/utils.cpp:196-203 | consecutive dates have consecutive numbers |
| Calendar.EpochIsZero | src/helpers/utils.cpp:196-215 | 1970-01-01 is day zero, both ways |
| Calendar.CalendarIsRight | src/helpers/utils.cpp:196-215 | both functions agree with counting days one at a time from the epoch |
| Calendar.NoOverflow | src/helpers/utils.cpp:196-216 | for years of four digits every value computed on the way from a date to its number and back fits its signed or unsigned 32-bit type |
| Timestamps.ParsePgOrIsoUtc | src/helpers/utils.cpp:41-100 | the index-based parser with its fraction loop computes the specified moment or nothing |
| Timestamps.TimestampParses | src/helpers/utils.cpp:41-100 | every timestamp of the grammar is read as the moment it names |
| Timestamps.AcceptsExactlyTimestamps | src/helpers/utils.cpp:41-100 | a text is accepted if and only if it is in the grammar |
| Timestamps.WibToUtcIso | src/helpers/utils.cpp:218-251 | an accepted text with digits for hour and minute becomes the UTC text that names the same moment as the local time with its offset of seven hours written out |
| Timestamps.WibIsSevenAhead | src/helpers/utils.cpp:218-251 | the other parser reads the output as what it reads for the local minute followed by +07 |
| Timestamps.WibOfEveryMinute | src/helpers/utils.cpp:223-251 | for every date of the years 2000 to 2100, every hour and every minute, in figures |
| Timestamps.WibOutputParses | src/helpers/utils.cpp:218-251 | for every accepted text, letters included, the other parser reads the output as the minute that was computed |
| Timestamps.WibAcceptsFormat | src/helpers/utils.cpp:224-241 | an accepted text has the documented format if and only if its hour, minute and second are digits |
| Timestamps.WibAcceptsLetters | src/helpers/utils.cpp:226-231 | a text with letters for its hour is accepted, and the hour counts as -1 |
| Zip.WriteLe16 | src/handlers/admin/export.cpp:44 | appends the two low bytes, least significant first |
| Zip.WriteLe32 | src/handlers/admin/export.cpp:45 | appends the four low bytes, least significant first |
| Zip.MakeZip | src/handlers/admin/export.cpp:47-70 | the loop with its running 32-bit offset writes local headers, central directory and end record |
| ZipReader.ArchiveReads | src/handlers/admin/export.cpp:47-70 | a reader from the end record gets back, with data, sizes and checksums, the first (count mod 65536) files in order |
| ZipReader.RoundTrip | src/handlers/admin/export.cpp:47-70 | it gets back all files if and only if there are fewer than 65536, for names below 64 KiB and archives below 4 GiB |
| ZipExample.OneFileArchive | src/handlers/admin/export.cpp:47-70 | the archive of one file with that text, byte by byte |
| Crc32.Crc32Raw | src/handlers/admin/export.cpp:46 | the bitwise loop computes the checksum that CrcDivision.CrcIsChecksum describes |
| CrcDivision.CrcIsChecksum | src/handlers/admin/export.cpp:46 | for all data the checksum is the inverted remainder of the message, its first 32 bits inverted, times x^32, by long division by x^32 + x^26 + x^23 + x^22 + x^16 + x^12 + x^11 + x^10 + x^8 + x^7 + x^5 + x^4 + x^2 + x + 1, bits reflected |
| CrcDivision.CheckValue | src/handlers/admin/export.cpp:46 | the checksum of the text 123456789 is 0xCBF43926 |
| Crc32.OneByteIsDetected | src/handlers/admin/export.cpp:46 | two contents that differ in one byte have different checksums |
| Columns.ColRef | src/handlers/admin/export.cpp:94-98 | the loop computes the column letters |
| Columns.IndexOfLetters | src/handlers/admin/export.cpp:94-98 | reading the letters gives the index back |
| Columns.LettersOfIndex | src/handlers/admin/export.cpp:94-98 | every word of letters is that of exactly one index |
| ApprovalOps.ComputeApprovalRowOps | static/js/pengawas-detail.js:60-141 | the index loops compute the specified outcome |
| ApprovalOps.HasUniqueIds | static/js/pengawas-detail.js:69-77 | true if and only if ids are present, distinct and not a key that every object inherits |
| ApprovalOps.ApplyApprovalRowOps | templates/admin/pengawas_detail.html:1359-1400 | the two passes over the operations give the specified table |
| ApprovalTheorems.SameMeansEqual | static/js/pengawas-detail.js:39-66 | nothing is done if and only if the fingerprints are equal, for fields without the separator |
| ApprovalTheorems.StepsShowTheNewList | static/js/pengawas-detail.js:88-140 | applying the operations to the old table shows the new list if and only if the rows in both come in the same order |
| ApprovalTheorems.ReorderingIsNotShown | static/js/pengawas-detail.js:116-138 | the updates sent for a mere reordering leave the order as it was |
| ApprovalSteps.OpsAreNeeded | static/js/pengawas-detail.js:88-140 | an operation is among them if and only if it is needed: a removal for a row that has gone, an addition for a new one at its position, an update for one with another content, or for every row when nothing but the order has changed |
| RateLimiter.Limiter.Allow | src/middleware/ratelimit.cpp:3-22 | the answer and the new buckets, with the lazy sweep |
| RateLimiter.Limiter.Sweep | src/middleware/ratelimit.cpp:12-17 | erases exactly the expired buckets |
| RateLimiter.SweepingIsInvisible | src/middleware/ratelimit.cpp:3-22 | with times that do not go back, answers are those of a limiter that never evicts |
| RateLimiter.LimitHolds | src/middleware/ratelimit.cpp:3-22 | at most 2 * max - 1 calls of a key are allowed in any interval as long as the window |
| RateLimiter.LimitIsReached | src/middleware/ratelimit.cpp:7-20 | for every limit of at least one and every window of at least two ticks some calls reach that bound |
| LimiterHistory.AllowedExactly | src/middleware/ratelimit.cpp:3-22 | told from the calls alone: a call is allowed if and only if it opens a window, as no window of its key is open or the open one has passed, or fewer than max calls of the key were allowed since the call that opened it |
| SocketIo.ExtractJsonString | src/websocket/hub.cpp:88-118 | the scanner with its string and escape flags computes the specified value |
| SocketIo.FindClosingLoop | src/websocket/socketio.cpp:35-41 | finds the closing quote, or nothing |
| SocketIoTheorems.ParseMarshalled | src/websocket/socketio.cpp:31-57 | for every event and payload: the event comes back escaped, the payload without leading blanks, nothing for a payload of blanks |
| SocketIoTheorems.MarshalRoundTrip | src/websocket/socketio.cpp:31-57 | both come back unchanged if and only if the event needs no escape and the payload is not empty and has no leading blank |
| JobJson.MarshalledIsJson | src/websocket/socketio.cpp:31-33 | a message is the JSON array of the event's name and the payload, for every JSON payload |
| SocketIoTheorems.ExtractedIsLookedUp | src/websocket/hub.cpp:88-118 | what is taken out of a printed payload is the escaped value of the name, nothing if absent, whatever names and values contain |
| SocketIoTheorems.PayloadRoundTrip | src/websocket/socketio.cpp:6-29 | unescaped, it is the value that was put in |
| SocketIoTheorems.AbsentIsEmpty | src/websocket/hub.cpp:117 | an absent name gives the empty string |
| HubServer.Hub.TrySend | src/websocket/hub.cpp:13-19 | queues the message unless the client is closed or its queue is full |
| HubServer.Hub.Close | src/websocket/hub.cpp:20-23 | closes and empties the queue |
| HubServer.Hub.AddClient | src/websocket/hub.cpp:30-33 | does the adding step |
| HubServer.Hub.RemoveClient | src/websocket/hub.cpp:35-43 | does the leaving step; an empty room is erased |
| HubServer.Hub.BroadcastToRoom | src/websocket/hub.cpp:51-72 | a broadcast without interference puts the message behind the queue of every member with fewer than 256 queued, closes every other member and takes it out of the room, and changes nothing else |
| HubServer.Hub.EraseAll | src/websocket/hub.cpp:64-71 | erases and closes exactly the clients that refused |
| HubModel.RoomsAndQueues | src/websocket/hub.cpp:13-72 | under any interleaving no room is empty, a room's members are exactly its open clients, no queue is longer than 256, a closed client's queue is empty |
| HubModel.SentInOrder | src/websocket/hub.cpp:13-19 | what a client is sent is, in order, what its queue accepted |
| HubModel.ClosedForEver | src/websocket/hub.cpp:20-23 | nothing is ever queued for a closed client or sent to it |
| HubModel.EachMemberOnce | src/websocket/hub.cpp:58-63 | a broadcast sends to each client of its snapshot exactly once and to nobody else |
| HubModel.RefusersAreGone | src/websocket/hub.cpp:64-71 | after the clean-up every client that refused is closed and in no room |
| HubEffects.AcceptedExactly | src/websocket/hub.cpp:13-72 | under any interleaving a queue has accepted exactly the messages put to its client while it was open with fewer than 256 queued, in that order |
| HubEffects.SendEffect | src/websocket/hub.cpp:13-19 | a step of a broadcast puts its message behind the queue of the next client of the snapshot, or remembers the client if it has no space, and touches no other |
| HubEffects.LeaveEffect | src/websocket/hub.cpp:35-43 | a client that leaves is closed, with nothing queued, in no room; all others stay |
| HubEffects.FinishEffect | src/websocket/hub.cpp:64-71 | the clean-up closes exactly the clients that refused and takes them out of their room; all others stay |
| Scoring.NormAns | src/middleware/scoring.cpp:174-182 | the loop computes the normalised answer |
| Scoring.SetsEqualObj | src/middleware/scoring.cpp:237-245 | true if and only if as many pairs and each of the first list in the second |
| Scoring.CountNet | src/middleware/scoring.cpp:271-273 | right answers less wrong ones |
| Scoring.CountHits | src/middleware/scoring.cpp:290-293 | the nested loops count the pairs of the key that the student has |
| Scoring.ScoreSubmission | src/middleware/scoring.cpp:153-168 | the loop computes the score that the lemmas of ScoringAnswers describe |
| ScoringTheorems.SetsEqualIsMultiset | src/middleware/scoring.cpp:229-235 | comparing sorted copies is equality of multisets |
| ScoringTheorems.ToleranceIsExact | src/middleware/scoring.cpp:274-278 | with fewer than a thousand million key tokens the tolerance makes no difference |
| ScoringTheorems.PartialAgrees | src/middleware/scoring.cpp:269-282 | for answers without repetitions partial scoring says correct if and only if the all-or-nothing rule does and the key is not empty |
| ScoringTheorems.RepeatedAnswerEarns | src/middleware/scoring.cpp:271-275 | one right token given n times earns n parts of the key, without limit |
| ScoringTheorems.MatchingPartialAgrees | src/middleware/scoring.cpp:285-302 | for matching the all-or-nothing rule asks in addition for the same number of pairs, unless the key is empty |
| ScoringTheorems.EarnedBounds | src/middleware/scoring.cpp:269-310 | what a question earns is at least nothing, and at most its weight if and only if no partial credit for sets is given, or the weight is zero, or the key is empty, or right answers less wrong ones are no more than the key has |
| ScoringTheorems.ScoreInRange | src/middleware/scoring.cpp:153-168 | with such answers to all questions the score is between 0 and 100 |
| ScoringTheorems.OneQuestionInRange | src/middleware/scoring.cpp:153-168 | for a single question if and only if |
| ScoringTheorems.DistinctIsFair | src/middleware/scoring.cpp:269-282 | answers without repetitions are such answers |
| ScoringTheorems.ScoreAboveHundred | src/middleware/scoring.cpp:271-275 | a student who gives the one right answer twice scores 200 |
| ScoringTheorems.ScoreIgnoresOrder | src/middleware/scoring.cpp:153-168 | the score does not depend on the order of the questions |
| ScoringAnswers.NormDecides | src/middleware/scoring.cpp:174-182 | two answers have the same normal form if and only if they have the same words, separated by any white space, up to case |
| ScoringAnswers.SingleChoice | src/middleware/scoring.cpp:305-308 | a question with one answer scores 100 for every answer with the words of its key up to case, and 0 for every other answer |
| ScoringAnswers.ListIsRead | src/middleware/scoring.cpp:185-204 | a list in brackets or without, of quoted or bare texts with commas or semicolons, is read as these texts in normal form |
| ScoringAnswers.WholeSet | src/middleware/scoring.cpp:265-284 | a set question without partial credit scores 100 for the texts of the key in any order, each as often as there, and 0 for every other list |
| ScoringAnswers.PartOfSet | src/middleware/scoring.cpp:269-275 | with partial credit it scores the positions that hold a text of the key less the others, as a part of the key, and nothing below zero |
| ScoringAnswers.WholeMatching | src/middleware/scoring.cpp:285-304 | matching without partial credit scores 100 for as many pairs as the key has with each of its pairs among them, and 0 for any others |
| ScoringAnswers.PartOfMatching | src/middleware/scoring.cpp:288-297 | with partial credit it scores the pairs of the key that the student has, as a part of the key |
| ScoringAnswers.ScoreIsWeightedMean | src/middleware/scoring.cpp:153-168 | the score of an exam is the mean of the scores of its questions, each alone, by their weights; there is one if and only if there is one for each |
| ScanTheorems.ParseSetTokens | src/middleware/scoring.cpp:185-204 | the scanning loop with its inner loops computes the specified tokens, where it ends |
| ScanTheorems.HaltsWithTokens | src/middleware/scoring.cpp:189-201 | the loop, turn by turn on its position, reaches the end if and only if tokens are specified, and then with these |
| ScanTheorems.HangsAtBareBracket | src/middleware/scoring.cpp:189-201 | it reaches the end if and only if no closing bracket stands outside a quoted token |
| ScanTheorems.FixedForEver | src/middleware/scoring.cpp:189-201 | where a turn does not move the scanner, no further turn does |
| ScanTheorems.GradingHangs | src/middleware/scoring.cpp:249-310 | grading an answer never ends if and only if one of the lists it scans, of the key or the student, holds such a bracket |
| ScanTheorems.StrayBracketHangs | src/middleware/scoring.cpp:249-272 | a student who answers A] to a set question makes its grading hang |
| ScanTheorems.QuotedBracketEnds | src/middleware/scoring.cpp:195-197 | a bracket inside a quoted token is harmless |
| Grading.NeverReturns | src/main.cpp:124-129 | the scorer does not return for a job if and only if its exam has an answered question for which a scanned list, of key or answer, holds a closing bracket outside a quoted token |
| Grading.CallScorer | src/middleware/scoring.cpp:146-168 | where the scorer returns, it gives the score, or none without exam or questions |

## Left out

- JobRoundTrip.RoundTrip: one direction only for jobs with opening braces in their scalars or answers. A value taken for the name of a map then makes the reader start at such a brace, inside a string, where strings and the text between them change places; what it reads there can be right by accident.
- SanitizeTheorems.StripSensitiveOnText: what the second pass makes of a text that the first has left untidy. What is left there can vanish with an answer around it (`SanitizeDefects.HiddenKeyGoesWithAnswer`), and need not be JSON any more: a single quote may be left behind an answer, and the second pass then takes what follows for a string.
- The rotation of the token of a dynamic exam when a student joins, which changes the active token alone (`src/handlers/api/exams.cpp:762-781`): it is none of the modelled handlers, and after it the two tokens of an exam differ.
- SQL text, advisory locks and savepoints: a transaction is one flag per row and one for the commit.
- The approvals deleted after a commit, best effort and outside the transaction.
- The back-off sleeps, thread start and the condition variable of the worker: every interleaving is allowed instead.
- Crashes and exceptions of the scorer: a job held in memory is then lost by design.
- Exams that change while jobs are pending: the questions the scorer finds for an exam are the same whenever it is called. The score itself is not carried along with a job.
- After the flag is cleared a worker takes at most the job it is waiting for; the model lets it take more, so what is proved for all runs covers that.
- The heartbeat flusher and the heartbeat payload parser: the same search for a quoted name as in the job codec, over fields of no consequence for answers.
- Protobuf: generated code is not part of this model, except that a protobuf reply leaves its idempotency key pending.
- Nanosecond overflow of the system clock for years far from 1970 in `parse_pg_or_iso_utc`, and the out-of-range read of `wib_to_utc_iso` for a text of 17 characters ending in a colon, which is refused in any case.
- Exam fields other than the id and the two tokens; uploads to object storage, which may fail between the claim and the insertion.
- The sort of `std::sort` and the tables of `std::unordered_map`: any sort, any order.
- Clients of the hub are values in a map, not shared objects; aliasing is not captured, and a client is added once, when its connection opens.
- What the hub replies to a WebSocket message: a flush is one attempt to send that succeeds or fails.
- Partial writes to a socket, and the 4096 bytes a single receive can bring: chunks are of any size.
- The "No" column of the approval table, which in-place updates leave as it was; JavaScript values that are not strings.
- The pair scanner of the scoring code is a function, not a loop; question parsing from JSON is not modelled. The loop of the token scanner is a method for the lists on which it ends, and a function of the position for all.
- Jobs written in protobuf: their reader is not part of this model; what is proved of the pipeline for any codec holds with it as well.
- Rounding of floating-point numbers: reals are used.
- Authentication, cookies, CORS, origin checks, routing, configuration, logging, mail and templates.
