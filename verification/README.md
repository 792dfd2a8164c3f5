# Verified models of the surveillance backend's self-contained logic

This Dafny project models the parts of the Go backend that carry real state, concurrency, parsing
or arithmetic, in the form the Go code has them: objects whose methods update fields become
classes, loops become methods with invariants, and each such method is tied to a specification
function about which the theorems are proved. Concurrent parts are step relations over all
interleavings. `dafny verify dfyconfig.toml` checks everything.

| file | what it models |
|---|---|
| `Transcode.dfy` | the single-flight transcode protocol: a step relation over callers, the mutex-guarded `inflight` table, channels, the temporary file and the disk cache; and the registry as a class |
| `Scanner.dfy`, `ScannerGrammar.dfy` | the call-argument scanner of the documentation generator, and the grammar it accepts |
| `AuditQueue.dfy`, `AuditSql.dfy` | the media audit ring buffer, and the multi-row INSERT it prints by hand |
| `Hvcc.dfy` | the in-place hvcC box patcher, with an encoder and decoder of HEVCDecoderConfigurationRecord (section 8.3.3.1.2 of ISO/IEC 14496-15) |
| `Coverage.dfy` | merging of recording spans |
| `RateLimit.dfy` | the sliding-window login limiter |
| `Alarms.dfy`, `AiGate.dfy` | the alarm cooldown per bucket; the per-camera AI gate |
| `AiCounters.dfy`, `AiClient.dfy`, `AiSampler.dfy` | the unlocked AI counters, the client that counts, the sampler that turns torn reads into differences |
| `DigestWeek.dfy`, `DigestSends.dfy` | the week arithmetic; the durable once-a-week digest |
| `Rollup.dfy`, `RollupTable.dfy` | rendering, splicing and checking the generated README block; reading its table back |
| `Vca.dfy` | the rule diff between camera and database, and the replacing transaction |
| `Paths.dfy`, `RouteLists.dfy` | path normal forms, route matching, and the route/call cross-reference; what its lists hold, entry by entry |
| `Totp.dfy` | dynamic truncation and code checking (section 5.3 of RFC 4226, section 5.2 of RFC 6238) |
| `Text.dfy` | searching, trimming and decimal numerals shared by the others |

Conventions. Clocks are inputs that never go backwards. The network, FFmpeg, the database, HMAC and
base32 are parameters or steps that succeed or fail. Texts are sequences of code points and Go's
`int` is unbounded, except where wrap-around matters (`Totp.StepAt`, `Totp.Shl32`).

Assumptions of the transcode model: a critical section of the mutex is one step; an encoder that
exits with success leaves a complete, non-empty file; nobody but this process touches the cache
(retention does not delete from it while callers run); at start no torn file stands at a cache path;
the `.tmp` path of one target is no other target's cache path.

Where the code and its own comments disagree, the model follows the code:

- the comment on `Stats` (`internal/ai/client.go:218-221`) bounds the drift of a snapshot by one
  inference in flight; `AiSampler.FilteredCanBeNegative` shows a drift of n for every n, and
  `AiSampler.TornReadingDrift` says that the drift is the number of confirmations between the two loads,
  so that it is at most one exactly when at most one lands there;
- the comment in the digest's check (`cmd/worker/main.go:436-438`) calls the window the seven days ending
  Sunday. It ends at 23:59:59 sharp, and the rows it selects carry finer times
  (`internal/database/compliance_queries.go:87-89`): `DigestWeek.CoveredIff` says that exactly the moments
  inside the last second of a week are in no digest, and `DigestWeek.LastSecondIsLost` names one;
- `normalizePath` is meant to give a normal form, but is not idempotent; `Routes.NormalTwiceIff` says
  exactly when it is;
- the comment in `writeIdx` counts seven arguments per row, the code binds six;
- an audit queue, a cache probe before the lock and a digest recorded after its dispatch give
  weaker guarantees than "once": `TranscodeProtocol.RepeatIffMissedBefore`,
  `AuditQueue.StopLosesOnlyLateRows` and `DigestSends.AtMostOncePlusAccidents` say exactly what remains.

## Model

| member | source | states |
|---|---|---|
| `TranscodeProtocol.StepKeepsInv` | internal/api/media_transcode.go:102-155 | every step of every caller keeps: one registered owner per path, an open channel per entry, no torn file at a cache path, and what each waiting or answered caller relies on |
| `TranscodeProtocol.RunKeepsInv` | internal/api/media_transcode.go:102-226 | that invariant holds in every state of every interleaving of any number of callers |
| `TranscodeProtocol.OnlyTheOwnerTouchesDisk` | internal/api/media_transcode.go:139-226 | a step that changes a path's temporary or cache file is taken by the one owner of that path, and the cache file only ever becomes complete |
| `TranscodeProtocol.OneOwnerAtATime` | internal/api/media_transcode.go:131-150 | in every interleaving at most one caller per cache path is between claiming the entry and deleting it |
| `TranscodeProtocol.ServedFileIsComplete` | internal/api/media_transcode.go:126-155 | a caller answered with the cache path finds a complete transcode there, then and in every later state |
| `TranscodeProtocol.SourceServedIff` | internal/api/media_transcode.go:105-125 | in every state of every run a returned caller was given the source exactly when its request is not an mp4 segment with a codec known to be unplayable: a failed probe serves the source too |
| `TranscodeProtocol.WaiterFailsWithItsOwner` | internal/api/media_transcode.go:131-140 | a waiter reports an error only if the owner of the channel it waited on left with a failed transcode |
| `TranscodeProtocol.WaiterHasLiveOwner` | internal/api/media_transcode.go:131-150 | a blocked waiter's channel is registered by a live owner of the same path, which can itself take a step |
| `TranscodeProtocol.NoDeadlock` | internal/api/media_transcode.go:131-155 | while a caller has no answer, some caller can step, whatever failed |
| `TranscodeProtocol.EveryCallerIsAnswered` | internal/api/media_transcode.go:102-155 | an interleaving of n callers has at most 9n steps, and one that cannot go on has answered everybody |
| `TranscodeProtocol.CompleteCacheIsFinal` | internal/api/media_transcode.go:126-140 | over every run, once the cache is complete a caller that has not missed never claims the path again, and one that had not yet looked is served without waiting |
| `TranscodeProtocol.RepeatIffMissedBefore` | internal/api/media_transcode.go:126-143 | with a complete cache a caller that is not the owner can still come to transcode again, in some continuation of the run, exactly when it had looked and missed before the file was there |
| `TranscodeProtocol.LateMissTranscodesAgain` | internal/api/media_transcode.go:126-143 | a concrete run with such a second transcode |
| `TranscodeProtocol.SoloAnswer` | internal/api/media_transcode.go:102-155 | an uncontended request is answered with the source, the cache or an error by its own fields, the cache probe and whether mkdir, encoder and rename all work; the temporary file is cleaned up, and the table and all other paths stay as they were |
| `TranscodeRegistry.Registry.MaybeTranscodeForBrowser` | internal/api/media_transcode.go:102-155 | the method is the caller's steps up to its answer or up to the registered channel it waits on |
| `TranscodeRegistry.Registry.TranscodeToH264` | internal/api/media_transcode.go:174-226 | the method takes the owner's steps and succeeds exactly when mkdir, encoder and rename do |
| `TranscodeRegistry.Registry.LookUpOrRegister` | internal/api/media_transcode.go:131-144 | the first critical section: wait on the registered channel, or register a fresh one |
| `TranscodeRegistry.Registry.DeleteAndClose` | internal/api/media_transcode.go:145-150 | the deferred critical section removes exactly this entry and closes this channel |
| `TranscodeRegistry.Registry.Recheck` | internal/api/media_transcode.go:134-140 | the waiter's second probe decides between the cache path and the error |
| `Scanner.SkipQuoted` | cmd/docgen/frontend.go:185-198 | the loop ends where the string does, an escape may jump one past the text |
| `Scanner.SkipTemplate` | cmd/docgen/frontend.go:202-229 | the loop and its recursion end where the template does, at most one past the text, on any input |
| `Scanner.FirstArgAndSpan` | cmd/docgen/frontend.go:152-183 | the loop returns the trimmed first argument and the span of the scan, closed or not |
| `ScannerGrammar.ScannerInvertsPrinter` | cmd/docgen/frontend.go:152-229 | for every argument list of the grammar (plain characters, escaped strings, bracket groups, nested templates), anywhere in a text and whatever follows, the scan returns the first argument without the white space around it, and the whole list |
| `ScannerGrammar.BlanksAreTrimmed` | cmd/docgen/frontend.go:152-183 | an argument printed with white space on either side comes back as its core |
| `Text.TrimSpaceIs` | internal/auth/mfa.go:87 | trimming yields exactly the text left when all white space at both ends is gone |
| `ScannerGrammar.ScannerAcceptsExactlyCalls` | cmd/docgen/frontend.go:152-229 | the scan closes exactly on the texts that print such a list with a closing bracket behind it, and on any other text returns the whole rest, and the rest trimmed |
| `ScannerGrammar.ArgsParse` | cmd/docgen/frontend.go:152-183 | every closed scan yields a list of the grammar that prints to the scanned text |
| `ScannerGrammar.TemplateParses` | cmd/docgen/frontend.go:202-229 | every template the skip closes is a printed template, with its interpolations nested |
| `AuditQueue.AuditConservation` | internal/api/media_v1.go:143-190 | in every interleaving the accepted rows in order are flushed batches, then the batch in hand, then the channel; batches have 1 to 100 rows |
| `AuditQueue.NothingVanishes` | internal/api/media_v1.go:143-149 | every offered row is accepted or dropped, counted with multiplicity |
| `AuditQueue.DropsOnlyWhenFull` | internal/api/media_v1.go:143-149 | a row is dropped only when the channel holds 1024 rows, otherwise it is accepted |
| `AuditQueue.FlushesAre` | internal/api/media_v1.go:157-188 | over every run the rows in hand leave as one batch exactly at a tick, at the end of the drain, or when there are a hundred |
| `AuditQueue.TickEndsTheWait` | internal/api/media_v1.go:153-188 | once a tick was seen, every row received before it is in the flushed batches of every later state |
| `AuditQueue.StopLosesOnlyLateRows` | internal/api/media_v1.go:134-181 | after the drain saw an empty channel, all rows accepted so far are flushed and exactly the later ones stay behind |
| `AuditQueue.DrainFlushesAll` | internal/api/media_v1.go:167-181 | an undisturbed drain flushes every accepted row |
| `AuditQueue.StopFlushesAll` | internal/api/media_v1.go:134-181 | from any running state of any run, a consumer that is stopped and left alone flushes everything accepted |
| `AuditQueue.Auditor.Enqueue` | internal/api/media_v1.go:143-149 | the non-blocking send is the producer's step |
| `AuditQueue.Auditor.TakeRow` | internal/api/media_v1.go:171-185 | taking a row into the reused buffer and flushing a full one is the consumer's step; the buffer never grows |
| `AuditQueue.Auditor.FlushPending` | internal/api/media_v1.go:157-163 | the flush hands over exactly the pending rows, and nothing when there are none |
| `AuditQueue.Auditor.Drain` | internal/api/media_v1.go:169-180 | the drain loop is the run of drain steps |
| `AuditSql.WriteIdx` | internal/api/media_v1.go:242-256 | the six-byte buffer filled from the back holds the decimal numeral, without underflow, for 0 <= n < 1,000,000 |
| `AuditSql.SixDigitsFit` | internal/api/media_v1.go:247-254 | six bytes hold exactly the numerals of the numbers below 1,000,000 |
| `AuditSql.BuildInsert` | internal/api/media_v1.go:199-238 | the loop builds the statement text and the argument list of the batch |
| `AuditSql.InsertReadsBack` | internal/api/media_v1.go:206-234 | read left to right the placeholders are $1 to $6n, and with the arguments bound the statement inserts each row's eight columns, in order |
| `AuditSql.InsertedRowsSpell` | internal/api/media_v1.go:206-234 | the k-th inserted row spells the batch's k-th row column by column: the user id exactly when there is one, else null; camera, address and time under their names |
| `AuditSql.DetailsAreSpelledIff` | internal/api/media_v1.go:262-270 | the details cut at their quotes show the words kind and path with the two values, in that order, exactly when neither value holds a quote |
| `AuditSql.ColumnsDetermineRow` | internal/api/media_v1.go:206-234 | the eight columns determine the row |
| `AuditSql.AcceptedRowsAreInserted` | internal/api/media_v1.go:143-238 | in every interleaving what the flushed batches' statements insert, then the pending and queued rows' columns, are the accepted rows' columns in order |
| `Text.DecimalRoundTrip` | internal/api/media_v1.go:242-256 | a printed number reads back and has no leading zero |
| `Hvcc.PatchHVCCCompleteness` | internal/api/live_proxy.go:182-218 | the in-place walk over a fresh copy stays in bounds on every input, leaves the input alone, and sets exactly the headers' top bits |
| `Hvcc.PatchTouchesOnlyHeaders` | internal/api/live_proxy.go:182-218 | on every byte string a byte changes exactly if it is a visited header with a clear top bit, and only in that bit |
| `Hvcc.PatchIsIdempotent` | internal/api/live_proxy.go:182-218 | on every byte string, truncated or malformed included, patching twice is patching once |
| `Hvcc.PatchKeepsWalk` | internal/api/live_proxy.go:186-217 | the second walk finds the same marker, counts and lengths, hence visits the same headers |
| `Hvcc.PatchOfPrefix` | internal/api/live_proxy.go:182-218 | wherever a byte string is cut off, inside a record too, patching what is left is what is left of the patched whole |
| `Hvcc.PatchCompletesRecord` | internal/api/live_proxy.go:162-218 | for every well-formed record behind a prefix without the marker, the patched bytes are the same bytes with every array complete, and decode to that record |
| `Hvcc.DecodeUndoesEncode` | internal/api/live_proxy.go:162-181 | the record decoder used in that statement undoes the encoder, whatever follows |
| `Hvcc.MarkerAfterPrefix` | internal/api/live_proxy.go:185-189 | no marker straddles the end of a prefix that holds none |
| `Hvcc.SetTopIsOr` | internal/api/live_proxy.go:202 | setting the top bit is the bitwise or with 0x80 |
| `Coverage.MergeSpans` | internal/api/coverage.go:90-122 | the loop computes the merged spans |
| `Coverage.SameSpanIffChained` | internal/api/coverage.go:98-119 | two inputs land in one output exactly when a chain of overlaps or gaps under 60 s of one camera links them |
| `Coverage.OutputIsHull` | internal/api/coverage.go:90-122 | each output is the hull of a run of inputs: same camera, first start, largest end, audio flags ORed |
| `Coverage.MergeIsSorted` | internal/api/coverage.go:90-122 | outputs are sorted and outputs of one camera lie at least 60 s apart |
| `Coverage.MergeIsIdempotent` | internal/api/coverage.go:90-122 | merging twice is merging once |
| `RateLimit.LoginRateLimiter.PruneInPlace` | internal/api/ratelimit.go:53-58 | appending to the emptied prefix of the slice being read keeps exactly the entries after the cutoff, in order |
| `RateLimit.LoginRateLimiter.AllowAt` | internal/api/ratelimit.go:46-67 | the call gives the verdict and the new table of the specification |
| `RateLimit.TableIsHistory` | internal/api/ratelimit.go:53-66 | in every run the stored list and the whole accepted history agree from the last window on |
| `RateLimit.StoredIsHistoryIff` | internal/api/ratelimit.go:51-66 | right after an attempt the stored list is exactly the accepted history cut to the attempt's window, if and only if the window is not empty or the attempt was refused |
| `RateLimit.AtMostLimit` | internal/api/ratelimit.go:60-66 | in every run, for each key and every time t, at most `limit` attempts are accepted in (t - window, t] |
| `RateLimit.RefusedIffWindowFull` | internal/api/ratelimit.go:60-63 | an attempt is refused exactly when `limit` accepted ones lie in its own window |
| `AlarmCooldown.AlarmLimiter.AllowAlarm` | cmd/server/main.go:514-526 | the check and the store, with its own clock reading each, give the specified verdict and table |
| `AlarmCooldown.AlarmLimiter.OnEvent` | cmd/server/main.go:643-647 | only alarm types reach the cooldown |
| `AlarmCooldown.KeysAreBuckets` | cmd/server/main.go:485-518 | the text keys are equal exactly for one camera and one topic, or two of its motion topics |
| `AlarmCooldown.SuppressedIffRecent` | cmd/server/main.go:521-523 | over every run an alarm is suppressed exactly when an accepted one of its bucket was stored under 60 s before |
| `AlarmCooldown.AcceptedApart` | cmd/server/main.go:514-526 | accepted alarms of one bucket are at least 60 s apart |
| `AlarmCooldown.MotionTopicsShareOneCooldown` | cmd/server/main.go:485-526 | the same, said of cameras and topics: any two motion topics of a camera share one cooldown |
| `AlarmCooldown.OtherBucketsDecideNothing` | cmd/server/main.go:514-526 | the verdict on an alarm is the one its bucket's own alarms would give: other buckets decide nothing |
| `AlarmCooldown.FirstOfItsBucketPasses` | cmd/server/main.go:485-526 | an alarm whose camera and topic share a bucket with no earlier alarm is let through, whatever else fired |
| `AiGate.Gate.TryAcquireAI` | cmd/server/main.go:497-505 | the gate opens for a camera exactly when it is not taken |
| `AiGate.ReleaseFreesItsCamera` | cmd/server/main.go:497-510 | in every reachable state a release turns a refusal for its camera into an admission, and changes no other camera's verdict |
| `AiGate.RunKeepsInv` | cmd/server/main.go:495-510 | in every interleaving the gate is closed for a camera exactly while one goroutine runs an inference for it |
| `AiGate.OneInferencePerCamera` | cmd/server/main.go:923-925 | two running inferences are of different cameras |
| `AiGate.SkippedIffBusy` | cmd/server/main.go:923-925 | a goroutine is turned away exactly when another runs an inference for its camera |
| `AiGate.AcquiresMatchReleases` | cmd/server/main.go:923-924 | each goroutine tries once, and one that got through releases exactly once |
| `AiGate.QuietGateIsOpen` | cmd/server/main.go:495-510 | when nothing runs, every camera is free |
| `AiCounters.LogIsParts` | internal/ai/client.go:302-373 | every weighted sum over an interleaved log is the sum over what each goroutine has done |
| `AiCounters.ConfirmedWithinCalls` | internal/ai/client.go:302-313 | at every moment of every interleaving confirmed is at most calls, in each scope and model |
| `AiCounters.SitesWithinGlobal` | internal/ai/client.go:359-373 | at every moment any set of sites' calls, and confirmed, add up to at most the global counter |
| `AiCounters.SitesExplainGlobal` | internal/ai/client.go:302-373 | once nothing is in flight and every inference has a site, they add up to exactly the global counter |
| `AiClientModel.AiClient.CounterFor` | internal/ai/client.go:192-201 | a site's counters are created at zero once, others keep theirs; there are none for the empty id |
| `AiClientModel.AiClient.Analyze` | internal/ai/client.go:287-388 | each way through the call adds exactly its inferences' operations, moves the global and the site's calls, milliseconds and confirmations by what the answers say and no other counter, and returns the matching result |
| `AiClientModel.AiClient.AnalyzeVideo` | internal/ai/client.go:509-564 | the video call counts one Qwen inference, globally and for its site, confirmed when a threat is named with a false-positive share under one half; or nothing when it fails |
| `AiClientModel.InferShows` | internal/ai/client.go:302-313 | updating the counter fields keeps them equal to the counts of the log |
| `AiSampler.MetricsSampler.Tick` | internal/api/ai_metrics_sampler.go:49-106 | one tick writes the specified rows and replaces both baselines |
| `AiSampler.WrittenTripleAdds` | internal/api/ai_metrics_sampler.go:54-66 | every written triple has calls = confirmed + filtered and no negative part, even for torn readings, and is all zero or the difference of both counters |
| `AiSampler.TickRowsShape` | internal/api/ai_metrics_sampler.go:68-106 | a tick writes one global row per service, and site rows only for the snapshot's sites and only with activity |
| `AiSampler.RowsAreDifferences` | internal/api/ai_metrics_sampler.go:82-106 | over a run of ticks the rows of a service and site add up, in calls, confirmed and filtered alike, to the differences of its readings: silent sites lose nothing |
| `AiSampler.WrittenPlusLost` | internal/api/ai_metrics_sampler.go:54-66 | in calls, confirmed and filtered alike the differences written and the ones clamped away add up to the last reading |
| `AiSampler.WrittenWithinCounter` | internal/api/ai_metrics_sampler.go:52-66 | for readings of any interleaving the written calls, and the written confirmed, are at most the counter, fall short by what clamping swallowed, and equal it exactly when no clamped tick saw new ones; without clamping written filtered is the last reading's |
| `AiSampler.ClampedIff` | internal/api/ai_metrics_sampler.go:54-66 | a tick is clamped exactly when the confirmations landed between its loads grew by more than the unconfirmed calls did |
| `AiSampler.RowsWithinCounter` | internal/api/ai_metrics_sampler.go:49-106 | the same bounds and the same exact conditions for the rows handed to the writer, globally and per site |
| `AiSampler.TornReadingDrift` | internal/ai/client.go:222-242 | a torn reading's filtered is the one of the first load's moment, which is never negative, less the confirmations landed between the loads; it is negative exactly when more landed than were unconfirmed, and off by at most one exactly when at most one landed |
| `AiSampler.FilteredCanBeNegative` | internal/ai/client.go:222-242 | for every n there is an interleaving whose snapshot shows filtered = -n |
| `AiSampler.ClampingLosesCalls` | internal/api/ai_metrics_sampler.go:54-66 | for every n there is an interleaving in which one torn tick is clamped, writes none of its n new calls, and leaves the written total n below the counter |
| `DigestWeek.WeekStartIsMonday` | cmd/worker/main.go:413-424 | the week start is a Monday midnight at or before t, less than seven days back |
| `DigestWeek.WeekStartIs` | cmd/worker/main.go:413-424 | it is the only such moment |
| `DigestWeek.SameWeekIff` | cmd/worker/main.go:413-424 | two moments have one week start exactly when no Monday midnight lies between them |
| `DigestWeek.PeriodsLeaveASecond` | cmd/worker/main.go:435-440 | a digest period ends before it is sent, and the next one starts one second after it ends |
| `DigestWeek.CoversIff` | cmd/worker/main.go:435-440 | a digest covers a moment exactly when it is sent in the week after the moment's own and the moment is not inside the last second of its week |
| `DigestWeek.CoveredIff` | cmd/worker/main.go:435-440 | some digest covers a moment exactly when it is not inside the last second of its week |
| `DigestWeek.CoveredWhenSentIff` | cmd/worker/main.go:426-440 | for every send day and hour: exactly those moments are covered at a moment at which digests are sent |
| `DigestWeek.LiveWorkerCovers` | cmd/worker/main.go:408-440 | a worker ticking since before the next week's send hour makes a check in it whose digest covers such a moment |
| `DigestWeek.PeriodsAreDisjoint` | cmd/worker/main.go:435-440 | two digests that cover one moment are of the same week and have the same period |
| `DigestWeek.LastSecondIsLost` | cmd/worker/main.go:439 | half a second before a Sunday's midnight is in no digest at all |
| `DigestWeek.GateIsOneHour` | cmd/worker/main.go:427-433 | day and hour checks open the gate for exactly one hour of each week |
| `DigestWeek.TickHitsTheHour` | cmd/worker/main.go:408 | a half-hour ticker fires in that hour |
| `DigestSends.RunKeepsInv` | cmd/worker/main.go:453-489 | over every single-leader run with crashes, restarts and failed records, sendings, endings and rows stay in balance |
| `DigestSends.AtMostOncePlusAccidents` | cmd/worker/main.go:462-481 | sendings for an organisation and week are the one insert, the failed records, the crashes and at most one unrecorded one; so at most one more than failed records and crashes |
| `DigestSends.RowIsFinal` | internal/database/digest_sends.go:26-42 | once the row stands nothing sends that digest again |
| `DigestSends.BoundIsReached` | cmd/worker/main.go:472-478 | n crashes between sending and recording do cost n extra digests |
| `DigestSends.RecordedIsRead` | internal/database/digest_sends.go:26-62 | after any run, what a record wrote is what the next look-up reads: a second turn after a recorded one sends nothing and changes nothing |
| `DigestSends.TurnsServe` | cmd/worker/main.go:453-489 | seen by any one of distinct organisations, the turns of a tick send its digest once more, and leave its row, exactly when the loop reaches it and its look-up, sending and record succeed |
| `DigestSends.TurnsLeaveOthers` | cmd/worker/main.go:453-489 | a digest of another organisation or week is neither sent nor recorded |
| `DigestSends.DigestWorker.UpsertDigestSend` | internal/database/digest_sends.go:51-62 | the insert reports true exactly for a new row and leaves one row per key |
| `DigestSends.DigestWorker.Turn` | cmd/worker/main.go:462-481 | one organisation's turn is its look-up and its record in the run, with the mail and the rows they leave |
| `DigestSends.DigestWorker.Check` | cmd/worker/main.go:426-493 | one tick inside the send hour mails and records the ended week for exactly the organisations reached before a stop whose look-up, sending and record succeed and that had no row; nothing else is mailed or recorded; it counts the new rows; outside the hour nothing happens |
| `Rollup.RenderRollup` | cmd/docgen/registry.go:197-208 | the loop renders the block |
| `RollupTable.BlockLines` | cmd/docgen/registry.go:197-208 | for fields without line breaks the block's lines are the markers, the count of the features, the titles, the ruler, and one row a feature in order |
| `RollupTable.RowCells` | cmd/docgen/registry.go:202-205 | for fields without bars a row's cells are the link, the id, the area file's name without `.md` if it ends so, the tier and the status |
| `RollupTable.RenderDetermines` | cmd/docgen/registry.go:197-208 | if no field holds the character that ends its place, two lists render alike only when they are the same list |
| `Rollup.Readme.UpdateRollup` | cmd/docgen/registry.go:213-232 | each outcome and the file it leaves, error cases and failing or partial writes included |
| `Rollup.Readme.CheckRollup` | cmd/docgen/registry.go:234-252 | each finding |
| `Rollup.BodyHoldsEnd` | cmd/docgen/registry.go:197-208 | the end marker stands inside the rendering exactly when a field of a feature holds it |
| `Rollup.FirstInSplice` | cmd/docgen/registry.go:222-227 | no marker straddles a splice point |
| `Rollup.MarkersOfUpdate` | cmd/docgen/registry.go:222-227 | the markers of an updated text stand at the old begin and at the first end marker of the rendering |
| `Rollup.OutsideSurvives` | cmd/docgen/registry.go:227 | the text before and behind the markers is preserved |
| `Rollup.CleanIffUnchanged` | cmd/docgen/registry.go:227-251 | the check is silent exactly on the texts that an update leaves alone |
| `RollupTable.CleanDetermines` | cmd/docgen/registry.go:234-252 | a README passes the check for one such list at most |
| `Rollup.UpdateSettlesIff` | cmd/docgen/registry.go:213-252 | after an update the check is silent, and a second update changes nothing, exactly when no field of a feature holds the end marker |
| `Rollup.CutShortIsNoticedIff` | cmd/docgen/registry.go:231-251 | a write that stops midway is reported, as missing markers, exactly when it stops before the end of the block |
| `Vca.RulesEquivalent` | internal/api/vca_pull.go:442-463 | the comparison accepts exactly the rules that agree in enabled, sensitivity, seconds and direction, and in every coordinate up to 0.02 |
| `Vca.EquivalenceLaws` | internal/api/vca_pull.go:442-470 | the comparison is reflexive and symmetric |
| `Vca.EquivalentIsNotTransitive` | internal/api/vca_pull.go:442-470 | and not transitive |
| `Vca.TwoStepsStayNear` | internal/api/vca_pull.go:442-470 | two steps of it agree in every compared field and stay within twice the tolerance |
| `Vca.KeysArePairs` | internal/api/vca_pull.go:415-420 | for rule types without a bar the text key is the pair of type and name |
| `Vca.DiffVCARules` | internal/api/vca_pull.go:412-437 | the loops return the camera-only and modified lists of the specification, and one rule per unseen stored key |
| `Vca.LastOfItsKey` | internal/api/vca_pull.go:412-416 | of several rules with one key the last one counts |
| `Vca.AddedInOrder` | internal/api/vca_pull.go:418-430 | the camera-only list is the camera's rules whose key no stored rule has, in the camera's order |
| `Vca.ChangedInOrder` | internal/api/vca_pull.go:418-430 | the modified list is the camera's rules that differ from the stored one of their key, in the camera's order |
| `Vca.CameraPartition` | internal/api/vca_pull.go:418-430 | each camera rule is exactly one of camera-only, modified, matched |
| `Vca.StoredPartition` | internal/api/vca_pull.go:412-436 | with distinct keys each stored rule is exactly one of db-only, modified, matched |
| `Vca.PatchGivesCamera` | internal/api/vca_pull.go:412-437 | dropping, replacing and adding what the diff says turns the stored set into the camera's, up to the comparison |
| `Vca.NextDiffIsEmpty` | internal/api/vca_pull.go:477-493 | with distinct keys the diff after a full apply is empty, in whatever order the rows come back |
| `Vca.NextDiffIsEmptyIff` | internal/api/vca_pull.go:412-493 | for any camera list it is empty in every listing order exactly when rules of one key are equivalent |
| `Vca.DefaultsAreInvisible` | internal/database/db.go:610-634 | the stored defaults change no key and no comparison |
| `Vca.StoresIff` | internal/database/db.go:610-634 | a stored row keeps a given schedule and given actions, has the defaults for missing ones, and every other field as it is |
| `Vca.VcaTable.ApplyCameraVCAToDB` | internal/api/vca_pull.go:477-493 | the transaction stores exactly the camera's rules, each with its given or defaulted schedule and actions, or nothing at all, and touches no other camera and no soft-deleted row |
| `Routes.NormalizePath` | cmd/docgen/routes.go:182-200 | the in-place loop over the segments computes the normal form |
| `Routes.SegmentsOfNormal` | cmd/docgen/routes.go:182-200 | splitting a normal form gives the normal forms of the segments |
| `RouteLists.TrailingSlashIsIgnored` | cmd/docgen/routes.go:183 | one slash at the end of a path changes neither its segments nor its normal form |
| `Routes.NormalTwiceIff` | cmd/docgen/routes.go:182-200 | normalising twice is normalising once exactly on paths without a `*` segment and without a slash left at the end |
| `Routes.WildcardTwice` | cmd/docgen/routes.go:186-188 | `*` becomes `{**}` and then `{*}` |
| `Routes.PathsMatch` | cmd/docgen/routes.go:204-222 | the loop decides: every segment before the first wildcard agrees, and the lengths do if there is none |
| `Routes.InstanceMatches` | cmd/docgen/routes.go:182-222 | a route matches every instance of itself, whatever fills its parameters and its wildcard |
| `Routes.MatchingIffShareRequest` | cmd/docgen/routes.go:182-222 | for every route and every call, parameters on either side included, the normal forms match exactly when some actual request is an instance of the route and a filling of the call |
| `Routes.MatchingIffInstance` | cmd/docgen/routes.go:182-222 | corollary for a call without parameters: exactly when it is an instance of the route |
| `Routes.CrossReference` | cmd/docgen/render.go:38-90 | the nested loops over routes, calls and claims fill the lists of the specification; the frontend-only calls come sorted by path |
| `Routes.SortByPath` | cmd/docgen/render.go:89 | the sort returns the same calls in path order |
| `RouteLists.PathLeIs` | cmd/docgen/render.go:89 | that order puts a prefix first and else goes by the first difference |
| `Routes.RowFor` | cmd/docgen/render.go:57-77 | one route's callers and claiming features, and the calls it marks as used |
| `Routes.CollectClaims` | cmd/docgen/render.go:41-53 | the claims of all features, in order |
| `Routes.RoutesPartition` | cmd/docgen/render.go:78-82 | each registered route is in exactly one of matched and backend-only |
| `Routes.MatchedIffCalled` | cmd/docgen/render.go:78-82 | in matched exactly when some call reaches it |
| `RouteLists.RowCallersAre` | cmd/docgen/render.go:60-71 | a row's callers are, in the order found, the calls with a fitting method and a request in common with the route |
| `RouteLists.RowFeaturesAre` | cmd/docgen/render.go:41-77 | a row's features are, once per entry and in the entries' order, those with a route entry, cut at its first blank, whose method fits (`ANY` on either side) and whose path has a request in common with the route |
| `RouteLists.RowsAre` | cmd/docgen/render.go:56-83 | each list holds, in the routes' order, the rows of the routes some call may reach, or of the others |
| `Routes.FrontendOnlyIffUnreached` | cmd/docgen/render.go:84-88 | a call is frontend-only exactly when no method-compatible route matches it |
| `Routes.FrontendOnlyIffNoSharedRequest` | cmd/docgen/render.go:56-88 | for every call, parametrised or not: exactly when it has no request in common with a route of its method, of `ANY`, or of `GET` for a websocket call |
| `Routes.FrontendOnlyIffNoInstance` | cmd/docgen/render.go:56-88 | corollary for a call without parameters: exactly when it is an instance of no compatible route |
| `Splitting.SplitJoin` | cmd/docgen/routes.go:183-195 | splitting undoes joining for segments without the separator |
| `Totp.TruncationIsBigEndian` | internal/auth/mfa.go:127-131 | masks, shifts and ors give the low 31 bits of the four bytes the last nibble points at, read big-endian and in bounds |
| `Totp.CodeIsSixDigits` | internal/auth/mfa.go:133-137 | a code is exactly six digits that parse back to the truncated MAC mod 1,000,000 |
| `Totp.CounterReadsBack` | internal/auth/mfa.go:116-117 | the eight MAC input bytes spell the step |
| `Totp.TotpAt` | internal/auth/mfa.go:115-138 | the method with its modulus loop computes the code of a secret and a step |
| `Totp.VerifyTOTP` | internal/auth/mfa.go:86-111 | the method with its early returns computes the specified answer: malformed code, undecodable secret, match in the window |
| `Totp.StepsTried` | internal/auth/mfa.go:104-105 | the steps tried despite truncating division and uint64 wrap-around: around the epoch, and on clocks before it, too |
| `Totp.AcceptedIffInWindow` | internal/auth/mfa.go:86-111 | from 30 s after the epoch on a code is accepted exactly when it is, but for white space around it, the code of step floor(now/30) - 1, + 0 or + 1 |
| `Totp.BadSecretIff` | internal/auth/mfa.go:86-101 | the secret is complained about exactly when it cannot be decoded and the trimmed code is six digits |
| `Totp.DriftIsTolerated` | internal/auth/mfa.go:103-110 | a code, with any white space around it, is accepted whenever the two clocks differ by at most 30 s |

## Left out

- HTTP handlers, middleware, cookies, role gates and the web-UI proxy: plumbing and access policy.
- The other SQL, and the recording, evidence, re-analysis, ONVIF and Milesight packages: their core depends on code outside the modelled files.
- Regular-expression extraction in the documentation generator (`scanFile`, `resolveURLArg`, registry rows) and its file walk.
- HMAC-SHA1, base32 and upper-casing of the secret: parameters of the one-time-password functions; constant-time comparison is not modelled.
- FFmpeg's arguments and time limit: an encoder step succeeds or fails; a crash of the process in the middle of a transcode is modelled only as the leftover `.tmp` files a fresh process may find.
- Texts that are not valid UTF-8: scanner, trimming and rollup work on code points.
- `Coverage.MergeSpans`: times are integers of seconds; RFC 3339 parsing and its parse-error value 9999 are not modelled, and comparing times as strings is taken to be comparing the times.
- `AuditSql.WriteIdx`: for 0 <= n < 1,000,000, which by `AuditSql.SixDigitsFit` are the numbers whose numeral fits the source's six-byte buffer; a batch of 100 rows reaches 600.
- `AuditQueue.Auditor.FlushPending`: a failed INSERT is logged and its rows are gone; the model counts a handed-over batch as flushed.
- `AiSampler.MetricsSampler.Tick`: GPU readings, average latencies and failed writes of a row are not modelled.
- `AiCounters.SitesWithinGlobal`: for calls and confirmed; the milliseconds are additions of what the service reports and are not claimed to be ordered. 64-bit overflow of a counter is not modelled.
- `DigestSends.DigestWorker.Check`: the 200 ms pauses, the body of the digest and a listing of organisations that fails (which sends nothing) are not modelled; several leaders at once are not either.
- `DigestWeek.WeekStartIsMonday`: calendar dates are days since the epoch, times nanoseconds; the civil year, month and day that Go builds in between are not modelled.
- `Rollup.Readme.UpdateRollup`: a failing write leaves the old text or a prefix of the new one; other damage to the file is not modelled.
- `Vca.DiffVCARules`: coordinates are reals; rounding and NaN of float64 are not modelled, nor are the row's id, timestamps and sync fields.
- `Routes.CrossReference`: the file, line and handler fields, which take no part in matching; calls of equal path may come in another order from the library's sort.
- `Totp.VerifyTOTP`: the clock is a parameter, and the drift is the source's constant one step.
- Small helpers such as `classifyRequest`, `sanitizeName` and query parsing: they would only add easy members.
