# EDR agent: verified models

Dafny models of the parts of the Linux EDR agent whose correctness spans many operations, with
proofs. `dafny verify dfyconfig.toml` checks the whole project.

| module | what it models |
|---|---|
| `Wire`, `Chain` | events, the library primitives, sealing an event onto the hash chain, checking one line |
| `VerifyLog`, `Binding` | replaying the chain over log files; what the last hash of an accepted log determines |
| `LogDisk`, `LogWriter` | log file, backups and state file; rotation; the logger object; recovery of a lost head |
| `Journal`, `LogRun` | what an honest writer produced, and whole runs: writes with any outcome, any restarts, lost or stale state files |
| `LogFork`, `LogLimits` | the second branch a writer starts when it comes back at an older head; when it rotates, and what that bounds |
| `Anchor`, `SeqCheck` | the external anchor; checking one event by its number |
| `Codec`, `Witness` | a concrete codec and digest that obey the assumed laws; which events survive re-encoding under them |
| `Suppressor`, `SuppressorAnswers` | cooldown per key with lazy eviction, token bucket per rule; every answer told from the calls before it |
| `KillTree` | breadth-first search for descendants, children-first kill order |
| `FakeLoader` | injectors, pump, consumer and Close of the in-memory loader, step by step |
| `Policy` | stable priority order, hits, whitelist rewriting, audit/response split, rule validation |
| `CleanJson`, `CleanPieces` | the string-aware comment stripper for configuration text; what it does to any text, told from the characters |
| `Merge`, `ConnTrack` | pid-indexed snapshot merge; sliding-window connection tracker |
| `Text`, `Seqs` | white space; facts about sequences |

## How the libraries appear

SHA-256, HMAC and the JSON codec are a record of functions (`Wire.Primitives`) that every log
definition takes. `Primitives.Lawful` is all that is assumed: digests are 64 hex characters; an
event marshals to a JSON object or not at all depending on its content; a marshalled event decodes
with its integrity fields intact; what was decoded marshals again. Collision resistance is not
assumed. Where a theorem needs it, the conclusion offers a collision, always between two members of
a named finite set: the texts the writer hashed and the texts the verifier hashes. That content
survives a decode/encode round trip is not assumed either: `Chain.Canonical` says so of one event,
and the theorems say what happens when it does not hold.

File effects that can fail (saving the state file, moving the current file, appending) are
parameters of each write. Clock readings, random chain identifiers, signal outcomes, matcher results
and map iteration order are parameters or nondeterministic choices. Sequence numbers wrap at 2^64.

## What the code does that its comments do not say

- `integrity.go:177-179` says the canonical bytes keep file and state from disagreeing. The head is
  moved and saved before the append (`event.go:122-145`), so a failed append leaves a gap.
  `LogRun.RunFaultsLocalised` says exactly which lines are then blamed.
- A failed save of the state file is only logged (`integrity.go:544-564`). The next start takes up the
  older head in the file without looking at the log, repeats a sequence number and starts a second
  branch, which the verifier reports as tampering. `LogRun.RestartAtHeadIff` says exactly when a
  restart finds the head, `LogFork.ForkRepeats` and `LogFork.ForkReported` what follows when it does
  not, and `LogFork.ForkExample` gives a run.
- The server compares with the anchor whenever one is set (`server.go:220-226`). A logger restarted
  with chaining off has the empty head, so an existing mirror always draws a report;
  `Anchor.HonestRunsAgree` shows that this is the only false alarm of a run that keeps finding its
  head, `Anchor.RestartAlarmIff` what a restart at an older head draws.
- A push that fails is not retried: the pusher remembers the number before it tries to write the mirror
  (`anchor.go:73-78`), so until the head moves later pushes do nothing (`Anchor.FailedPushNotRetried`).
- Not every line an honest run writes verifies. Response events store a struct whose fields are out
  of key order (`agent.go:514`, `response.go:23-27`), so re-encoding the decoded line changes the
  bytes. `LogRun.CleanRunVerifies` gives the exact condition, `Witness.CanonicalIff` what it means for
  the order of keys, `Witness.ResponseEventRejected` that it fails for every response event.
- A block comment that spans lines is not always removed without trace: the line break in it stays
  (`main.go:567-581`). `CleanJson.BlockCommentUndoneIff` says exactly when that shows.
- `integrity.go:232-234` says that deleting the state file starts a fresh chain. The next start
  recovers the old head from the log (`integrity.go:478-484`); `LogRun.RecoveryFindsHead` proves it.
- `integrity.go:120-122` says legacy segments precede the chain. They are recorded anywhere, across
  file boundaries; `VerifyLog.SegmentsAreMaximalRuns` says which.
- `suppress.go:143-144` evicts after twice the longest cooldown. The doubling is 64-bit and wraps from
  2^62 ns on; `Suppressor.EvictionInvisibleIff` shows this is exactly where eviction becomes visible.
- `ConnTracker.Stats` indexes an emptied bucket; `ConnTrack.StatsPanics` says exactly when.

## Model

| member | source | states |
|---|---|---|
| Chain.SealIsHonest | internal/eventlog/integrity.go:180-222 | a sealed event names the old head, carries version v0.15, the next number modulo 2^64, the digest of old head and payload and the MAC of that digest, keeps its content, and its number and hash are the new head |
| Chain.SealSucceedsIff | internal/eventlog/integrity.go:180-222 | sealing succeeds iff the algorithm is SHA-256 or unset and the content can be encoded |
| Chain.SealThenVerifyOne | internal/eventlog/integrity.go:418-444 | a sealed line passes the stand-alone check exactly when its content survives re-encoding, or writer's and reader's texts collide; the MAC always matches |
| VerifyLog.CheckEvent | internal/eventlog/integrity.go:370-386 | the link, hash and MAC comparisons yield exactly the listed issues in order |
| VerifyLog.VerifyLine | internal/eventlog/integrity.go:335-389 | one decoded value advances the replay state |
| VerifyLog.VerifyOneFile | internal/eventlog/integrity.go:314-392 | scanning a file, with a torn tail or a file that cannot be opened reported, is the replay step of that file |
| VerifyLog.Verify | internal/eventlog/integrity.go:235-266 | the report is that of replaying all files in order |
| VerifyLog.VerifyMeaning | internal/eventlog/integrity.go:235-392 | for any files, torn ones included: last hash and number, counters and segments are those of all lines together, and the issues are those of the lines in order with exactly one more after the last line of each torn file |
| VerifyLog.ScanFilesFlat | internal/eventlog/integrity.go:253-257 | file boundaries are invisible to the replay when no file is torn |
| VerifyLog.TornIsReported | internal/eventlog/integrity.go:328-334 | a torn file anywhere leaves an issue |
| VerifyLog.ScanMeaning | internal/eventlog/integrity.go:314-392 | running hash, sequence number and counters are those of the lines, and the issues are the per-line issues, each judged against its chain predecessor, in line order |
| VerifyLog.SegmentsAreMaximalRuns | internal/eventlog/integrity.go:339-365 | the legacy segments are all the maximal runs of lines outside the chain, across files, in order, with right counts |
| VerifyLog.VerifyOkIffLocal | internal/eventlog/integrity.go:314-444 | acceptance holds iff no file is torn, every line decodes and passes the stand-alone check, and every chain line names its chain predecessor's hash |
| VerifyLog.AcceptancePrefixClosed | internal/eventlog/integrity.go:235-266 | cutting lines off the end of an accepted log leaves an accepted log |
| Binding.SharedHash | internal/eventlog/integrity.go:370-388 | two chains that share a hash agree on length, hashes and payloads before it, absent a collision among their texts |
| Binding.LastHashBinds | internal/eventlog/integrity.go:235-266 | two accepted logs with one last hash carry the same chain of payloads and hashes, or a collision among the texts hashed is at hand |
| Journal.HashTellsLineage | internal/eventlog/integrity.go:191-221 | two entries of an honest journal, on one branch or on two, share a hash iff their payloads agree all the way back to the start, absent a collision |
| Journal.FaultLocalisation | internal/eventlog/integrity.go:349-389 | on any surviving part of an honest log, branches included, and under any key, the issues are exactly: broken link and hash mismatch on each chain line whose last surviving chain line is not what it was sealed onto, hash mismatch alone on each non-canonical line, a MAC mismatch on each line sealed with another MAC than the key gives, nothing elsewhere; or a collision |
| Journal.LinearIntact | internal/eventlog/integrity.go:366-389 | without branches, a line is sealed onto what precedes it iff its own chain predecessor survives right before it |
| LogDisk.FilesAreHistory | internal/eventlog/integrity.go:272-310 | reading backups by descending number and then the current file yields the history |
| LogDisk.ShiftUpMeaning | internal/eventlog/event.go:239-245 | the descending renames move every younger backup up by one and touch nothing else |
| LogDisk.RotationKeepsHistory | internal/eventlog/event.go:234-251 | a rotation, even one that fails to move the current file, removes exactly the backup with the highest kept number and keeps all other lines in order; it is the front of the history when no stale backup lies above |
| LogWriter.Store.Rename | internal/eventlog/event.go:239-245 | a rename moves a backup; its target is required to be free, so every call proves that no live backup is overwritten |
| LogWriter.RecoverOneFile | internal/eventlog/integrity.go:508-536 | the line scan of one file keeps the last usable chain event and stops at a line too long for the buffer |
| LogWriter.Recover | internal/eventlog/integrity.go:498-542 | the scan visits the rotated files and the current file once more |
| LogWriter.Logger.constructor | internal/eventlog/integrity.go:460-487 | a new writer starts from the saved head, or from the log when the saved one is missing or empty |
| LogWriter.Logger.RotateIfNeeded | internal/eventlog/event.go:220-252 | rotates exactly when the incoming line would overflow a positive limit, with the whole new disk state |
| LogWriter.Logger.Write | internal/eventlog/event.go:105-145 | seal and save the head, rotate, append, with the whole new state for every combination of failures, and success exactly when the line lands |
| LogRun.SealAdvancesHead | internal/eventlog/integrity.go:180-222 | sealing at the head of any entry continues that entry: the next number, its chain identifier, and a new head that is the new entry's in every field |
| LogRun.StepIsWriteStep | internal/eventlog/event.go:105-145 | a write of a run changes disk, settings and head exactly as Logger.Write does |
| LogRun.RecoverMeaning | internal/eventlog/integrity.go:498-542 | with every line short enough, recovery returns the state at the last usable line; reading the current file twice changes nothing |
| LogRun.RecoverStops | internal/eventlog/integrity.go:508-536 | a line of a megabyte ends the scan of its file |
| LogRun.StartsFromDisk | internal/eventlog/integrity.go:460-487 | on any disk with shorter lines a start takes the head in the state file if it names a chain and a hash, or else that of the last usable line in every field, or else what the state file has |
| LogRun.RecoverFinds | internal/eventlog/integrity.go:508-536 | whatever recovery returns comes from a line on disk, even when it stops early |
| LogRun.RecoveryFindsKept | internal/eventlog/integrity.go:498-542 | with the state file gone and every line short enough, recovery returns the head of the last chained entry still on disk, in every field, or nothing if there is none |
| LogRun.RecoveryFindsHead | internal/eventlog/integrity.go:498-542 | with the last chained line on disk that is exactly the lost head |
| LogRun.RunKeepsInv | internal/eventlog/event.go:105-159 | over every run (failed appends, moves and saves, drops, lost and stale state files, restarts at any head) the disk holds an ordered selection of an honest journal, live and saved heads are those of entries, and every entry continues the one at which its writer stood |
| LogRun.RunFaultsLocalised | internal/eventlog/integrity.go:349-389 | after every such run, under any key, the verifier blames exactly the chain lines that do not follow what they were sealed onto, the lines that do not re-encode and the lines whose MAC does not fit the key, or a collision is at hand |
| LogRun.RestartAtHeadIff | internal/eventlog/integrity.go:460-487 | a start takes the chain up where it ended iff the state file holds the last head, or is gone while the last chained line is on disk |
| LogRun.ResumingRunIsLinear | internal/eventlog/integrity.go:460-487 | a run whose restarts all do so has one chain without branches, and its writer stands at the end of it |
| LogFork.StaleRestart | internal/eventlog/integrity.go:460-487 | any other restart leaves the writer standing below the head, and only such a one does |
| LogFork.ForkRepeats | internal/eventlog/integrity.go:180-222 | the next write then repeats the number of an earlier entry and hangs on the same parent |
| LogFork.ForkReported | internal/eventlog/integrity.go:366-389 | with the old head's line on disk, the verifier reports broken link and hash mismatch on the first line of the second branch, and its MAC under another key, or a collision is at hand |
| LogFork.ForkExample | internal/eventlog/integrity.go:544-564 | saved write, write with a failed save, restart, write: the third event repeats number 2 and its line is reported so, for all events |
| LogRun.CleanRunVerifies | internal/eventlog/integrity.go:235-392 | after every run in which every line lands, nothing is dropped and restarts find the head, including by recovery, the counts equal the writes, last number and hash equal the writer's head, segments are the maximal unchained runs, and the log is accepted iff every chained event is canonical and carries the MAC expected, absent a collision; under the writer's key or none every MAC is as expected |
| LogLimits.WriteRotatesIff | internal/eventlog/event.go:220-252 | a write leaves the backups alone and extends the current file iff its text with the new line is within a positive limit, or there is no limit or no file; otherwise every file moves up by one, the highest allowed number goes, and a new file starts with the line, in every combination of failures |
| LogLimits.NothingDroppedEarly | internal/eventlog/event.go:220-252 | as long as all that was written fits into one file there is no backup, and with every append succeeding every line is there |
| LogLimits.RunStaysWithin | internal/eventlog/event.go:220-252 | with fixed limits, whatever fails, backups are numbered 1 to the limit, at most that many, and no file exceeds the byte limit or the longest line |
| Anchor.Pusher.Push | internal/eventlog/anchor.go:68-102 | a push of a larger number moves the memory and, if written, the mirror; others change nothing |
| Anchor.PushMirrorsHead | internal/eventlog/anchor.go:68-102 | when no push fails, a push leaves the mirror at the very head of the chain, whatever was pushed or restarted before |
| Anchor.FailedPushNotRetried | internal/eventlog/anchor.go:68-102 | after a failed push, pushes of the same head do nothing |
| Anchor.CrossVerifyMeaning | internal/eventlog/anchor.go:207-240 | chain mismatch, truncation and hash mismatch are each reported iff their own comparison fails, and nothing else is |
| Anchor.ForeignChainCaught | internal/eventlog/anchor.go:216-222 | the mirror of any run and the head of any other that never drew its identifier, however long, always draw a chain mismatch |
| Anchor.HonestRunsAgree | internal/eventlog/anchor.go:207-240 | in every interleaving of log operations, pushes (failing or not) and pusher restarts in which the logger keeps finding its head, its head draws no report iff chaining is on or there is no mirror |
| Anchor.RestartAlarmIff | internal/eventlog/anchor.go:207-240 | after such a run any restart, at the head or not, is reported iff there is a mirror and chaining is off or the head found is older than the mirror |
| Anchor.TruncationCaught | internal/eventlog/anchor.go:223-230 | after every run, branches and dropped lines included: a log cut to chain lines older than the mirror, without state file, is always reported as truncation once the head is recovered |
| Anchor.CutBelowAnchor | internal/eventlog/anchor.go:223-230 | without branches, cutting the log anywhere below the mirrored line leaves only such lines |
| Anchor.CutAccepted | internal/eventlog/integrity.go:235-266 | what is left of an accepted log after a cut is accepted by the verifier alone |
| Anchor.RewriteCaught | internal/eventlog/anchor.go:231-238 | another accepted log ending on the anchored number carries the anchored chain, or is reported for its hash, or brings a collision |
| SeqCheck.VerifyEventSeq | internal/control/server.go:734-823 | a missing file is in order; otherwise the loop is the scan that carries the hash of the last chain line, and the answer is in order iff the event is there without an issue |
| SeqCheck.SeqScanMeaning | internal/control/server.go:745-817 | the scan checks the first chain line with the number asked for against its chain predecessor's hash, and misses when there is none |
| SeqCheck.SeqScanStops | internal/control/server.go:745-822 | a line of a megabyte before the number asked for fails the check |
| SeqCheck.SeqAgreesWithVerify | internal/control/server.go:756-807 | it finds exactly the issue kinds full verification finds on that line, save that number one is excused from naming a predecessor |
| SeqCheck.VerifyImpliesSeq | internal/control/server.go:734-823 | on one unrotated accepted file every number that occurs checks out |
| Codec.EncodeIff | internal/eventlog/event.go:17-36 | two events have one text iff they agree on the integrity fields and on all members as written, tables in key order and structs in declaration order |
| Codec.DecodeEncode | internal/eventlog/event.go:17-36 | decoding a text gives the event back with tables in key order and a map in place of every struct |
| Codec.TableSurvives | internal/eventlog/event.go:30-35 | a table reads back to the same text iff every struct in it has its fields in key order |
| Witness.ToyIsLawful | internal/eventlog/event.go:17-36 | the assumed laws of digest and codec are met by a codec with the members of the event struct in declaration order and its tables in key order |
| Witness.CanonicalIff | internal/eventlog/integrity.go:154-157 | under that codec an event re-encodes to the bytes that were hashed iff no struct inside its tables has its fields out of key order |
| Witness.SurvivorAccepted | internal/eventlog/integrity.go:235-266 | every event without such a struct, once sealed, is accepted |
| Witness.ResponseEventRejected | internal/control/agent.go:505-515 | every response event, sealed cleanly, is not canonical and its log is rejected under some lawful primitives, under which every event without a struct out of key order is accepted |
| Suppressor.ConfigureIsSane | internal/control/suppress.go:66-90 | cooldowns are those given or 30, 60 and 30 seconds, the burst the one given or one second of the rate; below the overflow bound they are positive, and a burst of at least one comes with a rate |
| Suppressor.Gate.constructor | internal/control/suppress.go:66-90 | a new suppressor has the defaulted settings and empty state |
| Suppressor.Gate.ConsumeToken | internal/control/suppress.go:254-271 | refill, clamp and take leave the bucket with what was available, less one on success |
| Suppressor.Gate.EvictStale | internal/control/suppress.go:145-162 | the deleting loop removes exactly the keys older than the threshold |
| Suppressor.Gate.Allow | internal/control/suppress.go:105-130 | answer and whole new state of one call |
| Suppressor.HandOver | internal/control/suppress.go:185-239 | what one suppressor saves, a new one with the same options loads, and from then on it answers every call of every run as the first would have |
| Suppressor.Gate.LoadState | internal/control/suppress.go:215-239 | loading replaces each map the file has and keeps the other, keeps the sweep counter, ignores a missing file, and fails without effect on an unreadable one |
| Suppressor.AlikeAnswers | internal/control/suppress.go:105-162 | suppressors equal in buckets and in keys still able to matter answer every run alike, whenever either sweeps |
| Suppressor.EvictionInvisible | internal/control/suppress.go:124-128 | every answer of every run equals that of a suppressor that never evicts |
| Suppressor.OverflowForgets | internal/control/suppress.go:153-161 | from 2^62 ns on the sweep empties the map and an immediate repeat escapes its cooldown |
| Suppressor.EvictionInvisibleIff | internal/control/suppress.go:145-162 | eviction is invisible in all runs of a new suppressor iff the longest cooldown is below 2^62 ns |
| Suppressor.AllowedCallsAreSpaced | internal/control/suppress.go:113-117 | two allowed calls on a key are at least the later call's cooldown apart, in every run |
| Suppressor.AvailComposes | internal/control/suppress.go:260-265 | refilling in two steps through the burst clamp equals refilling in one |
| Suppressor.DeniedCallsInvisible | internal/control/suppress.go:105-130 | leaving any denied calls out of a run changes no remaining answer |
| Suppressor.SaveLoadInvisible | internal/control/suppress.go:185-239 | saving and loading into a fresh suppressor changes no later answer although the sweep counter resets |
| Suppressor.RateBound | internal/control/suppress.go:118-122 | over every stretch of every run a rule's emits times 10^9 are at most the burst times 10^9 plus the rate times the nanoseconds elapsed |
| SuppressorAnswers.CooldownIff | internal/control/suppress.go:113-117 | a call is held back by the cooldown iff an earlier allowed call on its key lies less than its category's cooldown before it |
| SuppressorAnswers.RateLimitedIff | internal/control/suppress.go:254-271 | a call of a limited rule off cooldown is allowed iff, counted back to every earlier call, the rule's emits and this one are covered by the burst and the rate times the nanoseconds passed |
| SuppressorAnswers.AnswerDecided | internal/control/suppress.go:105-130 | every answer of every run of a new suppressor, in terms of the earlier calls and answers alone |
| KillTree.Expand | internal/response/killtree.go:117-123 | one expansion adds exactly the unvisited children, once each, in any map order |
| KillTree.FindDescendants | internal/response/killtree.go:106-126 | on every map, cyclic ones included, the search ends with exactly the processes whose parent chain reaches the target, each once, at the least chain length, with its parent |
| KillTree.SortByDepth | internal/response/killtree.go:35-38 | a permutation, deepest first, equals in any order |
| KillTree.KillOrder | internal/response/killtree.go:35-60 | any such order of the descendants puts every process before its parent and the root last |
| KillTree.KillProcessTree | internal/response/killtree.go:17-72 | each descendant is attempted exactly once, children before parents, the root last; killed counts the attempted processes above identifier 1 whose signal succeeded, killed plus errors the attempts, success means there is one; protected targets and an unreadable table are refused |
| FakeLoader.DeliveryAndWakeUp | internal/bpf/fake.go:96-180 | in every interleaving what was sent is a prefix of what was queued, in order, without repeats; fast-path events were sent; no channel holds more than 32; a pump waiting with unread events has a token or an injector about to signal |
| FakeLoader.RestMeansAllSent | internal/bpf/fake.go:142-152 | a pump waiting with no token and no injector under way has sent everything |
| FakeLoader.NeverStuck | internal/bpf/fake.go:137-180 | while the loader is open and an event is unsent, some step of pump, consumer or signalling injector can be taken |
| FakeLoader.StampsFilled | internal/bpf/fake.go:153-157 | everything sent carries a time, its own if it had one, and is otherwise as queued |
| FakeLoader.FastPathComplete | internal/bpf/fake.go:170-178 | up to 32 fast events the fast path has got exactly those sent, in order |
| FakeLoader.ShutQueue | internal/bpf/fake.go:92-106 | once the loader is closed and no injection is under way, the queue never changes |
| Policy.OrderMeaning | internal/policy/policy.go:338-342 | the stable sort is the permutation ordered by effective priority and then position |
| Policy.EvaluateAll | internal/policy/policy.go:337-365 | the filtering and whitelist loops yield the hits of the ordered rules |
| Policy.AggregatedDecision | internal/policy/policy.go:379-390 | the splitting loop yields the first responding hit and all audit hits |
| Policy.ResponseIsLeast | internal/policy/policy.go:337-390 | the response is the eligible rule of least effective priority and position; none iff no rule is eligible |
| Policy.EvaluateIsLeast | internal/policy/policy.go:316-365 | single evaluation reports the applicable rule of least priority and position, as an allow if whitelisted; none iff none applies |
| Policy.ResponseByFields | internal/policy/policy.go:316-390 | the same in terms of the fields: enabled unless switched off, in its window and matching, response among the effects or no effects given, not whitelisted, neither an allow nor without action; priority 0 counts as 100, ties go to the earlier |
| Policy.EvaluateByFields | internal/policy/policy.go:316-365 | likewise for single evaluation |
| Policy.AuditIsComplete | internal/policy/policy.go:367-390 | the audit list is every applicable audit-effect rule, nothing else, in evaluation order |
| Policy.OnlyClassOrderMatters | internal/policy/policy.go:323-328 | policies that agree on the order within each priority class evaluate alike in every context |
| Policy.Validate | internal/policy/policy.go:203-265 | the loop accepts iff every rule passes all checks, decision-action matrix included, and identifiers are distinct |
| Policy.ValidResponse | internal/policy/policy.go:223-237 | under a validated policy the response blocks with a blocking action, or alerts with action log |
| CleanJson.StripComments | cmd/edr-agent/main.go:587-648 | the flag-and-lookahead loop equals a lookahead-free automaton on its line and tells whether a block comment stays open |
| CleanJson.CleanJSON | cmd/edr-agent/main.go:567-581 | the loop strips every line in turn, drops blank ones and joins the rest |
| CleanJson.CleanIsWholeScan | cmd/edr-agent/main.go:567-648 | line-by-line stripping equals scanning the whole text at once and dropping blank lines |
| CleanPieces.CleanMeaning | cmd/edr-agent/main.go:567-648 | on any division of a text into plain characters, string literals (closed or cut off by their line), comments and stray slashes: comments go but for their line breaks, everything else stays, then blank lines go |
| CleanPieces.CleanAnyText | cmd/edr-agent/main.go:567-648 | every text has such a division |
| CleanPieces.LiteralSurvives | cmd/edr-agent/main.go:605-629 | every string literal of the text is in the result, character for character |
| CleanPieces.NoSlashUntouched | cmd/edr-agent/main.go:567-581 | a text without slashes loses nothing but blank lines |
| CleanJson.CleanTwice | cmd/edr-agent/main.go:567-581 | cleaning is idempotent |
| CleanJson.BlockCommentIsNewlines | cmd/edr-agent/main.go:567-640 | a block comment over any number of lines, inserted outside strings and comments and not right after a pending slash, counts for exactly the newlines in it |
| CleanJson.BlockCommentUndone | cmd/edr-agent/main.go:596-640 | one within a line changes nothing |
| CleanJson.BlockCommentUndoneIff | cmd/edr-agent/main.go:567-640 | inserting a block comment changes nothing iff it has no newline, or one side of it is empty on its line, or both sides are blank there |
| CleanJson.BlockCommentSplitsLine | cmd/edr-agent/main.go:567-581 | `1` and `2` with a line break commented out between them become two lines |
| CleanJson.LineCommentUndone | cmd/edr-agent/main.go:631-635 | nor does appending a line comment at the end of a line |
| Merge.Merger.BuildIndex | internal/collector/merge.go:152-155 | the index maps each identifier to its last process |
| Merge.Merger.ApplyExec | internal/collector/merge.go:170-193 | the indexed update equals the linear-scan one and keeps the index right |
| Merge.Merger.ApplyEvents | internal/collector/merge.go:148-168 | the indexed merge equals the linear-scan fold and counts the batch |
| Merge.ApplySplit | internal/collector/merge.go:148-168 | folding two batches in turn equals folding their concatenation |
| Merge.SplitBatch | internal/collector/merge.go:148-168 | two indexed merges, each with its own index, equal one, in snapshot and in count |
| Merge.ApplyAmounts | internal/collector/merge.go:170-201 | closed form: last non-empty name and path win on the last process of each identifier, newcomers follow in first-seen order with their first command line, connections are appended in order, all else is untouched |
| Merge.ConnectionAt | internal/collector/merge.go:195-223 | each connect event is found in its place with its address, port and the name of its family |
| ConnTrack.Tracker.PruneBucket | internal/collector/conntrack.go:109-118 | the loop drops the leading timestamps before the cutoff |
| ConnTrack.Tracker.Record | internal/collector/conntrack.go:40-50 | appends and prunes one bucket, no other |
| ConnTrack.Tracker.ComputeStats | internal/collector/conntrack.go:120-135 | count, ends and truncated average gap; an empty bucket panics |
| ConnTrack.Tracker.GetStats | internal/collector/conntrack.go:53-63 | prunes the bucket and reports it |
| ConnTrack.Tracker.CheckBeacon | internal/collector/conntrack.go:82-94 | the comparisons in order, or the panic |
| ConnTrack.Tracker.Cleanup | internal/collector/conntrack.go:97-107 | the deleting loop leaves exactly the pruned non-empty buckets |
| ConnTrack.QuerySeesWindow | internal/collector/conntrack.go:40-63 | in every run with a clock that never goes back, a query sees exactly the full recorded history filtered to the window |
| ConnTrack.BucketIffTracked | internal/collector/conntrack.go:97-107 | an address has a bucket iff it was recorded and no later clean-up found its whole history out of the window |
| ConnTrack.BeaconIff | internal/collector/conntrack.go:82-94 | in every run, a beacon iff both bounds are positive, there are enough and at least two connections in the window, and their span fits the bounds times the number of gaps; a panic iff there is a bucket and none in the window |
| ConnTrack.StatsInRun | internal/collector/conntrack.go:53-63 | in every run a query reports number, first and last of the connections in the window and the truncated mean gap, nothing for an address without a bucket, and panics otherwise |
| ConnTrack.StatsPanics | internal/collector/conntrack.go:53-63 | a query panics iff the address was recorded, its whole history has left the window, and no clean-up has found it so |
| ConnTrack.StatsPanicExample | internal/collector/conntrack.go:53-63 | one connection and a query just after the window panics, for every window |

## Left out

- LogRun.RunFaultsLocalised: assumes callers leave the integrity fields of an event unset, as every call in the repository does, and one key for the whole run.
- LogWriter.Logger.Write: an append writes the whole line or nothing; partial appends appear only as torn files handed to the verifier. Filling in schema version, timestamp and host is not modelled.
- LogWriter.Logger.RotateIfNeeded: removing the oldest backup and renaming the others always succeed; the source ignores their failures (event.go:238-245). File sizes count characters where the source counts bytes.
- VerifyLog.Verify: the constant fields of the report and message texts are not modelled.
- LogDisk.FilesAreHistory: backup suffixes that parse as a number but are not written plainly (`.01`, `.+1`) and directory read errors are not modelled.
- LogRun.RecoverMeaning: the line scanner reads the same lines as the streaming decoder, which holds for files the logger writes.
- Anchor.HonestRunsAgree: fewer than 2^64 chained writes.
- Anchor.Pusher.Push: the file mirror only; the HTTP backend is not modelled.
- Witness.CanonicalIff: scalars and lists inside tables are text that survives as it is; structs and maps inside them are one level deep, as the result of a response is. Numbers beyond 2^53 are not modelled.
- Suppressor.EvictionInvisible: tokens are real numbers, time differences do not saturate, and calls are atomic with a clock that never goes back (the source reads it before taking the lock); floating-point rounding and the bucket pointers shared with SaveState are not modelled. Agent.Init reloads saved state before every pass, so calls between a save and the next load are forgotten; the theorems are about one suppressor.
- KillTree.KillProcessTree: reading /proc, pidfd signals and the identity check are outcomes supplied per process.
- FakeLoader.DeliveryAndWakeUp: a value model of the interleaved steps, without Go objects or a scheduler; fairness, the error channel and the pause between events are not modelled.
- Policy.EvaluateAll: matchers, clock parsing and time windows are supplied by the context.
- Policy.Validate: the schema, process-access and self-protection checks and the warnings are not modelled.
- ConnTrack.QuerySeesWindow: AllStats is not modelled; it prunes and skips empty buckets.
- HTTP handlers, edrctl, dashboard, metrics, webhooks, email and syslog: plumbing and formatting.
- eBPF probes and the libbpf loader, event parsing, procfs, inotify, fanotify, nft and quarantine: kernel interfaces and system calls.
- Agent goroutines and shutdown order.
