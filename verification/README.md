# Stonehush in Dafny

Stonehush is a local control plane and a runner that executes scans under leases. This
project models the parts of it that are hardest to get right and proves what they
promise. `dafny verify dfyconfig.toml` checks everything.

## What is modelled

`Wrappers` holds the option type that several modules use.

**Redaction and capture** (`Bytes`, `RedactionReference`, `RedactionStream`,
`RedactionProof`, `RedactionTurns`, `RedactionLimits`, `RedactionMeaning`, `Redactor`,
`BoundedOutput`, `OutputCapture`). The reference is one recursive pass over all bytes, and
`RedactionMeaning` says in literal bytes what comes out of it. The streaming
redactor, with its stash, discard mode and 64 KiB limit, is shown to compute it. The
design (docs/architecture/0002-actions-runs-runner-trust.md, line 189) promises the same
output for any chunking; the code does not keep that promise for all configurations, and
`ExactCondition` says for exactly which ones it does. The runner itself configures one
secret of at least 22 bytes, which is always safe. The collector and the process supervisor
are objects on top of it.

**Leases** (`LeaseModel`, `LeaseInvariant`, `LeaseSafety`, `LeaseProgress`,
`HeartbeatLoop`). One run, the control plane, any number of runner attempts and a network of messages that stay
deliverable forever (so they may be lost, late or repeated) are a state machine. The
invariant ties the runner's deadline to the stored expiry through the first send time of
the pending heartbeat. The theorems are about every state of every run.

**Canonical JSON and command digests** (`Unicode`, `JsonText`, `JsonReader`,
`ObjectGraph`, `CanonicalSerializer`, `DigestProjection`, `CommandDigest`,
`CommandPreparation`). Object graphs may be shared or cyclic; what a value stands for is its finite unfolding. The digest
projections are shown to be restrictions to a shape, for which idempotence and the
kernel are proved once.

**Outbox and idempotent commands** (`Outbox`, `OutboxProtocol`). Durable files, torn
writes, crashes, repeated messages and the control plane's stored responses.

**Cursors, paging and search** (`Base64Url`, `RunHistoryCursor`, `RunHistoryPaging`,
`Utf8Text`, `OutputSearch`). RFC 4648 sections 4 and 5, RFC 3629 sections 3 and 4.

**Import** (`BundleImport`, `AttachmentOrder`, `ImportedRows`, `ImportMeaning`,
`BundleImporter`). Tables are sets of rows; any operation may fail. `ImportedRows` makes the
rows a bundle stands for and `ImportMeaning` says what they are, column by column; the
importer, step by step, is shown to add exactly those or nothing.

**Addresses** (`AdvisorAddress`). RFC 4291 sections 2.2 and 2.5.5.2.

## Findings

Where the code and its own comments or documentation disagree the model follows the code:

- Redaction depends on chunk boundaries when one secret begins another or, ignoring case,
  a credential prefix, and when a read is larger than 65,546 bytes (`ExactCondition`).
- Commands other than grants give up their outbox entry with any response and can be
  applied twice under two keys (`AtMostOnceExactly`).
- A byte order mark at the start of an artifact shifts every reported search offset by
  three bytes (`OffsetExactly`).
- Attachments with repeated ids, which the schema accepts, are lost in an import without an
  error exactly when they differ in depth (`OrderedExactly`, `RepeatedIdDropped`); attempts
  of leads with repeated ids all hang under the last of them (`AttemptsUnderTheirLeads`).
- A command whose declared values are nested more than 31 deep, hold an unpaired surrogate
  or print to more than 1,048,576 bytes passes the request schemas and has no digest on
  either side (`SendableExactly`, `DeepPayloadRefused`, `LoneSurrogateRefused`).
- Groups 2 and 3 of an IPv6 address are not looked at when it is taken for a mapped one, so
  some addresses that are not mapped are classed private (`PrivateExactly`).
- Paging stops at a run whose cursor is longer than 1,024 characters (`EveryRunOnce`).
- A started run is never handed out again: expiry after the start fails the run, so at
  most one attempt ever executes it (`SoleExecutor`).

## Model

| member | source | states |
|---|---|---|
| `RedactionTurns.StreamIsReference` | apps/runner/src/redaction.ts:89-343 | Whatever the chunk boundaries, the concatenated outputs of the pushes and the flush, and the oversize flag, are those of one pass over all bytes with no stash, no discard mode and no value limit, for configured secrets that are not beginnings of one another and chunks of at most 65,546 bytes |
| `RedactionLimits.ExactCondition` | apps/runner/src/redaction.ts:89-343 | The condition above is exact: for every configuration of secrets and every chunk size, chunk boundaries never show if and only if the secrets are safe and chunks are at most 65,546 bytes |
| `RedactionTurns.OneLongSecretIsSafe` | apps/runner/src/config.ts:56 | The runner's own configuration, one secret of at least 22 bytes, and reads of at most 64 KiB meet the condition |
| `RedactionLimits.UnsafeSecretsDiffer` | apps/runner/src/redaction.ts:285-290 | Every unsafe configuration has a sequence of one-byte reads on which streaming and one pass differ, because the first full match is committed at once |
| `RedactionLimits.LargeChunksDiffer` | apps/runner/src/redaction.ts:266-333 | Two reads of 65,544 and 65,547 bytes after which the last byte of a withheld value is emitted by the fallback at the end of input |
| `RedactionProof.ProcessAgrees` | apps/runner/src/redaction.ts:103-306 | One call, from any stash and discard mode, emits exactly what the one-pass redaction of stash and future bytes begins with, and leaves a state that owes the rest |
| `RedactionProof.FlushAgrees` | apps/runner/src/redaction.ts:317-335 | The final call emits exactly what was still owed, leaves nothing behind and ends discarding |
| `RedactionTurns.TurnsAreFaithful` | apps/runner/src/redaction.ts:174-300 | Every turn of the loop treats the bytes it uses as the one-pass redaction would, whatever bytes follow |
| `RedactionTurns.StashStaysBounded` | apps/runner/src/redaction.ts:309-338 | After any reads of at most 65,546 bytes, and with any secrets, at most 65,552 bytes are buffered, at most one read's worth while a value is dropped, and the fallback of the flush has nothing to emit |
| `RedactionReference.LongestSecretIsGreatest` | apps/runner/src/redaction.ts:47-55 | The match is the longest configured secret at the start, whatever order the secrets are in |
| `RedactionReference.CredentialIs` | apps/runner/src/redaction.ts:82-87 | At most one credential prefix matches, so the order they are tried in does not matter |
| `RedactionReference.CredentialAppears` | apps/runner/src/redaction.ts:64-80 | A credential prefix that only appears with more bytes was partly there before, so the loop waits for it |
| `RedactionMeaning.ReferenceRedacts` | apps/runner/src/redaction.ts:82-300 | The one-pass redaction is exactly what rules in literal bytes describe: four credential prefixes in any case, values between equal quotes or up to one of five break bytes, the longest configured secret, and every other byte as it is; there is no other output |
| `RedactionMeaning.QuotedRedacted` | apps/runner/src/redaction.ts:187-206 | After a credential prefix in any case, a value between two 0x22 or two 0x27 is replaced and both quotes stay, whatever else it holds; the redaction of the rest follows |
| `RedactionMeaning.UnquotedRedacted` | apps/runner/src/redaction.ts:30-32 | A value that begins with no quote is replaced up to the 0x20, 0x09, 0x0d, 0x0a or 0x00 after it, which stays; the redaction of the rest follows |
| `RedactionMeaning.CredentialFound` | apps/runner/src/redaction.ts:19-27 | Input that begins with one of the four prefixes, byte by byte and in any case, is found to |
| `RedactionMeaning.StreamRedacts` | apps/runner/src/redaction.ts:89-343 | The same rules describe the stream, wherever reads of at most 65,546 bytes are cut, for safe secrets |
| `RedactionMeaning.StreamHidesQuoted` | apps/runner/src/redaction.ts:187-206 | In the stream a quoted credential is replaced wherever the reads are cut, and the stream of what follows it comes next |
| `RedactionMeaning.StreamHidesUnquoted` | apps/runner/src/redaction.ts:30-32 | The same for an unquoted credential |
| `Redactor.Kept` | apps/runner/src/redaction.ts:93-97 | The secrets that are used: those that are not empty and at most 64 KiB |
| `Redactor.FindEnd` | apps/runner/src/redaction.ts:110-116 | The scan for the delimiter or quote that ends a value, up to its limit |
| `Redactor.Redactor.FindLongestSecretAtStart` | apps/runner/src/redaction.ts:47-55 | The scan over the secrets finds the length of the longest match |
| `Redactor.Redactor.CredentialStep` | apps/runner/src/redaction.ts:178-191 | Waits, finishes or goes on to the value, for a credential prefix at the current position |
| `Redactor.Redactor.ValueStep` | apps/runner/src/redaction.ts:191-282 | What one credential value becomes: emitted when it ends, kept waiting, dropped when oversize, or finished at the end of input |
| `Redactor.Redactor.SkipValue` | apps/runner/src/redaction.ts:108-172 | Drops the rest of an oversize value up to what ends it |
| `Redactor.Redactor.ScanLoop` | apps/runner/src/redaction.ts:174-300 | The loop refines the recursive turn-by-turn description of a call |
| `Redactor.Redactor.ProcessChunk` | apps/runner/src/redaction.ts:103-306 | New stash, discard mode, oversize count and output of one call |
| `Redactor.Redactor.Push` | apps/runner/src/redaction.ts:309-316 | The object's state and output after a push are those of the streaming specification |
| `Redactor.Redactor.Flush` | apps/runner/src/redaction.ts:317-335 | The same for the end of input, including the fallback |
| `Redactor.Redactor.BufferedBytes` | apps/runner/src/redaction.ts:336-338 | What a caller sees buffered after any reads of at most 65,546 bytes is at most 65,552 bytes, and at most one such read while a value is dropped |
| `BoundedOutput.BoundedCollector.Push` | apps/runner/src/bounded-output.ts:27-46 | The collector holds the first `limit` of all bytes produced and counts the rest |
| `BoundedOutput.BoundedCollector.Combined` | apps/runner/src/bounded-output.ts:48-50 | Returns exactly the first `limit` bytes produced |
| `BoundedOutput.BoundedCollector.Meta` | apps/runner/src/bounded-output.ts:52-62 | Produced is retained plus dropped, truncated exactly when more than `limit` was produced, the first dropped offset is then the limit |
| `RedactionTurns.FedStreams` | apps/runner/src/process.ts:204-211 | Redacting read by read is the streaming redaction of the whole sequence of reads |
| `OutputCapture.Channel.OnData` | apps/runner/src/process.ts:204-211 | A read is redacted and collected |
| `OutputCapture.Channel.Finish` | apps/runner/src/process.ts:217-228 | Flushing the tail completes the first 16 MiB of the redaction of everything read, with matching metadata |
| `OutputCapture.CapturesReference` | apps/runner/src/process.ts:204-233 | For safe secrets and reads of at most 65,546 bytes the settled bytes are the first 16 MiB of the one-pass redaction of all bytes read, and the metadata counts it |
| `OutputCapture.SupervisedProcess.SettleResult` | apps/runner/src/process.ts:214-233 | Settles once, from everything read so far; later calls change nothing |
| `OutputCapture.SupervisedProcess.DoCancel` | apps/runner/src/process.ts:234-239 | Cancellation work starts at most once |
| `OutputCapture.SupervisedProcess.FinishCancellation` | apps/runner/src/process.ts:240-269 | The end of the work settles an unsettled result; cleanup failed exactly when a signal was refused or the group outlived the last wait |
| `OutputCapture.SupervisedProcess.OnClose` | apps/runner/src/process.ts:274-277 | A close settles the result with its exit code and no cleanup failure, unless cancellation is at work |
| `OutputCapture.AfterTraces` | apps/runner/src/process.ts:213-277 | Where a run stands is determined by the first event that can settle it |
| `OutputCapture.SettlesExactly` | apps/runner/src/process.ts:213-277 | The result can settle at a close that no cancellation work is under way for and at the first end of that work after a cancel, and at nothing else |
| `OutputCapture.Supervise` | apps/runner/src/process.ts:213-278 | Over any order of reads, cancels, end of cancellation and close, the result settles at the first event that can settle it, with what both streams had written by then, that event's exit code and whether the cleanup it ended failed, and never changes |
| `LeaseSafety.CoveredExactly` | apps/runner/src/runner.ts:386-455 | In every reachable state the runner's deadline is covered by the expiry the control plane stores, through lost, delayed and repeated messages, if and only if the configured lease is at most 30 s |
| `LeaseSafety.LongLeaseUncovered` | apps/runner/src/runner.ts:409 | A longer configured lease outlives the stored one as soon as the run is started |
| `LeaseInvariant.RunKeeps` | apps/runner/src/runner.ts:386-455 | The invariant tying heartbeat sequence, first send time and stored expiry holds in every state of every run |
| `LeaseInvariant.AnswerKeeps` | apps/runner/src/runner.ts:436-445 | An answer, fresh or a stored replay, moves the deadline only to a moment the stored lease covers |
| `LeaseInvariant.StoreHeartbeatKeeps` | packages/db/src/run.ts:660-747 | Accepting or replaying a heartbeat keeps the invariant |
| `LeaseInvariant.GrantKeeps` | packages/db/src/run.ts:532-617 | A new lease is granted only after every earlier one has run out |
| `LeaseSafety.SoleExecutor` | packages/domain/src/runner-control.ts:217-265 | Over a whole run, whatever expires, crashes or is lost, at most one attempt ever becomes the executor |
| `LeaseSafety.SingleAuthority` | apps/runner/src/runner.ts:483-487 | No two attempts both see authority held, and one that does has more than 7 s of stored lease left |
| `LeaseSafety.LostForever` | apps/runner/src/runner.ts:425-455 | Authority once lost stays lost: no late answer moves the deadline of an attempt that saw it |
| `LeaseSafety.CancelWins` | packages/domain/src/runner-control.ts:26-39 | A run whose cancel was committed never ends succeeded |
| `LeaseSafety.TransitionsAllowed` | packages/domain/src/runner-control.ts:26-39 | Every change of the run's state by any step is one of the twelve permitted pairs |
| `LeaseSafety.CancelSeenWasCommitted` | packages/db/src/run.ts:672-674 | An attempt that sees a cancel requested sees one that was committed, also through replayed answers |
| `LeaseSafety.TerminalStays` | packages/db/src/run.ts:988-1004 | A finished run stays as it is |
| `LeaseSafety.CompletionOrigin` | apps/runner/src/runner.ts:515-533 | A success or a cancellation is only ever sent at a moment when the attempt saw its authority held, at the stage where its evidence is published |
| `LeaseSafety.SuccessSent` | apps/runner/src/runner.ts:525-549 | Every success that is sent, accepted or not, is that of a tool that succeeded while authority was held and no cancel was seen, with its evidence published in between and authority held again |
| `LeaseSafety.CancellationSent` | apps/runner/src/runner.ts:497-549 | Every cancellation that is sent, accepted or not, was noticed under authority, followed a cleanup that did not fail, and had its evidence published: after the cleanup, or before the result was refused when the cancel came in then |
| `LeaseSafety.SucceededWhy` | apps/runner/src/runner.ts:525-549 | A run ended succeeded only because its tool succeeded under authority with no cancel seen, its evidence was published and it was reported under authority; it was accepted while that lease was in force, and was never cancelled |
| `LeaseSafety.CancelledWhy` | apps/runner/src/runner.ts:497-549 | A cancel that was requested ends cancelled only after a cleanup that did not fail and with the evidence published, with authority when it was noticed, when cleanup ended and when it was reported |
| `LeaseProgress.OutcomeReported` | apps/runner/src/runner.ts:688-712 | A tool that ended under authority with no cancel seen has its own outcome sent, once its evidence is published and authority is still held: succeeded exactly when the tool succeeded, failed otherwise |
| `LeaseProgress.CancelReported` | apps/runner/src/runner.ts:497-549 | A cancel seen under authority is acknowledged once the tool is stopped and the evidence published, if the cleanup went well and authority is still held; otherwise the run is reported failed |
| `LeaseProgress.FailureReported` | apps/runner/src/runner.ts:635-651 | Where authority is found lost, the tool could not run, or publishing failed, failure is sent and the attempt is over |
| `LeaseProgress.HeartbeatJudged` | packages/db/src/run.ts:676-747 | A new heartbeat is accepted exactly when its lease is in force and has not run out, and refused as stale or expired otherwise; an accepted one is replayed, an older one refused |
| `LeaseProgress.RefusalEndsAuthority` | apps/runner/src/runner.ts:446-452 | Exactly the codes stale_fence, lease_expired and lease_owner_mismatch and the statuses 401 and 403 end authority; other failures of a heartbeat leave it |
| `LeaseProgress.CompletionTaken` | packages/db/src/run.ts:966-1080 | A completion is taken exactly from the lease in force, before it runs out, and for these pairs of state and end |
| `LeaseProgress.OutOfForce` | packages/db/src/run.ts:378-399 | A lease that is out of force never comes back into force, in any run |
| `LeaseProgress.FencesFit` | packages/domain/src/runner-control.ts:75-90 | Fences stay signed 64-bit numbers in every run |
| `LeaseProgress.RunSucceeds` | apps/runner/src/runner.ts:688-712 | A run, step by step from the start, that ends succeeded |
| `LeaseProgress.RunCancelled` | apps/runner/src/runner.ts:497-549 | A run whose cancel is seen with the next heartbeat and that ends cancelled |
| `LeaseProgress.RunRequeued` | packages/domain/src/runner-control.ts:217-265 | A lease that was not started in 30 s expires and the run is leased again under the next fence |
| `LeaseProgress.RunLost` | packages/domain/src/runner-control.ts:217-265 | A started run whose lease ran out ends failed |
| `HeartbeatLoop.HeartbeatLoop.constructor` | apps/runner/src/runner.ts:409-424 | The bookkeeping starts from the time the lease was asked for |
| `HeartbeatLoop.HeartbeatLoop.PollHeartbeat` | apps/runner/src/runner.ts:425-435 | When a heartbeat is sent, with which sequence and which send time |
| `HeartbeatLoop.HeartbeatLoop.OnAnswer` | apps/runner/src/runner.ts:436-445 | What an answer changes, or that it is refused when authority is already lost |
| `HeartbeatLoop.HeartbeatLoop.OnFailure` | apps/runner/src/runner.ts:446-453 | Which failures end authority |
| `HeartbeatLoop.HeartbeatLoop.IsAuthorityLost` | apps/runner/src/runner.ts:483-487 | The runner's test of its own authority |
| `HeartbeatLoop.RetryKeepsFirstSend` | apps/runner/src/runner.ts:431-443 | However often a heartbeat is retried, its deadline is dated from its first send |
| `CanonicalSerializer.CanonicalizeJson` | packages/contracts/src/operator-command.ts:195-213 | On any finite object graph, shared or cyclic: succeeds exactly when the value unfolds to a tree at most 32 containers deep whose canonical text is at most 1,048,576 bytes, and then returns that text; a reported error names a fault that stands on a path from the root |
| `CanonicalSerializer.Serializer.Serialize` | packages/contracts/src/operator-command.ts:90-193 | Leaves the set of active objects as it found it, and succeeds exactly on what has a canonical text within the remaining depth |
| `CanonicalSerializer.Serializer.SerializeNode` | packages/contracts/src/operator-command.ts:122-192 | The same for one object already marked as active |
| `CanonicalSerializer.Serializer.SerializeElements` | packages/contracts/src/operator-command.ts:142-158 | The loop over array elements |
| `CanonicalSerializer.Serializer.SerializeMembers` | packages/contracts/src/operator-command.ts:177-188 | The loop over sorted members |
| `CanonicalSerializer.SortKeys` | packages/contracts/src/operator-command.ts:178 | The loops sort the keys; different keys come out in ascending order of code units, all of them and no others |
| `CanonicalSerializer.FaultRefuses` | packages/contracts/src/operator-command.ts:90-213 | Every reason given for a failure is a good one: where a value below the root has a fault of that code, on whatever path, there is no canonical text within the limits |
| `ObjectGraph.CycleDenotesNothing` | packages/contracts/src/operator-command.ts:115-121 | An object that can be reached from itself has no tree at any depth, so refusing active objects is right |
| `ObjectGraph.DenotesOne` | packages/contracts/src/operator-command.ts:90-193 | A value unfolds to at most one tree |
| `ObjectGraph.LongArraysAreLong` | packages/contracts/src/operator-command.ts:139-141 | The array-length check rejects only values whose text would be too long anyway |
| `JsonReader.RoundTrip` | packages/contracts/src/operator-command.ts:90-193 | Reading a canonical text gives back the value, objects as key maps |
| `JsonReader.CanonicalInjective` | packages/contracts/src/operator-command.ts:195-213 | Two values share a canonical text exactly when they are equal up to the order of members |
| `JsonReader.ValueReads` | packages/contracts/src/operator-command.ts:90-193 | The canonical text of a value reads back whatever follows it |
| `JsonReader.CharsRead` | packages/contracts/src/operator-command.ts:104-110 | Escaped strings read back |
| `JsonReader.NumberReads` | packages/contracts/src/operator-command.ts:97-103 | Printed integers read back |
| `JsonText.LessIs` | packages/contracts/src/operator-command.ts:178 | The comparison of keys: at the first place two texts differ, the smaller UTF-16 code unit or the end of the text comes first |
| `JsonText.SortedAscends` | packages/contracts/src/operator-command.ts:178 | Sorted keys ascend in that order and are the same keys |
| `JsonText.AscendingUnique` | packages/contracts/src/operator-command.ts:178 | Only one ascending order exists, so the text does not depend on insertion order |
| `JsonText.Escapes` | packages/contracts/src/operator-command.ts:104-110 | How every code unit is written: two-character escapes, four lower-case hexadecimal digits for other controls, itself |
| `JsonText.Members` | packages/contracts/src/operator-command.ts:177-193 | Braces, quoted keys, colons and a comma around the canonical texts of any two values, the lesser key first whichever was added first |
| `Unicode.HasUnpairedSurrogate` | packages/contracts/src/operator-command.ts:55-67 | The scan with its skips finds an unpaired surrogate exactly when there is one |
| `Unicode.PairedExactly` | packages/contracts/src/operator-command.ts:55-67 | A string is free of unpaired surrogates exactly when it is the UTF-16 form of some scalar values |
| `Unicode.Utf8ByteLength` | packages/contracts/src/operator-command.ts:69-83 | The loop over code points adds up their byte lengths |
| `Unicode.Utf8LengthIs` | packages/contracts/src/operator-command.ts:69-83 | That sum is the length of the UTF-8 encoding |
| `Outbox.OutboxDirectory.LoadEntry` | apps/runner/src/outbox.ts:96-118 | Only whole files are entries |
| `Outbox.OutboxDirectory.FindExisting` | apps/runner/src/outbox.ts:120-144 | The scan finds an entry of the request exactly when the directory holds one, in any listing order |
| `Outbox.OutboxDirectory.GetOrCreate` | apps/runner/src/outbox.ts:154-181 | Reuses the entry of the request or adds one under the fresh key, so no request has two |
| `Outbox.OutboxDirectory.GrantPhase` | apps/runner/src/evidence-client.ts:107-195 | The entry is kept on transport failure, refusal, unreadable or mismatched reply and removed exactly on a matching one; no other entry changes |
| `OutboxProtocol.StepKeeps` | apps/runner/src/outbox.ts:75-181 | Every step of runner, control plane and network, crashes and torn writes included, keeps the invariant |
| `OutboxProtocol.NeverConflicts` | packages/db/src/operator-command.ts:94-130 | The control plane never answers idempotency_conflict: a stored command under a message's key carries the message's digest, so its own response is replayed |
| `OutboxProtocol.KeysNameOneRequest` | apps/runner/src/outbox.ts:120-181 | In every run no key is sent with two requests, no answer is a conflict and no request has two live entries |
| `OutboxProtocol.AtMostOnceExactly` | apps/runner/src/evidence-client.ts:107-195 | Between two removals of its entry a request is applied at most once in every run, if and only if it is a grant |
| `OutboxProtocol.GrantsOnce` | apps/runner/src/evidence-client.ts:134-190 | Grants are applied at most once before their entry is removed |
| `OutboxProtocol.FirstAnswered` | packages/db/src/operator-command.ts:132-165 | The first time a request is handled under a key its digest and what came of it are stored, and that is the answer |
| `OutboxProtocol.RepliesAgree` | packages/db/src/operator-command.ts:107-130 | All answers from a stored response are the same in every run, a success exactly when the stored response is one; an answer nothing was stored for is never a success |
| `OutboxProtocol.RemovedSucceeded` | apps/runner/src/evidence-client.ts:134-190 | In every run the entry of a grant is only removed once a success with the grant's digest is stored for it |
| `OutboxProtocol.RepeatedWithoutGrant` | apps/runner/src/runner.ts:281-297 | A run in which a command that drops its entry with any response is applied twice |
| `DigestProjection.RestrictKernel` | packages/contracts/src/command-json-v1-digest.ts:24-63 | Two values have the same projection exactly when they agree on every declared field at every level, absent and null being the same for defaulted fields |
| `DigestProjection.RestrictIdempotent` | packages/contracts/src/command-json-v1-digest.ts:24-63 | Projecting twice is projecting once, for every JSON value and at every level |
| `DigestProjection.ProjectObjectIs` | packages/contracts/src/command-json-v1-digest.ts:24-38 | Object projection keeps the declared fields and fills in defaults |
| `DigestProjection.UrlHostIs` | packages/contracts/src/command-json-v1-digest.ts:244-265 | The three ways of projecting a host come to the same |
| `DigestProjection.UrlOriginIs` | packages/contracts/src/command-json-v1-digest.ts:267-274 | Origins, with their host inside |
| `DigestProjection.PortRangesIs` | packages/contracts/src/command-json-v1-digest.ts:276-280 | Port ranges, item by item |
| `DigestProjection.SavedScopeRuleIs` | packages/contracts/src/command-json-v1-digest.ts:282-345 | Each kind of scope rule keeps the fields of its kind and projects its target or origin and port ranges |
| `DigestProjection.RulesBodyIs` | packages/contracts/src/command-json-v1-digest.ts:347-358 | Bodies with rules project every rule |
| `DigestProjection.AddressCounts` | packages/contracts/src/command-json-v1-digest.ts:165-204 | Two IP, CIDR or domain targets, or two hosts, come to the same exactly when they agree on the fields named here |
| `DigestProjection.RuleCounts` | packages/contracts/src/command-json-v1-digest.ts:212-345 | Two rules of a kind come to the same exactly when they agree on id, kind, the fields of that kind, what they apply to and the port ranges |
| `DigestProjection.PartsCount` | packages/contracts/src/command-json-v1-digest.ts:160-210 | Two port ranges, or two origins, come to the same exactly when they agree on the fields named here |
| `CommandDigest.DigestsAgree` | apps/api/src/operator-command.ts:50-86 | The control plane accepts a command and computes the runner's digest input exactly when key, route and operation are well formed, it received the same command up to undeclared fields, and the command is one the runner could send |
| `CommandDigest.SendableExactly` | apps/runner/src/outbox.ts:54-71 | The runner has a digest for a command exactly when its texts and declared values are free of unpaired surrogates, those values hold at most 31 containers inside one another and the envelope's text is at most 1,048,576 bytes |
| `CommandDigest.PreparedExactly` | apps/api/src/operator-command.ts:50-86 | In literal terms, which keys, routes, operations and envelopes have a digest input |
| `CommandDigest.DeepPayloadRefused` | packages/contracts/src/runner-api.ts:195-201 | A start event's payload may have any form, but one nested more than 30 deep has no digest on either side, whatever else the body holds |
| `CommandDigest.LoneSurrogateRefused` | packages/contracts/src/engagement.ts:87-96 | A new engagement whose description holds an unpaired surrogate has no digest on either side, whatever else the body holds |
| `CommandDigest.CommandsUsable` | packages/contracts/src/command-json-v1-digest.ts:383-443 | The projections of the runner's commands, of new engagements and of scope changes meet the condition of the digest theorems |
| `CommandDigest.PathsCount` | packages/contracts/src/command-json-v1-digest.ts:383-443 | Which path parameters a command's digest depends on; no query parameter counts |
| `CommandDigest.RunnerBodiesCount` | packages/contracts/src/command-json-v1-digest.ts:508-573 | Which fields of a start, a completion and a grant count: bodies that agree on these have the same digest, and no others |
| `CommandDigest.EngagementBodiesCount` | packages/contracts/src/command-json-v1-digest.ts:79-131 | The same for a new engagement, where two fields count as null when absent, and for changes of the scope, where every rule counts |
| `CommandPreparation.PrepareActorCommand` | apps/api/src/operator-command.ts:50-86 | Checks key, route and operation, builds the envelope object and returns its canonical text exactly when there is one |
| `CommandPreparation.CanonicalizeEnvelope` | apps/runner/src/outbox.ts:62-71 | The envelope, as one more object of the graph its values live in, has a canonical text exactly when its value is canonicalizable |
| `CanonicalSerializer.PlainExactly` | packages/contracts/src/operator-command.ts:195-213 | For a plain value, such as a parsed request, canonicalizing succeeds exactly when it is at most 32 containers deep, holds no unpaired surrogate and its text is at most 1,048,576 bytes, and what is printed is that value |
| `CommandDigest.ProjectedTwice` | packages/contracts/src/command-json-v1-digest.ts:360-369 | A projected command projects to itself |
| `CommandDigest.EnvelopeInjective` | apps/runner/src/outbox.ts:62-70 | Different commands have different envelopes |
| `Base64Url.BytesToBase64Url` | packages/contracts/src/run-history.ts:63-67 | Platform Base64 with its characters translated and its padding dropped is the URL form |
| `Base64Url.Base64UrlToBytes` | packages/contracts/src/run-history.ts:69-80 | Translating back, padding and decoding gives the bytes of the URL form, or fails on impossible lengths and characters |
| `Base64Url.EncodedDecodes` | packages/contracts/src/run-history.ts:63-80 | Decoding inverts encoding |
| `RunHistoryCursor.CursorRoundTrip` | packages/contracts/src/run-history.ts:82-133 | Decoding an encoded cursor gives it back exactly for the valid ones that fit 1,024 characters |
| `RunHistoryCursor.ReencodesExactly` | packages/contracts/src/run-history.ts:107-118 | Only the canonical spelling of UTF-8 text without a byte order mark passes the re-encoding check |
| `RunHistoryCursor.OneSpelling` | packages/contracts/src/run-history.ts:96-133 | Accepted cursors with the same payload text are the same cursor |
| `RunHistoryCursor.AcceptedForOne` | packages/contracts/src/run-history.ts:120-133 | Whatever text is accepted is a valid cursor of the engagement it is accepted for, and no other engagement accepts it |
| `RunHistoryCursor.PayloadReads` | packages/contracts/src/run-history.ts:87-93 | The payload's text reads back to its four members, whatever characters the ids hold |
| `RunHistoryPaging.NewestFirstLists` | packages/db/src/run-output.ts:163-186 | The listing holds every key once, newest first with the id breaking ties |
| `RunHistoryPaging.AfterFirst` | packages/db/src/run-output.ts:163-186 | What is left after a page are the runs older than its last one |
| `RunHistoryPaging.PageIs` | apps/api/src/run-history-routes.ts:43-98 | A page is the first of the runs older than the cursor, at most `limit`, and names its last one exactly when there are more; older means an earlier time, or the same time and a lesser id, as texts |
| `RunHistoryPaging.EveryRunOnce` | apps/api/src/run-history-routes.ts:43-98 | While newer runs arrive and states change, following nextCursor ends, within one request more than there are full pages, exactly when the cursor of every run that ends a page fits 1,024 characters; it then has listed every run present at the start exactly once, newest first |
| `RunHistoryPaging.NoRunMissed` | apps/api/src/run-history-routes.ts:43-98 | With runs added anywhere, a walk that reaches the end missed no run that was there throughout and lists in order |
| `Utf8Text.CompleteUtf8Prefix` | apps/api/src/excerpt-routes.ts:200-218 | The result is a valid UTF-8 prefix of the input: the longest one when at most three bytes follow it, else nothing |
| `Utf8Text.TrimmedExactly` | apps/api/src/excerpt-routes.ts:200-218 | Exactly when the result is the longest valid prefix of arbitrary bytes |
| `Utf8Text.TrimCut` | apps/api/src/excerpt-routes.ts:200-218 | A valid text cut at any byte is trimmed to its longest valid prefix and loses at most three bytes |
| `Utf8Text.ValidExactly` | apps/api/src/excerpt-routes.ts:191-192 | Strict decoding accepts exactly the encodings of scalar values |
| `OutputSearch.ReadPrefix` | apps/api/src/excerpt-routes.ts:543-556 | Reads the first bytes up to the budget, or fails when the stream breaks off before |
| `OutputSearch.LocateHits` | apps/api/src/excerpt-routes.ts:572-584 | The offsets added up hit by hit are the UTF-8 lengths of the text before each hit |
| `OutputSearch.ScanCandidate` | apps/api/src/excerpt-routes.ts:515-571 | One artifact: unavailable exactly when it is missing or breaks off within the budget, out of budget, or searched to the last whole character within the budget, with every hit found there in order |
| `OutputSearch.SearchOutput` | apps/api/src/excerpt-routes.ts:493-642 | At most eight artifacts, 262,144 bytes and `limit` matches; the unavailable ones are exactly those that are gone or break off; the scan counts as capped exactly when there are more than eight, one was not searched to its end, or the bytes ran out; the matches are exactly the hits found in what was searched of each artifact in turn, as many as there is room left for; when neither capped nor full, every eligible artifact is empty, unavailable or searched to its last byte |
| `OutputSearch.ReportedLocated` | apps/api/src/excerpt-routes.ts:571-625 | Every match reported is located in the text that was searched |
| `OutputSearch.OffsetIs` | apps/api/src/excerpt-routes.ts:571-584 | The bytes at a match's offset, counted after a byte order mark, encode the matched text |
| `OutputSearch.OffsetExactly` | apps/api/src/excerpt-routes.ts:571-584 | Exactly when a reported offset is the position in the artifact: no leading byte order mark |
| `BundleImporter.ImportWorkspaceBundle` | apps/api/src/workspace-bundle-service.ts:316-610 | A bundle whose bytes are not what it declares changes nothing; a failure of any later operation leaves the database as it was; a success adds exactly the rows of the bundle's records, each with its own id in its table, and what is found again in the evidence; it succeeds exactly when the bundle is intact, has distinct evidence ids, carried leads and artifacts and attachments that can be ordered, and no operation it came to failed |
| `BundleImporter.Importer.Compensate` | apps/api/src/workspace-bundle-service.ts:624-692 | The deletes, table by table, give back exactly the rows from before the import |
| `BundleImporter.Importer.ImportRecords` | apps/api/src/workspace-bundle-service.ts:392-610 | Everything after the engagement is created: a success has written exactly the rows the bundle stands for, and it succeeds exactly when the bundle can be imported and no operation fails; the ledger accounts for every row at every failure point |
| `BundleImporter.Importer.Create` | apps/api/src/workspace-bundle-service.ts:480-505 | A new row of the engagement, and the update that puts it in the state it had |
| `BundleImporter.Importer.ImportEvidence` | apps/api/src/workspace-bundle-service.ts:421-477 | Every file lands under its planned id, which the ledger holds before any row is written, with whatever the projections find in it; fails when an old id is repeated |
| `BundleImporter.Importer.ImportLeads` | apps/api/src/workspace-bundle-service.ts:479-510 | Every lead gets its own row in its disposition, and its old id leads to that row, or to the last one when ids repeat |
| `BundleImporter.Importer.ImportPrivate` | apps/api/src/workspace-bundle-service.ts:730-787 | Every secret with its verifications under it, and every objective in its state |
| `BundleImporter.Importer.ImportFindings` | apps/api/src/workspace-bundle-service.ts:519-533 | Every finding, resolved when it was, with its references to evidence rewritten; the rows are those RowsExactly describes |
| `BundleImporter.Importer.ImportAttempts` | apps/api/src/workspace-bundle-service.ts:535-555 | Every attempt under the new row of its lead, with its finding, objective and evidence; fails exactly when a lead is not carried or an operation fails |
| `BundleImporter.Importer.ImportExcerpts` | apps/api/src/workspace-bundle-service.ts:557-573 | Every excerpt, of the new artifact of its evidence; fails exactly when that is not carried or an operation fails |
| `BundleImporter.Importer.ImportAttachments` | apps/api/src/workspace-bundle-service.ts:581-604 | Every attachment in order, each under the new row of its own parent, which is never missing |
| `BundleImporter.PlanIdRemap` | packages/domain/src/workspace-bundle.ts:88-101 | Plans new ids for old ones, and fails exactly when an old id is repeated |
| `ImportedRows.RemapIs` | packages/domain/src/workspace-bundle.ts:95-100 | A carried id is sent to the new id of its last record, and no other id is sent anywhere |
| `ImportedRows.RemapDistinct` | packages/domain/src/workspace-bundle.ts:95-100 | Without repeated ids every record's old id is sent to its own new id |
| `ImportedRows.StoredSent` | packages/domain/src/workspace-bundle.ts:103-111 | In a list of references each to a carried record becomes its new id, each other one stays, and length and order stay |
| `ImportMeaning.RowsExactly` | apps/api/src/workspace-bundle-service.ts:392-610 | The rows of an import, column by column: exactly one for the engagement, its notes, action and run, every file, lead, secret, verification, objective, finding, attempt, excerpt and ordered attachment, with every reference to a carried record replaced by its new id |
| `ImportedRows.ReferencesResolve` | apps/api/src/workspace-bundle-service.ts:479-604 | Every row of an import refers only to rows of the same import, of the right table; evidence of findings and attempts that is carried is referred to by its new id, other evidence by the id it had |
| `ImportedRows.AttemptsUnderTheirLeads` | apps/api/src/workspace-bundle-service.ts:535-539 | Each attempt hangs under the row of its own lead, the last one with that id |
| `ImportedRows.AttachmentArrives` | apps/api/src/workspace-bundle-service.ts:577-604 | Of the bundle's attachments those have a row that no attachment with the same id is less deep than |
| `ImportedRows.AttachmentUnderParent` | apps/api/src/workspace-bundle-service.ts:583-590 | The row of a child is under the row of an attachment with its parent's id, which was made before it |
| `ImportedRows.MadeInOrder` | apps/api/src/workspace-bundle-service.ts:582-604 | The parents known when an attachment is made are the parents of the finished import |
| `BundleImport.VerifyBundle` | apps/api/src/workspace-bundle-service.ts:340-357 | Every carried byte is checked before the first write |
| `BundleImport.IntactExactly` | apps/api/src/workspace-bundle-service.ts:300-357 | A carried file is taken exactly when its text is the Base64 of some bytes of the declared size whose digest is the declared one, however lenient the decoder |
| `BundleImport.DecodeBoundedExactly` | apps/api/src/workspace-bundle-service.ts:300-314 | Only the canonical Base64 spelling of bytes of the declared size is accepted |
| `BundleImport.DeletingRestores` | apps/api/src/workspace-bundle-service.ts:624-692 | Deleting what the ledger accounts for restores the database |
| `AttachmentOrder.OrderAttachments` | packages/domain/src/workspace-bundle.ts:124-151 | The checks and rounds of the loop compute the order, or the reason there is none |
| `AttachmentOrder.OrderedExactly` | packages/domain/src/workspace-bundle.ts:124-151 | For every bundle: an order is found exactly when all parents are carried and every id has a bearer whose parents end; parents then come first, the attachments in it are those that no namesake is less deep than, and nothing is lost exactly when attachments with the same id have the same depth |
| `AttachmentOrder.DistinctKept` | packages/domain/src/workspace-bundle.ts:124-151 | With distinct ids nothing is lost |
| `AttachmentOrder.RepeatedIdDropped` | packages/domain/src/workspace-bundle.ts:147-148 | A child that shares its id with a parentless attachment is dropped without an error |
| `AdvisorAddress.ExpandIpv6` | apps/api/src/advisor-status-probe.ts:51-78 | The loops and branches expand an address as specified |
| `AdvisorAddress.ParseIpv4Octets` | apps/api/src/advisor-status-probe.ts:21-32 | Four decimal octets without leading zeros |
| `AdvisorAddress.OctetExactly` | apps/api/src/advisor-status-probe.ts:21-32 | An octet is exactly the decimal numeral, without leading zeros, of a number up to 255 |
| `AdvisorAddress.ExpandsToEight` | apps/api/src/advisor-status-probe.ts:51-78 | Every accepted text gives eight groups below 65,536 |
| `AdvisorAddress.AcceptedExactly` | apps/api/src/advisor-status-probe.ts:51-78 | An address is accepted, with given groups, exactly when before its zone and in lower case it is eight groups, groups around one double colon that leaves out at least one, or a mapped address with dots, and the groups are those |
| `AdvisorAddress.HostExpands` | apps/api/src/advisor-status-probe.ts:51-78 | Every spelling of such an address, in either case and with any zone, expands to its groups |
| `AdvisorAddress.MappedExpands` | apps/api/src/advisor-status-probe.ts:54-60 | The dotted and the hexadecimal form of a mapped address, in either case and with any zone, expand to the same groups |
| `AdvisorAddress.MappedPrivate` | apps/api/src/advisor-status-probe.ts:80-95 | A mapped address, however written, is private exactly when the address it maps is |
| `AdvisorAddress.PrivateNetworks` | apps/api/src/advisor-status-probe.ts:41-49 | An IPv4 address is private exactly when it is in 127.0.0.0/8, 10.0.0.0/8, 172.16.0.0/12, 192.168.0.0/16 or 169.254.0.0/16 |
| `AdvisorAddress.PrivateExactly` | apps/api/src/advisor-status-probe.ts:80-95 | An address is classed private exactly when it is loopback, link-local, unique-local or mapped from a private one, or would be mapped from a private one but for groups 2 and 3, which are not looked at |
| `AdvisorAddress.LooselyMapped` | apps/api/src/advisor-status-probe.ts:80-95 | The address 0:0:1:1:0:ffff:7f00:1 is accepted, is not mapped and is classed private |
| `AdvisorAddress.ZoneIgnored` | apps/api/src/advisor-status-probe.ts:52-53 | A zone does not matter |

## Left out

- SHA-256, random keys and generated ids are fresh names or functions given as parameters; a digest stands for the text it is computed from.
- Numbers in JSON are safe integers; other finite numbers and the printing of -0 are not modelled.
- Clock drift: runner and control plane measure the same milliseconds.
- Secrets are byte strings; their conversion from text and the sorting by length are not modelled, because the longest match does not depend on the order.
- A cancel before the child is spawned, spawn errors and the signals themselves; only what signalling found is an input.
- The actions of a run: expiry assumes its action is active, and several runs do not interact.
- Event sequences and upload grants inside a completion: any message may simply never be handled, which covers a completion refused for them.
- Session and owner checks of a lease: an attempt only presents the lease it was granted.
- The upload and completion of evidence after its grant.
- Exceptions thrown by exotic objects and stack overflow while serializing or projecting.
- JSON with spaces, fractions or exponents: the reader covers compact texts; the cursor decoder takes any parser that agrees with it on those.
- The replacement characters of lenient UTF-8 decoding: the cursor decoder takes any decoder that is exact on valid input.
- Run ids and times are compared by code units, where SQLite compares UTF-8 bytes; they agree on text without surrogates.
- Query parsing of the history route, its error codes and the response schema that rejects an overlong cursor.
- Snippets and masking of the output search, and how its text matches are found: any function that returns ordered hits inside the text.
- Bounds on bundle sizes, the export side, published bytes that stay behind, and foreign keys; the compensating deletes are assumed to succeed.
- The columns of imported rows other than ids, references, one content and one state.
- Host names, single decimal addresses and network probing.
- The web interface, settings, reports, the tool wrappers and the route registration, which hold no hard property.
