# The collector's durable pipeline, verified

The collector reads security events from files, maps them, assembles them into signed batches, hands the batches to a
backend through a directory, and records in a checkpoint how far each file has been published. This project models
that path in Dafny and proves what it is built for: every record that the checkpoint covers has become visible to the
backend in exactly one publication, in file order, whatever crashes, restarts, retries and partial file operations come
in between.

## How to read it

| layer | modules |
|---|---|
| bytes, JSON text, orders | `Octets`, `Json`, `JsonReader`, `JsonSizes`, `Lexicographic`, `Sequences`, `Exceptions` |
| codecs | `Utf8`, `Utf16`, `Base64`, `CanonicalJson`, `ContractSigner` |
| documents | `Contract`, `Documents`, `Serialization`, `Nesting`, `Rejections`, `RejectionDocuments`, `Foreign` |
| reading and mapping | `Lines`, `RawEvents`, `FileReader`, `BaselineMapper`, `MappedEvents`, `SourceLogs`, `Origins`, `DeepRecords`, `Truncation` |
| in-memory stages | `BoundedEventQueue`, `BatchAssembler`, `Pipeline` |
| durable publication | `Protocol`, `FileSystem`, `CheckpointStore`, `OutboxPublisher`, `RejectedEventPublisher` |
| the runtime and its runs | `CollectorRuntime`, `Lifecycle` |
| counters and heartbeats | `OperationalMetrics`, `HeartbeatPublisher` |

**State.** Objects that the collector updates in place are classes with the same fields: the reader, the queue, the
assembler, the runtime, the publishers, the counters. Exceptions are `Outcome` and `Result` values.

**Crashes.** `FileSystem.Disk` holds the files and the `.tmp` files. Each durable primitive is written as its steps, and a
failing primitive may have taken effect or not; a write may tear. After a failing primitive the code does nothing more
to the disk before it returns or throws, so a crash between any two steps is a failure of the next primitive followed by
the loss of memory. Every publication method therefore promises its invariant for failure as well as for success. The
two names that `link` gives one file stay tied together (`twins`) until `unlink`, also across crashes. The
ghost set `visible` keeps every document that was ever linked into the handoff or the rejection records, because the
backend may move batches away at any time; `committed` lists the records in the order of their checkpoints. A disk
that is `healthy` does not fail any more; it states liveness: what then must succeed.

**Sources.** A `Log` lists the records of every source in file order; `SourceLogs.LogOf` computes it from the files.
A run (`Lifecycle.Supervise`) is any schedule of starts, polls, shutdowns and crashes, together with what the files hold
before each action and what each access of a poll sees.

**Hypotheses of the whole-run theorem** (`Lifecycle.OrdinaryRun`), all about the environment:
the files only grow and are read from their start (`Longer`, `AppendOnly`); once a file is open for reading, nothing
fails in that poll (`ReadsThrough`). Without the first, `Truncation.RereadTruncated`: a file truncated in place is read
again from its start, and the first commit of what it holds now is refused. Without the second, a reader may have
advanced past records that the failed poll drops.

**What the theorem leaves open.** `Lifecycle.Supervise` promises exactly-once in file order unless a refused event was
overtaken, and returns whether one was. `CollectorRuntime.Runtime.DrainQueue` gives the condition (`Jumps`): draining the
queue breaks the order if and only if a refused event waits at the front of the buffer while an event of its source is
queued. Nothing is overtaken in files where no record whose event batches refuse is followed by a record of the same file
that maps to an event (`Origins.NothingToOvertake`); a refused event with nothing behind it is rejected and committed in
its place. `MappedEvents.RefusedWhen` says which events are refused: those whose time cannot be printed, and those whose
members outside the mapping nest too deep. `Lifecycle.OvertakeRecord` is a run in which it happens, from an empty disk: a
start and two polls of a file with a record of a fractional second before 1970 and an ordinary one. The order is lost and
the collector is blocked, but not the record: its audit record is visible, and no record is visible twice. After it,
`Lifecycle.LanguishForever`: the rejection blocks the collector for good, and nothing else becomes visible. A record is
lost when the machine stops in between (`Lifecycle.LoseRecord`): the later event is committed, the rejection of the first
one is not on the disk yet, and the checkpoint has passed a record that no document carries.

**A batch that cannot be read back.** What `serialize` lets through may hold 129 nested containers, the parser that reads a
sealed batch back takes 128. So recovery on a working disk succeeds if and only if the batch it finds is `Reparsable`
(`CollectorRuntime.Runtime.RecoverTwice`, `Start`, `OutboxPublisher.Outbox.Recover`, `PublishSigned`), which it is exactly
when no record in it has members outside the mapping that nest more than 124 containers (`Nesting.BatchNests`,
`MappedEvents.MappedNests`). `DeepRecords.DeepRecord` is a record that the reader accepts, the batch holds and the parser
refuses; `Lifecycle.EndureForever` is what a crash between sealing and releasing such a batch comes to.

**A handed-over file may be written again.** `visible` says what was linked into the handoff directory, not that the
file keeps its bytes once the backend has moved it. `OutboxPublisher.Outbox.HandOver` says when it does not: only when a
crash fell between link and unlink, the backend moved the batch, and the retry truncates the temporary name that is still
the same file; on a disk that works, always then. Names that the collector itself still holds are never written this way.

**Foreign code.** SHA-256, HMAC, the JSON parser, the calendar, RFC 3339 parsing and IP address parsing are functions of
`Foreign.Library`, about which only the laws in `Foreign.Lawful` are used. A digest accumulator is the bytes it absorbed.
Identifiers are numbers that are never handed out twice.

**Loops that would not end.** The buffer loop spins for ever once its front event fits no queue while nothing is left
that could make room (`CollectorRuntime.Runtime.Stalled`); the model returns `Divergence` there and only there. When every
buffered record maps to an event within the queue's limits there is no such state, and the limits that the configuration
loader demands, two batches of the largest size, leave that room for every event that a record can map to
(`MappedEvents.EventWeighs`): `Lifecycle.Supervise` promises that no poll and no shutdown diverges unless a refused event
was overtaken.

## Model

| member | source | states |
|---|---|---|
| Lifecycle.Supervise | collector/src/runtime/collector_runtime.cpp:82-404 | Crash-safe exactly-once over every schedule of starts, polls, shutdowns and crashes, from an empty disk, with any durable step failing: unless a refused event was overtaken, each record at or before a source's checkpoint is visible in exactly one publication, commits follow file order, and no loop runs for ever; nothing is overtaken where no refused record is followed by one that maps to an event |
| Lifecycle.Advance | collector/src/runtime/collector_runtime.cpp:82-404 | One start, poll, shutdown or crash keeps the run's invariant (the running pipeline is in step with the files, or the disk is recoverable) unless that action overtakes a refused event, and says whether it did |
| Origins.NothingToOvertakeBefore | collector/src/runtime/collector_runtime.cpp:198-243 | Files in which no refused record is followed by a mapped one held nothing to overtake before they grew to that either |
| Origins.NoJump | collector/src/runtime/collector_runtime.cpp:198-243 | In such files no event of a refused record's source is ever queued while its rejection waits at the front |
| Origins.HandedSprings | collector/src/runtime/collector_runtime.cpp:346-361 | Everything a poll hands over is a line of the source's file, which is what the theorem's condition speaks of |
| Lifecycle.KeptGrows | collector/src/ingress/file_reader.cpp:247-274 | The invariant survives any growth of the files, and no reader is ahead of what the files held |
| Lifecycle.SoundIsExactlyOnce | collector/src/durability/outbox_publisher.cpp:139-173 | In every sound durable state, each record the checkpoint covers is in exactly one visible document |
| Lifecycle.EmptyDiskIsSound | collector/src/durability/checkpoint_store.cpp:125-136 | A new installation satisfies the durable invariant |
| Lifecycle.Languish | collector/src/runtime/collector_runtime.cpp:141-162 | With an overtaken rejection on disk, any action leaves it there, commits nothing and shows at most its audit record; a start fails |
| Lifecycle.LanguishForever | collector/src/durability/rejected_event_publisher.cpp:122-158 | Permanence: no sequence of polls, shutdowns, crashes and restarts ever commits or clears an overtaken rejection, commits anything else, or shows anything but its audit record |
| Lifecycle.StuckStaysStranded | collector/src/durability/checkpoint_store.cpp:166-170 | A failed retry leaves the overtaken rejection alone on disk with the checkpoint still past it |
| Lifecycle.DoomedIsHaunted | collector/src/runtime/collector_runtime.cpp:293-300 | The state that overtaking produces is the one permanence starts from |
| Lifecycle.OvertakeRecord | collector/src/runtime/collector_runtime.cpp:82-388 | A run that loses the order and blocks the collector, from an empty working disk: a start and two polls of a file with a fractional second before 1970 and then an ordinary record end with the first one's rejection overtaken, where permanence starts; its audit record is visible, and no record is visible in two documents |
| Lifecycle.LoseRecord | collector/src/runtime/collector_runtime.cpp:293-300 | A run that loses a record: the same start and first poll, and a crash in the second poll after the later record's commit and before the rejection's pending copy; the checkpoint is past the record, no document carries it, nothing is held, and a start finds nothing to recover |
| Lifecycle.Endure | collector/src/durability/outbox_publisher.cpp:113-123 | With a sealed batch that cannot be read back, any action leaves the disk as it is; retries and starts fail |
| Lifecycle.EndureForever | collector/src/durability/outbox_publisher.cpp:232-333 | Permanence: no sequence of polls, shutdowns, crashes and restarts changes anything on such a disk |
| Lifecycle.UnreadableJams | collector/src/durability/outbox_publisher.cpp:113-123 | Any run's state whose held batch cannot be read back is one where that starts |
| Nesting.BatchNests | collector/src/contract/serialization.cpp:94-104 | A batch can be read back exactly when each of its events nests at most 126 containers |
| Nesting.TreeIsShallow | collector/src/contract/serialization.cpp:149-191 | What the depth check of the writer passes nests at most one container more than the parser takes |
| MappedEvents.MappedNests | collector/src/ocsf/baseline_mapper.cpp:144-155 | A mapped event keeps its batch readable exactly when the record's members outside the mapping nest at most 124 containers |
| DeepRecords.DeepRecord | collector/src/contract/serialization.cpp:94-151 | A login record with 124 nested arrays beside its six strings nests 125 containers in all, three fewer than the parser takes; the reader hands it over, the mapper maps it, batches hold its event, and no batch with it can be read back |
| MappedEvents.DeepRest | collector/src/contract/serialization.cpp:94-151 | So does the event of any record that the reader hands over with only such arrays outside the mapping |
| MappedEvents.RefusedWhen | collector/src/pipeline/batch_assembler.cpp:79-111 | A batch refuses a mapped event exactly when its time cannot be printed or the members outside the mapping nest too deep, and nothing else is refused, by size either |
| MappedEvents.EventSize | collector/src/contract/serialization.cpp:193-200 | A mapped event prints in at most fourteen times its record's bytes and a constant |
| MappedEvents.EventWeighs | collector/src/config/config_loader.cpp:502-509 | A mapped event always fits the queue that the configuration loader demands, twice |
| Protocol.HoldKeeps | collector/src/durability/outbox_publisher.cpp:266-269 | Linking a publication into the outbox or the pending directory keeps the durable invariant |
| Protocol.ManifestKeeps | collector/src/durability/outbox_publisher.cpp:91-101 | Linking its recovery manifest keeps it |
| Protocol.ShowKeeps | collector/src/durability/outbox_publisher.cpp:156-159 | Making it visible keeps it: no record becomes visible twice |
| Protocol.ClaimKeeps | collector/src/durability/outbox_publisher.cpp:139-160 | The backend moving any visible batch away keeps it |
| Protocol.LandKeeps | collector/src/durability/outbox_publisher.cpp:162-165 | Replacing the checkpoint after the batch is visible keeps it |
| Protocol.ManifestRemovalKeeps | collector/src/durability/outbox_publisher.cpp:167-169 | Removing the manifest first keeps it |
| Protocol.ReleaseKeeps | collector/src/durability/outbox_publisher.cpp:170 | Removing the sealed copy of a committed publication leaves nothing held, and the publication may still be retried |
| Protocol.NoRegression | collector/src/durability/checkpoint_store.cpp:57-74 | The commit of a publication in turn is never refused as a regression |
| Protocol.MarksStand | collector/src/durability/outbox_publisher.cpp:43-59 | positions_for keeps, per source, the end of the source's last record |
| Protocol.CommittedAtCheckpoint | collector/src/durability/checkpoint_store.cpp:138-193 | A record is committed if and only if it ends at or before its source's checkpoint offset |
| Protocol.ExactlyOnce | collector/src/durability/outbox_publisher.cpp:139-173 | A record the checkpoint covers is visible, under exactly one identifier |
| Protocol.NothingElseIsVisible | collector/src/durability/outbox_publisher.cpp:139-173 | A visible record that is not committed belongs to the one publication still held, which will be retried byte for byte |
| Protocol.SingleInFlight | collector/src/runtime/collector_runtime.cpp:141-176 | At most one of a sealed batch and a pending rejection exists, and its positions are not behind the checkpoint |
| Protocol.SoundGrows | collector/src/durability/checkpoint_store.cpp:138-193 | Records appended to the files leave a sound durable state sound |
| FileSystem.Disk.WriteTemporary | collector/src/durability/durable_file.cpp:67-118 | A completed write holds the whole document; a failed one may leave a torn file, and only under the temporary name |
| FileSystem.Disk.Mirror | collector/src/durability/durable_file.cpp:86-108 | Writing under a temporary name that is still linked writes the file that bears the final name, wherever it is now |
| FileSystem.Disk.LinkTemporary | collector/src/durability/durable_file.cpp:120-154 | link then unlink: never replaces, all or nothing at the final name, even when it fails halfway |
| FileSystem.Disk.ReplaceByTemporary | collector/src/durability/durable_file.cpp:132-138 | rename replaces in one step: the old or the new content, nothing between |
| FileSystem.Disk.Remove | collector/src/durability/durable_file.cpp:156-167 | Removes the file, or fails; a missing file is not an error |
| FileSystem.Disk.Read | collector/src/durability/durable_file.cpp:169-185 | Reads what is there, or fails |
| CheckpointStore.Store.Load | collector/src/durability/checkpoint_store.cpp:125-136 | The stored checkpoint, none when there is no file, an error for anything else |
| CheckpointStore.Store.Merge | collector/src/durability/checkpoint_store.cpp:155-172 | Merges positions over the stored ones, and refuses exactly when one of them goes back within the same file |
| CheckpointStore.Store.Commit | collector/src/durability/checkpoint_store.cpp:138-193 | Either nothing changed or the merged checkpoint is in place, and which errors are possible |
| OutboxPublisher.PositionsFor | collector/src/durability/outbox_publisher.cpp:43-59 | The loop computes the last position of every source |
| OutboxPublisher.Outbox.WriteManifest | collector/src/durability/outbox_publisher.cpp:91-101 | Success leaves the batch's own manifest; failure leaves it or nothing |
| OutboxPublisher.Outbox.EnsureManifest | collector/src/durability/outbox_publisher.cpp:125-137 | Success means the batch's manifest is there; the mismatch error is unreachable in sound states |
| OutboxPublisher.Outbox.HandOver | collector/src/durability/outbox_publisher.cpp:139-160 | Success means the batch is in the handoff directory and visible; the collision error is unreachable in sound states; a batch the backend has moved is written again only when its temporary name was left linked, and on a working disk always then |
| OutboxPublisher.Outbox.CommitPositions | collector/src/durability/outbox_publisher.cpp:162-165 | Commits the batch's positions once, never before it is visible, and touches no other file |
| OutboxPublisher.Outbox.Release | collector/src/durability/outbox_publisher.cpp:167-170 | Removes manifest then sealed copy; interrupted anywhere, the publication may still be retried |
| OutboxPublisher.Outbox.PublishSealed | collector/src/durability/outbox_publisher.cpp:139-173 | Success leaves the batch handed over, committed and no longer held; failure leaves a state from which the same call succeeds |
| OutboxPublisher.Outbox.LoadSealed | collector/src/durability/outbox_publisher.cpp:113-123 | Returns the sealed batch, and on a working disk fails for an acceptable one exactly when it nests more than 128 containers |
| OutboxPublisher.Outbox.Seal | collector/src/durability/outbox_publisher.cpp:266-272 | Sealed copy, then manifest: interrupted anywhere, the publication may still be retried |
| OutboxPublisher.Outbox.PublishSigned | collector/src/durability/outbox_publisher.cpp:232-274 | Retryable at every failure point, shows at most this batch, commits it at most once; on a working disk it succeeds if and only if the batch is not sealed yet or can be read back |
| OutboxPublisher.Outbox.Recover | collector/src/durability/outbox_publisher.cpp:276-333 | From every sound state: no collision, mismatch or orphan error; on a working disk it succeeds, with the held batch visible, committed and released, if and only if that batch can be read back; where none can it changes nothing |
| OutboxPublisher.Outbox.CheckOrphans | collector/src/durability/outbox_publisher.cpp:320-331 | Passes if and only if there is no manifest, and always after recovery of a sound state |
| OutboxPublisher.NoOrphan | collector/src/durability/outbox_publisher.cpp:320-321 | A manifest implies its sealed batch |
| RejectedEventPublisher.Publisher.ShowRecord | collector/src/durability/rejected_event_publisher.cpp:47-67 | Success leaves the audit record with this content; nothing is committed, nothing held is touched, and nothing but this record becomes visible, which on a working disk it does |
| RejectedEventPublisher.Publisher.CommitPosition | collector/src/durability/rejected_event_publisher.cpp:68-71 | Commits the rejected record's position once; an overtaken rejection fails and changes nothing |
| RejectedEventPublisher.Publisher.PublishPending | collector/src/durability/rejected_event_publisher.cpp:47-75 | Record, checkpoint, then removal, retryable at every failure point; on a working disk the audit record is visible whether or not the position commits |
| RejectedEventPublisher.Publisher.PublishSigned | collector/src/durability/rejected_event_publisher.cpp:92-120 | The rejection path keeps the shared durable invariant; an overtaken rejection is held and never committed |
| RejectedEventPublisher.Publisher.Recover | collector/src/durability/rejected_event_publisher.cpp:122-158 | From every sound state a held rejection becomes visible and committed; one that was overtaken makes recovery fail and stays |
| Lexicographic.SortByKey | collector/src/durability/outbox_publisher.cpp:309-313 | Recovery's sort by creation time and identifier: the same items, none before an earlier one |
| Lexicographic.PrecedesIsOrder | collector/src/durability/outbox_publisher.cpp:309-313 | The sort key's comparison is a strict weak order |
| Lines.RecordsAreLines | collector/src/ingress/file_reader.cpp:346-389 | The byte-wise records are exactly the pieces between newlines, contiguous from the start, each with one carriage return removed |
| Lines.RecordsOfPrefix | collector/src/ingress/file_reader.cpp:346-389 | Appending to the file changes no complete record |
| Lines.RecordsResume | collector/src/ingress/file_reader.cpp:249-263 | Restarting at any record boundary yields the same suffix |
| FileReader.Reader.Initialize | collector/src/ingress/file_reader.cpp:247-263 | Where reading begins: the resume offset of the same file within its size, or the configured end of the file |
| FileReader.Reader.Refresh | collector/src/ingress/file_reader.cpp:264-274 | Starts over exactly when the file is another one, shorter than what was read, or different just before the read offset |
| FileReader.Reader.TakeStored | collector/src/ingress/file_reader.cpp:276-287 | The lagging digest and length cover exactly the trimmed record even when storage was cut |
| FileReader.Reader.FinishRecord | collector/src/ingress/file_reader.cpp:276-344 | The item made from the truncated storage is the one the complete record gives, if and only if no over-long record loses a captured byte to a stray carriage return |
| FileReader.Reader.Judge | collector/src/ingress/file_reader.cpp:289-343 | The checks decide on the stored bytes as they would on the whole record |
| FileReader.Reader.Consume | collector/src/ingress/file_reader.cpp:364-387 | One byte of the state machine keeps the refinement of line splitting |
| FileReader.Reader.Stream | collector/src/ingress/file_reader.cpp:362-389 | The loop stops only at the record limit, the byte limit, the end or an error, having split exactly what it read |
| FileReader.Reader.Recheck | collector/src/ingress/file_reader.cpp:390-404 | Fails exactly when the file cannot be seen unchanged, and then starts over or changes nothing |
| FileReader.Reader.Poll | collector/src/ingress/file_reader.cpp:346-409 | On a growing file a poll hands over exactly the records from where the last one stopped, whatever the limits; it drops none unless a step after the loop fails |
| FileReader.PollRepeatedly | collector/src/ingress/file_reader.cpp:346-409 | Any sequence of polls with any limits, the file growing between and during them, hands over every record once and in order |
| Truncation.RereadTruncated | collector/src/durability/checkpoint_store.cpp:57-74 | Why files must only grow: a file truncated in place is read again from its start, hands over records that end before the checkpoint, and the commit of what they become is refused with nothing changed |
| Truncation.PositionsOf | collector/src/durability/outbox_publisher.cpp:43-59 | Whatever of those records maps to events, the positions that are committed first regress |
| BaselineMapper.Map | collector/src/ocsf/baseline_mapper.cpp:182-256 | Yields an event exactly for the records that pass every check, otherwise the first objection; the event keeps the record's position and payload |
| BaselineMapper.MappableIsUnobjectionable | collector/src/ocsf/baseline_mapper.cpp:182-217 | The chain of early returns objects exactly to what the declarative condition excludes |
| BaselineMapper.UnmappedFields | collector/src/ocsf/baseline_mapper.cpp:144-155 | Keeps exactly the members whose key is not mapped: each from its own place, the places increasing, none left out |
| BaselineMapper.FractionBeforeEpoch | collector/src/ocsf/baseline_mapper.cpp:157-178 | The printed time is malformed if and only if its year has not four digits, or the instant is before 1970 and not a whole second |
| BaselineMapper.IdentityInputInjective | collector/src/ocsf/baseline_mapper.cpp:237-242 | The text an event id digests is the same only for the same source, file and offset |
| Pipeline.FractionBeforeEpochIsRefused | collector/src/ocsf/baseline_mapper.cpp:157-178 | An instant before 1970 that is not a whole second makes an event that no batch can hold |
| RejectionDocuments.ReaderRejectionIsPublishable | collector/src/ingress/file_reader.cpp:167-185 | Every rejection the reader builds satisfies what publication demands |
| RejectionDocuments.MapperRejectionIsPublishable | collector/src/ocsf/baseline_mapper.cpp:42-60 | Every rejection the mapper builds does too |
| Pipeline.RejectedEventIsPublishable | collector/src/runtime/collector_runtime.cpp:178-196 | Every rejection the runtime builds from an event does too |
| RejectionDocuments.ValidPayloadOf | collector/src/contract/serialization.cpp:692-723 | The payload document of a publishable rejection passes validation, whatever the capture |
| RejectionDocuments.PublishableIsValid | collector/src/contract/serialization.cpp:843-879 | So does the whole rejected-event document |
| RejectionDocuments.PublishableIsCanonicalizable | collector/src/security/contract_signer.cpp:148-155 | And it can be signed |
| Base64.DecodedBase64Size | collector/src/contract/serialization.cpp:336-364 | The loop computes the declared size, and none for text of the wrong shape |
| Base64.DecodedSizeOfEncoded | collector/src/security/payload_encoding.cpp:69-86 | The decoded size of the encoding of any bytes is their number |
| Base64.DecodeSecret | collector/src/security/contract_signer.cpp:44-65 | Accepts exactly 64 characters of the URL alphabet and yields the 48 bytes they encode |
| Base64.SecretOfKey | collector/src/security/contract_signer.cpp:44-65 | Every 48-byte key has a secret that decodes to it |
| Base64.KeyOfSecret | collector/src/security/contract_signer.cpp:44-65 | No two secrets decode to the same key |
| Base64.EncodeSignature | collector/src/security/contract_signer.cpp:67-99 | A 32-byte digest becomes its 43-character unpadded encoding |
| Base64.SignatureInjective | collector/src/security/contract_signer.cpp:67-99 | Equal signatures come from equal digests |
| Utf8.DecodeUtf8 | collector/src/security/canonical_json.cpp:22-64 | The index loop accepts and decodes as the definition does |
| Utf8.IsValidUtf8 | collector/src/ingress/file_reader.cpp:106-148 | The reader's own loop accepts the same byte strings |
| Utf8.DecodeInvertsEncode | collector/src/security/canonical_json.cpp:22-64 | Every encoding of scalar values (section 3 of RFC 3629) decodes to those values |
| Utf8.EncodeInvertsDecode | collector/src/security/canonical_json.cpp:22-64 | Nothing else is accepted: what decodes is the encoding of its values |
| Utf16.Utf16Units | collector/src/security/canonical_json.cpp:66-78 | Computes the sort key of exactly the valid strings |
| Utf16.UnitsInjective | collector/src/security/canonical_json.cpp:66-78 | No two scalar sequences have the same code units |
| Utf16.SortKeysAreTotal | collector/src/security/canonical_json.cpp:248-261 | Keys are ordered strictly and totally (section 3.2.3 of RFC 8785) |
| CanonicalJson.AppendString | collector/src/security/canonical_json.cpp:80-120 | Appends the quoted, minimally escaped string, and fails exactly on invalid UTF-8 |
| CanonicalJson.SortInPlace | collector/src/security/canonical_json.cpp:248-261 | The in-place member sort computes the sorted list |
| CanonicalJson.AppendValue | collector/src/security/canonical_json.cpp:217-275 | The recursive writers append the canonical text, and fail exactly on what has none |
| CanonicalJson.Canonicalize | collector/src/security/canonical_json.cpp:279-284 | canonicalize returns the canonical form, and fails exactly on what has none |
| CanonicalJson.SortForgetsOrder | collector/src/security/canonical_json.cpp:248-261 | Two lists with distinct keys sort to the same list exactly when they hold the same members |
| CanonicalJson.ArrangeForgetsOrder | collector/src/security/canonical_json.cpp:217-275 | Canonical arrangement identifies exactly the documents equal up to member order |
| CanonicalJson.CanonicalIdentifies | collector/src/security/canonical_json.cpp:279-284 | Canonical texts are equal if and only if the documents are equal up to member order |
| CanonicalJson.ReaderInvertsCanonical | collector/src/security/canonical_json.cpp:279-284 | An independent reader recovers the arranged document from the canonical text |
| JsonReader.ReadDump | collector/src/contract/serialization.cpp:193-200 | The reader inverts the compact text of every value, in any context |
| JsonReader.DumpInjective | collector/src/contract/serialization.cpp:193-200 | Different values have different texts |
| ContractSigner.Signer.SignatureFor | collector/src/security/contract_signer.cpp:208-227 | A signature of contract shape, and exactly when there is none |
| ContractSigner.Signer.SignBatch | collector/src/security/contract_signer.cpp:130-137 | Changes only the integrity member, and succeeds for every signable batch |
| ContractSigner.Signer.SignRejection | collector/src/security/contract_signer.cpp:148-155 | Likewise for rejections |
| ContractSigner.Signer.VerifyBatch | collector/src/security/contract_signer.cpp:157-168 | Accepts only the signature of the batch's own signing input |
| ContractSigner.Signer.SignedVerifies | collector/src/security/contract_signer.cpp:130-168 | A signed batch verifies |
| ContractSigner.Signer.SignatureCoversDocument | collector/src/security/contract_signer.cpp:101-109 | Batches that verify under one signature have equal MACs, and equal signing inputs exactly when the unsigned documents are equal up to member order |
| ContractSigner.SealedIsSignable | collector/src/runtime/collector_runtime.cpp:164-176 | Every sealed batch can be signed |
| JsonSizes.DecimalDigitCount | collector/src/pipeline/batch_assembler.cpp:20-27 | Counts the decimal digits |
| JsonSizes.NatTextLength | collector/src/pipeline/batch_assembler.cpp:20-27 | They are the length of the printed number |
| BatchAssembler.TextSizeOfAppend | collector/src/pipeline/batch_assembler.cpp:68-77 | Appending an event costs its text, a comma unless first, and the growth of the count's digits: the incremental sum is exact |
| BatchAssembler.Acceptance | collector/src/contract/serialization.cpp:772-808 | A batch with a valid envelope serializes exactly when its events are valid and the text fits the limit |
| BatchAssembler.AnySignatureFits | collector/src/pipeline/batch_assembler.cpp:12-18 | What was measured with a placeholder has the same size with any real signature, so a sealed batch never exceeds the limit |
| BatchAssembler.EnvelopeIsSmall | collector/src/runtime/collector_runtime.cpp:135-139 | The collector's own envelope is always valid and small, so beginning a batch cannot fail |
| BatchAssembler.OneEvent | collector/src/pipeline/batch_assembler.cpp:68-77 | encoded_contribution: what one event alone in the batch weighs, or which fault refuses it |
| BatchAssembler.Assembler.Begin | collector/src/pipeline/batch_assembler.cpp:50-66 | Begins the described batch with exact accounting, and when it cannot |
| BatchAssembler.Assembler.TryAdd | collector/src/pipeline/batch_assembler.cpp:79-111 | Exactly which events are accepted, deferred to the next batch, or refused by every batch; a fresh batch never asks for a flush |
| BatchAssembler.Assembler.Seal | collector/src/pipeline/batch_assembler.cpp:134-147 | The accounting error is unreachable and the sealed batch serializes in the counted bytes |
| BatchAssembler.Assembler.DiscardEmpty | collector/src/pipeline/batch_assembler.cpp:149-156 | Discards exactly an empty batch |
| BoundedEventQueue.AccountedBytes | collector/src/pipeline/bounded_event_queue.cpp:41-66 | The sum of all counted texts, or overflow exactly when it exceeds 64 bits |
| BoundedEventQueue.Queue.TryPush | collector/src/pipeline/bounded_event_queue.cpp:68-100 | The counters decide as totals recomputed from the entries would, an admitted event joins at the end, and an empty queue has no room exactly for the events that never fit |
| BoundedEventQueue.Queue.TryPop | collector/src/pipeline/bounded_event_queue.cpp:102-121 | First in, first out; the accounting error is unreachable |
| BoundedEventQueue.Queue.RoomForFirst | collector/src/pipeline/bounded_event_queue.cpp:68-100 | Events that fit together are admitted one after the other, whatever their sources |
| BoundedEventQueue.PushKeepsUsage | collector/src/pipeline/bounded_event_queue.cpp:92-98 | A source's counters stay the recomputed totals of its queued events |
| BoundedEventQueue.PopKeepsUsage | collector/src/pipeline/bounded_event_queue.cpp:110-119 | They do on a pop, and a source has counters exactly while it has queued events |
| SourceLogs.LogIsOrdered | collector/src/ingress/file_reader.cpp:346-389 | The records of growing files form a log: contiguous, forward, one file per source |
| SourceLogs.LogGrows | collector/src/ingress/file_reader.cpp:346-389 | Growing files only append to the log |
| SourceLogs.Arrived | collector/src/runtime/collector_runtime.cpp:346-361 | What a poll hands over extends its source's records in order, changes no other source, and is publishable |
| SourceLogs.HandedIsCarried | collector/src/runtime/collector_runtime.cpp:346-361 | Whatever a poll hands over can be published as an event or as a rejection |
| SourceLogs.ResumesAt | collector/src/runtime/collector_runtime.cpp:34-54 | The checkpoint sends each reader to the end of its last committed record |
| Pipeline.MoveBehind | collector/src/runtime/collector_runtime.cpp:229-241 | Moving a record behind records of other sources changes no source's order |
| Pipeline.WithoutIsInOrder | collector/src/runtime/collector_runtime.cpp:229-241 | Overtaking a record leaves the others in order |
| Pipeline.JumpBreaksOrder | collector/src/runtime/collector_runtime.cpp:229-241 | Moving a record behind a later one of its source always breaks the order |
| Pipeline.Overtakes | collector/src/durability/checkpoint_store.cpp:166-170 | Once a later record of the same file is committed, the checkpoint refuses the overtaken one for good |
| CollectorRuntime.Runtime.RetryPendingPublication | collector/src/runtime/collector_runtime.cpp:141-162 | A retry keeps order and soundness, on a working disk succeeds if and only if what is sealed can be read back, and never commits an overtaken rejection |
| CollectorRuntime.Runtime.BeginBatch | collector/src/runtime/collector_runtime.cpp:135-139 | Beginning a batch never fails |
| CollectorRuntime.Runtime.SealPending | collector/src/runtime/collector_runtime.cpp:164-176 | Sealing and signing cannot fail; the pending batch carries the assembled events, verifies, and may be published |
| CollectorRuntime.Runtime.FlushBatch | collector/src/runtime/collector_runtime.cpp:164-176 | Flushing keeps every record in its place and loses no count |
| CollectorRuntime.Runtime.RefuseEvent | collector/src/runtime/collector_runtime.cpp:229-241 | A refused event, once what came before it is published, becomes the rejection at the front of the buffer |
| CollectorRuntime.Runtime.PlaceEvent | collector/src/runtime/collector_runtime.cpp:211-241 | One event goes to the batch, to the deferred slot or aside, and is never lost or doubled; an event that fits a batch is never set aside |
| CollectorRuntime.Runtime.DrainTurn | collector/src/runtime/collector_runtime.cpp:198-243 | One turn of the loop keeps the order of all records and makes progress |
| CollectorRuntime.Runtime.DrainQueue | collector/src/runtime/collector_runtime.cpp:198-243 | The loop ends, and it breaks the order of some source if and only if it was entered with a refused event in front while an event of its source was queued |
| CollectorRuntime.Runtime.MapFront | collector/src/runtime/collector_runtime.cpp:281-292 | A raw record is mapped or rejected in place |
| CollectorRuntime.Runtime.SignedRejection | collector/src/runtime/collector_runtime.cpp:245-268 | The signed document of a publishable rejection always exists; the missing-digest error is unreachable |
| CollectorRuntime.Runtime.PublishRejection | collector/src/runtime/collector_runtime.cpp:245-272 | The next record's rejection is published or stays pending; an overtaken one stays pending for good, on a working disk with its audit record visible |
| CollectorRuntime.Runtime.PublishFront | collector/src/runtime/collector_runtime.cpp:293-304 | Everything before a rejection is published first |
| CollectorRuntime.Runtime.AdmitFront | collector/src/runtime/collector_runtime.cpp:306-324 | A mapped event is queued, rejected, or makes room first; it never gets room exactly when it fits no queue and nothing is left to take out |
| CollectorRuntime.Runtime.ProcessBufferedInputs | collector/src/runtime/collector_runtime.cpp:274-327 | Ends by a measure over buffer, queue and deferred event, never diverging when every buffered record maps to an event within the queue's limits, always when it starts stalled; keeps order and counts; with room for everything it only queues, in order |
| CollectorRuntime.Runtime.TracedIsClear | collector/src/config/config_loader.cpp:506-509 | Whatever came from the files is within the limits of a queue of two batches of the largest size |
| CollectorRuntime.Runtime.PollSources | collector/src/runtime/collector_runtime.cpp:346-371 | Polling the sources in turn keeps every reader in step with what is held and committed |
| CollectorRuntime.Runtime.PollOnce | collector/src/runtime/collector_runtime.cpp:337-388 | Pipeline conservation: per source, committed, pending, assembled, deferred, queued and buffered records are exactly the file's records up to the reader's boundary; received = published + rejected + held |
| CollectorRuntime.Runtime.Shutdown | collector/src/runtime/collector_runtime.cpp:390-404 | Returns normally only when nothing is held, all read records are committed, and received = published + rejected; on a working disk it does when nothing held will be refused, and, with nothing buffered, if and only if batches take every event queued or deferred |
| CollectorRuntime.Runtime.ProcessFront | collector/src/runtime/collector_runtime.cpp:274-327 | One turn of the buffer loop keeps order and counts and makes progress; where nothing held will be refused it succeeds on a working disk and leaves that so |
| Origins.SpringsIsHeld | collector/src/pipeline/batch_assembler.cpp:79-111 | Of the events that records of the files map to, batches take exactly those that they are sure to hold, whatever else they hold |
| CollectorRuntime.Runtime.Recover | collector/src/runtime/collector_runtime.cpp:86-88 | Both recoveries commit what was held; on a working disk they succeed if and only if the held batch can be read back, except on an overtaken rejection, where they fail and change nothing that matters |
| CollectorRuntime.Runtime.RecoverTwice | collector/src/durability/outbox_publisher.cpp:276-333 | From any state a crash leaves, on a working disk, recovery succeeds exactly when what was held can be read back; then nothing is held, no manifest is left, what was held is committed once, and running it again changes nothing |
| CollectorRuntime.Runtime.Start | collector/src/runtime/collector_runtime.cpp:82-119 | From any recoverable state a start ends in step with the files; on a working disk it succeeds if and only if the held batch can be read back |
| CollectorRuntime.Runtime.GoodIsRestartable | collector/src/runtime/collector_runtime.cpp:82-119 | A crash of a pipeline in order leaves a sound state holding at most the pending publication, from which a start recovers when that can be read back |
| CollectorRuntime.Runtime.InStepGrows | collector/src/runtime/collector_runtime.cpp:337-388 | The files may grow while records are held |
| CollectorRuntime.Runtime.OvertakeRefused | collector/src/runtime/collector_runtime.cpp:229-300 | Whenever the next queued event is refused and a later one of its source is queued, drain and processing commit the later one first and leave the rejection overtaken, its audit record visible, and no record visible in two documents |
| HeartbeatPublisher.Publisher.ReserveSequence | collector/src/monitoring/heartbeat_publisher.cpp:155-169 | The successor is durable before the number is used, and memory is never behind the disk, also after failures |
| HeartbeatPublisher.Publisher.PublishLocked | collector/src/monitoring/heartbeat_publisher.cpp:182-213 | At most one heartbeat becomes visible, under the reserved number, and a failed publication burns its number |
| HeartbeatPublisher.Publisher.PublishIfDue | collector/src/monitoring/heartbeat_publisher.cpp:134-143 | Publishes exactly when thirty seconds have passed since the last success |
| HeartbeatPublisher.Open | collector/src/monitoring/heartbeat_publisher.cpp:60-127 | A restart resumes at the reserved number |
| HeartbeatPublisher.Monitor | collector/src/monitoring/heartbeat_publisher.cpp:60-213 | Over every run of beats, failures, crashes and restarts the published numbers strictly increase |
| HeartbeatPublisher.HeartbeatsKeepSound | collector/src/monitoring/heartbeat_publisher.cpp:155-213 | Heartbeat files do not disturb the publication invariant |
| OperationalMetrics.NextValue | collector/src/monitoring/operational_metrics.cpp:33-36 | The overflow-free step is the saturated sum |
| OperationalMetrics.Metrics.TakeCompareExchange | collector/src/monitoring/operational_metrics.cpp:29-44 | Only a successful exchange completes an increment; a failed or spurious one reloads |
| OperationalMetrics.Metrics.Run | collector/src/monitoring/operational_metrics.cpp:29-44 | For every interleaving of any threads a counter is the saturated sum of its completed increments, and once all threads are done a cap that was reached is marked |
| OperationalMetrics.ReachedByMore | collector/src/monitoring/operational_metrics.cpp:37-43 | Exactly which increments reach the cap |
| OperationalMetrics.SumOfPermutation | collector/src/monitoring/operational_metrics.cpp:29-44 | The order of the exchanges does not matter |

## Left out

- Lifecycle.Supervise: once a refused event was overtaken it promises nothing about the rest of the run. `Lifecycle.LanguishForever` covers what follows while the overtaken rejection is on the disk; that no record is ever visible twice and only overtaken records are ever missing, over runs that overtake several and crash in between, is not proved, because the invariant would have to follow every overtaken record through the holding places.
- OutboxPublisher.Outbox.HandOver: on a disk that may still fail, whether a moved batch is written again is not decided, because the write may fail before it starts.
- OutboxPublisher.Outbox.PublishSigned: does not compute the outbox usage (`inspect_usage`); the capacity refusal may occur before anything is written, and a healthy disk has room.
- FileSystem.Disk.Read: no size limit; the 1 MiB bound on manifests and checkpoints is not modelled. EINTR, fsync, permissions and the Windows branches are not either.
- Base64.DecodedBase64Size: like the code, accepts trailing bits that no encoder writes, although the error message speaks of canonical base64.
- CollectorRuntime.Runtime.PollOnce: heartbeats, gauges and the degradation bits other than saturation are not part of a poll; `HeartbeatPublisher.HeartbeatsKeepSound` shows that heartbeat files do not interfere.
- BoundedEventQueue.AccountedBytes: the library's dump throws on text that is not UTF-8; events come from documents that were parsed as UTF-8, so the model does not have that error.
- Floating-point numbers in JSON (`append_float`, shortest digits, exponent layout): records with floating-point members are outside the model. The mapper copies such members to `ocsf.unmapped`, so the pipeline does carry them.
- SHA-256, HMAC, JSON parsing (of the nesting scanner only the limit of 128 containers), regular expressions, calendar arithmetic, RFC 3339 and IP address parsing: foreign code, kept abstract.
- The freshness of UUIDs is a hypothesis (`CollectorRuntime.Identifiers`), and their text is not claimed to determine the identifier.
- `start_position: newest`: the reader models it; the whole-run theorem is for `oldest`, because a file replaced while the collector is down would be entered at its end.
- Positions that are not file positions: the mapper never produces them; they are carried but have no place in the order.
- The heartbeat body, its metrics snapshot and its signature; the remaining degradation signals.
- Parsers of stored documents (`parse_event_batch`, `parse_checkpoint` and the like): a whole file is the document that was written, a torn one fails to parse, and a batch of more than 128 nested containers is refused; manifests, checkpoints and rejections nest a handful of containers.
- Configuration loading, secret files, resource probing, signals and `main.cpp`.
- The analysis engine and the backend.
