# Verified model of mbx-cache

`mbx-cache` is a content-addressed build cache: clients upload blobs, publish action results that refer to them, keep
manifests that predict actions, and download many blobs at once as a *pack*. This project models the parts where that is
hard and proves, for every input, every chunking and every interleaving, what the server promises.

The four parts are:

1. **Packs.** `Pack` holds a bytewise reader (`Step`, `Feed`), the simple form, and the class `PackReader`, whose
   chunk-at-a-time loop refines it. `PackGrammar` gives an independent grammar and proves that the reader accepts exactly
   that grammar. `PackReplay` relates events to entries. `PackUpload` and `PackDownload` are the two handlers.
2. **Publishing.** `Directories` and `TreeWalk` model the directory checks and the depth-first `validate_tree`; `Publishing`
   is the state machine in which every read of `put_action_result` is a separate step among other clients' steps, with what a
   commit implies, and `SweptResults` says what sweeps leave of it; `Verdicts` has the other half, what a refusal implies and
   that the checks come to an end.
3. **Stores.** `PutIfAbsent` is the atomic put-if-absent that `FilesystemStore` and `AzureStore`, step by step, refine.
   `Metadata` relates the in-memory store to PostgreSQL rows, and `CommitRace`, `Manifests` and `Retention` follow the
   two-statement commit, the compare-and-swap of manifests, and the ages of rows and objects over whole runs.
4. **Authorization.** `JwksRefresh` is the key cache under concurrent verification; `Namespaces` is the meaning of patterns.

Conventions. Code that updates fields or loops is a class or a method proved against a specification function; concurrent
protocols are state machines whose steps are the atomic actions between two awaits, so that a run is a sequence of steps and
a theorem about runs covers every schedule. Hashing, JSON and canonical encoding are function parameters. Nothing is assumed
about a hash except in `Manifests`, where the manifests in play are taken not to collide (`Format.Sound`); canonical text is
taken to parse back to what it was made from. A step that is not possible in a state changes nothing.

Where the code and its comments differ, the model follows the code: `PackReader::blobs` is documented as counting frames read
in full but is advanced at the header, and an error from `push` drops the events already collected from that chunk.

Three properties fail in some runs, and for each the model gives the failing run and the exact condition. A commit behaves
atomically on every key whose row no sweep deletes, and "disappeared after conflict" is reported if and only if a sweep left
a gap between the two statements (`CommitRace.SweepBreaksCommit`, `CommitRace.DisappearedIffGap`); results without top-level
references are not at risk at all (`CommitRace.UnreferencedIsWriteOnce`). A published result is complete if and only if no
row it needs has been swept and not registered again (`SweptResults.SweepBreaksCompleteness`, `SweptResults.CompleteIffUnswept`).
A sweep can drop the row of an object that is there if and only if another namespace wrote that object anew while the row was
already there (`Retention.SharedObjectLosesARow`, `Retention.AtRiskIffOvertaken`).

Check everything with `dafny verify dfyconfig.toml`.

## Model

| member | source | states |
|---|---|---|
| Digests.HexRoundTrip | src/pack.rs:180-180 | Hex-encoding bytes and decoding them gives the bytes back. |
| Digests.HexDecodesLower | src/server.rs:639-642 | A lowercase hex text of even length decodes, and re-encoding gives the text. |
| Digests.HexDigitsOf | src/pack.rs:180-180 | The two characters of a byte are its high half and its low half, in that order, as lowercase digits. |
| Digests.BigEndianRoundTrip | src/server.rs:651-651 | A number below 256^k survives big-endian encoding in k bytes. |
| Digests.FromBigEndianRoundTrip | src/pack.rs:181-185 | Any k bytes, read as a big-endian number and written back, are unchanged. |
| Digests.FromBigEndianConcat | src/pack.rs:181-185 | Position: bytes in front count 256 times more for every byte behind them. |
| Digests.HeaderRoundTrip | src/server.rs:638-653 | Every valid digest encodes to 41 bytes that decode to that digest. |
| Digests.HeaderDecodesValid | src/pack.rs:174-194 | Whatever 41 bytes decode is a valid digest whose encoding is those bytes. |
| Digests.HeaderLayout | src/pack.rs:174-194 | Reading and writing a header are exactly the wire format, field by field: tag 1 for blake3 and 2 for sha256, each hash byte's high half first, the size with its most significant byte first. |
| Pack.FeedAppend | src/pack.rs:94-152 | Reading a then b is reading a + b: same state, same first error, concatenated events. |
| Pack.ChunkIndependence | src/pack.rs:94-152 | For every split of the input into chunks, the chunked reading equals one reading of the whole. |
| Pack.PackReader.Push | src/pack.rs:94-152 | One pass of the loop over a chunk is the bytewise reading: same error, same final state, same events up to splitting payloads; every turn that goes on consumes input. |
| Pack.PackReader.Fill | src/pack.rs:163-171 | Buffers exactly the missing bytes or all there are, and reports whether the buffer is full. |
| Pack.PackReader.TurnMagic | src/pack.rs:99-108 | The magic turn takes a prefix of the input and does what the bytewise reader does on it. |
| Pack.PackReader.TurnHeader | src/pack.rs:109-129 | The header turn agrees with the bytewise reader, limits and zero-size frames included. |
| Pack.PackReader.TurnPayload | src/pack.rs:130-149 | The payload turn agrees with the bytewise reader, including the payload budget. |
| Pack.PackReader.Close | src/pack.rs:154-161 | Succeeds exactly on a frame boundary after the magic. |
| PackGrammar.EncodedIsAccepted | src/pack.rs:94-161 | The framing of entries within the limits is read to a boundary with their count, size sum and events. |
| PackGrammar.AcceptedIsExplained | src/pack.rs:94-161 | Any bytes read without error are the magic, whole valid frames within limits and one partial frame, and the events say exactly so. |
| PackGrammar.PackIsUnambiguous | src/pack.rs:94-161 | A byte string is the framing of at most one entry list. |
| PackGrammar.AcceptsExactlyPacks | src/pack.rs:94-194 | For every chunking, all pushes and finish succeed if and only if the bytes are the framing of a unique entry list within the limits. |
| PackGrammar.ReadsBackEntries | src/pack.rs:83-161 | Framing then reading in any chunking returns the events of the same entries, with `blobs` their number and `payload_bytes` their size sum. |
| PackGrammar.EveryByteIsAccounted | src/pack.rs:94-161 | Of the bytes read so far, each belongs to magic, a header or payload, and the counters add up to exactly that. |
| PackGrammar.FirstErrorFits | src/pack.rs:97-150 | The first error names what is wrong: a magic that is not one, else an unknown tag, else a size over the limit, else one blob too many, each at the byte completing the magic or header, or one payload byte too many; with the limit it reports. |
| PackReplay.ReplaySplit | src/server.rs:319-341 | Consuming a payload in any pieces has the effect of consuming it whole. |
| PackReplay.FeedReplays | src/server.rs:317-342 | The reader's events always replay: no payload outside a frame, no end without a beginning. |
| Uploads.BlobService.Publish | src/server.rs:262-271 | Put then register keeps every visible digest stored and authentic, adds at most that object and row, and reports Created exactly when the object was absent. |
| Uploads.PutBlob | src/server.rs:211-277 | Reaches the store exactly for admissible requests (precondition, size limit, unbroken body, matching size and hash), changes nothing otherwise, and success means stored and visible; each of the earlier refusals is reported exactly for its own cause. |
| PackUpload.PackFrame.Store | src/server.rs:405-433 | Refuses exactly a size or hash mismatch, changing nothing; success stores and registers, and the store grows by one exactly on Created. |
| PackUpload.ApplyEvent | src/server.rs:320-340 | One event advances the open frame and the store in step with the replay; the two impossible errors do not occur. |
| PackUpload.Consume | src/server.rs:319-341 | The events of a chunk store exactly the frames they complete, counted as created or existing; on failure the frames registered are a prefix of those, and at most the next one was put besides, none after a mismatch. |
| PackUpload.TakeChunk | src/server.rs:317-342 | One chunk: a reader error means the bytes so far are no beginning of a pack; otherwise the handler stays in step with the reader and the store gains a prefix of the whole frames that arrived. |
| PackUpload.PutBlobPack | src/server.rs:294-355 | A receipt means the body was an authentic pack of exactly the declared contents, all stored and registered, created + existing = declared and created = growth of the store; on failure the frames registered are a prefix of the arrived whole frames, each verified, and nothing else was put except, when the store itself failed, possibly the next frame; a refusal means no reading of the body was acceptable. |
| PackUpload.FinalChecksDecide | src/server.rs:343-348 | The finish and header checks pass if and only if the frames rebuilt from the body are an acceptable pack. |
| PackUpload.ForgedIsHopeless | src/server.rs:416-420 | One inauthentic frame rules out every acceptable reading of the body. |
| PackDownload.FirstOccurrencesFacts | src/server.rs:505-521 | Deduplication keeps exactly the requested digests, once each. |
| PackDownload.Dedupe | src/server.rs:505-521 | The loop returns the first occurrences in request order, refusing exactly invalid digests and sums over the limit or over u64. |
| PackDownload.PlanFrames | src/server.rs:545-566 | Headers, content length and payload bytes of the frames to come, refused exactly on u64 overflow. |
| PackDownload.StreamBlob | src/server.rs:597-624 | Emits header and at most the declared bytes, and completes exactly for an intact object. |
| PackDownload.StreamAll | src/server.rs:568-626 | Emits magic and frames in order, never past the planned length, and completes exactly when every object is intact. |
| PackDownload.PackBlobs | src/server.rs:495-636 | Accepted exactly under the stated limits; never emits more than Content-Length; completed exactly when every served object is intact, and then emits the framing of the visible digests in first-occurrence order. |
| PackDownload.TransportLimitExactly | src/server.rs:99-104 | The transport bound is the payload limit, the magic and ten thousand headers, saturating at the largest size. |
| PackDownload.DownloadReadsBack | src/server.rs:99-104 | A completed download in any chunking is accepted by a reader limited to the response's own counts, gives the same entries, has exactly Content-Length bytes and fits the upload transport bound. |
| Directories.ValidateEntry | src/server.rs:1279-1292 | Accepts a safe name and mode not seen before and records the name; the error tells unsafe from duplicate. |
| Directories.ValidateDirectoryEntries | src/server.rs:1261-1277 | Succeeds if and only if all names over the three lists are safe and distinct, modes in range and symlink targets non-empty without NUL. |
| Directories.SafeNameExactly | src/server.rs:1279-1287 | A name is safe if and only if it is a single path component that is its own lexical resolution, without backslash or NUL. |
| Directories.SafePathsStay | src/server.rs:1279-1287 | A path of accepted names is its own lexical resolution, and its text splits back into those names. |
| TreeWalk.Inspect | src/server.rs:878-914 | The per-directory checks succeed exactly for a good node and return its parsed directory. |
| TreeWalk.EnterKeeps | src/server.rs:872-921 | Entering a directory keeps the walk invariant: everything above a pending Exit descends from it. |
| TreeWalk.ExitKeeps | src/server.rs:862-866 | Leaving a directory keeps the invariant: its children are all finished, in an order witnessing acyclicity. |
| TreeWalk.RepeatIsCycle | src/server.rs:872-874 | Meeting a directory that is still being visited means it reaches itself. |
| TreeWalk.OrderedIsOk | src/server.rs:857-922 | Good directories listed children first, root included and within the node limit, are an acyclic acceptable tree. |
| TreeWalk.FinishedIsOk | src/server.rs:860-923 | An empty stack means the whole reachable graph is good, acyclic and within the node budget. |
| TreeWalk.ValidateTree | src/server.rs:851-924 | Ok if and only if the reachable graph is acyclic, at most 100,000 nodes, all good; a cycle is reported only for a digest that reaches itself, too large only if it is, other errors only for a bad reachable node; terminates on any graph by node budget and stack length. |
| Publishing.SureGrows | src/server.rs:737-744 | Other clients' uploads never undo what a publication has already checked. |
| Publishing.SureTurn | src/server.rs:832-924 | Every single read keeps "each needed fact holds or its check is still to come". |
| Publishing.DoneIsBacked | src/server.rs:723-749 | When no check is left all facts hold together, though read at different moments. |
| Publishing.WalkTurn | src/server.rs:857-922 | Every single read keeps the depth-first order: children are closed before parents, within the node budget. |
| Publishing.BackedTreeIsOk | src/server.rs:851-924 | Directories listed children first, each good, make a tree that satisfies the very condition the walk decides. |
| Publishing.BackedIsComplete | src/server.rs:1066-1206 | The facts collected are enough for the descriptor, metadata, streams and whole tree to be visible and good. |
| Publishing.GenuineStep | src/server.rs:257-271 | Every step of every client keeps visible digests stored and authentic. |
| Publishing.VisibleIsAuthentic | src/server.rs:211-277 | In every run, whatever is visible is a valid digest whose object is stored with bytes of that size and hash. |
| Publishing.VisibleWasUploaded | src/server.rs:262-271 | In every run a digest is visible only in namespaces it was uploaded to. |
| Publishing.RegisteredIsVisible | src/server.rs:267-271 | A finished upload is visible in its own namespace, with its object, at once. |
| Publishing.CommittedStays | src/server.rs:745-757 | In every run a committed result is never replaced, and stays until a sweep removes it. |
| SweptResults.CommittedIsComplete | src/server.rs:723-758 | In every interleaving in which no sweep removes a row the result needs, a committed result has its descriptor and metadata visible and at most 16 MiB, for the three compiler kinds metadata, output root and both streams are there and visible, and the output tree is one that `validate_tree` would accept (all reachable objects visible and good, acyclic, within the node limit) on the store as it then is, when committed and ever after. |
| SweptResults.CompleteFewer | src/metadata/postgres.rs:93-99 | Taking rows away leaves a complete result complete if and only if none of them is the descriptor, the metadata, a stream, a reachable directory or one of its files. |
| SweptResults.VirtualRun | src/server.rs:723-758 | Every run, sweeps included, keeps the publishing invariant on the store with all rows ever registered. |
| SweptResults.CompleteIffUnswept | src/metadata/postgres.rs:88-99 | In every run, sweeps included, a committed result is complete if and only if no row it needs has been swept and not registered since. |
| SweptResults.SweepBreaksCompleteness | src/metadata/postgres.rs:88-99 | A sweep between the checks and the commit can leave a committed result without its descriptor. |
| Verdicts.TurnIsOrderly | src/server.rs:860-922 | Every passing check keeps the list of open checks in order and is smaller in the order (node budget left, metadata unread, directory being read, checks left), so the checks end. |
| Verdicts.TurnIsJustified | src/server.rs:860-922 | Every check still to be made serves the result: it is about a directory reachable from its root, a file of one, or a stream, and everything above a directory's closing descends from it. |
| Verdicts.RefusedIsIncomplete | src/server.rs:832-924 | A check that fails shows that the result is not complete on that store: a shared sub-directory, for one, is never a reason. |
| Verdicts.ValidateResult | src/server.rs:723-744 | On a store that holds still the whole validation ends and accepts if and only if the result is complete. |
| Verdicts.DroppedIsIncomplete | src/server.rs:723-758 | In every run, sweeps included, a request turned away by a check was for a result that was not complete on the store at that moment. |
| PutIfAbsent.CreatedOnceKept | src/storage/mod.rs:34-35 | Any operation but the expiry of a digest extends a stretch in which at most one put created it, none if it was there, and its content is unchanged. |
| PutIfAbsent.ContentKept | src/storage/mod.rs:34-35 | No operation but expiry removes or changes an object. |
| FilesystemStore.Refines | src/storage/filesystem.rs:53-69 | Each check, stage or persist step of any interleaving is one atomic put-if-absent step or none. |
| FilesystemStore.InvariantKept | src/storage/filesystem.rs:53-69 | The invariant behind the refinement holds after every step. |
| FilesystemStore.CreatedAtMostOnce | src/storage/filesystem.rs:62-68 | In every run and every stretch of it without an expiry of the digest, at most one put creates it, and none if the file was already there. |
| FilesystemStore.NeverReplaced | src/storage/filesystem.rs:62-68 | In every run a stored file keeps its content until it expires. |
| FilesystemStore.ReturnedWasStored | src/storage/filesystem.rs:53-69 | Every put that returned had its file in place at an earlier instant, and it is there ever since unless it expired. |
| FilesystemStore.StoredWasAsked | src/storage/filesystem.rs:59-63 | In every run, whatever a file holds is what some client asked to store under that digest. |
| FilesystemStore.CreatedLeftItsBytes | src/storage/filesystem.rs:61-63 | A put answered Created stored its own source, which stays until it expires. |
| FilesystemStore.PutAlone | src/storage/filesystem.rs:53-69 | From any state an undisturbed put goes through and answers as the atomic put. |
| AzureStore.CopyIsPut | src/storage/azure.rs:132-146 | The conditional copy is the atomic put, whether or not its reply arrives. |
| AzureStore.SettleIsInvisible | src/storage/azure.rs:64-68 | A pending copy completing changes nothing a client was promised. |
| AzureStore.Refines | src/storage/azure.rs:95-162 | Each stage, copy, wait or cleanup step of any interleaving is one atomic put-if-absent step or none. |
| AzureStore.InvariantKept | src/storage/azure.rs:95-162 | The invariant behind the refinement holds after every step. |
| AzureStore.CreatedAtMostOnce | src/storage/azure.rs:95-162 | In every run and every stretch of it without an expiry of the digest, at most one put creates it, and none if the destination already existed. |
| AzureStore.SuccessMeansReadable | src/storage/azure.rs:64-76 | The step that decides a put successful is taken while the object is committed, not merely pending. |
| AzureStore.ReturnedWasReadable | src/storage/azure.rs:64-162 | In every run, every put that returned had its object committed at an earlier instant, and the object has been readable ever since unless it expired. |
| AzureStore.NeverReplaced | src/storage/azure.rs:132-156 | In every run a destination keeps its content until it expires. |
| AzureStore.StoredWasAsked | src/storage/azure.rs:118-150 | In every run, whatever a destination holds or will hold is what some client asked to store under that digest. |
| AzureStore.CreatedLeftItsBytes | src/storage/azure.rs:132-150 | A put answered Created stored its own source, which stays until it expires. |
| AzureStore.PutAlone | src/storage/azure.rs:95-162 | From any state with no copy of the digest pending, an undisturbed put goes through and answers as the atomic put. |
| Metadata.MemoryMetadata.RegisterBlob | src/metadata/memory.rs:33-45 | Adds exactly the one (namespace, digest) to the visible set. |
| Metadata.MemoryMetadata.GetBatchLoop | src/metadata/mod.rs:80-92 | The default loop returns the held results in request order, duplicates included. |
| Metadata.MemoryMetadata.CommitLocked | src/metadata/memory.rs:55-71 | The first value stays; comparing encoded bytes tells a repeat from a conflict. |
| Metadata.MemoryMetadata.CommitManifestLocked | src/metadata/memory.rs:89-117 | Compare-and-swap on the entity tag, None expecting absence. |
| Metadata.RowOfInjective | src/metadata/postgres.rs:207-207 | The wrapping cast to i64 never sends two u64 digests to one row key. |
| Metadata.OrdinalsPick | src/metadata/postgres.rs:75-85 | Every ordinal the join returns indexes the filtered request, and picks out the rows held. |
| Metadata.VisibleAgrees | src/metadata/postgres.rs:41-86 | The ordinal query answers any list of u64 digests exactly as the in-memory filter, order and duplicates kept, without error. |
| Metadata.GetBatchAgrees | src/metadata/postgres.rs:222-274 | The correlated probes answer any list exactly as the in-memory loop. |
| Metadata.BatchAccountsForAll | src/server.rs:699-715 | The batch answers exactly the held actions, each record naming its own, and requested minus results is the number of misses. |
| Metadata.RegisterAgrees | src/metadata/postgres.rs:179-212 | Registering a representable digest keeps the two stores in agreement, whatever the put did. |
| Metadata.CommitManifestAgrees | src/metadata/postgres.rs:317-344 | The conditional statement answers and acts as the locked compare-and-swap; creating a key beyond i64 is a constraint error instead. |
| Metadata.CommitAgrees | src/metadata/postgres.rs:276-298 | A result commit with nothing in between answers and acts as the locked commit, and keeps the stores in agreement. |
| Metadata.StoresAreAlike | src/metadata/postgres.rs:32-344 | From two empty stores, after any sequence of writes of representable sizes, every query of any u64 digests and every next write is answered alike. |
| Metadata.PostgresMetadata.RegisterBlob | src/metadata/postgres.rs:179-212 | Fails exactly beyond i64; otherwise only the one row changes and its age restarts exactly for a new row or a Created object. |
| Metadata.PostgresMetadata.CommitManifestStatement | src/metadata/postgres.rs:317-344 | The affected-row count turned into Created, Updated or PreconditionFailed. |
| Metadata.PostgresMetadata.Sweep | src/metadata/postgres.rs:88-140 | New tables are the swept ones and the three counts are the numbers of rows removed. |
| Metadata.PostgresMetadata.TouchBlobs | src/metadata/postgres.rs:142-177 | Only the access times of requested rows over an hour stale move, to now; filtering unrepresentable digests loses nothing. |
| Metadata.SweepRemovesExactly | src/metadata/postgres.rs:88-140 | Removes exactly aged blob rows, results with a present top-level digest not visible afterwards, and stale manifests, and changes no survivor. |
| Metadata.SweptResultsAreServable | src/metadata/postgres.rs:103-122 | A result whose references fit i64 survives a sweep if and only if the visibility query afterwards still finds its metadata and output root, where it has them. |
| Metadata.SweepIsIdempotent | src/metadata/postgres.rs:88-140 | Repeating a sweep at the same instant removes nothing; no surviving result dangles. |
| Metadata.TouchCommutesWithSweep | src/metadata/postgres.rs:142-177 | Recording accesses never changes what a sweep removes. |
| CommitRace.CommitRefines | src/metadata/postgres.rs:276-298 | On every key whose row no sweep deleted, any interleaving of inserts, selects and sweeps gives every client the answer of the locked in-memory commit performed at its insert, and the same stored value. |
| CommitRace.WriteOnceHolds | src/metadata/postgres.rs:276-298 | One Created per key, and none for a key already there; Created or AlreadyExists exactly when the stored value is the client's own, Conflict otherwise; the row is never missing after a conflict. |
| CommitRace.FirstValueStays | src/metadata/postgres.rs:214-220 | From any instant on, every later read returns the value that was there first. |
| CommitRace.StaysIffSpared | src/metadata/postgres.rs:214-220 | The first value is read at every later instant if and only if no later sweep deletes its row. |
| CommitRace.MissingIffGap | src/metadata/postgres.rs:103-122 | From an instant when a row is there, it is missing later if and only if some later sweep deleted it and no insert of it took effect after that. |
| CommitRace.DisappearedIffGap | src/metadata/postgres.rs:288-291 | A client reports "disappeared after conflict" if and only if such a gap lies between its insert and its select. |
| CommitRace.UnreferencedStays | src/metadata/postgres.rs:99-122 | A stored result without metadata and output root stays through every sweep. |
| CommitRace.UnreferencedIsWriteOnce | src/metadata/postgres.rs:276-298 | A key only ever given such results is write-once in every run, sweeps and all. |
| CommitRace.SweepBreaksCommit | src/metadata/postgres.rs:276-298 | For every first value with a top-level reference there is a run with one sweep where the error occurs and two clients create the same key with different values. |
| Manifests.PreconditionInvertsQuoting | src/server.rs:1353-1382 | A tag is expected exactly for If-Match holding it quoted, none exactly under If-None-Match: *, and the two errors split the rest. |
| Manifests.AppliedExactly | src/server.rs:794-824 | A write is applied if and only if its body is a valid manifest for the key and the tag, or the absence, that it presents is the one stored; the refusals are told apart by cause. |
| Manifests.AppliedReplacesSeen | src/server.rs:785-830 | An applied write replaced exactly the manifest its client had seen, and stored the tag of the new body; a refused one changed nothing. |
| Manifests.PredictionsOnlyGrow | src/server.rs:760-830 | In every interleaving of merging clients, between any two instants each key's predictions only grow. |
| Manifests.NoLostUpdate | src/server.rs:760-830 | A key with an acknowledged write is served, every prediction acknowledged to any client is in what is served, and the served tag is the hash of the served canonical body. |
| Manifests.GrowsOnlyByMerging | src/server.rs:785-830 | An applied write keeps all predictions if and only if it merged what the client saw. |
| Retention.CreatedAtIsStored | src/metadata/postgres.rs:179-212 | Over any run and namespaces, each row's created_at is an instant at which its object was stored. |
| Retention.SurvivorsAreRecent | src/metadata/postgres.rs:88-99 | After a sweep of age S every surviving row's object was there at most S ago. |
| Retention.OlderIffOvertaken | src/metadata/postgres.rs:185-204 | A row is older than its present object if and only if another namespace's upload wrote that object later than the row's age, while the row was there, with no expiry of the object and no drop of the row since. |
| Retention.DroppedIsGoneOrOvertaken | src/metadata/postgres.rs:88-99 | With an applied lifecycle age at most S, a sweep of age S drops only rows whose object is gone or that were so overtaken. |
| Retention.AtRiskIffOvertaken | src/metadata/postgres.rs:185-204 | A present row of a present object can be dropped by a sweep whose age has not expired the object if and only if the row was overtaken. |
| Retention.RowsFollowObjects | src/metadata/mod.rs:51-64 | With one uploading namespace a row is never older than its present object. |
| Retention.SweepDropsOnlyExpired | src/metadata/postgres.rs:88-99 | With one uploading namespace and an applied lifecycle age at most S, a sweep drops only rows whose object is gone. |
| Retention.SharedObjectLosesARow | src/metadata/postgres.rs:185-197 | With two namespaces a run exists where a sweep drops the row of an object that is there. |
| Retention.ReadsChangeNoAge | src/metadata/postgres.rs:142-177 | Erasing every read from any run leaves the same objects, rows, ages, results and manifests. |
| JwksRefresh.AttemptsAreRare | src/auth.rs:312-332 | In every run of concurrent and cancelled verifications, attempts i and j are at least (j - i) cooldowns apart, so a window T holds at most T / cooldown + 1. |
| JwksRefresh.RunKeepsInv | src/auth.rs:257-332 | Mutual exclusion of refreshes, spacing of attempts and "cached keys are the last installed" hold throughout every run. |
| JwksRefresh.OnlyInstallChangesKeys | src/auth.rs:326-331 | The keys and their fetch time change only when a fetched set is installed; a failed or dropped refresh leaves them. |
| JwksRefresh.AcceptedUnderLatestKeys | src/auth.rs:257-310 | A token is accepted only at a final read under a valid signature, by the first key in the set installed last that carries the token's own key id, and one whose stated algorithm, use and operations permit it. |
| JwksRefresh.FindFacts | src/auth.rs:279-282 | Looking up a key id gives the first key that carries it, and nothing exactly when none does. |
| JwksRefresh.JudgedExactly | src/auth.rs:277-299 | The final read, exactly: not found if and only if no cached key carries the id; else the first that does decides, unsuitable if its own restrictions forbid, else by the signature. |
| JwksRefresh.HeadersAreChecked | src/auth.rs:258-262 | Every verification past its header named a key id and an allowed algorithm. |
| JwksRefresh.UnknownKeyIsPursued | src/auth.rs:264-277 | A token that no cached key's id matched at its first look is refused for want of the key only if a refresh was attempted since that look or less than a cooldown before; a failed refresh refuses only such tokens. |
| JwksRefresh.JudgedByTimelyKeys | src/auth.rs:264-277 | No token is judged by keys that were past the refresh interval at its first look unless they have been replaced since, or a refresh was attempted since or less than a cooldown before. |
| Namespaces.SplitAtSlash | src/auth.rs:561-563 | Splitting at a slash splits the component list there. |
| Namespaces.MatchIsCover | src/auth.rs:566-572 | For every pattern and text, textual matching is coverage of components: everything, equality, or proper extension below a wildcard. |
| Namespaces.PatternGrantsDescendants | src/auth.rs:566-572 | A valid prefix with a wildcard grants exactly the namespaces whose components properly extend the prefix's. |
| Namespaces.IncomparablePatternsAreDisjoint | src/auth.rs:566-572 | Component-incomparable prefixes never grant the same namespace. |
| Namespaces.CommonGrantIffComparable | src/auth.rs:555-572 | Two wildcard prefixes share a namespace if and only if one's components begin the other's. |
| Namespaces.ComponentsAreResolved | src/auth.rs:561-563 | The component rule accepts exactly the paths equal to their own lexical resolution. |
| Namespaces.ValidNamespacesDoNotAlias | src/auth.rs:555-564 | Two accepted namespaces that resolve to the same path are the same text. |
| Namespaces.AuthorizedIsConfigured | src/auth.rs:163-229 | Access is given only under protocol 1 to the valid namespace named, and only if the server is open or a configured pattern covers its components. |
| Namespaces.GrantDecidesWrites | src/auth.rs:196-202 | A configured token is judged by its first grant alone: a write succeeds exactly when one of its write patterns covers the components. |
| Namespaces.GrantDecidesReads | src/auth.rs:181-202 | A read succeeds exactly when an anonymous pattern or a read pattern of the token's first grant covers the components. |
| Namespaces.IdentityDecides | src/auth.rs:204-228 | A bearer who is no configured token is judged by the first provider with its issuer alone: access if and only if it verifies and a rule of that provider matches the verified claims and covers the components. |
| Namespaces.StrangersAreUnauthorized | src/auth.rs:190-210 | Without a bearer token, or with one that is neither configured nor of a known issuer, there is no access beyond the anonymous one. |
| Namespaces.FirstRefusals | src/auth.rs:163-183 | A wrong protocol and an invalid namespace are refused first, each exactly for its cause; a server open to all admits the rest. |

## Left out

- HTTP routing, compression layers, tracing, configuration and `main`: plumbing over libraries; only the pack transport bound is kept.
- JWT signatures and claims, discovery and JWKS fetching: outcomes of foreign calls, taken as arbitrary.
- BLAKE3, SHA-256, serde and canonical JSON: function parameters; that a stored result parses back to itself is part of `MemoryMetadata.Valid`.
- Schemas of action descriptors and metadata (src/model.rs): one partial function per object kind, since each is a long conjunction.
- S3 storage: one conditional put, which is `PutIfAbsent` itself.
- SQL isolation levels: each statement, and the sweep transaction, is one atomic step; only the primary keys and `size >= 0` are used.
- Metrics: side counters; only the subtraction behind the batch miss count is modelled.
- `missing_blobs`: a filter over the visibility query, which would add an easy member.
- PackReader.Push: the counters are unbounded; `PackGrammar.EveryByteIsAccounted` bounds them by the number of bytes read, so u64 does not overflow before that many bytes.
- PackDownload.StreamAll: objects are fetched one after another; the source prefetches several and still yields them in order.
- PackUpload.PutBlobPack: one request against a store no one else changes meanwhile; interleavings of put and register are in `Publishing`, whose uploads are single verified blobs.
- TreeWalk.ValidateTree: the store is fixed during the walk; the same walk among other clients' steps is in `Publishing`.
- Metadata.CommitManifestAgrees: keys beyond i64 can be created in memory but not in PostgreSQL; the lemma states that difference.
- Metadata.StoresAreAlike: writes one after another; interleaved commits are in `CommitRace`, and sizes beyond i64, which only PostgreSQL refuses, are left to the lemmas per operation.
- Metadata.PostgresMetadata.Sweep: a result's own references are taken to fit i64, as every published one does; PostgreSQL would fail the cast otherwise.
- Retention.CreatedAtIsStored: an upload is one step, put then register at one instant; the delay between the two is not modelled.
- Namespaces.CommonGrantIffComparable: assumes two characters of room below the 255-byte limit, without which a prefix has no descendant at all.
