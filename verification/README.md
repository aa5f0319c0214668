# Proofs about the Bazel remote cache server

The server accepts Bazel's HTTP cache requests on one runner and stores the objects in a backend of immutable keys
that many runners share. In *objects* mode every blob and every action result has its own backend key. In *packs* mode
a runner stages writes locally, uploads them in CARv2 packs, and publishes an immutable manifest as the commit point of
each pack; other runners list manifests and merge them. Nothing coordinates the runners.

What is modelled, and in which form:

- **Packed store** (`Manifests`, `PackIndex`, `References`, `Sorting`, `Staging`, `Draining`, `Publishing`,
  `PackStore`).
  `Staging` and `PackIndex` hold the specification on values: staging, batch selection, the pack and manifest of a
  batch, merging. `PackStore.PackStore` is the object itself, with its maps, order lists and byte count updated in
  place, and every method is proved equal to the specification. Merging, sorting and deduplication are proved
  independent of the order in which Go ranges over maps.
- **Packed protocol** (`PackedWorld`, `PackedInvariant`, `PackedCommit`, `PackedRuns`, `PackedTheorems`,
  `FreshReader`, `EndToEnd`, `Boundaries`).
  A state machine of any number of runners over one backend. Saves fail, fail after storing, and runners crash at any
  step; a runner discovers any subset of what is loadable. `RunKeepsInv` covers every run, and the theorems read
  it off: commit point, closure in ancestry, full drain, and refinement of a plain key/value map.
  `Publishing.FlushRefinesSteps` ties the imperative flush to the protocol's steps. An action is staged with the closure
  that a passing validation of its bytes collects, and `EndToEnd` follows it from there to a reader; `Boundaries`
  holds the two runs in which the reader does not get what was published.
- **Action-result validator** (`Closures`, `Validation`, `Validator`, `Completeness`). `Closures` defines reachability
  through blobs, trees and directories as paths in a graph that may be cyclic. The validator object with its visited
  maps, object limit and worklist terminates, and passes exactly when everything reachable is present and sound.
  `Completeness` shows that a verdict about one copy of the storage holds of every certified other.
- **REAPI messages** (`Wire`, `Messages`, `ActionResults`, `Trees`, `ActionEncoding`, `TreeEncoding`, `RepeatedFields`,
  `SmallResults`). The protobuf field walk and the message parsers, proved against declarative readings of the field
  list, with round trips over encoders that say exactly which messages are accepted. The wire format is that of the
  Protocol Buffers "Encoding" specification ("Base 128 Varints", "Message Structure").
- **Server concurrency** (`SingleFlight`, `ObjectsMode`, `ObjectCache`, `Limiter`). State machines of unboundedly many
  requests for single-flight publication, for publish-after-closure and for the write-once local objects with
  validation before serving, and the upload limiter as an object whose slots are the earliest evenly spaced schedule.

State machines are deterministic step functions over arbitrary sequences of steps; a step whose guard does not hold
changes nothing, so "for every sequence of steps" is "for every interleaving". Steps that can go several ways carry
their outcome.

Libraries are parameters of the model (`Environment.Env`): SHA-256 (section 6.2 of FIPS 180-4), CIDs, the DAG-CBOR codec
and CARv2 packs. `Env.Good` says what is assumed of them: no SHA-256 collision among the byte strings that occur in the
run (`handled`), CIDs that are injective in the hash, a codec that decodes what it encoded, and packs that open to
the blocks they were built from. `Environment.PromisesCanBeKept` shows that these assumptions can hold together while
the empty blob, any blob, a pack of it and any encoded manifest occur.

`dafny verify dfyconfig.toml` checks everything.

Where the code and its documentation differ, the model follows the code:

- `docs/carv2-manifest-dag-concept.md` and the check at `internal/server/pack_store.go:665` describe heads as manifests
  no other manifest lists as a parent. Applying a manifest always makes it a head
  (`internal/server/pack_store.go:717`), so discovery may keep a parent as a head.
  `PackIndex.HeadIffNotListedLater` says exactly which IDs are heads, `PackIndex.HeadsMatchDocumentation` exactly when
  that agrees with the documentation, and `PackedTheorems.DiscoveryKeepsAParent` shows it on a child and its parent.
- The limiter is documented to stay below 200 uploads a minute (`internal/server/limiter.go:9-10`). With the accepted
  setting 199 a burst gets 200 slots within a minute; `Limiter.Below200IffAtMost198` says exactly which settings meet
  the documented aim.
- A manifest is documented to advertise only data that a future runner can restore
  (`internal/server/pack_store.go:22-25`). Packs are downloaded up to the maximum size of a blob
  (`internal/server/pack_store.go:335`), which the pack of a blob of that size exceeds.
  `FreshReader.EveryRunnerRestores` says exactly which entries can be read, `FreshReader.PublishedManifestLoads` which
  manifests, and `Boundaries.OversizedPackIsNotRestored` shows a blob that cannot be restored.
- An action is published once its closure is (`internal/server/pack_store.go:562-587`). The empty blob never counts as a
  member (`internal/server/action_result_validation.go:169-173`), but validation loads it if it is a directory
  (`internal/server/action_result_validation.go:175-205`). So an action that reaches the empty directory can be
  published without it and is then not served. `EndToEnd.PublishedActionIsServed` says exactly when an action is, and
  `Boundaries.EmptyDirectoryIsNotServed` shows one that is not.
- Staging a second, different value for a pending action (`internal/server/pack_store.go:157-166`) drops it from the map
  but neither from the order list nor from the byte count. `Staging.StageActionKeepsBooksIff` says the books are kept
  exactly when that branch is not taken; over runs of PUT requests it never is (`PackedTheorems.StagedExactlyOnce`).

## Model

| member | source | states |
|---|---|---|
| PackedTheorems.CommitPoint | internal/server/pack_store.go:386-423 | in every run, with crashes and failed saves anywhere, a manifest key in the backend holds an encoded manifest whose packs are there under the declared key, ID and size and whose entries name blocks in them |
| PackedTheorems.PublishedManifestDecodes | internal/server/pack_store.go:407-418 | a published manifest within the entry limits passes validation and decodes to its own entries in canonical order |
| PackedTheorems.ClosureInAncestry | internal/server/pack_store.go:507-540 | every action of a published manifest was staged with a closure whose non-empty members are listed by that manifest or by one reachable through Parents |
| PackedTheorems.ClosurePacksLeadToClosure | internal/server/pack_store.go:515-532 | the closure packs of an action entry about to be published are exactly packs of its closure: each non-empty member is in a listed pack and each listed pack holds a member |
| PackedTheorems.PassedClosureIsStaged | internal/server/server.go:506-514 | what a passing validation collects is staged, when its lookups succeeded among local and indexed objects |
| EndToEnd.PublishedActionIsComplete | internal/server/pack_store.go:507-540 | in every run the bytes of a published action pass validation against nothing but the blobs published by its manifest and that manifest's ancestry, and the empty blob |
| EndToEnd.PublishedActionIsServed | internal/server/server.go:253-297 | after any run whose manifests are within a reader's limits, a fresh reader resolves a published, agreed action to the staged bytes, or to an error exactly if its pack exceeds the download limit; the bytes pass validation against the blobs it resolves if and only if the packs of the real closure are within the limit and the empty blob is among those blobs or no empty directory is reached |
| Boundaries.EmptyDirectoryIsNotServed | internal/server/action_result_validation.go:169-205 | an action whose only output is an empty directory, published before the empty blob is, is found by a fresh reader and fails its validation |
| Boundaries.EmptyDirectoryHappens | internal/server/action_result_validation.go:169-205 | there is an environment in which that run takes place |
| Boundaries.OversizedPackIsNotRestored | internal/server/pack_store.go:325-373 | a blob of the accepted size whose pack exceeds the download limit is listed by a fresh reader and cannot be read |
| Boundaries.OversizedPackHappens | internal/server/pack_store.go:325-373 | there is an environment in which this happens to a blob of exactly the maximum size |
| Completeness.RealHashesSuffice | internal/server/action_result_validation.go:85-173 | any genuine storage holding the collected hashes, with the empty blob, holds a complete and sound closure |
| Completeness.CompleteIff | internal/server/action_result_validation.go:169-205 | genuine storage holds a complete and sound closure if and only if it holds the collected hashes, and the empty blob or no empty directory that is reached |
| Completeness.VouchedOnCertified | internal/server/action_result_validation.go:175-213 | a verdict about one copy of the storage holds of every other with certified entries for what was confirmed |
| PackedTheorems.HeadsCoverApplied | internal/server/pack_store.go:714-717 | in every reachable state each applied manifest is a head or an ancestor of one |
| PackedTheorems.FlushLeavesOneHead | internal/server/pack_store.go:420-421 | what a flush commits leaves the new manifest as the only head |
| PackedTheorems.StagedExactlyOnce | internal/server/pack_store.go:131-144 | over runs of PUTs and flushes the order lists enumerate the pending maps, the byte count is exact, and each staged blob is either pending or indexed, never both |
| PackedTheorems.NoUnavailablePack | internal/server/pack_store.go:303-307 | the "unavailable pack" error is unreachable: every pack an index entry names is described by the index |
| PackedTheorems.FullDrain | internal/server/pack_store.go:375-384 | once no CAS PUT is in flight, any number of flushes after which nothing can be flushed leave no pending blob and no pending action |
| PackedRuns.RunKeepsInv | internal/server/pack_store.go:386-423 | the protocol invariant holds after every sequence of steps of any number of runners |
| PackedRuns.StepKeepsInv | internal/server/pack_store.go:386-423 | every single step of one runner keeps the invariant of all |
| PackedCommit.NewManifestWellFormed | internal/server/pack_store.go:507-540 | the manifest a flush is about to publish is one every reader accepts |
| PackedCommit.NewClosureAnchored | internal/server/pack_store.go:517-531 | the closure of an action in the new manifest is anchored in it or in its ancestry |
| PackedInvariant.ApplyKeepsIndex | internal/server/pack_store.go:694-718 | merging a backend manifest keeps the index covered by its heads, restorable, and without dangling packs |
| PackedInvariant.DiscoverOk | internal/server/pack_store.go:634-670 | discovering any loadable subset yields an index with those guarantees |
| PackedWorld.SameIdSameEntries | internal/server/manifest.go:50-65 | manifests with the same CID list the same entries |
| FreshReader.FreshReaderRefinesMap | internal/server/pack_store.go:188-243 | after any run whose manifests are within a reader's limits, a reader that loads all of them resolves published blobs and agreed actions to the staged bytes, or to an error exactly if the pack exceeds the download limit, and everything else to a miss |
| FreshReader.JoiningRunnerReads | internal/server/pack_store.go:634-670 | a runner that joins and discovers every manifest reads in this way |
| FreshReader.EveryRunnerRestores | internal/server/pack_store.go:196-243 | in every reachable state each runner resolves a blob of its index to bytes of that digest and size, and an undisputed action to bytes of the indexed CID, if and only if the pack is at most the maximum blob size; otherwise reading it is an error |
| FreshReader.PublishedManifestLoads | internal/server/pack_store.go:672-692 | in every run a published manifest loads, with its own entries, if and only if its bytes and its number of entries are within the reader's limits |
| FreshReader.FetchStoredBlock | internal/server/pack_store.go:325-373 | every check on the way from pack download to block passes for a block stored in a pack within the download limit, and the bytes are the staged ones |
| FreshReader.MergeOrderIrrelevant | internal/server/pack_store.go:658-668 | in every reachable state, merging the same published manifests in any order and with repeats gives the same index |
| PackIndex.MergeOrderIndependent | internal/server/pack_store.go:694-718 | given agreeing descriptors and entries, merging is independent of order and repetition |
| PackIndex.ConflictIffDisputed | internal/server/pack_store.go:705-712 | a digest is in conflict exactly when two merged manifests give it different CIDs |
| PackIndex.KeepAllIsLeast | internal/server/pack_store.go:695-704 | merging keeps for each key an entry of least rank among all offered |
| PackIndex.RecordActionsFinds | internal/server/pack_store.go:705-713 | every offered action digest is recorded and the conflicts are exactly the disagreements |
| PackIndex.HeadIffNotListedLater | internal/server/pack_store.go:663-668 | an ID is a head exactly when it was applied and no manifest applied later lists it as a parent |
| PackIndex.HeadsMatchDocumentation | internal/server/pack_store.go:641-668 | discovery keeps the documented heads if and only if every listed manifest is also listed by a later one |
| PackIndex.HeadsKeepAParent | internal/server/pack_store.go:658-668 | merging a child and its parent in ID order keeps both as heads if the child's ID is first, and otherwise the child alone |
| PackedTheorems.DiscoveryKeepsAParent | internal/server/pack_store.go:634-670 | discovery of a child and its parent keeps the parent as a head exactly when the child's ID sorts first |
| PackIndex.ApplyKeepsCover | internal/server/pack_store.go:714-717 | applying any manifest keeps every applied one a head or an ancestor of one |
| Staging.StageCasKeepsBooks | internal/server/pack_store.go:131-144 | staging a blob keeps order list, map and byte count in step |
| Staging.StageActionKeepsBooksIff | internal/server/pack_store.go:157-176 | staging an action keeps the books exactly when the digest is not pending with another CID |
| Staging.DifferentValueIsDisputed | internal/server/pack_store.go:157-166 | a second, different value for a pending action leaves the digest in conflict and neither value to publish |
| Staging.CommitKeepsBooks | internal/server/pack_store.go:420-421 | a committed batch moves its blobs from pending to indexed and keeps the books |
| Staging.SelectActionsMembers | internal/server/pack_store.go:562-587 | the selected actions are exactly the pending ones whose closure is selected or indexed |
| Draining.BatchIsFifoRun | internal/server/pack_store.go:542-560 | a batch is a first-in first-out run: a single blob or at most the target size, stopping only when the next does not fit |
| Draining.FlushNextFlushes | internal/server/pack_store.go:607-622 | a successful flush removes exactly its run from the pending side and indexes exactly its blobs |
| Draining.FlushShrinks | internal/server/pack_store.go:378-383 | a flush that had something to publish leaves strictly less pending, so draining terminates |
| Draining.PackCountBound | internal/server/pack_store.go:375-393 | draining B bytes with target T publishes at most 2*(B/T)+1 packs, actions included |
| Draining.DrainLeavesUnpublishable | internal/server/pack_store.go:375-384 | after a drain exactly the actions with a closure member that was never held are still pending |
| Publishing.FlushRefinesSteps | internal/server/pack_store.go:386-423 | one imperative flush is the protocol steps SavePack, SaveManifest and Apply, or their failures, however its attempts end |
| Publishing.FlushStepsAreSteps | internal/server/pack_store.go:386-423 | the composed flush is three steps of the protocol's step function in a row |
| Publishing.FlushedStore | internal/server/pack_store.go:398-422 | a flush that fails or has nothing to do leaves the store as it was; a successful one is a drain step |
| Publishing.Backend.PublishOnce | internal/server/server.go:589-628 | without concurrency: a published key is skipped, a failed save is not remembered, and a save that does not fail publishes the key |
| PackStore.PackStore.StageCas | internal/server/pack_store.go:131-144 | new state is that of the specification, and a flush is requested when the target is reached |
| PackStore.PackStore.StageAction | internal/server/pack_store.go:146-176 | new state is that of the specification in all three branches, and a flush is requested when a new action reaches the target |
| PackStore.PackStore.SelectCas | internal/server/pack_store.go:542-560 | the greedy loop with its skip and both early exits selects the specified run |
| PackStore.PackStore.SelectActions | internal/server/pack_store.go:562-587 | the loop selects the specified actions |
| PackStore.PackStore.BuildPack | internal/server/pack_store.go:430-505 | gives the bytes and ID of the pack of a non-empty batch and one entry per block with digest, CID and size; fails only if a file cannot be read or written or the batch is empty |
| PackStore.PackStore.ManifestForPack | internal/server/pack_store.go:507-540 | the manifest of the batch, with sorted parents and closure packs |
| PackStore.PackStore.ApplyManifest | internal/server/pack_store.go:694-718 | the four in-place merge loops compute the specified index |
| PackStore.PackStore.RemovePending | internal/server/pack_store.go:607-622 | new state is that of the specification |
| PackStore.Compact | internal/server/pack_store.go:624-632 | compacting in place leaves the surviving keys, in order, at the front |
| PackStore.PackStore.FlushOne | internal/server/pack_store.go:386-423 | the outcome is that of one flush for some ends of its builds and saves; on error the store is unchanged; if neither files nor the backend fail, any batch that can be selected is published and committed, pack and manifest |
| PackStore.PackStore.Flush | internal/server/pack_store.go:375-384 | terminates; every state on the way is a flush of the one before; an error-free drain leaves only unpublishable actions, within the pack bound; there is no error if neither files nor the backend fail |
| PackStore.PackStore.Discover | internal/server/pack_store.go:634-692 | the index merges, in ID order, some set of loadable listed manifests, and all of them if loads do not fail |
| PackStore.ParseManifestKey | internal/server/pack_store.go:720-727 | succeeds exactly on manifest keys of a valid ID and returns that ID |
| PackStore.SortedStrings | internal/server/pack_store.go:810-817 | the sorted list of the set, whatever order the map is ranged over |
| References.SortDigestReferences | internal/server/pack_store.go:795-808 | the first reference of each hash, sorted by hash, whatever order the map is ranged over |
| References.SortReferencesMembers | internal/server/pack_store.go:795-808 | strictly sorted, nothing invented, and nothing lost when sizes are consistent |
| Sorting.SortedSetUnique | internal/server/pack_store.go:810-817 | sorting forgets the enumeration order |
| Sorting.PrefixFirst | internal/server/pack_store.go:810-817 | a proper prefix sorts first |
| Sorting.FirstDifferenceDecides | internal/server/pack_store.go:810-817 | otherwise the first character in which two strings differ decides their order |
| Manifests.Validate | internal/server/manifest.go:285-336 | accepts exactly the well-formed manifests |
| Manifests.AcceptedUpToTheLimit | internal/server/manifest.go:285-336 | a manifest of different valid blobs is accepted exactly if there are at most 100000 |
| PackedTheorems.AcceptedManifestIsIndexed | internal/server/pack_store.go:694-718 | an accepted manifest on its own is indexed entry by entry, without conflict |
| PackedTheorems.AnyDiscoveryIsValid | internal/server/pack_store.go:634-718 | whatever a backend holds, the discovered index has valid digests, CIDs that fit them, and no entry in an undescribed pack |
| Manifests.CanonicalWellFormed | internal/server/manifest.go:285-336 | validation does not depend on the order of any list |
| Manifests.ManifestNodeRoundTrip | internal/server/manifest.go:84-283 | reading back the node of a manifest gives its canonical order if it is well formed and an error otherwise |
| Manifests.DecodeInvertsEncode | internal/server/manifest.go:50-82 | decoding an encoded manifest under its own CID gives its canonical form exactly when it is well formed |
| Manifests.EncodeIgnoresOrder | internal/server/manifest.go:84-121 | the same entries in any order, with the closure packs of each action in any order, encode to the same bytes and CID |
| Manifests.Decode | internal/server/manifest.go:67-82 | the decoder computes the specified result, CID check included |
| Validator.ValidateActionResultClosure | internal/server/action_result_validation.go:41-83 | passes only if everything reachable is sound and confirmed, by the backend alone when publishing, and then with an exact collected closure and all trees and directories held locally; every failure is justified; on reliable unchanging storage passes if and only if all is available and sound |
| Validator.ActionResultValidator.ValidateDirectoryClosure | internal/server/action_result_validation.go:136-167 | the worklist terminates on cyclic graphs and covers all reachable directories |
| Validator.ActionResultValidator.ValidateTree | internal/server/action_result_validation.go:109-134 | a passing tree is recorded with its size and all its files are done |
| Validator.ActionResultValidator.ValidateBlob | internal/server/action_result_validation.go:85-107 | a passing blob is the implicit empty one or recorded and present |
| Validator.ActionResultValidator.LoadCas | internal/server/action_result_validation.go:175-205 | loads an object that is held locally with the declared size and, when publishing, also in the backend, or fails with the reason |
| Validator.ActionResultValidator.CasExists | internal/server/action_result_validation.go:207-212 | found means in the backend when publishing, held locally in packs mode, and in either place otherwise |
| Validator.ActionResultValidator.ReserveObject | internal/server/action_result_validation.go:214-224 | succeeds exactly within the object limit |
| Validation.FinishedMeansComplete | internal/server/action_result_validation.go:65-83 | a finished record covers everything reachable |
| Validation.ClosureIsExact | internal/server/action_result_validation.go:169-173 | the collected hashes are exactly the real hashes of the graph |
| Validation.OverLimit | internal/server/action_result_validation.go:214-224 | exceeding the limit means the graph has more than 100000 distinct objects |
| Validation.SoundUpToTheLimit | internal/server/action_result_validation.go:214-224 | an action result of nothing but different blobs is sound exactly if there are at most 100000 |
| Closures.PresentIffClosed | internal/server/action_result_validation.go:65-173 | everything reachable is present if and only if some set of directories holds the roots and its own subdirectories and all of it, the trees, their files and the named blobs are present |
| Wire.VisitWireFields | internal/server/reapi_wire.go:72-112 | the loop visits the specified fields, or fails exactly when the message is malformed |
| Wire.WalkConcat | internal/server/reapi_wire.go:72-112 | walking a well-formed message followed by anything visits its fields and then those of the rest |
| Wire.WalkInvertsEncode | internal/server/action_result_test.go:368-384 | walking encoded fields gives the fields back |
| Wire.FixedFieldWalk | internal/server/reapi_wire.go:72-112 | a fixed-width field is visited without its value |
| Wire.GroupWalk | internal/server/reapi_wire.go:72-112 | a group is visited as one field, whatever it holds |
| Wire.BadTagRejected | internal/server/reapi_wire.go:72-112 | a bad field number, an unknown wire type and a group end without a group are rejected |
| Wire.ShortFieldRejected | internal/server/reapi_wire.go:72-112 | a field that goes beyond the end of the message is rejected |
| Wire.LongVarintRejected | internal/server/reapi_wire.go:72-112 | a varint that does not end or exceeds 64 bits is rejected |
| Wire.VarintRoundTrip | internal/server/action_result_test.go:373-376 | consuming an appended varint gives the value back |
| Messages.ParseDigest | internal/server/reapi_wire.go:13-52 | one hash in the pattern and at most one size that fits int64, and an error exactly otherwise |
| RepeatedFields.DigestAccepted | internal/server/reapi_wire.go:13-52 | a digest is accepted exactly with one valid hash and at most one size below 2^63, which is 0 if left out |
| Messages.ParseNodeDigest | internal/server/reapi_directory.go:45-72 | exactly one digest in field 2 |
| TreeEncoding.NodeRoundTrip | internal/server/reapi_directory.go:45-72 | a node is read as the digest in field 2, whatever else it holds, exactly if there is one |
| Messages.ParseDirectory | internal/server/reapi_directory.go:15-43 | the digests of all file and directory nodes, in order |
| TreeEncoding.DirectoryMessageRoundTrip | internal/server/reapi_directory.go:15-43 | a directory message is read as the digests of its file nodes and of its directory nodes, each in order, exactly if every node names one |
| Trees.ParseTree | internal/server/reapi_directory.go:74-133 | exactly one root, consistent children, every named directory embedded with its size, and all files once |
| TreeEncoding.TreeRoundTrip | internal/server/reapi_directory.go:74-133 | a tree message is read as the files of root and children, in order and each hash once, exactly if there is one root, every named directory is among the children with its size, and no sizes clash |
| Trees.TreeClosure | internal/server/reapi_directory.go:74-133 | every directory reachable from the root by child digests is embedded with the declared size and its files are in the list, which repeats no hash |
| ActionResults.DigestCollection.Add | internal/server/action_result.go:24-39 | fails exactly when the hash is there with another size; keeps the first mention of each hash in order |
| ActionResults.ParseOutputFile | internal/server/action_result.go:144-177 | at most one digest, inline contents, and at least one of the two |
| RepeatedFields.FileAccepted | internal/server/action_result.go:144-177 | an output file is accepted exactly with at most one digest, and with contents if it has none |
| ActionResults.ParseOutputDirectory | internal/server/action_result.go:179-216 | at most one tree and one root digest, and at least one of the two |
| RepeatedFields.DirectoryAccepted | internal/server/action_result.go:179-216 | an output directory is accepted exactly with at most one tree and at most one root, and at least one of the two |
| ActionResults.ParseActionResult | internal/server/action_result.go:55-142 | the blobs, trees and roots the message names, each hash once, or an error exactly when a field is malformed or sizes clash |
| RepeatedFields.StreamsAccepted | internal/server/action_result.go:55-142 | of several digests for an output stream the last one counts, and none if the stream is inlined |
| ActionResults.UnknownFieldsIgnored | internal/server/action_result.go:55-142 | well-formed fields of other numbers inserted at any top-level boundary change nothing |
| ActionEncoding.DigestRoundTrip | internal/server/action_result_test.go:336-341 | parsing inverts the digest encoder |
| ActionEncoding.FileRoundTrip | internal/server/action_result_test.go:343-349 | parsing inverts the output-file encoder |
| ActionEncoding.DirectoryRoundTrip | internal/server/action_result_test.go:351-360 | parsing inverts the output-directory encoder |
| ActionEncoding.ActionResultRoundTrip | internal/server/action_result.go:55-142 | parsing inverts the action-result encoder on every message with consistent sizes and rejects the others |
| SingleFlight.OneSaveInFlight | internal/server/server.go:589-628 | a key has at most one save in flight, and none once it has been saved |
| SingleFlight.NoSaveAfterSuccess | internal/server/server.go:591-616 | no save of a key begins after one of its saves succeeded |
| SingleFlight.NilMeansSaved | internal/server/server.go:589-628 | a caller that gets a nil error returns after its key was saved |
| SingleFlight.OneUploaderPerKey | internal/server/server.go:618-626 | a key is published exactly when some caller returns not-deduplicated without error, and that caller is unique |
| SingleFlight.SaveIsReported | internal/server/server.go:612-626 | whatever others do meanwhile, the saving caller returns nil exactly if its save did, the key is then published, waiters are told the same, and after a failure the key is free |
| SingleFlight.EarlyFailureIsReported | internal/server/server.go:630-648 | a publication that fails before its save is reported as a failure in the same way |
| SingleFlight.CallerMeets | internal/server/server.go:589-614 | a published key is deduplicated at once; otherwise a caller waits for the one that leads its key, and leads if there is none |
| SingleFlight.FreshCallerPublishes | internal/server/server.go:612-626 | a caller of an unpublished key publishes it if its save succeeds |
| SingleFlight.SavedIsHistory | internal/server/server.go:612-616 | the recorded saves are those that returned nil to a saving caller, read off the steps |
| SingleFlight.LeadsAtMostOnce | internal/server/server.go:612-626 | no caller leads two publications |
| SingleFlight.RetriesBoundedByFailures | internal/server/server.go:602-609 | a caller retries at most once for every other caller of its key that led a publication and failed |
| SingleFlight.NoOneIsStuck | internal/server/server.go:596-610 | a caller that has not returned can move, or waits for a leader that can |
| SingleFlight.RunKeepsInv | internal/server/server.go:589-628 | the invariant holds over every interleaving of any number of callers |
| ObjectsMode.EntriesStayComplete | internal/server/server.go:520-558 | from a closed backend, over all interleavings of all servers, everything an action-cache entry reaches is in the backend |
| ObjectsMode.ValidateForPublication | internal/server/action_result_validation.go:32-35 | passing means the whole closure is in the backend, whatever is held locally, and on reliable unchanging storage the converse |
| ObjectsMode.LocalIsNotPersisted | internal/server/action_result_validation.go:207-212 | an action result whose output is held only locally is good enough to serve and not to publish |
| ObjectsMode.LocalObjectsAreNotJudged | internal/server/server.go:520-546 | in every run the PUT of such an action result is not let through |
| ObjectsMode.PassedVerdictIsJudged | internal/server/server.go:520-546 | from a passing validation for publication, whose finds are in the backend, the backend's confirmations follow, and with them the PUT goes on to save |
| ObjectsMode.PassedPutIsPublished | internal/server/server.go:520-558 | a PUT whose validation passes and whose save is stored puts its action result into the backend, unless the digest is taken |
| ObjectsMode.SavedBlobIsThere | internal/server/server.go:476-482 | a blob that hashes to its key is in the backend after its save, and another one is refused |
| ObjectsMode.EntriesAreImmutable | internal/server/server.go:589-628 | no step of any server changes or removes what the backend holds |
| ObjectsMode.VouchedStays | internal/server/action_result_validation.go:175-213 | a closure found complete piece by piece stays complete while the backend grows |
| ObjectsMode.BlobsStayCertified | internal/server/server.go:476-482 | backend blobs stay filed under their hash, so local and backend bytes of a hash are the same |
| ObjectCache.WriteOnce | internal/server/server.go:392-401 | once a key is bound locally, no upload, download or pack read changes the binding |
| ObjectCache.CasHitsAreIntact | internal/server/server.go:383-391 | every hit on a CAS key serves bytes with the digest asked for, whatever backend and packs return |
| ObjectCache.LookupFinds | internal/server/server.go:328-351 | a lookup finds what is bound, also after a miss, and otherwise misses |
| ObjectCache.FetchedBytesAreFound | internal/server/server.go:364-402 | a read that had to fetch the right bytes finds them, or those another request has bound meanwhile: a blob is a hit, an action result is validated |
| ObjectCache.UnboundReadIsServed | internal/server/server.go:328-402 | from arrival on, a read of an unbound blob is a hit on the bytes it fetches |
| ObjectCache.UploadIsStored | internal/server/server.go:474-496 | an upload is answered as stored and binds its body unless the key is bound, and one of another digest is refused |
| ObjectCache.ActionHitsAreValidated | internal/server/server.go:271-297 | the bytes of an action-cache hit are sound, the trees and directories they reach are bound locally, and everything they reach is bound locally or persisted, in packs mode all of it bound locally |
| ObjectCache.HitBlobsAreServed | internal/server/pack_store.go:246-285 | in packs mode every later read of a blob that an action-cache hit reaches is answered, if at all, with a hit on intact bytes |
| ObjectCache.ValidateForServing | internal/server/action_result_validation.go:28-31 | passing confirms the whole closure among local and persisted objects, with trees and directories held locally, and on reliable unchanging storage the converse |
| ObjectCache.PassedVerdictIsServed | internal/server/server.go:271-297 | from a passing validation the request's confirmations follow, and with them it answers with the bytes |
| ObjectCache.FetchedHashIsConfirmed | internal/server/pack_store.go:246-285 | a lookup of a validation that reads the right bytes confirms the hash and binds it |
| ObjectCache.HitsAgree | internal/server/pack_store.go:276-284 | all hits of one server on one key serve the same bytes |
| ObjectCache.StoredIsServed | internal/server/server.go:488-495 | after an upload of its key was answered, whatever happens, a later read is answered, if at all, with the bound bytes; only an action result may fail its validation instead |
| Limiter.IntervalLimiter.Reserve | internal/server/limiter.go:24-36 | each call reserves the next slot of the schedule |
| Limiter.SlotIsLatestDemand | internal/server/limiter.go:28-34 | slot i is the maximum over j up to i of now_j + (i-j)*interval |
| Limiter.SlotsAreEarliest | internal/server/limiter.go:28-34 | no other evenly spaced schedule gives any call an earlier slot |
| Limiter.MinuteBound | internal/server/limiter.go:17-22 | for every accepted setting a minute holds at most one slot more than asked for, none more if the division is exact, and at most 200 |
| Limiter.MinuteBoundReached | internal/server/limiter.go:17-22 | a burst reaches that bound |
| Limiter.Below200IffAtMost198 | internal/server/server.go:91-93 | fewer than 200 slots in every minute if and only if the setting is at most 198 |

## Left out

- Libraries: CARv2, CIDs, multihash, DAG-CBOR and SHA-256 are parameters with the assumptions of `Env.Good`; that a real
  CAR file drops a repeated block is allowed for, their byte formats are not modelled.
- `google.golang.org/protobuf/encoding/protowire` is not part of this model: tags, varints, length prefixes and groups
  follow the Encoding specification, with a nesting limit for groups of 10000.
- HTTP, statistics, logging, the shutdown token, temporary files, permissions, contexts and timeouts: cancellation is a
  failing step, a file is its immutable contents.
- Network clients and the catalogue: the backend is a map of immutable keys that may fail, and a listing is any list of
  keys; the packed theorems, `ObjectsMode` and `ObjectCache` assume that nothing is evicted.
- Error messages and kinds: parsers return nothing on any error, the validator keeps the three kinds the server
  distinguishes, a flush reports one bit.
- Order of visits: the parsers' visitors run over the field list after the walk instead of inside it, and `parseTree` is
  done in passes, so a message with several errors is rejected for possibly another of them; acceptance and results
  are the same.
- Integer widths: sizes in manifests and the byte count are unbounded; digest sizes are checked against int64 as in the
  source, and varints against 64 bits.
- Pack loading by several requests at once (`loadedPacks`, `loadingPacks`): packs are read from the backend each time,
  which serves the same bytes because keys are immutable.
- Concurrency inside one packed store: its mutex is held from selecting a batch to committing it, so the flush of one
  runner is not interleaved with its own staging; the steps of different runners are.
- PackStore.FilterPending: compacts a fresh array, not the slice the caller holds, because order lists are values in
  the store.
- PackStore.PackStore.BuildPack: its errors are one failing result, not told apart.
- Publishing.Backend.PublishOnce: does not model concurrent publishers of the same key, which `SingleFlight` does.
- Limiter.IntervalLimiter.Reserve: reserves the slot but does not sleep; a caller may act later than its slot.
- The upload semaphore of the server and the flush worker's ticker.
- What evictions after a passed validation do to a client that was served an action result.
