/** Where the guarantees of the packed mode end: two runs whose data a future reader does not serve. */
module Boundaries {
  import opened Common
  import opened Sorting
  import opened References
  import opened Messages
  import opened Trees
  import opened ActionResults
  import opened ActionEncoding
  import opened SmallResults
  import opened Closures
  import opened Validation
  import opened Validator
  import opened Completeness
  import opened Environment
  import opened Manifests
  import opened PackIndex
  import opened Staging
  import opened PackedWorld
  import opened PackedInvariant
  import opened PackedRuns
  import opened FreshReader
  import opened EndToEnd

  // ----- a single runner on an empty backend -----

  ghost function Alone(x: Writer): World { World(map[], map[], {}, map[0 := x]) }

  lemma RunSnoc(env: Env, steps: seq<Step>, step: Step)
    ensures Run(env, steps + [step]) == Do(env, Run(env, steps), step)
  {
    assert (steps + [step])[..|steps|] == steps;
  }

  lemma RunTwo(env: Env, steps: seq<Step>, a: Step, b: Step)
    ensures Run(env, steps + ([a] + [b])) == Do(env, Do(env, Run(env, steps), a), b)
  {
    RunSnoc(env, steps, a);
    RunSnoc(env, steps + [a], b);
    assert steps + ([a] + [b]) == steps + [a] + [b];
  }

  const NEWCOMER := Writer(EMPTY_STORE, {}, Idle, map[], map[], {}, {})

  lemma JoinAlone(env: Env)
    ensures Run(env, [Join(0, {})]) == Alone(NEWCOMER)
  {
    assert [Join(0, {})] == [] + [Join(0, {})];
    RunSnoc(env, [], Join(0, {}));
    SortedSetProperties({});
    assert SortedSet({}) == [];
  }

  lemma ActAlone(env: Env, steps: seq<Step>, x: Writer, step: Step)
    requires Run(env, steps) == Alone(x) && step.w == 0 && !step.Join? && !step.SavePack? && !step.SaveManifest?
    ensures Run(env, steps + [step]) == Alone(LocalStep(env, x, step))
  {
    RunSnoc(env, steps, step);
    LocalDo(env, Alone(x), step);
    WriterAlone(x, LocalStep(env, x, step));
  }

  lemma WriterAlone(x: Writer, y: Writer)
    ensures WithWriter(Alone(x), 0, y) == Alone(y)
  {
    assert map[0 := x][0 := y] == map[0 := y];
  }

  /** The bytes that flushing the store creates are among those that occur. */
  ghost predicate FlushOccurs(env: Env, s: Store) {
    var b := BatchOf(env, s);
    && !NothingToFlush(b) && env.handled(PackData(env, s, b))
    && env.handled(EncodeManifest(env, ManifestFor(env, s, b)).value.data)
  }

  function FlushSteps(): seq<Step> { [SavePack(0, Saved)] + [SaveManifest(0, Saved)] }

  /** The backend holds one manifest and its pack. */
  ghost predicate OneManifest(env: Env, g: World, s: Store) {
    var b := BatchOf(env, s);
    var e := EncodeManifest(env, ManifestFor(env, s, b)).value;
    && g.log == map[e.id := ManifestFor(env, s, b)]
    && g.backend == map[env.PackKey(PackIdFor(env, s, b)) := PackData(env, s, b)][env.ManifestKey(e.id) := e.data]
  }

  /** One flush on an empty backend leaves one pack and one manifest. */
  lemma FlushAlone(env: Env, steps: seq<Step>, x: Writer)
    requires Run(env, steps) == Alone(x) && x.phase == Idle && x.published == {} && FlushOccurs(env, x.store)
    ensures var g := Run(env, steps + FlushSteps());
      var b := BatchOf(env, x.store);
      g.facts == BatchFacts(x.store, b, ManifestIdFor(env, x.store, b)) && OneManifest(env, g, x.store)
  {
    RunTwo(env, steps, SavePack(0, Saved), SaveManifest(0, Saved));
    SavePackAlone(env, x);
    SaveManifestAlone(env, x);
  }

  ghost function WithPack(env: Env, x: Writer): World {
    var b := BatchOf(env, x.store);
    var key := env.PackKey(PackIdFor(env, x.store, b));
    Alone(x.(phase := PackSaved, published := {key})).(backend := map[key := PackData(env, x.store, b)])
  }

  lemma SavePackAlone(env: Env, x: Writer)
    requires x.phase == Idle && x.published == {} && FlushOccurs(env, x.store)
    ensures Do(env, Alone(x), SavePack(0, Saved)) == WithPack(env, x)
  {
    var key := env.PackKey(PackIdFor(env, x.store, BatchOf(env, x.store)));
    assert {} + {key} == {key};
    WriterAlone(x, x.(phase := PackSaved, published := {key}));
  }

  lemma SaveManifestAlone(env: Env, x: Writer)
    requires FlushOccurs(env, x.store)
    ensures var h := Do(env, WithPack(env, x), SaveManifest(0, Saved));
      var b := BatchOf(env, x.store);
      h.facts == BatchFacts(x.store, b, ManifestIdFor(env, x.store, b)) && OneManifest(env, h, x.store)
  {
    var g, b := WithPack(env, x), BatchOf(env, x.store);
    var e := EncodeManifest(env, ManifestFor(env, x.store, b)).value;
    KeysDisjoint(env, PackIdFor(env, x.store, b), e.id);
    SaveManifestLogs(env, g, x.store);
    assert {} + BatchFacts(x.store, b, e.id) == BatchFacts(x.store, b, e.id);
  }

  lemma SaveManifestLogs(env: Env, g: World, s: Store)
    requires 0 in g.writers && g.writers[0].phase == PackSaved && g.writers[0].store == s && FlushOccurs(env, s)
    requires env.ManifestKey(ManifestIdFor(env, s, BatchOf(env, s))) !in g.writers[0].published
    ensures var h, k := Do(env, g, SaveManifest(0, Saved)), LogManifest(env, g, s, BatchOf(env, s));
      h.facts == k.facts && h.log == k.log && h.backend == k.backend
  {
    assert Do(env, g, SaveManifest(0, Saved)) == DoSaveManifest(env, g, 0, Saved);
  }

  // ----- an empty directory -----

  const EMPTY_DIRECTORY := DigestReference(EMPTY_SHA256, 0)

  /** An action result whose only output is an empty directory. */
  ghost function EmptyOutput(): Bytes { EncodeAction(RootResult(EMPTY_DIRECTORY)) }

  ghost function EmptyBlob(): map<string, Bytes> { map[EMPTY_SHA256 := []] }

  lemma OnlyTheEmptyDirectory(g: Graph)
    requires g.refs == ActionReferences([], [], [EMPTY_DIRECTORY]) && g.content == EmptyBlob()
    requires g.directoryOf([]) == Some(Directory([], []))
    ensures ReachesDirectory(g, EMPTY_DIRECTORY) && forall r :: Reaches(g, r) ==> r == EMPTY_DIRECTORY
    ensures Sound(g) && AllPresent(g, EmptyBlob().Keys) && ExactClosure(g, [])
  {
    RootReached(g, EMPTY_DIRECTORY);
    ClosedCoversReachable(g, map[EMPTY_SHA256 := 0]);
    forall r ensures !FileOfDirectory(g, r) && !FileOfTree(g, r) {
      forall d | ReachesDirectory(g, d) ensures DirectoryAt(g, d).files == [] {}
    }
    forall b, t, d | HashesOfGraph(g, b, t, d) ensures |b| + |t| + |d| <= MAX_OBJECTS {
      OneHash(g, EMPTY_DIRECTORY, b, t, d);
    }
    forall h ensures !RealHash(g, h) {}
  }

  /** Such an action result passes validation when the empty blob is there, and collects the empty closure. */
  lemma EmptyOutputCollects(env: Env)
    requires env.sha([]) == EMPTY_SHA256 && env.handled([])
    ensures ActionResultOf(EmptyOutput()) == Some(ActionReferences([], [], [EMPTY_DIRECTORY]))
    ensures CollectedFrom(env.sha, env.handled, EmptyBlob(), EmptyOutput(), [])
  {
    EmptyHashIsDigest();
    RootResultReferences(EMPTY_DIRECTORY);
    EmptyMessages(env.sha);
    OnlyTheEmptyDirectory(GraphOf(env.sha, EmptyBlob(), ActionReferences([], [], [EMPTY_DIRECTORY])));
  }

  /** The empty blob has been PUT and is yet to be staged when the action is; the runner crashes after publishing it. */
  ghost function EmptyDirectoryRun(d: string): seq<Step> {
    StageEmptyDirectory(d) + FlushSteps() + [Crash(0)]
  }

  ghost function StageEmptyDirectory(d: string): seq<Step> {
    EmptyDirectoryPuts(d) + [PutStageAc(0, d, EmptyBlob(), [])]
  }

  ghost function EmptyDirectoryStore(env: Env, d: string): Store {
    Store(EMPTY_INDEX, map[], [], map[d := PendingAction(EmptyOutput(), [], env.CidOf(EmptyOutput()))], [d], |EmptyOutput()|)
  }

  ghost function EmptyDirectoryPuts(d: string): seq<Step> {
    [Join(0, {})] + [PutCas(0, EMPTY_SHA256, [])] + [PutAc(0, d, EmptyOutput())]
  }

  ghost function AfterPuts(d: string): Writer {
    NEWCOMER.(casObjects := EmptyBlob(), acObjects := map[d := EmptyOutput()], inflight := {EMPTY_SHA256})
  }

  lemma EmptyDirectoryPut(env: Env, d: string)
    requires env.sha([]) == EMPTY_SHA256 && env.handled([]) && env.handled(EmptyOutput()) && DigestPattern(d)
    ensures Run(env, EmptyDirectoryPuts(d)) == Alone(AfterPuts(d))
  {
    JoinAlone(env);
    var put, putAc := PutCas(0, EMPTY_SHA256, []), PutAc(0, d, EmptyOutput());
    ActAlone(env, [Join(0, {})], NEWCOMER, put);
    var x := NEWCOMER.(casObjects := EmptyBlob(), inflight := {EMPTY_SHA256});
    assert LocalStep(env, NEWCOMER, put) == x by {
      assert {} + {EMPTY_SHA256} == {EMPTY_SHA256} && map[][EMPTY_SHA256 := []] == EmptyBlob();
    }
    ActAlone(env, [Join(0, {})] + [put], x, putAc);
    assert map[][d := EmptyOutput()] == map[d := EmptyOutput()];
  }

  lemma StagingEmptyOutput(env: Env, d: string)
    ensures StageAction(env, EMPTY_STORE, d, EmptyOutput(), []) == EmptyDirectoryStore(env, d)
  {
    assert SortReferences([]) == [];
    assert EMPTY_STORE.acOrder + [d] == [d];
  }

  lemma MayStageEmptyOutput(env: Env, d: string)
    requires env.sha([]) == EMPTY_SHA256 && env.handled([])
    ensures MayStage(env, AfterPuts(d), EmptyOutput(), EmptyBlob(), [])
  {
    EmptyOutputCollects(env);
  }

  lemma EmptyDirectoryStaged(env: Env, d: string)
    requires env.sha([]) == EMPTY_SHA256 && env.handled([]) && env.handled(EmptyOutput()) && DigestPattern(d)
    ensures Run(env, StageEmptyDirectory(d)) == Alone(AfterPuts(d).(store := EmptyDirectoryStore(env, d)))
  {
    EmptyDirectoryPut(env, d);
    ActAlone(env, EmptyDirectoryPuts(d), AfterPuts(d), PutStageAc(0, d, EmptyBlob(), []));
    MayStageEmptyOutput(env, d);
    StageAcActs(env, AfterPuts(d), 0, d, EmptyBlob(), []);
    StagingEmptyOutput(env, d);
  }

  lemma EmptyDirectoryBatch(env: Env, d: string)
    ensures BatchOf(env, EmptyDirectoryStore(env, d)) == Batch([], [d])
  {
    var s := EmptyDirectoryStore(env, d);
    assert [d][..0] == [];
    assert SelectActions([d], s.pendingActions, s.index.cas, ToSet([])) == [] + [d];
  }

  /** The fact that the run leaves behind, and nothing else. */
  ghost function EmptyDirectoryFact(env: Env, d: string): Fact {
    var s := EmptyDirectoryStore(env, d);
    ActionFact(ManifestIdFor(env, s, BatchOf(env, s)), d, EmptyOutput(), [])
  }

  lemma CrashKeeps(env: Env, steps: seq<Step>)
    ensures var g, h := Run(env, steps), Run(env, steps + [Crash(0)]);
      h.log == g.log && h.facts == g.facts && h.backend == g.backend
  {
    RunSnoc(env, steps, Crash(0));
  }

  lemma SingleActionFacts(s: Store, d: string, id: string)
    requires d in s.pendingActions
    ensures BatchFacts(s, Batch([], [d]), id) == {ActionFact(id, d, s.pendingActions[d].data, s.pendingActions[d].closure)}
  {
  }

  lemma EmptyDirectoryPublished(env: Env, d: string)
    requires env.sha([]) == EMPTY_SHA256 && env.handled([]) && env.handled(EmptyOutput()) && DigestPattern(d)
    requires FlushOccurs(env, EmptyDirectoryStore(env, d))
    ensures var g := Run(env, EmptyDirectoryRun(d));
      g.facts == {EmptyDirectoryFact(env, d)} && OneManifest(env, g, EmptyDirectoryStore(env, d))
  {
    var s := EmptyDirectoryStore(env, d);
    EmptyDirectoryStaged(env, d);
    EmptyDirectoryBatch(env, d);
    FlushAlone(env, StageEmptyDirectory(d), AfterPuts(d).(store := s));
    CrashKeeps(env, StageEmptyDirectory(d) + FlushSteps());
    SingleActionFacts(s, d, ManifestIdFor(env, s, BatchOf(env, s)));
  }

  lemma OneManifestFits(env: Env, g: World, s: Store)
    requires OneManifest(env, g, s) && WithinLimits(ManifestFor(env, s, BatchOf(env, s)))
    requires |EncodeManifest(env, ManifestFor(env, s, BatchOf(env, s))).value.data| <= env.maxBlobSize
    ensures ManifestsFit(env, g)
  {
  }

  /** The reader has no blobs when none was published. */
  lemma NoBlobsToRead(env: Env, g: World, ix: Index)
    requires forall f :: f in g.facts ==> !f.CasFact?
    requires forall h :: ReadsAsPublished(env, g, ix, h)
    ensures ReaderBlobs(env, ix, g.backend) == map[]
  {
    forall h ensures h !in ReaderBlobs(env, ix, g.backend) {
      assert ReadsAsPublished(env, g, ix, h);
      assert ResolveCas(env, ix, g.backend, h) == Miss;
    }
  }

  lemma EmptyOutputNeedsTheBlob(env: Env)
    requires env.sha([]) == EMPTY_SHA256 && env.handled([])
    ensures !Vouched(env.sha, map[], EmptyOutput(), {})
  {
    EmptyOutputCollects(env);
    var g := GraphOf(env.sha, map[], ActionReferences([], [], [EMPTY_DIRECTORY]));
    RootReached(g, EMPTY_DIRECTORY);
    assert Reaches(g, EMPTY_DIRECTORY);
  }

  lemma LoneActionIsRead(env: Env, g: World, ix: Index, f: Fact)
    requires g.facts == {f} && f.ActionFact? && ReadsAsPublished(env, g, ix, f.digest)
    ensures ReadsAction(env, ix, g.backend, f.digest, f.data)
  {
    assert WritersAgree(g.facts, f.digest);
    assert ReadsAgreed(env, g, ix, f);
  }

  lemma RefusedUnder(env: Env, g: World, ix: Index, f: Fact)
    requires env.sha([]) == EMPTY_SHA256 && env.handled([]) && forall h :: ReadsAsPublished(env, g, ix, h)
    requires g.facts == {f} && f.ActionFact? && f.data == EmptyOutput()
    ensures var blobs := ReaderBlobs(env, ix, g.backend);
      ReadsAction(env, ix, g.backend, f.digest, f.data) && !Vouched(env.sha, blobs, f.data, blobs.Keys)
  {
    LoneActionIsRead(env, g, ix, f);
    NoBlobsToRead(env, g, ix);
    EmptyOutputNeedsTheBlob(env);
    var none: map<string, Bytes> := map[];
    assert none.Keys == {};
  }

  /** A fresh reader finds the published action, and its validation against the blobs the reader resolves fails. */
  ghost predicate Refused(env: Env, g: World, f: Fact) {
    && f in g.facts && f.ActionFact? && Loadable(env, g.backend, g.log.Keys)
    && var ix := Discover(env, g.backend, g.log.Keys);
       var blobs := ReaderBlobs(env, ix, g.backend);
       ReadsAction(env, ix, g.backend, f.digest, f.data) && !Vouched(env.sha, blobs, f.data, blobs.Keys)
  }

  lemma LoneActionIsRefused(env: Env, g: World, f: Fact)
    requires env.Good() && SharedInv(env, g) && ManifestsFit(env, g) && env.sha([]) == EMPTY_SHA256 && env.handled([])
    requires g.facts == {f} && f.ActionFact? && f.data == EmptyOutput()
    ensures Refused(env, g, f)
  {
    ReaderReadsAll(env, g);
    RefusedUnder(env, g, Discover(env, g.backend, g.log.Keys), f);
  }

  /**
   * A published action that no fresh reader serves. Its only output is the empty directory; the empty blob was PUT, so
   * validation passed and the action was staged with the empty closure, and it is published before the blob is. A
   * fresh reader resolves the action, and validation against the blobs it resolves fails.
   */
  lemma EmptyDirectoryIsNotServed(env: Env, d: string)
    requires env.Good() && env.sha([]) == EMPTY_SHA256 && env.handled([]) && env.handled(EmptyOutput()) && DigestPattern(d)
    requires var s := EmptyDirectoryStore(env, d);
      FlushOccurs(env, s) && |EncodeManifest(env, ManifestFor(env, s, BatchOf(env, s))).value.data| <= env.maxBlobSize
    ensures Refused(env, Run(env, EmptyDirectoryRun(d)), EmptyDirectoryFact(env, d))
  {
    var g, s := Run(env, EmptyDirectoryRun(d)), EmptyDirectoryStore(env, d);
    EmptyDirectoryPublished(env, d);
    EmptyDirectoryBatch(env, d);
    OneManifestFits(env, g, s);
    RunKeepsInv(env, EmptyDirectoryRun(d));
    LoneActionIsRefused(env, g, EmptyDirectoryFact(env, d));
  }

  // ----- a pack that is too large -----

  function BlobRun(d: string, data: Bytes): seq<Step> {
    [Join(0, {})] + [PutCas(0, d, data)] + [PutStageCas(0, d)] + FlushSteps()
  }

  function BlobStore(d: string, data: Bytes): Store { Store(EMPTY_INDEX, map[d := data], [d], map[], [], |data|) }

  lemma BlobStaged(env: Env, d: string, data: Bytes)
    requires env.sha(data) == d && env.handled(data)
    ensures Run(env, [Join(0, {})] + [PutCas(0, d, data)] + [PutStageCas(0, d)])
         == Alone(NEWCOMER.(store := BlobStore(d, data), casObjects := map[d := data]))
  {
    JoinAlone(env);
    ActAlone(env, [Join(0, {})], NEWCOMER, PutCas(0, d, data));
    var x := NEWCOMER.(casObjects := map[d := data], inflight := {d});
    assert LocalStep(env, NEWCOMER, PutCas(0, d, data)) == x by {
      assert {} + {d} == {d} && map[][d := data] == map[d := data];
    }
    ActAlone(env, [Join(0, {})] + [PutCas(0, d, data)], x, PutStageCas(0, d));
    assert map[][d := data] == map[d := data] && [] + [d] == [d] && {d} - {d} == {};
  }

  lemma BlobBatch(env: Env, d: string, data: Bytes)
    ensures BatchOf(env, BlobStore(d, data)) == Batch([d], [])
  {
    var s := BlobStore(d, data);
    assert s.casOrder[1..] == [] && [] + [d] == [d];
    assert SelectCas([], s.pendingCas, env.targetSize, [d], |data|) == [d];
    assert SelectCas(s.casOrder, s.pendingCas, env.targetSize, [], 0) == [d];
    assert SelectActions([], s.pendingActions, s.index.cas, {d}) == [];
  }

  lemma SingleBlobFacts(s: Store, d: string, id: string)
    requires d in s.pendingCas
    ensures CasFact(id, d, s.pendingCas[d]) in BatchFacts(s, Batch([d], []), id)
  {
  }

  /** The index of a reader describes the one pack of the backend by its true size. */
  lemma OnlyPackSize(env: Env, g: World, s: Store, ix: Index, applied: set<string>, packId: string)
    requires OneManifest(env, g, s) && IndexOk(env, g.backend, g.log, ix, applied) && packId in ix.packs
    ensures ix.packs[packId].size == |PackData(env, s, BatchOf(env, s))|
  {
    var p := ix.packs[packId];
    var b := BatchOf(env, s);
    assert DescriptorStored(env, g.backend, p);
    KeysDisjoint(env, p.id, ManifestIdFor(env, s, b));
    KeysDisjoint(env, PackIdFor(env, s, b), ManifestIdFor(env, s, b));
  }

  /** A fresh reader lists the blob and fails to read it, because its pack is too large. */
  ghost predicate NotRestored(env: Env, g: World, d: string) {
    && Loadable(env, g.backend, g.log.Keys)
    && var ix := Discover(env, g.backend, g.log.Keys);
       d in ix.cas && !PackFits(env, ix, ix.cas[d].packId) && ResolveCas(env, ix, g.backend, d) == Error
  }

  lemma OversizedBlobErrs(env: Env, g: World, s: Store, f: Fact)
    requires env.Good() && SharedInv(env, g) && OneManifest(env, g, s) && ManifestsFit(env, g)
    requires f in g.facts && f.CasFact? && |PackData(env, s, BatchOf(env, s))| > env.maxBlobSize
    ensures NotRestored(env, g, f.digest)
  {
    FreshReaderSeesFacts(env, g, f.digest);
    var ix := Discover(env, g.backend, g.log.Keys);
    assert CasFact(f.id, f.digest, f.data) in g.facts;
    assert ReadsBlob(env, ix, g.backend, f.digest, f.data);
    DiscoverOk(env, g, g.log.Keys);
    if PackFits(env, ix, ix.cas[f.digest].packId) { OnlyPackSize(env, g, s, ix, g.log.Keys, ix.cas[f.digest].packId); }
  }

  /**
   * An advertised blob that no reader restores: the pack of a blob of the accepted size can exceed the size up to which
   * packs are downloaded. The manifest is published, the blob is in the reader's index, and reading it is an error.
   */
  lemma OversizedPackIsNotRestored(env: Env, d: string, data: Bytes)
    requires env.Good() && env.sha(data) == d && env.handled(data) && |data| <= env.maxBlobSize
    requires var s := BlobStore(d, data);
      && FlushOccurs(env, s) && |PackData(env, s, BatchOf(env, s))| > env.maxBlobSize
      && |EncodeManifest(env, ManifestFor(env, s, BatchOf(env, s))).value.data| <= env.maxBlobSize
    ensures NotRestored(env, Run(env, BlobRun(d, data)), d)
  {
    var g, s := Run(env, BlobRun(d, data)), BlobStore(d, data);
    BlobStaged(env, d, data);
    BlobBatch(env, d, data);
    FlushAlone(env, [Join(0, {})] + [PutCas(0, d, data)] + [PutStageCas(0, d)],
               NEWCOMER.(store := s, casObjects := map[d := data]));
    SingleBlobFacts(s, d, ManifestIdFor(env, s, BatchOf(env, s)));
    OneManifestFits(env, g, s);
    RunKeepsInv(env, BlobRun(d, data));
    OversizedBlobErrs(env, g, s, CasFact(ManifestIdFor(env, s, BatchOf(env, s)), d, data));
  }

  // ----- both happen -----

  lemma SameManifest(e: Env, f: Env, s: Store, b: Batch)
    requires BatchPending(s, b) && e.prefix == f.prefix && PackData(e, s, b) == PackData(f, s, b)
    requires PackIdFor(e, s, b) == PackIdFor(f, s, b) && forall d :: e.rawCid(d) == f.rawCid(d)
    ensures ManifestFor(e, s, b) == ManifestFor(f, s, b)
  {
    var m, n := ManifestFor(e, s, b), ManifestFor(f, s, b);
    assert m.cas == n.cas && m.actions == n.actions && m.packs == n.packs;
  }

  /** The sample with the node of the manifest that flushing the store creates. */
  ghost function ForStore(a: Sample, s: Store): Sample {
    a.(node := ManifestToNode(ManifestFor(a.Environment(), s, BatchOf(a.Environment(), s))).value)
  }

  lemma SampleFlush(a: Sample, s: Store, b: Batch)
    requires a.Distinct() && BatchPending(s, b) && Blocks(a.Environment(), s, b) == a.Blocks() && !NothingToFlush(b)
    requires BatchOf(a.Environment(), s) == b && BatchOf(ForStore(a, s).Environment(), s) == b
    ensures var env := ForStore(a, s).Environment();
      && FlushOccurs(env, s) && PackData(env, s, b) == a.pack
      && EncodeManifest(env, ManifestFor(env, s, b)).value.data == a.manifest
  {
    var e, env := a.Environment(), ForStore(a, s).Environment();
    assert Blocks(env, s, b) == Blocks(e, s, b);
    SameManifest(e, env, s, b);
  }

  ghost function EmptyDirectorySample(): Sample {
    var data := EmptyOutput();
    Sample(data, data + [0], data + [0, 0], data + [0, 0, 0], IntNode(0), |data| + 2)
  }

  lemma SampleDistinct()
    ensures EmptyDirectorySample().Distinct()
  {
    var a := EmptyDirectorySample();
    assert |a.pack| == |a.blob| + 1 && |a.manifest| == |a.blob| + 2 && |a.other| == |a.blob| + 3;
  }

  lemma EmptyDirectoryFlushes(d: string)
    ensures var a := EmptyDirectorySample();
      var s := EmptyDirectoryStore(a.Environment(), d);
      var env := ForStore(a, s).Environment();
      && s == EmptyDirectoryStore(env, d) && FlushOccurs(env, s)
      && EncodeManifest(env, ManifestFor(env, s, BatchOf(env, s))).value.data == a.manifest
  {
    var a := EmptyDirectorySample();
    var s := EmptyDirectoryStore(a.Environment(), d);
    var env := ForStore(a, s).Environment();
    SampleDistinct();
    EmptyDirectoryBatch(a.Environment(), d);
    assert s == EmptyDirectoryStore(env, d);
    EmptyDirectoryBatch(env, d);
    SampleFlush(a, s, Batch([], [d]));
  }

  /** There is an environment in which the action result with the empty directory is published and not served. */
  lemma EmptyDirectoryHappens(d: string) returns (env: Env)
    requires DigestPattern(d)
    ensures env.Good() && Refused(env, Run(env, EmptyDirectoryRun(d)), EmptyDirectoryFact(env, d))
  {
    var sample := ForStore(EmptyDirectorySample(), EmptyDirectoryStore(EmptyDirectorySample().Environment(), d));
    env := sample.Environment();
    SampleDistinct();
    EmptyDirectoryFlushes(d);
    PromisesCanBeKept(sample);
    EmptyDirectoryIsNotServed(env, d);
  }

  /** There is an environment in which a blob of the accepted size is published and not restored. */
  lemma OversizedPackHappens() returns (env: Env, d: string, data: Bytes)
    ensures env.Good() && |data| == env.maxBlobSize && env.sha(data) == d && NotRestored(env, Run(env, BlobRun(d, data)), d)
  {
    data := [0, 0];
    var a := Sample(data, [0, 0, 0], [1], [2], IntNode(0), 2);
    d := a.Sha(data);
    var s := BlobStore(d, data);
    env := ForStore(a, s).Environment();
    BlobBatch(a.Environment(), d, data);
    BlobBatch(env, d, data);
    SampleFlush(a, s, Batch([d], []));
    PromisesCanBeKept(ForStore(a, s));
    OversizedPackIsNotRestored(env, d, data);
  }
}
