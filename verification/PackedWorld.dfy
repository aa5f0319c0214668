/**
 * The packed storage mode as a state machine: any number of runners share one backend of immutable keys.
 * A step names what happens; a step whose guard does not hold changes nothing.
 */
module PackedWorld {
  import opened Common
  import opened Sorting
  import opened Environment
  import opened Manifests
  import opened PackIndex
  import opened Staging
  import opened Completeness

  /**
   * Where a runner is in flushing. It holds the store's mutex from selecting a batch to committing it,
   * so nothing is staged outside Idle.
   */
  datatype Phase = Idle | PackSaved | ManifestSaved | Crashed

  datatype Writer = Writer(
    store: Store,
    published: set<string>,
    phase: Phase,
    casObjects: map<string, Bytes>,
    acObjects: map<string, Bytes>,
    inflight: set<string>,
    applied: set<string>)

  /** A value whose manifest is in the backend, as it was staged. */
  datatype Fact =
    | CasFact(id: string, digest: string, data: Bytes)
    | ActionFact(id: string, digest: string, data: Bytes, closure: seq<DigestReference>)

  /** `log` and `facts` are history: the manifests whose key is in the backend and what was staged for them. */
  datatype World = World(
    backend: map<string, Bytes>,
    log: map<string, Manifest>,
    facts: set<Fact>,
    writers: map<nat, Writer>)

  const EMPTY_WORLD := World(map[], map[], {}, map[])
  const EMPTY_STORE := Store(EMPTY_INDEX, map[], [], map[], [], 0)

  /** A save may fail, and may fail after the backend has stored the object. */
  datatype Outcome = Saved | Failed | FailedButStored

  datatype Step =
    | Join(w: nat, loaded: set<string>)
    | PutCas(w: nat, d: string, data: Bytes)
    | FetchCas(w: nat, d: string, data: Bytes)
    | PutStageCas(w: nat, d: string)
    | PutAc(w: nat, d: string, data: Bytes)
    | PutStageAc(w: nat, d: string, content: map<string, Bytes>, closure: seq<DigestReference>)
    | SavePack(w: nat, outcome: Outcome)
    | SaveManifest(w: nat, outcome: Outcome)
    | Apply(w: nat)
    | Abort(w: nat)
    | Crash(w: nat)

  // ----- pieces of the steps -----

  /** Loading one manifest by its ID. */
  ghost function ReadManifest(env: Env, backend: map<string, Bytes>, id: string): Option<Manifest> {
    if id == "" || !env.validCid(id) || env.ManifestKey(id) !in backend
       || |backend[env.ManifestKey(id)]| > env.maxBlobSize then None
    else DecodeManifest(env, backend[env.ManifestKey(id)], id)
  }

  ghost function LoadEach(env: Env, backend: map<string, Bytes>, ids: seq<string>): seq<Loaded>
    requires forall id :: id in ids ==> ReadManifest(env, backend, id).Some?
  {
    seq(|ids|, i requires 0 <= i < |ids| => Loaded(ids[i], ReadManifest(env, backend, ids[i]).value))
  }

  ghost predicate Loadable(env: Env, backend: map<string, Bytes>, ids: set<string>) {
    forall id :: id in ids ==> ReadManifest(env, backend, id).Some?
  }

  /** Discovery of the manifests that loaded: they are applied in the order of their IDs. */
  ghost function Discover(env: Env, backend: map<string, Bytes>, ids: set<string>): Index
    requires Loadable(env, backend, ids)
  {
    SortedSetProperties(ids);
    ApplyAll(EMPTY_INDEX, LoadEach(env, backend, SortedSet(ids)))
  }

  function BatchOf(env: Env, s: Store): (b: Batch)
    ensures BatchPending(s, b)
  {
    SelectPending(env.targetSize, s);
    Select(env.targetSize, s)
  }

  /** The closure members are all known to the server: stored locally or listed in the index. */
  ghost predicate Known(w: Writer, closure: seq<DigestReference>) {
    RealHashes(closure) <= LocalBlobs(w)
  }

  /** Where a lookup of a blob can succeed: among the objects stored locally and those listed in the index. */
  ghost function LocalBlobs(w: Writer): set<string> { w.casObjects.Keys + w.store.index.cas.Keys }

  /** The closure was collected by a passing validation of the bytes against objects the runner has. */
  ghost predicate MayStage(env: Env, w: Writer, data: Bytes, content: map<string, Bytes>, closure: seq<DigestReference>) {
    content.Keys <= LocalBlobs(w) && CollectedFrom(env.sha, env.handled, content, data, closure)
  }

  ghost function BatchFacts(s: Store, b: Batch, id: string): set<Fact>
    requires BatchPending(s, b)
  {
    (set d | d in b.cas :: CasFact(id, d, s.pendingCas[d])) +
    (set d | d in b.actions :: ActionFact(id, d, s.pendingActions[d].data, s.pendingActions[d].closure))
  }

  ghost function WithWriter(g: World, w: nat, writer: Writer): World {
    g.(writers := g.writers[w := writer])
  }

  // ----- the steps -----

  ghost function DoJoin(env: Env, g: World, w: nat, loaded: set<string>): World {
    if w in g.writers || !Loadable(env, g.backend, loaded) then g
    else
      var store := EMPTY_STORE.(index := Discover(env, g.backend, loaded));
      WithWriter(g, w, Writer(store, {}, Idle, map[], map[], {}, loaded))
  }

  ghost function DoSavePack(env: Env, g: World, w: nat, outcome: Outcome): World
    requires w in g.writers
  {
    var x := g.writers[w];
    var b := BatchOf(env, x.store);
    var data := PackData(env, x.store, b);
    var key := env.PackKey(env.sha(data));
    if x.phase != Idle || NothingToFlush(b) || !env.handled(data) then g
    else if key in x.published then WithWriter(g, w, x.(phase := PackSaved))
    else
      match outcome
      case Failed => g
      case FailedButStored => g.(backend := PutIfAbsent(g.backend, key, data))
      case Saved =>
        WithWriter(g.(backend := PutIfAbsent(g.backend, key, data)), w, x.(phase := PackSaved, published := x.published + {key}))
  }

  ghost function LogManifest(env: Env, g: World, s: Store, b: Batch): World
    requires BatchPending(s, b)
  {
    var m := ManifestFor(env, s, b);
    var e := EncodeManifest(env, m).value;
    g.(backend := PutIfAbsent(g.backend, env.ManifestKey(e.id), e.data),
       log := if e.id in g.log then g.log else g.log[e.id := m],
       facts := g.facts + BatchFacts(s, b, e.id))
  }

  ghost function DoSaveManifest(env: Env, g: World, w: nat, outcome: Outcome): World
    requires w in g.writers
  {
    var x := g.writers[w];
    var b := BatchOf(env, x.store);
    var e := EncodeManifest(env, ManifestFor(env, x.store, b)).value;
    var key := env.ManifestKey(e.id);
    if x.phase != PackSaved || !env.handled(e.data) then g
    else if key in x.published then WithWriter(LogManifest(env, g, x.store, b), w, x.(phase := ManifestSaved))
    else
      match outcome
      case Failed => WithWriter(g, w, x.(phase := Idle))
      case FailedButStored => WithWriter(LogManifest(env, g, x.store, b), w, x.(phase := Idle))
      case Saved =>
        WithWriter(LogManifest(env, g, x.store, b), w, x.(phase := ManifestSaved, published := x.published + {key}))
  }

  /** The steps that change one runner and nothing shared. */
  ghost function LocalStep(env: Env, x: Writer, step: Step): Writer {
    match step
    case PutCas(_, d, data) =>
      if x.phase == Crashed || env.sha(data) != d || !env.handled(data) || d in x.casObjects then x
      else x.(casObjects := x.casObjects[d := data], inflight := x.inflight + {d})
    case FetchCas(_, d, data) =>
      if x.phase == Crashed || env.sha(data) != d || !env.handled(data) || d !in x.store.index.cas then x
      else x.(casObjects := PutIfAbsent(x.casObjects, d, data))
    case PutStageCas(_, d) =>
      if x.phase != Idle || d !in x.casObjects then x
      else x.(store := StageCas(x.store, d, x.casObjects[d]), inflight := x.inflight - {d})
    case PutAc(_, d, data) =>
      if x.phase == Crashed || !DigestPattern(d) || !env.handled(data) then x
      else x.(acObjects := PutIfAbsent(x.acObjects, d, data))
    case PutStageAc(_, d, content, closure) =>
      if x.phase != Idle || d !in x.acObjects || !MayStage(env, x, x.acObjects[d], content, closure) then x
      else x.(store := StageAction(env, x.store, d, x.acObjects[d], closure))
    case Apply(_) =>
      if x.phase != ManifestSaved then x
      else
        var b := BatchOf(env, x.store);
        x.(store := Commit(env, x.store, b), phase := Idle, applied := x.applied + {ManifestIdFor(env, x.store, b)})
    case Abort(_) => if x.phase == PackSaved then x.(phase := Idle) else x
    case Crash(_) => x.(phase := Crashed)
    case _ => x
  }

  ghost function Do(env: Env, g: World, step: Step): World {
    if step.Join? then DoJoin(env, g, step.w, step.loaded)
    else if step.w !in g.writers then g
    else if step.SavePack? then DoSavePack(env, g, step.w, step.outcome)
    else if step.SaveManifest? then DoSaveManifest(env, g, step.w, step.outcome)
    else WithWriter(g, step.w, LocalStep(env, g.writers[step.w], step))
  }

  ghost function Run(env: Env, steps: seq<Step>): World {
    if steps == [] then EMPTY_WORLD else Do(env, Run(env, steps[..|steps| - 1]), steps[|steps| - 1])
  }

  // ----- the shared invariant -----

  ghost predicate SelfCertifying(env: Env, blocks: seq<Block>) {
    forall b: Block :: b in blocks ==> env.CidOf(b.data) == b.cid && env.handled(b.data)
  }

  /** The pack is in the backend under its key, its bytes hash to its ID, and it holds only self-certifying blocks. */
  ghost predicate PackStored(env: Env, backend: map<string, Bytes>, id: string) {
    && env.PackKey(id) in backend
    && env.handled(backend[env.PackKey(id)]) && env.sha(backend[env.PackKey(id)]) == id
    && env.openCar(backend[env.PackKey(id)]).Some?
    && SelfCertifying(env, env.openCar(backend[env.PackKey(id)]).value)
  }

  ghost predicate InPack(env: Env, backend: map<string, Bytes>, packId: string, cid: string, size: int) {
    && PackStored(env, backend, packId)
    && exists b: Block :: b in env.openCar(backend[env.PackKey(packId)]).value && b.cid == cid && |b.data| == size
  }

  ghost predicate DescriptorStored(env: Env, backend: map<string, Bytes>, p: PackDescriptor) {
    PackStored(env, backend, p.id) && p.key == env.PackKey(p.id) && p.size == |backend[p.key]|
  }

  /** Everything the manifest advertises can be restored from the backend. */
  ghost predicate Restorable(env: Env, backend: map<string, Bytes>, m: Manifest) {
    && (forall p :: p in m.packs ==> DescriptorStored(env, backend, p))
    && (forall o :: o in m.cas ==>
         Declared(m, o.packId) && o.cid == env.rawCid(o.digest) && InPack(env, backend, o.packId, o.cid, o.size))
    && (forall a :: a in m.actions ==>
         Declared(m, a.packId) && InPack(env, backend, a.packId, a.cid, a.size))
  }

  ghost predicate HasCas(m: Manifest, d: string) {
    exists o :: o in m.cas && o.digest == d
  }

  ghost predicate HasAction(m: Manifest, d: string, cid: string) {
    exists a :: a in m.actions && a.digest == d && a.cid == cid
  }

  ghost predicate ManifestStored(env: Env, backend: map<string, Bytes>, id: string, m: Manifest) {
    && m.version == FORMAT_VERSION
    && env.ManifestKey(id) in backend
    && EncodeManifest(env, m).value == Encoded(backend[env.ManifestKey(id)], id)
    && env.handled(backend[env.ManifestKey(id)])
  }

  ghost predicate CasFactFor(facts: set<Fact>, id: string, d: string) {
    exists data :: CasFact(id, d, data) in facts
  }

  ghost predicate ActionFactFor(env: Env, facts: set<Fact>, id: string, d: string, cid: string) {
    exists data, closure :: ActionFact(id, d, data, closure) in facts && env.CidOf(data) == cid
  }

  /** Every entry of the manifest was staged. */
  ghost predicate EntriesStaged(env: Env, facts: set<Fact>, id: string, m: Manifest) {
    && (forall o :: o in m.cas ==> CasFactFor(facts, id, o.digest))
    && (forall a :: a in m.actions ==> ActionFactFor(env, facts, id, a.digest, a.cid))
  }

  ghost predicate LogEntryOk(env: Env, backend: map<string, Bytes>, facts: set<Fact>, id: string, m: Manifest) {
    && ManifestStored(env, backend, id, m)
    && (WithinLimits(m) ==> WellFormed(env, m))
    && Restorable(env, backend, m)
    && EntriesStaged(env, facts, id, m)
  }

  /** The blob is listed by the manifest `id` or by one reachable from it through Parents. */
  ghost predicate AnchoredAt(log: map<string, Manifest>, id: string, h: string) {
    exists anc :: Ancestor(log, id, anc) && anc in log && HasCas(log[anc], h)
  }

  ghost predicate Anchored(log: map<string, Manifest>, id: string, closure: seq<DigestReference>) {
    forall h :: h in RealHashes(closure) ==> AnchoredAt(log, id, h)
  }

  ghost predicate FactOk(env: Env, log: map<string, Manifest>, f: Fact) {
    && f.id in log && env.handled(f.data)
    && match f
       case CasFact(id, d, data) => HasCas(log[id], d) && env.sha(data) == d
       case ActionFact(id, d, data, closure) =>
         && HasAction(log[id], d, env.CidOf(data)) && Anchored(log, id, closure)
         && ClosureHashes(env.sha, env.handled, data, RealHashes(closure))
  }

  ghost predicate SharedInv(env: Env, g: World) {
    && (forall id {:trigger env.PackKey(id)} :: env.PackKey(id) in g.backend ==> PackStored(env, g.backend, id))
    && (forall id {:trigger env.ManifestKey(id)} :: env.ManifestKey(id) in g.backend ==> id in g.log)
    && (forall id :: id in g.log ==> LogEntryOk(env, g.backend, g.facts, id, g.log[id]))
    && (forall f :: f in g.facts ==> FactOk(env, g.log, f))
  }

  // ----- the invariant of one runner -----

  ghost predicate LocalObjectsOk(env: Env, x: Writer) {
    && (forall d :: d in x.casObjects ==> env.sha(x.casObjects[d]) == d && env.handled(x.casObjects[d]))
    && (forall d :: d in x.acObjects ==> DigestPattern(d) && env.handled(x.acObjects[d]))
    && (forall d :: d in x.store.pendingCas ==> env.sha(x.store.pendingCas[d]) == d && env.handled(x.store.pendingCas[d]))
    && (forall d :: d in x.store.pendingActions ==>
         d in x.acObjects && x.store.pendingActions[d].data == x.acObjects[d]
         && x.store.pendingActions[d].cid == env.CidOf(x.acObjects[d]))
  }

  /** The blobs that are pending, published, or stored by a PUT that has yet to stage them. */
  ghost function Reached(x: Writer): set<string> {
    x.store.pendingCas.Keys + x.store.index.cas.Keys + x.inflight
  }

  /** The closure of a pending action is that of its bytes. */
  ghost predicate ClosuresCollected(env: Env, pending: map<string, PendingAction>) {
    forall d :: d in pending ==> ClosureHashes(env.sha, env.handled, pending[d].data, RealHashes(pending[d].closure))
  }

  ghost predicate ClosuresReached(x: Writer) {
    && x.casObjects.Keys <= Reached(x)
    && forall d :: d in x.store.pendingActions ==> RealHashes(x.store.pendingActions[d].closure) <= Reached(x)
  }

  ghost predicate IndexOk(env: Env, backend: map<string, Bytes>, log: map<string, Manifest>, ix: Index, applied: set<string>) {
    && applied <= log.Keys && ix.heads <= applied && Covered(log, ix.heads, applied)
    && KeyedBy(ix.cas, CasDigestOf) && KeyedBy(ix.packs, PackIdOf)
    && (forall k :: k in ix.packs ==> DescriptorStored(env, backend, ix.packs[k]))
    && (forall d :: d in ix.cas ==> CasEntryOk(env, backend, ix, d) && ListedBy(log, applied, d))
    && (forall d :: d in ix.actions ==> ActionEntryOk(env, backend, ix, d))
  }

  /** The index describes the pack of the blob, and the backend's copy of that pack holds the blob. */
  ghost predicate CasEntryOk(env: Env, backend: map<string, Bytes>, ix: Index, d: string)
    requires d in ix.cas
  {
    var o := ix.cas[d];
    o.packId in ix.packs && o.cid == env.rawCid(d) && InPack(env, backend, o.packId, o.cid, o.size)
  }

  ghost predicate ActionEntryOk(env: Env, backend: map<string, Bytes>, ix: Index, d: string)
    requires d in ix.actions
  {
    var a := ix.actions[d];
    a.packId in ix.packs && InPack(env, backend, a.packId, a.cid, a.size)
  }

  ghost predicate ListedBy(log: map<string, Manifest>, applied: set<string>, d: string) {
    exists id :: id in applied && id in log && HasCas(log[id], d)
  }

  ghost predicate BatchPackStored(env: Env, backend: map<string, Bytes>, s: Store) {
    var b := BatchOf(env, s);
    var key := env.PackKey(PackIdFor(env, s, b));
    !NothingToFlush(b) && key in backend && backend[key] == PackData(env, s, b)
  }

  ghost predicate BatchManifestLogged(env: Env, log: map<string, Manifest>, s: Store) {
    var b := BatchOf(env, s);
    var id := ManifestIdFor(env, s, b);
    id in log && SameEntries(log[id], ManifestFor(env, s, b))
  }

  ghost predicate PhaseOk(env: Env, backend: map<string, Bytes>, log: map<string, Manifest>, x: Writer) {
    && (x.phase == PackSaved || x.phase == ManifestSaved ==> BatchPackStored(env, backend, x.store))
    && (x.phase == ManifestSaved ==> BatchManifestLogged(env, log, x.store))
  }

  ghost predicate WriterInv(env: Env, backend: map<string, Bytes>, log: map<string, Manifest>, x: Writer) {
    && Bookkeeping(x.store)
    && LocalObjectsOk(env, x)
    && ClosuresReached(x)
    && ClosuresCollected(env, x.store.pendingActions)
    && IndexOk(env, backend, log, x.store.index, x.applied)
    && x.published <= backend.Keys
    && PhaseOk(env, backend, log, x)
  }

  ghost predicate Inv(env: Env, g: World) {
    SharedInv(env, g) && forall w :: w in g.writers ==> WriterInv(env, g.backend, g.log, g.writers[w])
  }

  // ----- manifests with the same entries -----

  /** An action entry without the order-sensitive part. */
  datatype ActionCore = ActionCore(digest: string, cid: string, packId: string, size: int)

  function CoreOf(a: ManifestAction): ActionCore { ActionCore(a.digest, a.cid, a.packId, a.size) }

  datatype EntrySets = EntrySets(parents: set<string>, packs: set<PackDescriptor>, cas: set<ManifestObject>, actions: set<ActionCore>)

  ghost function Entries(m: Manifest): EntrySets {
    EntrySets(set p | p in m.parents, set p | p in m.packs, set o | o in m.cas, set a | a in m.actions :: CoreOf(a))
  }

  ghost predicate SameEntries(a: Manifest, b: Manifest) { Entries(a) == Entries(b) }

  lemma CanonicalSameEntries(m: Manifest)
    ensures SameEntries(m, Canonical(m))
  {
    CanonicalMembers(m);
    var c := Canonical(m);
    forall a | a in c.actions ensures CoreOf(a) in Entries(m).actions {
      var b :| b in m.actions && a == CanonicalAction(b);
      assert CoreOf(b) == CoreOf(a);
    }
    forall a | a in m.actions ensures CoreOf(a) in Entries(c).actions {
      assert CoreOf(CanonicalAction(a)) == CoreOf(a);
    }
    assert Entries(m).actions == Entries(c).actions;
    assert Entries(m).packs == Entries(c).packs;
    assert Entries(m).cas == Entries(c).cas;
    assert Entries(m).parents == Entries(c).parents;
  }

  /** Same entries, seen element by element. */
  lemma SameEntriesMembers(a: Manifest, b: Manifest)
    requires SameEntries(a, b)
    ensures forall p :: p in a.parents <==> p in b.parents
    ensures forall p :: p in a.packs <==> p in b.packs
    ensures forall o :: o in a.cas <==> o in b.cas
  {
    forall p ensures p in a.parents <==> p in b.parents {
      assert p in Entries(a).parents <==> p in Entries(b).parents;
    }
    forall p ensures p in a.packs <==> p in b.packs {
      assert p in Entries(a).packs <==> p in Entries(b).packs;
    }
    forall o ensures o in a.cas <==> o in b.cas {
      assert o in Entries(a).cas <==> o in Entries(b).cas;
    }
  }

  lemma SameEntriesAction(a: Manifest, b: Manifest, x: ManifestAction) returns (y: ManifestAction)
    requires SameEntries(a, b) && x in a.actions
    ensures y in b.actions && CoreOf(y) == CoreOf(x)
  {
    assert CoreOf(x) in Entries(a).actions;
    y :| y in b.actions && CoreOf(y) == CoreOf(x);
  }

  /** Manifests with the same ID list the same entries, as long as SHA-256 does not collide on their bytes. */
  lemma SameIdSameEntries(env: Env, a: Manifest, b: Manifest)
    requires env.Good() && a.version == FORMAT_VERSION && b.version == FORMAT_VERSION
    requires env.handled(EncodeManifest(env, a).value.data) && env.handled(EncodeManifest(env, b).value.data)
    requires EncodeManifest(env, a).value.id == EncodeManifest(env, b).value.id
    ensures SameEntries(a, b) && EncodeManifest(env, a) == EncodeManifest(env, b)
  {
    var x, y := ManifestToNode(a).value, ManifestToNode(b).value;
    assert env.dagCid(env.sha(env.encode(x))) == env.dagCid(env.sha(env.encode(y)));
    assert env.decode(env.encode(x)) == Some(x) && env.decode(env.encode(y)) == Some(y);
    assert x == y;
    ParentsNodeRoundTrip(a);
    ParentsNodeRoundTrip(b);
    PacksNodeRoundTrip(a);
    PacksNodeRoundTrip(b);
    CasNodeRoundTrip(a);
    CasNodeRoundTrip(b);
    ActionsNodeRoundTrip(a);
    ActionsNodeRoundTrip(b);
    assert Canonical(a) == Canonical(b);
    CanonicalSameEntries(a);
    CanonicalSameEntries(b);
  }
}
