/** What a fresh runner that discovers every manifest of the backend reads. */
module FreshReader {
  import opened Common
  import opened Sorting
  import opened Environment
  import opened Manifests
  import opened PackIndex
  import opened PackedWorld
  import opened PackedInvariant
  import opened PackedRuns

  // ----- reading -----

  datatype Answer = Hit(data: Bytes) | Miss | Error

  const RAW_CID_BYTES := 36
  const SECTION_OVERHEAD := 64

  function FindBlock(blocks: seq<Block>, cid: string): Option<Bytes> {
    if blocks == [] then None
    else if blocks[0].cid == cid then Some(blocks[0].data)
    else FindBlock(blocks[1..], cid)
  }

  /** Download a pack and read one of its blocks, with every check on the way. */
  function FetchBlock(env: Env, ix: Index, backend: map<string, Bytes>, packId: string, cid: string, size: int): Option<Bytes> {
    if packId !in ix.packs || ix.packs[packId].key !in backend then None
    else
      var p := ix.packs[packId];
      var bytes := backend[p.key];
      if |bytes| > env.maxBlobSize || |bytes| != p.size || env.sha(bytes) != p.id || env.openCar(bytes) == None then None
      else
        match FindBlock(env.openCar(bytes).value, cid)
        case None => None
        case Some(data) =>
          if RAW_CID_BYTES + |data| > env.maxBlobSize + SECTION_OVERHEAD || env.CidOf(data) != cid || |data| != size then None
          else Some(data)
  }

  function ResolveCas(env: Env, ix: Index, backend: map<string, Bytes>, d: string): Answer {
    if d !in ix.cas then Miss
    else
      match FetchBlock(env, ix, backend, ix.cas[d].packId, ix.cas[d].cid, ix.cas[d].size)
      case None => Error
      case Some(data) => if env.sha(data) != d then Error else Hit(data)
  }

  function ResolveAction(env: Env, ix: Index, backend: map<string, Bytes>, d: string): Answer {
    if d in ix.conflicts || d !in ix.actions then Miss
    else
      match FetchBlock(env, ix, backend, ix.actions[d].packId, ix.actions[d].cid, ix.actions[d].size)
      case None => Error
      case Some(data) => Hit(data)
  }

  lemma {:induction false} FindBlockFinds(blocks: seq<Block>, b: Block)
    requires b in blocks
    ensures FindBlock(blocks, b.cid).Some?
    ensures exists c: Block :: c in blocks && c.cid == b.cid && FindBlock(blocks, b.cid) == Some(c.data)
  {
    if blocks[0].cid == b.cid {
    } else {
      assert b in blocks[1..];
      FindBlockFinds(blocks[1..], b);
      var c: Block :| c in blocks[1..] && c.cid == b.cid && FindBlock(blocks[1..], b.cid) == Some(c.data);
      assert c in blocks;
    }
  }

  /** A block that a stored pack holds is fetched, and its bytes are the only handled ones with its CID. */
  lemma FetchStoredBlock(env: Env, ix: Index, backend: map<string, Bytes>, packId: string, cid: string, size: int, data: Bytes)
    requires env.Good()
    requires packId in ix.packs && ix.packs[packId].id == packId && DescriptorStored(env, backend, ix.packs[packId])
    requires InPack(env, backend, packId, cid, size)
    requires |backend[env.PackKey(packId)]| <= env.maxBlobSize
    requires env.handled(data) && env.CidOf(data) == cid
    ensures FetchBlock(env, ix, backend, packId, cid, size) == Some(data)
  {
    var bytes := backend[env.PackKey(packId)];
    var blocks := env.openCar(bytes).value;
    var b: Block :| b in blocks && b.cid == cid && |b.data| == size;
    FindBlockFinds(blocks, b);
    var c: Block :| c in blocks && c.cid == b.cid && FindBlock(blocks, cid) == Some(c.data);
    assert c.data == data by { SameCidSameBytes(env, c.data, data); }
    assert b.data == data by { SameCidSameBytes(env, b.data, data); }
    BlockFits(env, backend, packId, c);
  }

  lemma SameCidSameBytes(env: Env, a: Bytes, b: Bytes)
    requires env.Good() && env.handled(a) && env.handled(b) && env.CidOf(a) == env.CidOf(b)
    ensures a == b
  {
    assert env.sha(a) == env.sha(b);
  }

  lemma BlockFits(env: Env, backend: map<string, Bytes>, packId: string, c: Block)
    requires env.Good() && PackStored(env, backend, packId)
    requires c in env.openCar(backend[env.PackKey(packId)]).value
    ensures |c.data| <= |backend[env.PackKey(packId)]|
  {
  }

  // ----- reading what an index lists -----

  /** The pack, by the size that the index gives for it, is small enough to be downloaded. */
  predicate PackFits(env: Env, ix: Index, packId: string) {
    packId in ix.packs && ix.packs[packId].size <= env.maxBlobSize
  }

  lemma IndexedPack(env: Env, g: World, ix: Index, applied: set<string>, packId: string)
    requires IndexOk(env, g.backend, g.log, ix, applied) && packId in ix.packs
    ensures ix.packs[packId].id == packId && DescriptorStored(env, g.backend, ix.packs[packId])
  {
    assert PackIdOf(ix.packs[packId]) == packId;
  }

  lemma FetchIndexedBlock(env: Env, g: World, ix: Index, applied: set<string>,
                          packId: string, cid: string, size: int, data: Bytes)
    requires env.Good() && IndexOk(env, g.backend, g.log, ix, applied) && packId in ix.packs
    requires InPack(env, g.backend, packId, cid, size) && env.handled(data) && env.CidOf(data) == cid
    ensures FetchBlock(env, ix, g.backend, packId, cid, size) == if PackFits(env, ix, packId) then Some(data) else None
  {
    IndexedPack(env, g, ix, applied, packId);
    if PackFits(env, ix, packId) { FetchStoredBlock(env, ix, g.backend, packId, cid, size, data); }
  }

  /** An indexed blob is served exactly if its pack can be downloaded, and only with the bytes of its digest. */
  lemma IndexedCasHit(env: Env, g: World, ix: Index, applied: set<string>, d: string, data: Bytes)
    requires env.Good() && IndexOk(env, g.backend, g.log, ix, applied)
    requires d in ix.cas && env.handled(data) && env.sha(data) == d
    ensures ResolveCas(env, ix, g.backend, d) == if PackFits(env, ix, ix.cas[d].packId) then Hit(data) else Error
  {
    assert CasEntryOk(env, g.backend, ix, d);
    FetchIndexedBlock(env, g, ix, applied, ix.cas[d].packId, ix.cas[d].cid, ix.cas[d].size, data);
  }

  lemma IndexedActionHit(env: Env, g: World, ix: Index, applied: set<string>, d: string, data: Bytes)
    requires env.Good() && IndexOk(env, g.backend, g.log, ix, applied)
    requires d in ix.actions && d !in ix.conflicts && env.handled(data) && env.CidOf(data) == ix.actions[d].cid
    ensures ResolveAction(env, ix, g.backend, d) == if PackFits(env, ix, ix.actions[d].packId) then Hit(data) else Error
  {
    assert ActionEntryOk(env, g.backend, ix, d);
    FetchIndexedBlock(env, g, ix, applied, ix.actions[d].packId, ix.actions[d].cid, ix.actions[d].size, data);
  }

  lemma BlockInPack(env: Env, backend: map<string, Bytes>, packId: string, cid: string, size: int) returns (data: Bytes)
    requires InPack(env, backend, packId, cid, size)
    ensures env.handled(data) && env.CidOf(data) == cid && |data| == size
  {
    var b: Block :| b in env.openCar(backend[env.PackKey(packId)]).value && b.cid == cid && |b.data| == size;
    data := b.data;
  }

  ghost predicate HitsBlob(env: Env, ix: Index, backend: map<string, Bytes>, d: string) {
    && d in ix.cas && ResolveCas(env, ix, backend, d).Hit?
    && env.sha(ResolveCas(env, ix, backend, d).data) == d && |ResolveCas(env, ix, backend, d).data| == ix.cas[d].size
  }

  ghost predicate HitsAction(env: Env, ix: Index, backend: map<string, Bytes>, d: string) {
    && d in ix.actions && ResolveAction(env, ix, backend, d).Hit?
    && env.CidOf(ResolveAction(env, ix, backend, d).data) == ix.actions[d].cid
  }

  /**
   * What a runner's index advertises can be restored exactly if the pack can be downloaded. In every reachable state, a
   * blob it lists is served, with the right digest and size, if and only if the pack it names is at most maxBlobSize
   * long, and is an error otherwise; likewise an action it lists without conflict, with the CID the index gives.
   */
  lemma {:induction false} EveryRunnerRestores(env: Env, steps: seq<Step>, w: nat, d: string)
    requires env.Good() && w in Run(env, steps).writers
    ensures var g := Run(env, steps);
      var ix := g.writers[w].store.index;
      && (d in ix.cas ==>
           if PackFits(env, ix, ix.cas[d].packId) then HitsBlob(env, ix, g.backend, d)
           else ResolveCas(env, ix, g.backend, d) == Error)
      && (d in ix.actions && d !in ix.conflicts ==>
           if PackFits(env, ix, ix.actions[d].packId) then HitsAction(env, ix, g.backend, d)
           else ResolveAction(env, ix, g.backend, d) == Error)
  {
    RunKeepsInv(env, steps);
    var g := Run(env, steps);
    var x := g.writers[w];
    assert WriterInv(env, g.backend, g.log, x);
    RunnerRestores(env, g, x.store.index, x.applied, d);
  }

  lemma RunnerRestores(env: Env, g: World, ix: Index, applied: set<string>, d: string)
    requires env.Good() && IndexOk(env, g.backend, g.log, ix, applied)
    ensures d in ix.cas ==>
      if PackFits(env, ix, ix.cas[d].packId) then HitsBlob(env, ix, g.backend, d)
      else ResolveCas(env, ix, g.backend, d) == Error
    ensures d in ix.actions && d !in ix.conflicts ==>
      if PackFits(env, ix, ix.actions[d].packId) then HitsAction(env, ix, g.backend, d)
      else ResolveAction(env, ix, g.backend, d) == Error
  {
    if d in ix.cas {
      assert CasEntryOk(env, g.backend, ix, d);
      var data := BlockInPack(env, g.backend, ix.cas[d].packId, ix.cas[d].cid, ix.cas[d].size);
      assert env.rawCid(env.sha(data)) == env.rawCid(d);
      IndexedCasHit(env, g, ix, applied, d, data);
    }
    if d in ix.actions && d !in ix.conflicts {
      assert ActionEntryOk(env, g.backend, ix, d);
      var data := BlockInPack(env, g.backend, ix.actions[d].packId, ix.actions[d].cid, ix.actions[d].size);
      IndexedActionHit(env, g, ix, applied, d, data);
    }
  }

  // ----- the index of a reader that loads everything -----

  /** A reader accepts the manifest: it is small enough to be downloaded and has no more entries than validation allows. */
  ghost predicate ManifestFits(env: Env, g: World, id: string)
    requires id in g.log && env.ManifestKey(id) in g.backend
  {
    WithinLimits(g.log[id]) && |g.backend[env.ManifestKey(id)]| <= env.maxBlobSize
  }

  ghost predicate ManifestsFit(env: Env, g: World) {
    forall id :: id in g.log ==> env.ManifestKey(id) in g.backend && ManifestFits(env, g, id)
  }

  lemma LoggedManifestLoads(env: Env, g: World, id: string)
    requires env.Good() && SharedInv(env, g) && id in g.log
    ensures env.ManifestKey(id) in g.backend
    ensures ReadManifest(env, g.backend, id) == if ManifestFits(env, g, id) then Some(Canonical(g.log[id])) else None
  {
    assert LogEntryOk(env, g.backend, g.facts, id, g.log[id]);
    assert DigestPattern(env.sha(g.backend[env.ManifestKey(id)]));
    DecodeInvertsEncode(env, g.log[id]);
  }

  /** In every run a published manifest loads, with its own entries, if and only if it is within the reader's limits. */
  lemma {:induction false} PublishedManifestLoads(env: Env, steps: seq<Step>, id: string)
    requires env.Good() && env.ManifestKey(id) in Run(env, steps).backend
    ensures var g := Run(env, steps);
      id in g.log
      && ReadManifest(env, g.backend, id) == if ManifestFits(env, g, id) then Some(Canonical(g.log[id])) else None
  {
    RunKeepsInv(env, steps);
    LoggedManifestLoads(env, Run(env, steps), id);
  }

  lemma LogLoadable(env: Env, g: World)
    requires env.Good() && SharedInv(env, g) && ManifestsFit(env, g)
    ensures forall id :: id in g.log.Keys ==> ReadManifest(env, g.backend, id) == Some(Canonical(g.log[id]))
  {
    forall id | id in g.log.Keys ensures ReadManifest(env, g.backend, id) == Some(Canonical(g.log[id])) {
      LoggedManifestLoads(env, g, id);
    }
  }

  /** `ms` holds the canonical form of every published manifest and nothing else. */
  ghost predicate HoldsLog(g: World, ms: seq<Loaded>) {
    && (forall l :: l in ms ==> l.id in g.log && l.manifest == Canonical(g.log[l.id]))
    && (forall id :: id in g.log ==> Loaded(id, Canonical(g.log[id])) in ms)
  }

  lemma LoadEachHoldsLog(env: Env, g: World, ids: seq<string>)
    requires forall id :: id in ids <==> id in g.log.Keys
    requires forall id :: id in g.log.Keys ==> ReadManifest(env, g.backend, id) == Some(Canonical(g.log[id]))
    ensures HoldsLog(g, LoadEach(env, g.backend, ids))
  {
    var ms := LoadEach(env, g.backend, ids);
    forall l | l in ms ensures l.id in g.log && l.manifest == Canonical(g.log[l.id]) {
      var i :| 0 <= i < |ids| && ms[i] == l;
    }
    forall id | id in g.log ensures Loaded(id, Canonical(g.log[id])) in ms {
      var i :| 0 <= i < |ids| && ids[i] == id;
      assert ms[i] == Loaded(id, Canonical(g.log[id]));
    }
  }

  lemma DiscoveredHoldsLog(env: Env, g: World) returns (ms: seq<Loaded>)
    requires env.Good() && SharedInv(env, g) && ManifestsFit(env, g)
    ensures Loadable(env, g.backend, g.log.Keys)
    ensures HoldsLog(g, ms) && Discover(env, g.backend, g.log.Keys) == ApplyAll(EMPTY_INDEX, ms)
  {
    LogLoadable(env, g);
    SortedSetProperties(g.log.Keys);
    ms := LoadEach(env, g.backend, SortedSet(g.log.Keys));
    LoadEachHoldsLog(env, g, SortedSet(g.log.Keys));
  }

  lemma IndexedCasSource(g: World, ms: seq<Loaded>, d: string) returns (id: string)
    requires HoldsLog(g, ms) && d in ApplyAll(EMPTY_INDEX, ms).cas
    ensures id in g.log && ApplyAll(EMPTY_INDEX, ms).cas[d] in g.log[id].cas
    ensures ApplyAll(EMPTY_INDEX, ms).cas[d].digest == d
  {
    ApplyAllFlattens(ms);
    KeepAllIsLeast(map[], AllCas(ms), CasDigestOf, CasPackOf);
    var o := ApplyAll(EMPTY_INDEX, ms).cas[d];
    assert o in AllCas(ms);
    AllMembers(ms);
    var l :| l in ms && o in l.manifest.cas;
    id := l.id;
    CanonicalMembers(g.log[id]);
  }

  lemma ListedCasIndexed(g: World, ms: seq<Loaded>, id: string, d: string)
    requires HoldsLog(g, ms) && id in g.log && HasCas(g.log[id], d)
    ensures d in ApplyAll(EMPTY_INDEX, ms).cas
  {
    ApplyAllFlattens(ms);
    KeepAllIsLeast(map[], AllCas(ms), CasDigestOf, CasPackOf);
    var o :| o in g.log[id].cas && o.digest == d;
    CanonicalMembers(g.log[id]);
    AllMembers(ms);
    var l := Loaded(id, Canonical(g.log[id]));
    assert l in ms && o in l.manifest.cas;
    assert o in AllCas(ms) && CasDigestOf(o) == d;
  }

  lemma ListedAction(g: World, ms: seq<Loaded>, id: string, d: string, cid: string) returns (l: Loaded, a: ManifestAction)
    requires HoldsLog(g, ms) && id in g.log && HasAction(g.log[id], d, cid)
    ensures l in ms && a in l.manifest.actions && a.digest == d && a.cid == cid
    ensures a in AllActions(ms)
  {
    var b :| b in g.log[id].actions && b.digest == d && b.cid == cid;
    CanonicalMembers(g.log[id]);
    l, a := Loaded(id, Canonical(g.log[id])), CanonicalAction(b);
    ActionIncluded(ms, l, a);
  }

  lemma LoadedActionSource(g: World, ms: seq<Loaded>, a: ManifestAction) returns (id: string, b: ManifestAction)
    requires HoldsLog(g, ms) && a in AllActions(ms)
    ensures id in g.log && b in g.log[id].actions && CoreOf(a) == CoreOf(b)
  {
    var l := ActionSource(ms, a);
    id := l.id;
    CanonicalMembers(g.log[id]);
    b :| b in g.log[id].actions && a == CanonicalAction(b);
  }

  lemma ActionConflict(g: World, ms: seq<Loaded>, i: string, j: string, d: string, c: string, e: string)
    requires HoldsLog(g, ms) && i in g.log && j in g.log && c != e
    requires HasAction(g.log[i], d, c) && HasAction(g.log[j], d, e)
    ensures d in ApplyAll(EMPTY_INDEX, ms).conflicts
  {
    var k, a := ListedAction(g, ms, i, d, c);
    var l, b := ListedAction(g, ms, j, d, e);
    ConflictIffDisputed(ms, d);
  }

  // ----- CAS reads -----

  /** The reader serves the blob if the pack it is in can be downloaded. */
  ghost predicate ReadsBlob(env: Env, ix: Index, backend: map<string, Bytes>, d: string, data: Bytes) {
    d in ix.cas && ResolveCas(env, ix, backend, d) == if PackFits(env, ix, ix.cas[d].packId) then Hit(data) else Error
  }

  ghost predicate ReadsAction(env: Env, ix: Index, backend: map<string, Bytes>, d: string, data: Bytes) {
    && d in ix.actions
    && ResolveAction(env, ix, backend, d) == if PackFits(env, ix, ix.actions[d].packId) then Hit(data) else Error
  }

  lemma CasFactHit(env: Env, g: World, ms: seq<Loaded>, id: string, d: string, data: Bytes)
    requires env.Good() && SharedInv(env, g) && HoldsLog(g, ms)
    requires IndexOk(env, g.backend, g.log, ApplyAll(EMPTY_INDEX, ms), g.log.Keys)
    requires CasFact(id, d, data) in g.facts
    ensures ReadsBlob(env, ApplyAll(EMPTY_INDEX, ms), g.backend, d, data)
  {
    assert FactOk(env, g.log, CasFact(id, d, data));
    ListedCasIndexed(g, ms, id, d);
    IndexedCasHit(env, g, ApplyAll(EMPTY_INDEX, ms), g.log.Keys, d, data);
  }

  lemma CasHitHasFact(env: Env, g: World, ms: seq<Loaded>, d: string)
    requires SharedInv(env, g) && HoldsLog(g, ms) && d in ApplyAll(EMPTY_INDEX, ms).cas
    ensures exists id :: CasFactFor(g.facts, id, d)
  {
    var id := IndexedCasSource(g, ms, d);
    assert LogEntryOk(env, g.backend, g.facts, id, g.log[id]);
    assert CasFactFor(g.facts, id, ApplyAll(EMPTY_INDEX, ms).cas[d].digest);
  }

  // ----- action reads -----

  /** Every value staged for the action digest is the same. */
  ghost predicate WritersAgree(facts: set<Fact>, d: string) {
    forall f, h :: f in facts && h in facts && f.ActionFact? && h.ActionFact? && f.digest == d && h.digest == d ==>
      f.data == h.data
  }

  lemma IndexedActionFact(env: Env, g: World, ms: seq<Loaded>, a: ManifestAction) returns (f: Fact, id: string)
    requires SharedInv(env, g) && HoldsLog(g, ms) && a in AllActions(ms)
    ensures f in g.facts && f.ActionFact? && f.digest == a.digest && env.CidOf(f.data) == a.cid && env.handled(f.data)
    ensures InPack(env, g.backend, a.packId, a.cid, a.size)
  {
    var b;
    id, b := LoadedActionSource(g, ms, a);
    assert LogEntryOk(env, g.backend, g.facts, id, g.log[id]);
    assert ActionFactFor(env, g.facts, id, b.digest, b.cid);
    var data, closure :| ActionFact(id, b.digest, data, closure) in g.facts && env.CidOf(data) == b.cid;
    f := ActionFact(id, b.digest, data, closure);
    assert FactOk(env, g.log, f);
  }

  /** Two loaded entries for one action come from values that were both staged. */
  lemma AgreedSameCid(env: Env, g: World, ms: seq<Loaded>, d: string, a: ManifestAction, b: ManifestAction)
    requires SharedInv(env, g) && HoldsLog(g, ms) && WritersAgree(g.facts, d)
    requires a in AllActions(ms) && b in AllActions(ms) && a.digest == d && b.digest == d
    ensures a.cid == b.cid
  {
    var f, i := IndexedActionFact(env, g, ms, a);
    var h, j := IndexedActionFact(env, g, ms, b);
  }

  lemma AgreedIsNoConflict(env: Env, g: World, ms: seq<Loaded>, d: string)
    requires SharedInv(env, g) && HoldsLog(g, ms) && WritersAgree(g.facts, d)
    ensures d !in ApplyAll(EMPTY_INDEX, ms).conflicts
  {
    forall a, b | a in AllActions(ms) && b in AllActions(ms) && a.digest == d && b.digest == d ensures a.cid == b.cid {
      AgreedSameCid(env, g, ms, d, a, b);
    }
    NoConflictWithoutDisagreement(ms, d);
  }

  lemma NoConflictWithoutDisagreement(ms: seq<Loaded>, d: string)
    requires forall a, b :: a in AllActions(ms) && b in AllActions(ms) && a.digest == d && b.digest == d ==> a.cid == b.cid
    ensures d !in ApplyAll(EMPTY_INDEX, ms).conflicts
  {
    ConflictIffDisputed(ms, d);
    DisputedIffDisagree(ms, d);
  }

  lemma AgreedActionIndexed(env: Env, g: World, ms: seq<Loaded>, f: Fact)
    requires SharedInv(env, g) && HoldsLog(g, ms)
    requires f in g.facts && f.ActionFact? && WritersAgree(g.facts, f.digest)
    ensures var ix := ApplyAll(EMPTY_INDEX, ms);
      && f.digest in ix.actions && f.digest !in ix.conflicts
      && ix.actions[f.digest].cid == env.CidOf(f.data) && env.handled(f.data)
  {
    AgreedIsNoConflict(env, g, ms, f.digest);
    assert FactOk(env, g.log, f);
    var l, a := ListedAction(g, ms, f.id, f.digest, env.CidOf(f.data));
    ApplyAllFlattens(ms);
    RecordActionsFinds(AllActions(ms));
    AgreedSameCid(env, g, ms, f.digest, a, ApplyAll(EMPTY_INDEX, ms).actions[f.digest]);
  }

  lemma AgreedActionHit(env: Env, g: World, ms: seq<Loaded>, f: Fact)
    requires env.Good() && SharedInv(env, g) && HoldsLog(g, ms)
    requires IndexOk(env, g.backend, g.log, ApplyAll(EMPTY_INDEX, ms), g.log.Keys)
    requires f in g.facts && f.ActionFact? && WritersAgree(g.facts, f.digest)
    ensures ReadsAction(env, ApplyAll(EMPTY_INDEX, ms), g.backend, f.digest, f.data)
  {
    AgreedActionIndexed(env, g, ms, f);
    IndexedActionHit(env, g, ApplyAll(EMPTY_INDEX, ms), g.log.Keys, f.digest, f.data);
  }

  lemma DisagreedActionMiss(env: Env, g: World, ms: seq<Loaded>, d: string)
    requires env.Good() && SharedInv(env, g) && HoldsLog(g, ms) && !WritersAgree(g.facts, d)
    ensures ResolveAction(env, ApplyAll(EMPTY_INDEX, ms), g.backend, d) == Miss
  {
    var f, h :| f in g.facts && h in g.facts && f.ActionFact? && h.ActionFact? && f.digest == d && h.digest == d
      && f.data != h.data;
    assert FactOk(env, g.log, f) && FactOk(env, g.log, h);
    if env.CidOf(f.data) == env.CidOf(h.data) { SameCidSameBytes(env, f.data, h.data); }
    ActionConflict(g, ms, f.id, h.id, d, env.CidOf(f.data), env.CidOf(h.data));
  }

  lemma UnstagedActionMiss(env: Env, g: World, ms: seq<Loaded>, d: string)
    requires SharedInv(env, g) && HoldsLog(g, ms)
    requires forall f :: f in g.facts && f.ActionFact? ==> f.digest != d
    ensures ResolveAction(env, ApplyAll(EMPTY_INDEX, ms), g.backend, d) == Miss
  {
    ApplyAllFlattens(ms);
    RecordActionsFinds(AllActions(ms));
    if d in ApplyAll(EMPTY_INDEX, ms).actions {
      var f, id := IndexedActionFact(env, g, ms, ApplyAll(EMPTY_INDEX, ms).actions[d]);
    }
  }

  // ----- the main result -----

  /** Reading an action: the bytes on which its writers agree, or a miss. */
  ghost predicate ReadsAgreed(env: Env, g: World, ix: Index, f: Fact)
    requires f.ActionFact?
  {
    if WritersAgree(g.facts, f.digest) then ReadsAction(env, ix, g.backend, f.digest, f.data)
    else ResolveAction(env, ix, g.backend, f.digest) == Miss
  }

  /**
   * What reading `d` under `ix` returns is what was staged and published for it: the bytes of a blob, the bytes of an
   * action result on which all its writers agree, and a miss for everything else. Instead of bytes that are in a pack
   * too large to be downloaded it returns an error.
   */
  ghost predicate ReadsAsPublished(env: Env, g: World, ix: Index, d: string) {
    && (forall id, data :: CasFact(id, d, data) in g.facts ==> ReadsBlob(env, ix, g.backend, d, data))
    && ((forall id, data :: CasFact(id, d, data) !in g.facts) ==> ResolveCas(env, ix, g.backend, d) == Miss)
    && (forall f :: f in g.facts && f.ActionFact? && f.digest == d ==> ReadsAgreed(env, g, ix, f))
    && ((forall f :: f in g.facts && f.ActionFact? ==> f.digest != d) ==> ResolveAction(env, ix, g.backend, d) == Miss)
  }

  lemma CasReadsAsPublished(env: Env, g: World, ms: seq<Loaded>, d: string)
    requires env.Good() && SharedInv(env, g) && HoldsLog(g, ms)
    requires IndexOk(env, g.backend, g.log, ApplyAll(EMPTY_INDEX, ms), g.log.Keys)
    ensures var ix := ApplyAll(EMPTY_INDEX, ms);
      && (forall id, data :: CasFact(id, d, data) in g.facts ==> ReadsBlob(env, ix, g.backend, d, data))
      && ((forall id, data :: CasFact(id, d, data) !in g.facts) ==> ResolveCas(env, ix, g.backend, d) == Miss)
  {
    forall id, data | CasFact(id, d, data) in g.facts
      ensures ReadsBlob(env, ApplyAll(EMPTY_INDEX, ms), g.backend, d, data)
    {
      CasFactHit(env, g, ms, id, d, data);
    }
    if d in ApplyAll(EMPTY_INDEX, ms).cas { CasHitHasFact(env, g, ms, d); }
  }

  lemma ActionReadsAsPublished(env: Env, g: World, ms: seq<Loaded>, d: string)
    requires env.Good() && SharedInv(env, g) && HoldsLog(g, ms)
    requires IndexOk(env, g.backend, g.log, ApplyAll(EMPTY_INDEX, ms), g.log.Keys)
    ensures var ix := ApplyAll(EMPTY_INDEX, ms);
      && (forall f :: f in g.facts && f.ActionFact? && f.digest == d ==> ReadsAgreed(env, g, ix, f))
      && ((forall f :: f in g.facts && f.ActionFact? ==> f.digest != d) ==> ResolveAction(env, ix, g.backend, d) == Miss)
  {
    forall f | f in g.facts && f.ActionFact? && f.digest == d
      ensures ReadsAgreed(env, g, ApplyAll(EMPTY_INDEX, ms), f)
    {
      if WritersAgree(g.facts, d) { AgreedActionHit(env, g, ms, f); } else { DisagreedActionMiss(env, g, ms, d); }
    }
    if forall f :: f in g.facts && f.ActionFact? ==> f.digest != d { UnstagedActionMiss(env, g, ms, d); }
  }

  lemma FreshReaderSeesFacts(env: Env, g: World, d: string)
    requires env.Good() && SharedInv(env, g) && ManifestsFit(env, g)
    ensures Loadable(env, g.backend, g.log.Keys)
    ensures ReadsAsPublished(env, g, Discover(env, g.backend, g.log.Keys), d)
  {
    var ms := DiscoveredHoldsLog(env, g);
    DiscoverOk(env, g, g.log.Keys);
    CasReadsAsPublished(env, g, ms, d);
    ActionReadsAsPublished(env, g, ms, d);
  }

  /**
   * The packed store refines a map. After any run whose manifests fit the reader's limits, a fresh reader that loads all
   * of them resolves each published CAS digest to the bytes that were staged and each published action to the staged
   * bytes if all writers of it agree, or to an error exactly if the pack is too large to be downloaded; disputed actions
   * and everything unpublished are misses.
   */
  lemma {:induction false} FreshReaderRefinesMap(env: Env, steps: seq<Step>, d: string)
    requires env.Good() && ManifestsFit(env, Run(env, steps))
    ensures Loadable(env, Run(env, steps).backend, Run(env, steps).log.Keys)
    ensures var g := Run(env, steps);
      ReadsAsPublished(env, g, Discover(env, g.backend, g.log.Keys), d)
  {
    RunKeepsInv(env, steps);
    FreshReaderSeesFacts(env, Run(env, steps), d);
  }

  /** A runner that joins and loads every manifest is such a reader. */
  lemma {:induction false} JoiningRunnerReads(env: Env, steps: seq<Step>, w: nat, d: string)
    requires env.Good() && ManifestsFit(env, Run(env, steps)) && w !in Run(env, steps).writers
    ensures var g := Run(env, steps);
      var h := Do(env, g, Join(w, g.log.Keys));
      && w in h.writers && h.backend == g.backend && h.writers[w].phase == Idle
      && h.writers[w].applied == g.log.Keys && ReadsAsPublished(env, g, h.writers[w].store.index, d)
  {
    RunKeepsInv(env, steps);
    FreshReaderSeesFacts(env, Run(env, steps), d);
  }

  // ----- the order in which manifests are merged does not matter -----

  /** The list holds manifests of the log, as they decode. */
  ghost predicate DrawnFromLog(g: World, ms: seq<Loaded>) {
    forall l :: l in ms ==> l.id in g.log && l.manifest == Canonical(g.log[l.id])
  }

  lemma DrawnPacksAgree(env: Env, g: World, ms: seq<Loaded>)
    requires SharedInv(env, g) && DrawnFromLog(g, ms)
    ensures AgreeBy(AllPacks(ms), PackIdOf, PackKeyOf)
  {
    AllMembers(ms);
    forall p | p in AllPacks(ms) ensures DescriptorStored(env, g.backend, p) {
      var l :| l in ms && p in l.manifest.packs;
      CanonicalMembers(g.log[l.id]);
      assert LogEntryOk(env, g.backend, g.facts, l.id, g.log[l.id]);
    }
  }

  lemma SameBlockSize(env: Env, backend: map<string, Bytes>, packId: string, cid: string, m: int, n: int)
    requires env.Good() && InPack(env, backend, packId, cid, m) && InPack(env, backend, packId, cid, n)
    ensures m == n
  {
    var blocks := env.openCar(backend[env.PackKey(packId)]).value;
    var b: Block :| b in blocks && b.cid == cid && |b.data| == m;
    var c: Block :| c in blocks && c.cid == cid && |c.data| == n;
    SameCidSameBytes(env, b.data, c.data);
  }

  lemma DrawnCasAgree(env: Env, g: World, ms: seq<Loaded>)
    requires env.Good() && SharedInv(env, g) && DrawnFromLog(g, ms)
    ensures AgreeBy(AllCas(ms), CasDigestOf, CasPackOf)
  {
    AllMembers(ms);
    forall o | o in AllCas(ms) ensures o.cid == env.rawCid(o.digest) && InPack(env, g.backend, o.packId, o.cid, o.size) {
      var l :| l in ms && o in l.manifest.cas;
      CanonicalMembers(g.log[l.id]);
      assert LogEntryOk(env, g.backend, g.facts, l.id, g.log[l.id]);
    }
    forall o, q | o in AllCas(ms) && q in AllCas(ms) && CasDigestOf(o) == CasDigestOf(q) && CasPackOf(o) == CasPackOf(q)
      ensures o == q
    {
      SameBlockSize(env, g.backend, o.packId, o.cid, o.size, q.size);
    }
  }

  /**
   * In every reachable state, merging the same published manifests in any order and any number of times each gives
   * the same packs, blobs and conflicts, and the same CID for every action without conflict.
   */
  lemma {:induction false} MergeOrderIrrelevant(env: Env, steps: seq<Step>, a: seq<Loaded>, b: seq<Loaded>)
    requires env.Good() && DrawnFromLog(Run(env, steps), a) && forall l :: l in a <==> l in b
    ensures var x, y := ApplyAll(EMPTY_INDEX, a), ApplyAll(EMPTY_INDEX, b);
      && x.packs == y.packs && x.cas == y.cas
      && x.conflicts == y.conflicts && x.actions.Keys == y.actions.Keys
      && forall d :: d in x.actions && d !in x.conflicts ==> x.actions[d].cid == y.actions[d].cid
  {
    RunKeepsInv(env, steps);
    DrawnPacksAgree(env, Run(env, steps), a);
    DrawnCasAgree(env, Run(env, steps), a);
    MergeOrderIndependent(a, b);
  }
}
