/** What every run of the packed protocol guarantees. */
module PackedTheorems {
  import opened Common
  import opened Sorting
  import opened Environment
  import opened Manifests
  import opened PackIndex
  import opened Staging
  import opened Draining
  import opened ActionResults
  import opened Validator
  import opened Completeness
  import opened PackedWorld
  import opened PackedInvariant
  import opened PackedCommit
  import opened PackedRuns

  // ----- the backend -----

  /**
   * Commit point. However runs interleave, crash or fail to save, a manifest key in the backend holds an encoded
   * manifest whose packs are there under the declared key, ID and size, and whose entries name blocks inside them.
   */
  lemma {:induction false} CommitPoint(env: Env, steps: seq<Step>, id: string)
    requires env.Good() && env.ManifestKey(id) in Run(env, steps).backend
    ensures var g := Run(env, steps);
      && id in g.log
      && EncodeManifest(env, g.log[id]) == Some(Encoded(g.backend[env.ManifestKey(id)], id))
      && Restorable(env, g.backend, g.log[id])
  {
    RunKeepsInv(env, steps);
    var g := Run(env, steps);
    assert LogEntryOk(env, g.backend, g.facts, id, g.log[id]);
  }

  /** Within the entry limits, a published manifest decodes to its own entries in canonical order. */
  lemma {:induction false} PublishedManifestDecodes(env: Env, steps: seq<Step>, id: string)
    requires env.Good() && env.ManifestKey(id) in Run(env, steps).backend
    ensures var g := Run(env, steps);
      id in g.log && WithinLimits(g.log[id]) ==>
        WellFormed(env, g.log[id])
        && DecodeManifest(env, g.backend[env.ManifestKey(id)], id) == Some(Canonical(g.log[id]))
  {
    CommitPoint(env, steps, id);
    RunKeepsInv(env, steps);
    var g := Run(env, steps);
    assert LogEntryOk(env, g.backend, g.facts, id, g.log[id]);
    DecodeInvertsEncode(env, g.log[id]);
  }

  /**
   * Closure in ancestry. Every action of a published manifest was staged with a closure whose real members are
   * all listed as CAS entries of that manifest or of one reachable through Parents.
   */
  lemma {:induction false} ClosureInAncestry(env: Env, steps: seq<Step>, id: string, a: ManifestAction)
    requires env.Good() && env.ManifestKey(id) in Run(env, steps).backend
    requires id in Run(env, steps).log && a in Run(env, steps).log[id].actions
    ensures var g := Run(env, steps);
      && (exists data, closure :: ActionFact(id, a.digest, data, closure) in g.facts && env.CidOf(data) == a.cid)
      && forall data, closure, h :: ActionFact(id, a.digest, data, closure) in g.facts && h in RealHashes(closure) ==>
           exists anc :: Ancestor(g.log, id, anc) && anc in g.log && HasCas(g.log[anc], h)
  {
    RunKeepsInv(env, steps);
    var g := Run(env, steps);
    assert LogEntryOk(env, g.backend, g.facts, id, g.log[id]);
    assert ActionFactFor(env, g.facts, id, a.digest, a.cid);
    forall data, closure, h | ActionFact(id, a.digest, data, closure) in g.facts && h in RealHashes(closure)
      ensures exists anc :: Ancestor(g.log, id, anc) && anc in g.log && HasCas(g.log[anc], h)
    {
      assert FactOk(env, g.log, ActionFact(id, a.digest, data, closure));
      assert AnchoredAt(g.log, id, h);
    }
  }

  /**
   * Closure packs. In every reachable state, the action entries a runner is about to publish list exactly the packs
   * of their closure: each non-empty closure member is in a listed pack of the backend, and no pack is listed idly.
   */
  lemma {:induction false} ClosurePacksLeadToClosure(env: Env, steps: seq<Step>, w: nat, d: string)
    requires env.Good() && w in Run(env, steps).writers && Run(env, steps).writers[w].phase == PackSaved
    requires d in BatchOf(env, Run(env, steps).writers[w].store).actions
    ensures var g := Run(env, steps);
      var s, b := g.writers[w].store, BatchOf(env, g.writers[w].store);
      ClosurePacksExact(env, g.backend, s.pendingActions[d].closure,
                        ActionEntry(s, PackIdFor(env, s, b), ToSet(b.cas), d).closurePacks)
  {
    RunKeepsInv(env, steps);
    var g := Run(env, steps);
    assert WriterInv(env, g.backend, g.log, g.writers[w]);
    NewClosurePacksExact(env, g, g.writers[w], d);
  }

  // ----- any backend -----

  ghost predicate Accepted(env: Env, ms: seq<Loaded>) { forall l :: l in ms ==> WellFormed(env, l.manifest) }

  ghost predicate PackEntryValid(ix: Index, k: string)
    requires k in ix.packs
  {
    ix.packs[k].id == k && DigestPattern(k) && ix.packs[k].size > 0 && ix.packs[k].key != ""
  }

  ghost predicate CasEntryValid(env: Env, ix: Index, d: string)
    requires d in ix.cas
  {
    var o := ix.cas[d];
    o.digest == d && DigestPattern(d) && o.cid == env.rawCid(d) && o.size >= 0 && o.packId in ix.packs
  }

  ghost predicate ActionEntryValid(env: Env, ix: Index, d: string)
    requires d in ix.actions
  {
    var a := ix.actions[d];
    a.digest == d && DigestPattern(d) && env.validCid(a.cid) && a.size >= 0 && a.packId in ix.packs
  }

  lemma MergedPacks(env: Env, ms: seq<Loaded>)
    requires Accepted(env, ms)
    ensures var ix := ApplyAll(EMPTY_INDEX, ms);
      && (forall k :: k in ix.packs ==> PackEntryValid(ix, k))
      && forall l, id :: l in ms && Declared(l.manifest, id) ==> id in ix.packs
  {
    ApplyAllFlattens(ms);
    AllMembers(ms);
    KeepAllIsLeast(map[], AllPacks(ms), PackIdOf, PackKeyOf);
    var ix := ApplyAll(EMPTY_INDEX, ms);
    forall k | k in ix.packs ensures PackEntryValid(ix, k) {
      var l :| l in ms && ix.packs[k] in l.manifest.packs;
    }
    forall l, id | l in ms && Declared(l.manifest, id) ensures id in ix.packs {
      var p :| p in l.manifest.packs && p.id == id;
      assert p in AllPacks(ms) && PackIdOf(p) == id;
    }
  }

  lemma MergedCas(env: Env, ms: seq<Loaded>)
    requires Accepted(env, ms)
    ensures var ix := ApplyAll(EMPTY_INDEX, ms); forall d :: d in ix.cas ==> CasEntryValid(env, ix, d)
  {
    MergedPacks(env, ms);
    ApplyAllFlattens(ms);
    AllMembers(ms);
    KeepAllIsLeast(map[], AllCas(ms), CasDigestOf, CasPackOf);
    var ix := ApplyAll(EMPTY_INDEX, ms);
    forall d | d in ix.cas ensures CasEntryValid(env, ix, d) {
      var l :| l in ms && ix.cas[d] in l.manifest.cas;
      assert Declared(l.manifest, ix.cas[d].packId);
    }
  }

  lemma MergedActions(env: Env, ms: seq<Loaded>)
    requires Accepted(env, ms)
    ensures var ix := ApplyAll(EMPTY_INDEX, ms); forall d :: d in ix.actions ==> ActionEntryValid(env, ix, d)
  {
    MergedPacks(env, ms);
    ApplyAllFlattens(ms);
    RecordActionsFinds(AllActions(ms));
    var ix := ApplyAll(EMPTY_INDEX, ms);
    forall d | d in ix.actions ensures ActionEntryValid(env, ix, d) {
      var l := ActionSource(ms, ix.actions[d]);
      assert ActionWellFormed(env, l.manifest, ix.actions[d]);
    }
  }

  ghost predicate IndexValid(env: Env, ix: Index) {
    && (forall k :: k in ix.packs ==> PackEntryValid(ix, k))
    && (forall d :: d in ix.cas ==> CasEntryValid(env, ix, d))
    && (forall d :: d in ix.actions ==> ActionEntryValid(env, ix, d))
  }

  lemma MergedIsValid(env: Env, ms: seq<Loaded>)
    requires Accepted(env, ms)
    ensures IndexValid(env, ApplyAll(EMPTY_INDEX, ms))
  {
    MergedPacks(env, ms);
    MergedCas(env, ms);
    MergedActions(env, ms);
  }

  lemma LoadedAreAccepted(env: Env, backend: map<string, Bytes>, ids: seq<string>)
    requires forall id :: id in ids ==> ReadManifest(env, backend, id).Some?
    ensures Accepted(env, LoadEach(env, backend, ids))
  {
    var ms := LoadEach(env, backend, ids);
    forall l | l in ms ensures WellFormed(env, l.manifest) {
      var i :| 0 <= i < |ms| && ms[i] == l;
      assert ids[i] in ids;
    }
  }

  /**
   * Whatever a backend holds, and whoever wrote it: the index of a runner that discovers any of its manifests is keyed by
   * valid digests, every entry names a pack the index describes, and every blob has the CID of its digest.
   */
  lemma {:induction false} AnyDiscoveryIsValid(env: Env, backend: map<string, Bytes>, ids: set<string>)
    requires Loadable(env, backend, ids)
    ensures IndexValid(env, Discover(env, backend, ids))
  {
    SortedSetProperties(ids);
    LoadedAreAccepted(env, backend, SortedSet(ids));
    MergedIsValid(env, LoadEach(env, backend, SortedSet(ids)));
  }

  lemma KeptAlone<E>(es: seq<E>, key: E -> string, rank: E -> string)
    requires DistinctBy(es, key)
    ensures forall e :: e in es ==> key(e) in KeepAll(map[], es, key, rank) && KeepAll(map[], es, key, rank)[key(e)] == e
  {
    KeepAllIsLeast(map[], es, key, rank);
    var kept := KeepAll(map[], es, key, rank);
    forall e | e in es ensures kept[key(e)] == e {
      var i :| 0 <= i < |es| && es[i] == e;
      var j :| 0 <= j < |es| && es[j] == kept[key(e)];
    }
  }

  lemma OnlyOneManifest(l: Loaded)
    ensures AllPacks([l]) == l.manifest.packs && AllCas([l]) == l.manifest.cas && AllActions([l]) == l.manifest.actions
  {
    assert [l][..0] == [];
  }

  lemma BlobsIndexedAlone(l: Loaded)
    requires DistinctBy(l.manifest.packs, PackIdOf) && DistinctBy(l.manifest.cas, CasDigestOf)
    ensures var ix := ApplyAll(EMPTY_INDEX, [l]);
      && (forall p :: p in l.manifest.packs ==> PackIdOf(p) in ix.packs && ix.packs[PackIdOf(p)] == p)
      && (forall o :: o in l.manifest.cas ==> CasDigestOf(o) in ix.cas && ix.cas[CasDigestOf(o)] == o)
  {
    OnlyOneManifest(l);
    ApplyAllFlattens([l]);
    KeptAlone(l.manifest.packs, PackIdOf, PackKeyOf);
    KeptAlone(l.manifest.cas, CasDigestOf, CasPackOf);
  }

  lemma DistinctActions(es: seq<ManifestAction>, a: ManifestAction, b: ManifestAction)
    requires DistinctBy(es, ActionDigestOf) && a in es && b in es && a.digest == b.digest
    ensures a == b
  {
    var i :| 0 <= i < |es| && es[i] == a;
    var j :| 0 <= j < |es| && es[j] == b;
    assert ActionDigestOf(a) == ActionDigestOf(b);
  }

  lemma RecordedAlone(t: ActionTable, es: seq<ManifestAction>)
    requires Records(t, es) && DistinctBy(es, ActionDigestOf)
    ensures forall a :: a in es ==> a.digest in t.actions && t.actions[a.digest] == a
    ensures t.conflicts == {}
  {
    forall a, b | a in es && b in es && a.digest == b.digest ensures a == b { DistinctActions(es, a, b); }
    forall d ensures !Disagree(es, d) {}
  }

  lemma ActionsIndexedAlone(l: Loaded)
    requires DistinctBy(l.manifest.actions, ActionDigestOf)
    ensures var ix := ApplyAll(EMPTY_INDEX, [l]);
      && (forall a :: a in l.manifest.actions ==> a.digest in ix.actions && ix.actions[a.digest] == a)
      && ix.conflicts == {}
  {
    var es, ix := l.manifest.actions, ApplyAll(EMPTY_INDEX, [l]);
    OnlyOneManifest(l);
    ApplyAllFlattens([l]);
    RecordActionsFinds(es);
    RecordedAlone(ActionTable(ix.actions, ix.conflicts), es);
  }

  /** An accepted manifest on its own is indexed entry by entry: nothing in it replaces or contradicts anything else. */
  lemma AcceptedManifestIsIndexed(env: Env, l: Loaded)
    requires WellFormed(env, l.manifest)
    ensures var ix := ApplyAll(EMPTY_INDEX, [l]);
      && (forall p :: p in l.manifest.packs ==> PackIdOf(p) in ix.packs && ix.packs[PackIdOf(p)] == p)
      && (forall o :: o in l.manifest.cas ==> CasDigestOf(o) in ix.cas && ix.cas[CasDigestOf(o)] == o)
      && (forall a :: a in l.manifest.actions ==> a.digest in ix.actions && ix.actions[a.digest] == a)
      && ix.conflicts == {}
  {
    BlobsIndexedAlone(l);
    ActionsIndexedAlone(l);
  }

  // ----- one runner -----

  /**
   * What a passing validation collects may be staged: if the lookups it made succeeded among the objects stored locally
   * and those listed in the index, the step that stages the action does so.
   */
  lemma PassedClosureIsStaged(env: Env, x: Writer, w: nat, d: string, view: map<string, Bytes>, present: set<string>,
                              closure: seq<DigestReference>)
    requires x.phase == Idle && d in x.acObjects
    requires Vouched(env.sha, view, x.acObjects[d], present) && present <= view.Keys && present <= LocalBlobs(x)
    requires ExactClosure(GraphOf(env.sha, view, ActionResultOf(x.acObjects[d]).value), closure)
    requires Genuine(env.sha, env.handled, Restrict(view, present))
    ensures LocalStep(env, x, PutStageAc(w, d, Restrict(view, present), closure))
         == x.(store := StageAction(env, x.store, d, x.acObjects[d], closure))
  {
    PassedCollects(env.sha, env.handled, view, x.acObjects[d], present, closure);
    StageAcActs(env, x, w, d, Restrict(view, present), closure);
  }

  /** Every manifest a runner has applied is one of its heads or an ancestor of one. */
  lemma {:induction false} HeadsCoverApplied(env: Env, steps: seq<Step>, w: nat, id: string)
    requires env.Good() && w in Run(env, steps).writers && id in Run(env, steps).writers[w].applied
    ensures var g := Run(env, steps);
      id in g.log && exists h :: h in g.writers[w].store.index.heads && h in g.log && Ancestor(g.log, h, id)
  {
    RunKeepsInv(env, steps);
    var g := Run(env, steps);
    var x := g.writers[w];
    assert WriterInv(env, g.backend, g.log, x);
    assert CoveredAt(g.log, x.store.index.heads, id);
  }

  lemma LoadPair(env: Env, backend: map<string, Bytes>, child: Loaded, parent: Loaded, ids: seq<string>)
    requires forall id :: id in ids ==> id == child.id || id == parent.id
    requires ReadManifest(env, backend, child.id) == Some(child.manifest)
    requires ReadManifest(env, backend, parent.id) == Some(parent.manifest)
    ensures forall id :: id in ids ==> ReadManifest(env, backend, id).Some?
    ensures var ms := LoadEach(env, backend, ids);
      |ms| == |ids| && forall i :: 0 <= i < |ids| ==> ms[i] == if ids[i] == child.id then child else parent
  {
    forall i | 0 <= i < |ids| ensures LoadEach(env, backend, ids)[i] == if ids[i] == child.id then child else parent {
      assert ids[i] in ids;
    }
  }

  /** Discovery of a child and its parent keeps both as heads exactly when the child's ID is first in the order. */
  lemma DiscoveryKeepsAParent(env: Env, backend: map<string, Bytes>, child: Loaded, parent: Loaded)
    requires child.id != parent.id && child.manifest.parents == [parent.id] && parent.manifest.parents == []
    requires ReadManifest(env, backend, child.id) == Some(child.manifest)
    requires ReadManifest(env, backend, parent.id) == Some(parent.manifest)
    ensures Loadable(env, backend, {child.id, parent.id})
    ensures Discover(env, backend, {child.id, parent.id}).heads
         == if Lt(child.id, parent.id) then {child.id, parent.id} else {child.id}
  {
    var ids := SortedSet({child.id, parent.id});
    SortedSetProperties({child.id, parent.id});
    LoadPair(env, backend, child, parent, ids);
    HeadsKeepAParent(child, parent, ids, LoadEach(env, backend, ids));
  }

  lemma WriterBooks(env: Env, steps: seq<Step>, w: nat)
    requires env.Good() && w in Run(env, steps).writers
    ensures Bookkeeping(Run(env, steps).writers[w].store) && ClosuresReached(Run(env, steps).writers[w])
  {
    RunKeepsInv(env, steps);
    var g := Run(env, steps);
    assert WriterInv(env, g.backend, g.log, g.writers[w]);
  }

  /** In every reachable state, what a successful flush commits leaves the new manifest as the only head. */
  lemma {:induction false} FlushLeavesOneHead(env: Env, steps: seq<Step>, w: nat)
    requires env.Good() && w in Run(env, steps).writers
    ensures var s := Run(env, steps).writers[w].store;
      Commit(env, s, BatchOf(env, s)).index.heads == {ManifestIdFor(env, s, BatchOf(env, s))}
  {
    WriterBooks(env, steps, w);
    var s := Run(env, steps).writers[w].store;
    CommitKeepsBooks(env, s, BatchOf(env, s));
  }

  /** The books are right, and every blob a PUT has staged is in exactly one of the pending map and the index. */
  lemma {:induction false} StagedExactlyOnce(env: Env, steps: seq<Step>, w: nat, d: string)
    requires env.Good() && w in Run(env, steps).writers
    ensures var x := Run(env, steps).writers[w];
      && Bookkeeping(x.store)
      && (d in x.casObjects && d !in x.inflight ==> (d in x.store.pendingCas <==> d !in x.store.index.cas))
  {
    RunKeepsInv(env, steps);
    var g := Run(env, steps);
    assert WriterInv(env, g.backend, g.log, g.writers[w]);
    if d in g.writers[w].casObjects { assert d in Reached(g.writers[w]); }
  }

  /** No index entry of any runner names a pack the index does not describe. */
  lemma {:induction false} NoUnavailablePack(env: Env, steps: seq<Step>, w: nat, d: string)
    requires env.Good() && w in Run(env, steps).writers
    ensures var ix := Run(env, steps).writers[w].store.index;
      (d in ix.cas ==> ix.cas[d].packId in ix.packs) && (d in ix.actions ==> ix.actions[d].packId in ix.packs)
  {
    RunKeepsInv(env, steps);
    var g := Run(env, steps);
    assert WriterInv(env, g.backend, g.log, g.writers[w]);
    EntriesDescribed(env, g, g.writers[w].store.index, g.writers[w].applied, d);
  }

  lemma EntriesDescribed(env: Env, g: World, ix: Index, applied: set<string>, d: string)
    requires IndexOk(env, g.backend, g.log, ix, applied)
    ensures d in ix.cas ==> ix.cas[d].packId in ix.packs
    ensures d in ix.actions ==> ix.actions[d].packId in ix.packs
  {
    if d in ix.cas { assert CasEntryOk(env, g.backend, ix, d); }
    if d in ix.actions { assert ActionEntryOk(env, g.backend, ix, d); }
  }

  /** With no CAS PUT in flight, every pending action of a runner can be published. */
  lemma AllPublishable(x: Writer)
    requires ClosuresReached(x) && x.inflight == {}
    ensures x.store.pendingActions - Publishable(x.store) == map[]
  {
    assert Reached(x) == Held(x.store);
    forall d | d in x.store.pendingActions ensures d in Publishable(x.store) {
      assert RealHashes(x.store.pendingActions[d].closure) <= Reached(x);
    }
  }

  /** Full drain: once no CAS PUT is in flight, draining the store leaves nothing pending. */
  lemma {:induction false} FullDrain(env: Env, steps: seq<Step>, w: nat, t: Store, n: nat)
    requires env.Good() && w in Run(env, steps).writers && Run(env, steps).writers[w].inflight == {}
    requires FlushedTimes(env, Run(env, steps).writers[w].store, t, n) && NothingToFlush(Select(env.targetSize, t))
    ensures t.pendingCas == map[] && t.pendingActions == map[]
  {
    WriterBooks(env, steps, w);
    AllPublishable(Run(env, steps).writers[w]);
    FlushesLeaveUnpublishable(env, Run(env, steps).writers[w].store, t, n);
  }
}
