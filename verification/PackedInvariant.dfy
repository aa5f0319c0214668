/** Every step of the packed protocol keeps its invariant. */
module PackedInvariant {
  import opened Common
  import opened Sorting
  import opened Environment
  import opened Manifests
  import opened References
  import opened PackIndex
  import opened Staging
  import opened Draining
  import opened Completeness
  import opened PackedWorld

  // ----- the backend and the history only grow -----

  lemma RestorableGrows(env: Env, backend: map<string, Bytes>, backend': map<string, Bytes>, m: Manifest)
    requires Restorable(env, backend, m) && Grows(backend, backend')
    ensures Restorable(env, backend', m)
  {
    forall p | p in m.packs ensures DescriptorStored(env, backend', p) {
      assert DescriptorStored(env, backend, p);
    }
    forall o | o in m.cas ensures InPack(env, backend', o.packId, o.cid, o.size) {
      assert InPack(env, backend, o.packId, o.cid, o.size);
    }
    forall a | a in m.actions ensures InPack(env, backend', a.packId, a.cid, a.size) {
      assert InPack(env, backend, a.packId, a.cid, a.size);
    }
  }

  lemma EntriesStagedGrows(env: Env, facts: set<Fact>, facts': set<Fact>, id: string, m: Manifest)
    requires EntriesStaged(env, facts, id, m) && facts <= facts'
    ensures EntriesStaged(env, facts', id, m)
  {
    forall o | o in m.cas ensures CasFactFor(facts', id, o.digest) {
      assert CasFactFor(facts, id, o.digest);
      var data :| CasFact(id, o.digest, data) in facts;
      assert CasFact(id, o.digest, data) in facts';
    }
    forall a | a in m.actions ensures ActionFactFor(env, facts', id, a.digest, a.cid) {
      assert ActionFactFor(env, facts, id, a.digest, a.cid);
      var data, closure :| ActionFact(id, a.digest, data, closure) in facts && env.CidOf(data) == a.cid;
      assert ActionFact(id, a.digest, data, closure) in facts';
    }
  }

  lemma LogEntryGrows(env: Env, backend: map<string, Bytes>, backend': map<string, Bytes>,
                      facts: set<Fact>, facts': set<Fact>, id: string, m: Manifest)
    requires LogEntryOk(env, backend, facts, id, m) && Grows(backend, backend') && facts <= facts'
    ensures LogEntryOk(env, backend', facts', id, m)
  {
    RestorableGrows(env, backend, backend', m);
    EntriesStagedGrows(env, facts, facts', id, m);
  }

  lemma AnchoredGrows(log: map<string, Manifest>, log': map<string, Manifest>, id: string, closure: seq<DigestReference>)
    requires Anchored(log, id, closure) && Grows(log, log')
    ensures Anchored(log', id, closure)
  {
    forall h | h in RealHashes(closure) ensures AnchoredAt(log', id, h) {
      assert AnchoredAt(log, id, h);
      var anc :| Ancestor(log, id, anc) && anc in log && HasCas(log[anc], h);
      AncestorGrows(log, log', id, anc);
    }
  }

  lemma FactGrows(env: Env, log: map<string, Manifest>, log': map<string, Manifest>, f: Fact)
    requires FactOk(env, log, f) && Grows(log, log')
    ensures FactOk(env, log', f)
  {
    if f.ActionFact? { AnchoredGrows(log, log', f.id, f.closure); }
  }

  lemma InPackGrows(env: Env, backend: map<string, Bytes>, backend': map<string, Bytes>, packId: string, cid: string, size: int)
    requires InPack(env, backend, packId, cid, size) && Grows(backend, backend')
    ensures InPack(env, backend', packId, cid, size)
  {
  }

  lemma IndexGrows(env: Env, backend: map<string, Bytes>, backend': map<string, Bytes>,
                   log: map<string, Manifest>, log': map<string, Manifest>, ix: Index, applied: set<string>)
    requires IndexOk(env, backend, log, ix, applied) && Grows(backend, backend') && Grows(log, log')
    ensures IndexOk(env, backend', log', ix, applied)
  {
    CoveredGrows(log, log', ix.heads, applied);
    forall k | k in ix.packs ensures DescriptorStored(env, backend', ix.packs[k]) {
      assert DescriptorStored(env, backend, ix.packs[k]);
    }
    forall d | d in ix.actions ensures ActionEntryOk(env, backend', ix, d) {
      assert ActionEntryOk(env, backend, ix, d);
      InPackGrows(env, backend, backend', ix.actions[d].packId, ix.actions[d].cid, ix.actions[d].size);
    }
    forall d | d in ix.cas ensures CasEntryOk(env, backend', ix, d) && ListedBy(log', applied, d) {
      assert CasEntryOk(env, backend, ix, d);
      InPackGrows(env, backend, backend', ix.cas[d].packId, ix.cas[d].cid, ix.cas[d].size);
      assert ListedBy(log, applied, d);
      var id :| id in applied && id in log && HasCas(log[id], d);
      assert HasCas(log'[id], d);
    }
  }

  lemma WriterGrows(env: Env, backend: map<string, Bytes>, backend': map<string, Bytes>,
                    log: map<string, Manifest>, log': map<string, Manifest>, x: Writer)
    requires WriterInv(env, backend, log, x) && Grows(backend, backend') && Grows(log, log')
    ensures WriterInv(env, backend', log', x)
  {
    IndexGrows(env, backend, backend', log, log', x.store.index, x.applied);
  }

  // ----- merging a logged manifest -----

  lemma {:induction false} RecordActionsSource(t: ActionTable, es: seq<ManifestAction>)
    ensures forall d :: d in RecordActions(t, es).actions ==>
      (d in t.actions && RecordActions(t, es).actions[d] == t.actions[d]) || RecordActions(t, es).actions[d] in es
  {
    if es != [] {
      RecordActionsSource(t, es[..|es| - 1]);
      assert es == es[..|es| - 1] + [es[|es| - 1]];
    }
  }

  lemma DeclaredInMerged(ix: Index, m: Manifest, packs: map<string, PackDescriptor>, packId: string)
    requires Declared(m, packId) && forall p :: p in m.packs ==> PackIdOf(p) in packs
    ensures packId in packs
  {
    var p :| p in m.packs && p.id == packId;
    assert PackIdOf(p) in packs;
  }

  lemma DeclaredSame(a: Manifest, b: Manifest, packId: string)
    requires SameEntries(a, b) && Declared(a, packId)
    ensures Declared(b, packId)
  {
    SameEntriesMembers(a, b);
    var p :| p in a.packs && p.id == packId;
    assert p in b.packs;
  }

  lemma ApplyKeepsPacks(env: Env, backend: map<string, Bytes>, ix: Index, id: string, m: Manifest)
    requires KeyedBy(ix.packs, PackIdOf) && (forall k :: k in ix.packs ==> DescriptorStored(env, backend, ix.packs[k]))
    requires forall p :: p in m.packs ==> DescriptorStored(env, backend, p)
    ensures var packs := ApplyManifest(ix, id, m).packs;
      && KeyedBy(packs, PackIdOf) && (forall k :: k in packs ==> DescriptorStored(env, backend, packs[k]))
      && (forall k :: k in ix.packs ==> k in packs)
      && (forall p :: p in m.packs ==> PackIdOf(p) in packs)
  {
    KeepAllIsLeast(ix.packs, m.packs, PackIdOf, PackKeyOf);
  }

  lemma ApplyKeepsCas(env: Env, backend: map<string, Bytes>, log: map<string, Manifest>, ix: Index,
                      applied: set<string>, id: string, m: Manifest)
    requires IndexOk(env, backend, log, ix, applied) && id in log && SameEntries(log[id], m)
    requires Restorable(env, backend, log[id])
    ensures var ix' := ApplyManifest(ix, id, m);
      KeyedBy(ix'.cas, CasDigestOf)
      && forall d :: d in ix'.cas ==> CasEntryOk(env, backend, ix', d) && ListedBy(log, applied + {id}, d)
  {
    SameEntriesMembers(log[id], m);
    ApplyKeepsPacks(env, backend, ix, id, m);
    KeepAllIsLeast(ix.cas, m.cas, CasDigestOf, CasPackOf);
    var ix' := ApplyManifest(ix, id, m);
    forall d | d in ix'.cas ensures CasEntryOk(env, backend, ix', d) && ListedBy(log, applied + {id}, d) {
      if d in ix.cas {
        assert ListedBy(log, applied, d);
        var w :| w in applied && w in log && HasCas(log[w], d);
        assert w in applied + {id};
      }
      if d in ix.cas && ix'.cas[d] == ix.cas[d] {
        assert CasEntryOk(env, backend, ix, d);
      } else {
        var o := ix'.cas[d];
        assert o in m.cas && o in log[id].cas;
        assert HasCas(log[id], d);
        DeclaredSame(log[id], m, o.packId);
        DeclaredInMerged(ix, m, ix'.packs, o.packId);
      }
    }
  }

  lemma ApplyKeepsActions(env: Env, backend: map<string, Bytes>, log: map<string, Manifest>, ix: Index,
                          applied: set<string>, id: string, m: Manifest)
    requires IndexOk(env, backend, log, ix, applied) && id in log && SameEntries(log[id], m)
    requires Restorable(env, backend, log[id])
    ensures var ix' := ApplyManifest(ix, id, m); forall d :: d in ix'.actions ==> ActionEntryOk(env, backend, ix', d)
  {
    SameEntriesMembers(log[id], m);
    ApplyKeepsPacks(env, backend, ix, id, m);
    RecordActionsSource(ActionTable(ix.actions, ix.conflicts), m.actions);
    var ix' := ApplyManifest(ix, id, m);
    forall d | d in ix'.actions ensures ActionEntryOk(env, backend, ix', d) {
      var a := ix'.actions[d];
      if d in ix.actions && a == ix.actions[d] {
        assert ActionEntryOk(env, backend, ix, d);
      } else {
        SameEntriesMembers(log[id], m);
        assert Entries(m) == Entries(log[id]);
        var y := SameEntriesAction(m, log[id], a);
        DeclaredSame(log[id], m, y.packId);
        DeclaredInMerged(ix, m, ix'.packs, y.packId);
      }
    }
  }

  /** Merging a manifest of the backend keeps the index covered by its heads, restorable and without dangling packs. */
  lemma ApplyKeepsIndex(env: Env, backend: map<string, Bytes>, log: map<string, Manifest>, ix: Index,
                        applied: set<string>, id: string, m: Manifest)
    requires IndexOk(env, backend, log, ix, applied) && id in log && SameEntries(log[id], m)
    requires Restorable(env, backend, log[id])
    ensures IndexOk(env, backend, log, ApplyManifest(ix, id, m), applied + {id})
  {
    SameEntriesMembers(log[id], m);
    ApplyKeepsPacks(env, backend, ix, id, m);
    ApplyKeepsCas(env, backend, log, ix, applied, id, m);
    ApplyKeepsActions(env, backend, log, ix, applied, id, m);
    ApplyKeepsCover(log, ix, applied, id, m);
  }

  // ----- joining -----

  lemma ReadLogged(env: Env, g: World, id: string)
    requires env.Good() && SharedInv(env, g) && ReadManifest(env, g.backend, id).Some?
    ensures id in g.log && ReadManifest(env, g.backend, id).value == Canonical(g.log[id])
    ensures SameEntries(g.log[id], Canonical(g.log[id])) && WellFormed(env, g.log[id])
  {
    assert LogEntryOk(env, g.backend, g.facts, id, g.log[id]);
    var m := g.log[id];
    DecodeInvertsEncode(env, m);
    CanonicalSameEntries(m);
  }

  function LoadedIds(ms: seq<Loaded>): set<string> { set l | l in ms :: l.id }

  lemma LoadedIdsSnoc(init: seq<Loaded>, last: Loaded)
    ensures LoadedIds(init + [last]) == LoadedIds(init) + {last.id}
  {
    assert forall l :: l in init + [last] <==> l in init || l == last;
    assert last in init + [last];
    forall id | id in LoadedIds(init) ensures id in LoadedIds(init + [last]) {
      var l :| l in init && l.id == id;
      assert l in init + [last];
    }
  }

  lemma {:induction false} ApplyLoaded(env: Env, backend: map<string, Bytes>, log: map<string, Manifest>, ms: seq<Loaded>)
    requires forall l :: l in ms ==>
      l.id in log && SameEntries(log[l.id], l.manifest) && Restorable(env, backend, log[l.id])
    ensures IndexOk(env, backend, log, ApplyAll(EMPTY_INDEX, ms), LoadedIds(ms))
  {
    if ms != [] {
      var init, last := ms[..|ms| - 1], ms[|ms| - 1];
      ApplyLoaded(env, backend, log, init);
      assert ms == init + [last];
      LoadedIdsSnoc(init, last);
      ApplyKeepsIndex(env, backend, log, ApplyAll(EMPTY_INDEX, init), LoadedIds(init), last.id, last.manifest);
    }
  }

  lemma LoadedIdsOf(env: Env, backend: map<string, Bytes>, ids: seq<string>)
    requires forall id :: id in ids ==> ReadManifest(env, backend, id).Some?
    ensures LoadedIds(LoadEach(env, backend, ids)) == ToSet(ids)
  {
    var ms := LoadEach(env, backend, ids);
    forall id | id in ids ensures id in LoadedIds(ms) {
      var i :| 0 <= i < |ids| && ids[i] == id;
      assert ms[i] in ms && ms[i].id == id;
    }
  }

  lemma LoadedMatchesLog(env: Env, g: World, ids: seq<string>, l: Loaded)
    requires env.Good() && SharedInv(env, g)
    requires forall id :: id in ids ==> ReadManifest(env, g.backend, id).Some?
    requires l in LoadEach(env, g.backend, ids)
    ensures l.id in g.log && l.manifest == Canonical(g.log[l.id])
    ensures SameEntries(g.log[l.id], l.manifest) && Restorable(env, g.backend, g.log[l.id])
  {
    var ms := LoadEach(env, g.backend, ids);
    var i :| 0 <= i < |ids| && ms[i] == l;
    ReadLogged(env, g, ids[i]);
    assert LogEntryOk(env, g.backend, g.facts, l.id, g.log[l.id]);
  }

  lemma EachMatchesLog(env: Env, g: World, ids: seq<string>)
    requires env.Good() && SharedInv(env, g)
    requires forall id :: id in ids ==> ReadManifest(env, g.backend, id).Some?
    ensures forall l :: l in LoadEach(env, g.backend, ids) ==>
      l.id in g.log && SameEntries(g.log[l.id], l.manifest) && Restorable(env, g.backend, g.log[l.id])
  {
    forall l | l in LoadEach(env, g.backend, ids)
      ensures l.id in g.log && SameEntries(g.log[l.id], l.manifest) && Restorable(env, g.backend, g.log[l.id])
    {
      LoadedMatchesLog(env, g, ids, l);
    }
  }

  lemma {:induction false} DiscoverOk(env: Env, g: World, loaded: set<string>)
    requires env.Good() && SharedInv(env, g) && Loadable(env, g.backend, loaded)
    ensures IndexOk(env, g.backend, g.log, Discover(env, g.backend, loaded), loaded)
  {
    SortedSetProperties(loaded);
    var ids := SortedSet(loaded);
    var ms := LoadEach(env, g.backend, ids);
    EachMatchesLog(env, g, ids);
    ApplyLoaded(env, g.backend, g.log, ms);
    LoadedIdsOf(env, g.backend, ids);
    assert ToSet(ids) == loaded;
  }

  lemma JoinKeepsInv(env: Env, g: World, w: nat, loaded: set<string>)
    requires env.Good() && Inv(env, g)
    ensures Inv(env, DoJoin(env, g, w, loaded))
  {
    if w !in g.writers && Loadable(env, g.backend, loaded) {
      DiscoverOk(env, g, loaded);
      EmptyStoreKeeps(env, g, Discover(env, g.backend, loaded), loaded);
    }
  }

  lemma EmptyStoreKeeps(env: Env, g: World, ix: Index, loaded: set<string>)
    requires IndexOk(env, g.backend, g.log, ix, loaded)
    ensures WriterInv(env, g.backend, g.log,
                      Writer(EMPTY_STORE.(index := ix), {}, Idle, map[], map[], {}, loaded))
  {
    assert ToSet([]) == {};
  }

  // ----- steps of one runner -----

  lemma StageCasKeeps(env: Env, backend: map<string, Bytes>, log: map<string, Manifest>, x: Writer, d: string)
    requires WriterInv(env, backend, log, x) && x.phase == Idle && d in x.casObjects
    ensures WriterInv(env, backend, log,
                      x.(store := StageCas(x.store, d, x.casObjects[d]), inflight := x.inflight - {d}))
  {
    StageCasKeepsBooks(x.store, d, x.casObjects[d]);
    var y := x.(store := StageCas(x.store, d, x.casObjects[d]), inflight := x.inflight - {d});
    assert Reached(x) <= Reached(y);
  }

  lemma StageActionLocal(env: Env, x: Writer, d: string, closure: seq<DigestReference>)
    requires LocalObjectsOk(env, x) && ClosuresReached(x) && d in x.acObjects && Known(x, closure)
    ensures var y := x.(store := StageAction(env, x.store, d, x.acObjects[d], closure));
      LocalObjectsOk(env, y) && ClosuresReached(y) && y.store.index == x.store.index
  {
    SortedClosureHashes(closure);
    if d !in x.store.pendingActions {
      var y := x.(store := StageAction(env, x.store, d, x.acObjects[d], closure));
      assert Reached(y) == Reached(x);
      assert RealHashes(closure) <= Reached(y);
    }
  }

  lemma StageAcActs(env: Env, x: Writer, w: nat, d: string, content: map<string, Bytes>,
                    closure: seq<DigestReference>)
    requires x.phase == Idle && d in x.acObjects && MayStage(env, x, x.acObjects[d], content, closure)
    ensures LocalStep(env, x, PutStageAc(w, d, content, closure))
         == x.(store := StageAction(env, x.store, d, x.acObjects[d], closure))
  {
  }

  lemma MayStageCollected(env: Env, x: Writer, d: string, content: map<string, Bytes>, closure: seq<DigestReference>)
    requires d in x.acObjects && MayStage(env, x, x.acObjects[d], content, closure)
    ensures Known(x, closure)
    ensures ClosureHashes(env.sha, env.handled, x.acObjects[d], RealHashes(SortReferences(closure)))
  {
    CollectedHashes(env.sha, env.handled, content, x.acObjects[d], closure);
  }

  lemma StagedOrPending(env: Env, s: Store, d: string, data: Bytes, closure: seq<DigestReference>, e: string)
    requires e in StageAction(env, s, d, data, closure).pendingActions
    ensures
      var y := StageAction(env, s, d, data, closure).pendingActions[e];
      || (e in s.pendingActions && y == s.pendingActions[e])
      || (e == d && y.data == data && y.closure == SortReferences(closure))
  {
  }

  lemma StageActionCollected(env: Env, x: Writer, d: string, closure: seq<DigestReference>)
    requires ClosuresCollected(env, x.store.pendingActions) && d in x.acObjects
    requires ClosureHashes(env.sha, env.handled, x.acObjects[d], RealHashes(SortReferences(closure)))
    ensures ClosuresCollected(env, StageAction(env, x.store, d, x.acObjects[d], closure).pendingActions)
  {
    var pending := StageAction(env, x.store, d, x.acObjects[d], closure).pendingActions;
    forall e | e in pending
      ensures ClosureHashes(env.sha, env.handled, pending[e].data, RealHashes(pending[e].closure))
    {
      StagedOrPending(env, x.store, d, x.acObjects[d], closure, e);
    }
  }

  lemma StageKnownKeeps(env: Env, backend: map<string, Bytes>, log: map<string, Manifest>, x: Writer, d: string,
                        closure: seq<DigestReference>)
    requires WriterInv(env, backend, log, x) && x.phase == Idle && d in x.acObjects && Known(x, closure)
    requires ClosureHashes(env.sha, env.handled, x.acObjects[d], RealHashes(SortReferences(closure)))
    ensures WriterInv(env, backend, log, x.(store := StageAction(env, x.store, d, x.acObjects[d], closure)))
  {
    StageActionKeepsBooksIff(env, x.store, d, x.acObjects[d], closure);
    StageActionLocal(env, x, d, closure);
    StageActionCollected(env, x, d, closure);
  }

  /** A handler stages the bytes that were stored first, so a pending action never meets a different CID. */
  lemma StageAcKeeps(env: Env, backend: map<string, Bytes>, log: map<string, Manifest>, x: Writer, d: string,
                     content: map<string, Bytes>, closure: seq<DigestReference>)
    requires WriterInv(env, backend, log, x) && x.phase == Idle && d in x.acObjects
    requires MayStage(env, x, x.acObjects[d], content, closure)
    ensures WriterInv(env, backend, log, x.(store := StageAction(env, x.store, d, x.acObjects[d], closure)))
  {
    MayStageCollected(env, x, d, content, closure);
    StageKnownKeeps(env, backend, log, x, d, closure);
  }

  /** The runner after its batch was committed, from what the commit did to the store. */
  lemma CommittedKeeps(env: Env, backend: map<string, Bytes>, log: map<string, Manifest>, x: Writer, t: Store, id: string)
    requires WriterInv(env, backend, log, x)
    requires Bookkeeping(t) && IndexOk(env, backend, log, t.index, x.applied + {id})
    requires Held(t) == Held(x.store)
    requires forall d :: d in t.pendingCas ==> d in x.store.pendingCas && t.pendingCas[d] == x.store.pendingCas[d]
    requires forall d :: d in t.pendingActions ==>
      d in x.store.pendingActions && t.pendingActions[d] == x.store.pendingActions[d]
    ensures WriterInv(env, backend, log, x.(store := t, phase := Idle, applied := x.applied + {id}))
  {
    var y := x.(store := t, phase := Idle, applied := x.applied + {id});
    assert Reached(y) == Reached(x);
  }

  lemma ApplyKeeps(env: Env, backend: map<string, Bytes>, log: map<string, Manifest>, x: Writer)
    requires WriterInv(env, backend, log, x) && x.phase == ManifestSaved
    requires forall id :: id in log ==> Restorable(env, backend, log[id])
    ensures var b := BatchOf(env, x.store);
      WriterInv(env, backend, log, x.(store := Commit(env, x.store, b), phase := Idle,
                                      applied := x.applied + {ManifestIdFor(env, x.store, b)}))
  {
    var s, b := x.store, BatchOf(env, x.store);
    var id, m := ManifestIdFor(env, s, b), ManifestFor(env, s, b);
    CommitKeepsBooks(env, s, b);
    ApplyKeepsIndex(env, backend, log, s.index, x.applied, id, m);
    CommitIndex(env, s, b);
    CommitHolds(env, s, b);
    CommittedKeeps(env, backend, log, x, Commit(env, s, b), id);
  }

  lemma CommitIndex(env: Env, s: Store, b: Batch)
    requires BatchPending(s, b)
    ensures Commit(env, s, b).index == ApplyManifest(s.index, ManifestIdFor(env, s, b), ManifestFor(env, s, b))
  {
  }

  lemma CommitHolds(env: Env, s: Store, b: Batch)
    requires Bookkeeping(s) && BatchPending(s, b)
    ensures Held(Commit(env, s, b)) == Held(s)
  {
    CommitKeepsBooks(env, s, b);
    var t := Commit(env, s, b);
    assert t.pendingCas.Keys == s.pendingCas.Keys - ToSet(b.cas);
    assert ToSet(b.cas) <= s.pendingCas.Keys;
  }

  lemma PutCasLocal(env: Env, x: Writer, d: string, data: Bytes)
    requires LocalObjectsOk(env, x) && ClosuresReached(x) && env.sha(data) == d && env.handled(data) && d !in x.casObjects
    ensures var y := x.(casObjects := x.casObjects[d := data], inflight := x.inflight + {d});
      LocalObjectsOk(env, y) && ClosuresReached(y)
  {
    var y := x.(casObjects := x.casObjects[d := data], inflight := x.inflight + {d});
    assert Reached(x) <= Reached(y);
  }

  lemma PutCasKeeps(env: Env, backend: map<string, Bytes>, log: map<string, Manifest>, x: Writer, d: string, data: Bytes)
    requires WriterInv(env, backend, log, x)
    requires env.sha(data) == d && env.handled(data) && d !in x.casObjects
    ensures WriterInv(env, backend, log, x.(casObjects := x.casObjects[d := data], inflight := x.inflight + {d}))
  {
    PutCasLocal(env, x, d, data);
  }

  lemma FetchCasLocal(env: Env, x: Writer, d: string, data: Bytes)
    requires LocalObjectsOk(env, x) && ClosuresReached(x) && env.sha(data) == d && env.handled(data) && d in x.store.index.cas
    ensures var y := x.(casObjects := PutIfAbsent(x.casObjects, d, data)); LocalObjectsOk(env, y) && ClosuresReached(y)
  {
    assert Reached(x) == Reached(x.(casObjects := PutIfAbsent(x.casObjects, d, data)));
  }

  lemma FetchCasKeeps(env: Env, backend: map<string, Bytes>, log: map<string, Manifest>, x: Writer, d: string, data: Bytes)
    requires WriterInv(env, backend, log, x)
    requires env.sha(data) == d && env.handled(data) && d in x.store.index.cas
    ensures WriterInv(env, backend, log, x.(casObjects := PutIfAbsent(x.casObjects, d, data)))
  {
    FetchCasLocal(env, x, d, data);
  }

  lemma PutAcKeeps(env: Env, backend: map<string, Bytes>, log: map<string, Manifest>, x: Writer, d: string, data: Bytes)
    requires WriterInv(env, backend, log, x) && DigestPattern(d) && env.handled(data)
    ensures WriterInv(env, backend, log, x.(acObjects := PutIfAbsent(x.acObjects, d, data)))
  {
    var y := x.(acObjects := PutIfAbsent(x.acObjects, d, data));
    assert Reached(x) == Reached(y);
  }

  /** Going back to Idle or crashing leaves the store as it was. */
  lemma StopKeeps(env: Env, backend: map<string, Bytes>, log: map<string, Manifest>, x: Writer, phase: Phase)
    requires WriterInv(env, backend, log, x) && (phase == Idle || phase == Crashed)
    ensures WriterInv(env, backend, log, x.(phase := phase))
  {
    assert Reached(x.(phase := phase)) == Reached(x);
  }

  lemma LocalStepKeeps(env: Env, backend: map<string, Bytes>, log: map<string, Manifest>, x: Writer, step: Step)
    requires WriterInv(env, backend, log, x)
    requires forall id :: id in log ==> Restorable(env, backend, log[id])
    ensures WriterInv(env, backend, log, LocalStep(env, x, step))
  {
    if LocalStep(env, x, step) != x {
      match step
      case PutCas(_, d, data) => PutCasKeeps(env, backend, log, x, d, data);
      case FetchCas(_, d, data) => FetchCasKeeps(env, backend, log, x, d, data);
      case PutStageCas(_, d) => StageCasKeeps(env, backend, log, x, d);
      case PutAc(_, d, data) => PutAcKeeps(env, backend, log, x, d, data);
      case PutStageAc(_, d, content, closure) => StageAcKeeps(env, backend, log, x, d, content, closure);
      case Apply(_) => ApplyKeeps(env, backend, log, x);
      case Abort(_) => StopKeeps(env, backend, log, x, Idle);
      case Crash(_) => StopKeeps(env, backend, log, x, Crashed);
    }
  }

  // ----- saving a pack -----

  lemma BatchBlocksCertified(env: Env, x: Writer, b: Batch)
    requires LocalObjectsOk(env, x) && BatchPending(x.store, b)
    ensures SelfCertifying(env, Blocks(env, x.store, b))
  {
    var blocks := Blocks(env, x.store, b);
    forall block: Block | block in blocks ensures env.CidOf(block.data) == block.cid && env.handled(block.data) {
      var i :| 0 <= i < |blocks| && blocks[i] == block;
      if i < |b.cas| {
        assert block == CasBlock(env, x.store, b.cas[i]);
      } else {
        assert block == ActionBlock(x.store, b.actions[i - |b.cas|]);
      }
    }
  }

  lemma CertifiedOneContent(env: Env, blocks: seq<Block>)
    requires env.Good() && SelfCertifying(env, blocks)
    ensures OneContentPerCid(blocks)
  {
    forall b: Block, c: Block | b in blocks && c in blocks && b.cid == c.cid ensures b == c {
      assert env.sha(b.data) == env.sha(c.data);
    }
  }

  lemma PutPackKeepsPacks(env: Env, backend: map<string, Bytes>, id: string, data: Bytes)
    requires forall other {:trigger env.PackKey(other)} :: env.PackKey(other) in backend ==> PackStored(env, backend, other)
    requires env.PackKey(id) !in backend ==> PackStored(env, PutIfAbsent(backend, env.PackKey(id), data), id)
    ensures var backend' := PutIfAbsent(backend, env.PackKey(id), data);
      forall other {:trigger env.PackKey(other)} :: env.PackKey(other) in backend' ==> PackStored(env, backend', other)
  {
    var backend' := PutIfAbsent(backend, env.PackKey(id), data);
    forall other {:trigger env.PackKey(other)} | env.PackKey(other) in backend' ensures PackStored(env, backend', other) {
      if env.PackKey(other) == env.PackKey(id) {
        PackKeyInjective(env, other, id);
      } else {
        assert PackStored(env, backend, other);
      }
    }
  }

  lemma LogGrows(env: Env, g: World, backend': map<string, Bytes>)
    requires SharedInv(env, g) && Grows(g.backend, backend')
    ensures forall id :: id in g.log ==> LogEntryOk(env, backend', g.facts, id, g.log[id])
  {
    forall id | id in g.log ensures LogEntryOk(env, backend', g.facts, id, g.log[id]) {
      LogEntryGrows(env, g.backend, backend', g.facts, g.facts, id, g.log[id]);
    }
  }

  /** A pack of certified blocks opens and hashes to its ID. */
  lemma NewPackStored(env: Env, g: World, x: Writer, b: Batch)
    requires env.Good() && LocalObjectsOk(env, x) && BatchPending(x.store, b)
    requires env.handled(PackData(env, x.store, b)) && env.PackKey(PackIdFor(env, x.store, b)) !in g.backend
    ensures var id := PackIdFor(env, x.store, b);
      PackStored(env, PutIfAbsent(g.backend, env.PackKey(id), PackData(env, x.store, b)), id)
  {
    BatchBlocksCertified(env, x, b);
    CertifiedOneContent(env, Blocks(env, x.store, b));
  }

  lemma PutPackKeepsShared(env: Env, g: World, x: Writer, b: Batch)
    requires env.Good() && SharedInv(env, g) && LocalObjectsOk(env, x) && BatchPending(x.store, b)
    requires env.handled(PackData(env, x.store, b))
    ensures var key := env.PackKey(PackIdFor(env, x.store, b));
      var backend' := PutIfAbsent(g.backend, key, PackData(env, x.store, b));
      && SharedInv(env, g.(backend := backend')) && Grows(g.backend, backend')
      && backend'[key] == PackData(env, x.store, b)
  {
    var data, id := PackData(env, x.store, b), PackIdFor(env, x.store, b);
    var key := env.PackKey(id);
    var backend' := PutIfAbsent(g.backend, key, data);
    if key in g.backend { assert PackStored(env, g.backend, id); } else { NewPackStored(env, g, x, b); }
    PutPackKeepsPacks(env, g.backend, id, data);
    forall other {:trigger env.ManifestKey(other)} | env.ManifestKey(other) in backend' ensures other in g.log {
      KeysDisjoint(env, id, other);
    }
    LogGrows(env, g, backend');
  }

  lemma OthersGrow(env: Env, g: World, backend': map<string, Bytes>, log': map<string, Manifest>)
    requires (forall w :: w in g.writers ==> WriterInv(env, g.backend, g.log, g.writers[w]))
    requires Grows(g.backend, backend') && Grows(g.log, log')
    ensures forall w :: w in g.writers ==> WriterInv(env, backend', log', g.writers[w])
  {
    forall w | w in g.writers ensures WriterInv(env, backend', log', g.writers[w]) {
      WriterGrows(env, g.backend, backend', g.log, log', g.writers[w]);
    }
  }

  lemma PackSavedKeeps(env: Env, backend: map<string, Bytes>, log: map<string, Manifest>, x: Writer, published: set<string>)
    requires WriterInv(env, backend, log, x) && BatchPackStored(env, backend, x.store) && published <= backend.Keys
    ensures WriterInv(env, backend, log, x.(phase := PackSaved, published := published))
  {
    assert Reached(x.(phase := PackSaved, published := published)) == Reached(x);
  }

  lemma UpdateWriter(env: Env, g: World, w: nat, y: Writer)
    requires Inv(env, g) && WriterInv(env, g.backend, g.log, y)
    ensures Inv(env, WithWriter(g, w, y))
  {
    var h := WithWriter(g, w, y);
    assert SharedInv(env, h);
  }

  ghost function WithPack(env: Env, g: World, s: Store): World {
    var b := BatchOf(env, s);
    g.(backend := PutIfAbsent(g.backend, env.PackKey(PackIdFor(env, s, b)), PackData(env, s, b)))
  }

  lemma WithPackInv(env: Env, g: World, w: nat)
    requires env.Good() && Inv(env, g) && w in g.writers
    requires var s := g.writers[w].store; !NothingToFlush(BatchOf(env, s)) && env.handled(PackData(env, s, BatchOf(env, s)))
    ensures var s := g.writers[w].store;
      var h := WithPack(env, g, s);
      Inv(env, h) && BatchPackStored(env, h.backend, s)
  {
    var x := g.writers[w];
    var h := WithPack(env, g, x.store);
    PutPackKeepsShared(env, g, x, BatchOf(env, x.store));
    OthersGrow(env, g, h.backend, g.log);
  }

  lemma PackSavedInv(env: Env, g: World, w: nat, published: set<string>)
    requires Inv(env, g) && w in g.writers
    requires BatchPackStored(env, g.backend, g.writers[w].store) && published <= g.backend.Keys
    ensures Inv(env, WithWriter(g, w, g.writers[w].(phase := PackSaved, published := published)))
  {
    var x := g.writers[w];
    PackSavedKeeps(env, g.backend, g.log, x, published);
    UpdateWriter(env, g, w, x.(phase := PackSaved, published := published));
  }

  lemma PublishedSaved(env: Env, g: World, w: nat, key: string)
    requires Inv(env, g) && w in g.writers && key in g.writers[w].published
    ensures key in g.backend && g.writers[w].published <= g.backend.Keys
  {
    assert WriterInv(env, g.backend, g.log, g.writers[w]);
  }

  ghost predicate ReadyToSave(env: Env, x: Writer) {
    var b := BatchOf(env, x.store);
    x.phase == Idle && !NothingToFlush(b) && env.handled(PackData(env, x.store, b))
  }

  ghost function BatchPackKey(env: Env, s: Store): string { env.PackKey(PackIdFor(env, s, BatchOf(env, s))) }

  lemma SaveSamePackKeepsInv(env: Env, g: World, w: nat)
    requires env.Good() && Inv(env, g) && w in g.writers && ReadyToSave(env, g.writers[w])
    requires BatchPackKey(env, g.writers[w].store) in g.writers[w].published
    ensures Inv(env, WithWriter(g, w, g.writers[w].(phase := PackSaved)))
  {
    var x := g.writers[w];
    WithPackInv(env, g, w);
    PublishedSaved(env, g, w, BatchPackKey(env, x.store));
    assert WithPack(env, g, x.store) == g;
    PackSavedInv(env, g, w, x.published);
  }

  lemma SaveNewPackKeepsInv(env: Env, g: World, w: nat)
    requires env.Good() && Inv(env, g) && w in g.writers && ReadyToSave(env, g.writers[w])
    ensures var x := g.writers[w];
      var h := WithPack(env, g, x.store);
      && Inv(env, h)
      && Inv(env, WithWriter(h, w, x.(phase := PackSaved, published := x.published + {BatchPackKey(env, x.store)})))
  {
    var x := g.writers[w];
    var h := WithPack(env, g, x.store);
    WithPackInv(env, g, w);
    assert WriterInv(env, h.backend, h.log, x);
    PackSavedInv(env, h, w, x.published + {BatchPackKey(env, x.store)});
  }

  lemma SaveNewPackEnds(env: Env, g: World, w: nat, outcome: Outcome)
    requires env.Good() && Inv(env, g) && w in g.writers && ReadyToSave(env, g.writers[w])
    requires BatchPackKey(env, g.writers[w].store) !in g.writers[w].published
    ensures Inv(env, DoSavePack(env, g, w, outcome))
  {
    var x := g.writers[w];
    var h := WithPack(env, g, x.store);
    SaveNewPackKeepsInv(env, g, w);
    match outcome
    case Failed => assert DoSavePack(env, g, w, outcome) == g;
    case FailedButStored => assert DoSavePack(env, g, w, outcome) == h;
    case Saved =>
      assert DoSavePack(env, g, w, outcome)
          == WithWriter(h, w, x.(phase := PackSaved, published := x.published + {BatchPackKey(env, x.store)}));
  }

  lemma SavePackKeepsInv(env: Env, g: World, w: nat, outcome: Outcome)
    requires env.Good() && Inv(env, g) && w in g.writers
    ensures Inv(env, DoSavePack(env, g, w, outcome))
  {
    var x := g.writers[w];
    if !ReadyToSave(env, x) {
      assert DoSavePack(env, g, w, outcome) == g;
    } else if BatchPackKey(env, x.store) in x.published {
      SaveSamePackKeepsInv(env, g, w);
      assert DoSavePack(env, g, w, outcome) == WithWriter(g, w, x.(phase := PackSaved));
    } else {
      SaveNewPackEnds(env, g, w, outcome);
    }
  }
}
