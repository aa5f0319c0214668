/** Publishing a manifest: what it advertises is restorable, well formed and closed in its ancestry. */
module PackedCommit {
  import opened Common
  import opened Sorting
  import opened Environment
  import opened Manifests
  import opened PackIndex
  import opened Staging
  import opened Draining
  import opened PackedWorld
  import opened PackedInvariant

  // ----- the new manifest -----

  lemma CasEntrySource(env: Env, s: Store, b: Batch, o: ManifestObject) returns (d: string)
    requires BatchPending(s, b) && o in ManifestFor(env, s, b).cas
    ensures d in b.cas && d in s.pendingCas && o == CasEntry(env, s, PackIdFor(env, s, b), d)
  {
    var m := ManifestFor(env, s, b);
    var i :| 0 <= i < |m.cas| && m.cas[i] == o;
    d := b.cas[i];
  }

  lemma ActionEntrySource(env: Env, s: Store, b: Batch, a: ManifestAction) returns (d: string)
    requires BatchPending(s, b) && a in ManifestFor(env, s, b).actions
    ensures d in b.actions && d in s.pendingActions && a == ActionEntry(s, PackIdFor(env, s, b), ToSet(b.cas), d)
  {
    var m := ManifestFor(env, s, b);
    var i :| 0 <= i < |m.actions| && m.actions[i] == a;
    d := b.actions[i];
  }

  lemma CasEntryPresent(env: Env, s: Store, b: Batch, d: string)
    requires BatchPending(s, b) && d in b.cas
    ensures HasCas(ManifestFor(env, s, b), d)
  {
    var m := ManifestFor(env, s, b);
    var i :| 0 <= i < |b.cas| && b.cas[i] == d;
    assert m.cas[i].digest == d;
  }

  lemma ActionEntryPresent(env: Env, s: Store, b: Batch, d: string)
    requires BatchPending(s, b) && d in b.actions
    ensures HasAction(ManifestFor(env, s, b), d, s.pendingActions[d].cid)
  {
    var m := ManifestFor(env, s, b);
    var i :| 0 <= i < |b.actions| && b.actions[i] == d;
    assert m.actions[i].digest == d;
  }

  lemma CasBlockPresent(env: Env, s: Store, b: Batch, d: string)
    requires BatchPending(s, b) && d in b.cas
    ensures CasBlock(env, s, d) in Blocks(env, s, b)
  {
    var i :| 0 <= i < |b.cas| && b.cas[i] == d;
    assert Blocks(env, s, b)[i] == CasBlock(env, s, d);
  }

  lemma ActionBlockPresent(env: Env, s: Store, b: Batch, d: string)
    requires BatchPending(s, b) && d in b.actions
    ensures ActionBlock(s, d) in Blocks(env, s, b)
  {
    var i :| 0 <= i < |b.actions| && b.actions[i] == d;
    assert Blocks(env, s, b)[|b.cas| + i] == ActionBlock(s, d);
  }

  /** The pack of the batch is in the backend and opens to the blocks of the batch. */
  ghost predicate PackOpens(env: Env, backend: map<string, Bytes>, s: Store, b: Batch)
    requires BatchPending(s, b)
  {
    var id := PackIdFor(env, s, b);
    && PackStored(env, backend, id)
    && backend[env.PackKey(id)] == PackData(env, s, b)
    && (forall block: Block :: block in Blocks(env, s, b) ==> block in env.openCar(backend[env.PackKey(id)]).value)
    && |PackData(env, s, b)| > 0
  }

  lemma StoredPackOpens(env: Env, g: World, x: Writer)
    requires env.Good() && SharedInv(env, g) && LocalObjectsOk(env, x) && BatchPackStored(env, g.backend, x.store)
    ensures PackOpens(env, g.backend, x.store, BatchOf(env, x.store))
  {
    var s, b := x.store, BatchOf(env, x.store);
    assert PackStored(env, g.backend, PackIdFor(env, s, b));
    BatchBlocksCertified(env, x, b);
    CertifiedOneContent(env, Blocks(env, s, b));
    assert env.handled(env.car(Blocks(env, s, b)));
  }

  lemma NewManifestRestorable(env: Env, backend: map<string, Bytes>, s: Store, b: Batch)
    requires BatchPending(s, b) && PackOpens(env, backend, s, b)
    ensures Restorable(env, backend, ManifestFor(env, s, b))
  {
    var m, id := ManifestFor(env, s, b), PackIdFor(env, s, b);
    assert m.packs[0] in m.packs;
    forall o | o in m.cas
      ensures Declared(m, o.packId) && o.cid == env.rawCid(o.digest) && InPack(env, backend, o.packId, o.cid, o.size)
    {
      var d := CasEntrySource(env, s, b, o);
      CasBlockPresent(env, s, b, d);
    }
    forall a | a in m.actions ensures Declared(m, a.packId) && InPack(env, backend, a.packId, a.cid, a.size) {
      var d := ActionEntrySource(env, s, b, a);
      ActionBlockPresent(env, s, b, d);
    }
  }

  lemma NewPacksWellFormed(env: Env, s: Store, b: Batch)
    requires env.Good() && BatchPending(s, b) && |PackData(env, s, b)| > 0
    ensures PacksWellFormed(ManifestFor(env, s, b))
  {
    PackKeySuffix(env, PackIdFor(env, s, b));
  }

  lemma NewCasWellFormed(env: Env, s: Store, b: Batch)
    requires env.Good() && BatchPending(s, b) && NoRepeats(b.cas)
    requires forall d :: d in s.pendingCas ==> env.sha(s.pendingCas[d]) == d
    ensures CasWellFormed(env, ManifestFor(env, s, b))
  {
    var m := ManifestFor(env, s, b);
    assert m.packs[0] in m.packs;
    forall o | o in m.cas ensures ObjectOk(env, o) && Declared(m, o.packId) {
      var d := CasEntrySource(env, s, b, o);
      assert DigestPattern(env.sha(s.pendingCas[d]));
    }
    forall i, j | 0 <= i < j < |m.cas| ensures CasDigestOf(m.cas[i]) != CasDigestOf(m.cas[j]) {
      assert b.cas[i] != b.cas[j];
    }
  }

  lemma ClosurePacksPattern(env: Env, s: Store, b: Batch, a: ManifestAction)
    requires env.Good() && BatchPending(s, b) && a in ManifestFor(env, s, b).actions
    requires forall d :: d in s.index.cas ==> DigestPattern(s.index.cas[d].packId)
    ensures forall c :: c in a.closurePacks ==> DigestPattern(c)
  {
    var d := ActionEntrySource(env, s, b, a);
    var id := PackIdFor(env, s, b);
    var packs := ClosurePackSet(s.index.cas, ToSet(b.cas), id, s.pendingActions[d].closure);
    SortedSetProperties(packs);
    assert DigestPattern(env.sha(PackData(env, s, b)));
  }

  lemma NewActionsWellFormed(env: Env, s: Store, b: Batch)
    requires env.Good() && BatchPending(s, b) && NoRepeats(b.actions)
    requires forall d :: d in s.pendingActions ==>
      DigestPattern(d) && s.pendingActions[d].cid == env.CidOf(s.pendingActions[d].data)
    requires forall d :: d in s.index.cas ==> DigestPattern(s.index.cas[d].packId)
    ensures ActionsWellFormed(env, ManifestFor(env, s, b))
  {
    var m := ManifestFor(env, s, b);
    assert m.packs[0] in m.packs;
    forall a | a in m.actions ensures ActionWellFormed(env, m, a) {
      var d := ActionEntrySource(env, s, b, a);
      assert DigestPattern(env.sha(s.pendingActions[d].data));
      ClosurePacksPattern(env, s, b, a);
    }
    forall i, j | 0 <= i < j < |m.actions| ensures ActionDigestOf(m.actions[i]) != ActionDigestOf(m.actions[j]) {
      assert b.actions[i] != b.actions[j];
    }
  }

  lemma IndexPacksPattern(env: Env, g: World, x: Writer)
    requires env.Good() && IndexOk(env, g.backend, g.log, x.store.index, x.applied)
    ensures forall d :: d in x.store.index.cas ==> DigestPattern(x.store.index.cas[d].packId)
  {
    var ix := x.store.index;
    forall d | d in ix.cas ensures DigestPattern(ix.cas[d].packId) {
      var p := ix.packs[ix.cas[d].packId];
      assert DescriptorStored(env, g.backend, p);
      assert PackIdOf(p) == ix.cas[d].packId;
      assert DigestPattern(env.sha(g.backend[env.PackKey(p.id)]));
    }
  }

  lemma HeadsValid(env: Env, g: World, x: Writer)
    requires env.Good() && SharedInv(env, g) && IndexOk(env, g.backend, g.log, x.store.index, x.applied)
    ensures forall h :: h in x.store.index.heads ==> env.validCid(h)
  {
    forall h | h in x.store.index.heads ensures env.validCid(h) {
      assert h in g.log;
      assert LogEntryOk(env, g.backend, g.facts, h, g.log[h]);
      assert DigestPattern(env.sha(g.backend[env.ManifestKey(h)]));
    }
  }

  lemma BatchNoRepeats(env: Env, s: Store)
    requires Bookkeeping(s)
    ensures NoRepeats(BatchOf(env, s).cas) && NoRepeats(BatchOf(env, s).actions)
  {
    var k := BatchIsFifoRun(env, s);
    SelectActionsNoRepeats(s.acOrder, s.pendingActions, s.index.cas, ToSet(BatchOf(env, s).cas));
  }

  /** Within the entry limits, the manifest a flush publishes is one that readers accept. */
  lemma {:induction false} NewManifestWellFormed(env: Env, g: World, x: Writer)
    requires env.Good() && SharedInv(env, g) && WriterInv(env, g.backend, g.log, x)
    requires |PackData(env, x.store, BatchOf(env, x.store))| > 0
    requires WithinLimits(ManifestFor(env, x.store, BatchOf(env, x.store)))
    ensures WellFormed(env, ManifestFor(env, x.store, BatchOf(env, x.store)))
  {
    var s, b := x.store, BatchOf(env, x.store);
    BatchNoRepeats(env, s);
    IndexPacksPattern(env, g, x);
    HeadsValid(env, g, x);
    NewPacksWellFormed(env, s, b);
    NewCasWellFormed(env, s, b);
    NewActionsWellFormed(env, s, b);
    SortedSetProperties(s.index.heads);
  }

  // ----- the new facts -----

  lemma NewEntriesStaged(env: Env, x: Writer, b: Batch, facts: set<Fact>, id: string)
    requires LocalObjectsOk(env, x) && BatchPending(x.store, b) && BatchFacts(x.store, b, id) <= facts
    ensures EntriesStaged(env, facts, id, ManifestFor(env, x.store, b))
  {
    var s := x.store;
    var m := ManifestFor(env, s, b);
    forall o | o in m.cas ensures CasFactFor(facts, id, o.digest) {
      var d := CasEntrySource(env, s, b, o);
      assert CasFact(id, d, s.pendingCas[d]) in BatchFacts(s, b, id);
    }
    forall a | a in m.actions ensures ActionFactFor(env, facts, id, a.digest, a.cid) {
      var d := ActionEntrySource(env, s, b, a);
      assert ActionFact(id, d, s.pendingActions[d].data, s.pendingActions[d].closure) in BatchFacts(s, b, id);
    }
  }

  /** A member of the closure of a selected action is in the batch or already listed by an applied manifest. */
  lemma SelectedClosure(env: Env, s: Store, d: string, h: string)
    requires d in BatchOf(env, s).actions && h in RealHashes(s.pendingActions[d].closure)
    ensures h in BatchOf(env, s).cas || h in s.index.cas
  {
    var b := BatchOf(env, s);
    SelectActionsMembers(s.acOrder, s.pendingActions, s.index.cas, ToSet(b.cas));
    var closure := s.pendingActions[d].closure;
    var r :| r in closure && !IsImplicitEmpty(r) && r.hash == h;
    var i :| 0 <= i < |closure| && closure[i] == r;
    assert Eligible(s.index.cas, ToSet(b.cas), closure);
  }

  /** The heads are the parents of the new manifest, so everything applied is in its ancestry. */
  lemma AppliedIsAncestor(log: map<string, Manifest>, ix: Index, applied: set<string>, id: string, anc: string)
    requires Covered(log, ix.heads, applied) && anc in applied
    requires id in log && forall h :: h in ix.heads ==> h in log[id].parents
    ensures Ancestor(log, id, anc)
  {
    assert CoveredAt(log, ix.heads, anc);
    var h :| h in ix.heads && Ancestor(log, h, anc);
    AncestorStep(log, id, h, anc);
  }

  lemma NewClosureAnchored(env: Env, backend: map<string, Bytes>, log: map<string, Manifest>, x: Writer, id: string, d: string)
    requires IndexOk(env, backend, log, x.store.index, x.applied)
    requires id in log && SameEntries(log[id], ManifestFor(env, x.store, BatchOf(env, x.store)))
    requires d in BatchOf(env, x.store).actions
    ensures Anchored(log, id, x.store.pendingActions[d].closure)
  {
    var s, b := x.store, BatchOf(env, x.store);
    var m := ManifestFor(env, s, b);
    SameEntriesMembers(log[id], m);
    SortedSetProperties(s.index.heads);
    forall h | h in RealHashes(s.pendingActions[d].closure) ensures AnchoredAt(log, id, h) {
      SelectedClosure(env, s, d, h);
      if h in b.cas {
        CasEntryPresent(env, s, b, h);
        AncestorSelf(log, id);
        HasCasSame(m, log[id], h);
      } else {
        assert ListedBy(log, x.applied, h);
        var anc :| anc in x.applied && anc in log && HasCas(log[anc], h);
        AppliedIsAncestor(log, s.index, x.applied, id, anc);
      }
    }
  }

  lemma HasCasSame(a: Manifest, b: Manifest, d: string)
    requires SameEntries(b, a) && HasCas(a, d)
    ensures HasCas(b, d)
  {
    SameEntriesMembers(b, a);
    var o :| o in a.cas && o.digest == d;
    assert o in b.cas;
  }

  lemma HasActionSame(a: Manifest, b: Manifest, d: string, cid: string)
    requires SameEntries(a, b) && HasAction(a, d, cid)
    ensures HasAction(b, d, cid)
  {
    var x :| x in a.actions && x.digest == d && x.cid == cid;
    var y := SameEntriesAction(a, b, x);
  }

  lemma NewFactOk(env: Env, backend: map<string, Bytes>, log: map<string, Manifest>, x: Writer, id: string, f: Fact)
    requires IndexOk(env, backend, log, x.store.index, x.applied) && LocalObjectsOk(env, x)
    requires ClosuresCollected(env, x.store.pendingActions)
    requires id in log && SameEntries(log[id], ManifestFor(env, x.store, BatchOf(env, x.store)))
    requires f in BatchFacts(x.store, BatchOf(env, x.store), id)
    ensures FactOk(env, log, f)
  {
    var s, b := x.store, BatchOf(env, x.store);
    var m := ManifestFor(env, s, b);
    match f
    case CasFact(_, d, _) =>
      CasEntryPresent(env, s, b, d);
      HasCasSame(m, log[id], d);
    case ActionFact(_, d, _, _) =>
      ActionEntryPresent(env, s, b, d);
      assert Entries(m) == Entries(log[id]);
      HasActionSame(m, log[id], d, s.pendingActions[d].cid);
      NewClosureAnchored(env, backend, log, x, id, d);
  }

  // ----- the packs an action entry points to -----

  ghost predicate HoldsBlob(env: Env, backend: map<string, Bytes>, packId: string, h: string) {
    && PackStored(env, backend, packId)
    && exists b: Block :: b in env.openCar(backend[env.PackKey(packId)]).value && b.cid == env.rawCid(h)
  }

  /** Where the manifest of a batch finds a blob: in its own pack if selected, otherwise where the index says. */
  ghost function PackOfBlob(cas: map<string, ManifestObject>, selected: set<string>, packId: string, h: string): string
    requires h in selected || h in cas
  {
    if h in selected then packId else cas[h].packId
  }

  lemma PackOfBlobHolds(env: Env, g: World, x: Writer, h: string)
    requires env.Good() && SharedInv(env, g) && WriterInv(env, g.backend, g.log, x)
    requires BatchPackStored(env, g.backend, x.store)
    requires h in ToSet(BatchOf(env, x.store).cas) || h in x.store.index.cas
    ensures var s, b := x.store, BatchOf(env, x.store);
      HoldsBlob(env, g.backend, PackOfBlob(s.index.cas, ToSet(b.cas), PackIdFor(env, s, b), h), h)
  {
    var s, b := x.store, BatchOf(env, x.store);
    if h in ToSet(b.cas) {
      StoredPackOpens(env, g, x);
      CasBlockPresent(env, s, b, h);
      assert CasBlock(env, s, h).cid == env.rawCid(h);
    } else {
      assert CasEntryOk(env, g.backend, s.index, h);
    }
  }

  lemma ClosurePackSetIsImage(cas: map<string, ManifestObject>, selected: set<string>, packId: string,
                              closure: seq<DigestReference>)
    requires forall h :: h in RealHashes(closure) ==> h in selected || h in cas
    ensures ClosurePackSet(cas, selected, packId, closure)
         == set h | h in RealHashes(closure) :: PackOfBlob(cas, selected, packId, h)
  {
    var packs := ClosurePackSet(cas, selected, packId, closure);
    forall p | p in packs ensures exists h :: h in RealHashes(closure) && p == PackOfBlob(cas, selected, packId, h) {
      var r :| r in closure && !IsImplicitEmpty(r) && (r.hash in selected || r.hash in cas)
        && p == PackOfBlob(cas, selected, packId, r.hash);
      assert r.hash in RealHashes(closure);
    }
    forall h | h in RealHashes(closure) ensures PackOfBlob(cas, selected, packId, h) in packs {
      var r :| r in closure && !IsImplicitEmpty(r) && r.hash == h;
    }
  }

  /** Every closure member of the action is in a listed pack, and every listed pack holds some closure member. */
  ghost predicate ClosurePacksExact(env: Env, backend: map<string, Bytes>, closure: seq<DigestReference>, packs: seq<string>) {
    && (forall h :: h in RealHashes(closure) ==> exists p :: p in packs && HoldsBlob(env, backend, p, h))
    && (forall p :: p in packs ==> exists h :: h in RealHashes(closure) && HoldsBlob(env, backend, p, h))
  }

  lemma EligibleHashes(cas: map<string, ManifestObject>, selected: set<string>, closure: seq<DigestReference>)
    requires Eligible(cas, selected, closure)
    ensures forall h :: h in RealHashes(closure) ==> h in selected || h in cas
  {
    forall h | h in RealHashes(closure) ensures h in selected || h in cas {
      var r :| r in closure && !IsImplicitEmpty(r) && r.hash == h;
      var i :| 0 <= i < |closure| && closure[i] == r;
    }
  }

  lemma NewClosurePacksExact(env: Env, g: World, x: Writer, d: string)
    requires env.Good() && SharedInv(env, g) && WriterInv(env, g.backend, g.log, x)
    requires BatchPackStored(env, g.backend, x.store) && d in BatchOf(env, x.store).actions
    ensures var s, b := x.store, BatchOf(env, x.store);
      ClosurePacksExact(env, g.backend, s.pendingActions[d].closure,
                        ActionEntry(s, PackIdFor(env, s, b), ToSet(b.cas), d).closurePacks)
  {
    var s, b := x.store, BatchOf(env, x.store);
    var closure, id := s.pendingActions[d].closure, PackIdFor(env, s, b);
    SelectActionsMembers(s.acOrder, s.pendingActions, s.index.cas, ToSet(b.cas));
    EligibleHashes(s.index.cas, ToSet(b.cas), closure);
    ClosurePackSetIsImage(s.index.cas, ToSet(b.cas), id, closure);
    SortedSetProperties(ClosurePackSet(s.index.cas, ToSet(b.cas), id, closure));
    forall h | h in RealHashes(closure)
      ensures HoldsBlob(env, g.backend, PackOfBlob(s.index.cas, ToSet(b.cas), id, h), h)
    {
      PackOfBlobHolds(env, g, x, h);
    }
  }
}
