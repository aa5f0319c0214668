/** The packed store as the object it is: maps, order lists and a byte count updated in place under one mutex. */
module PackStore {
  import opened Common
  import opened Sorting
  import opened Environment
  import opened Manifests
  import opened PackIndex
  import opened References
  import opened Staging
  import opened Draining
  import opened PackedWorld
  import opened Publishing

  method SortedStrings(values: set<string>) returns (sorted: seq<string>)
    ensures sorted == SortedSet(values)
  {
    var result: seq<string> := [];
    var left := values;
    while left != {}
      invariant left <= values
      invariant multiset(result) + multiset(left) == multiset(values)
      decreases left
    {
      var value :| value in left;
      result := result + [value];
      left := left - {value};
    }
    SortedSetUnique(values, result);
    sorted := SortBy(result, Identity);
  }

  lemma FilterNext(order: seq<string>, i: nat, keep: set<string>)
    requires i < |order|
    ensures Filter(order[..i + 1], keep) == Filter(order[..i], keep) + if order[i] in keep then [order[i]] else []
  {
    assert order[..i + 1][..i] == order[..i];
  }

  /** Move the keys that are still present to the front, in order; `n` of them remain. */
  method Compact<T>(order: array<string>, values: map<string, T>) returns (n: nat)
    modifies order
    ensures n <= order.Length && order[..n] == Filter(old(order[..]), values.Keys)
  {
    n := 0;
    ghost var was, kept := order[..], [];
    for i := 0 to order.Length
      invariant n == |kept| <= i
      invariant kept == Filter(was[..i], values.Keys)
      invariant order[..n] == kept
      invariant forall j :: i <= j < order.Length ==> order[j] == was[j]
    {
      var key := order[i];
      FilterNext(was, i, values.Keys);
      if key in values {
        order[n] := key;
        n, kept := n + 1, kept + [key];
      }
    }
    assert was[..order.Length] == was;
  }

  method FilterPending<T>(order: seq<string>, values: map<string, T>) returns (filtered: seq<string>)
    ensures filtered == Filter(order, values.Keys)
  {
    var slots := new string[|order|](i requires 0 <= i < |order| => order[i]);
    assert slots[..] == order;
    var n := Compact(slots, values);
    filtered := slots[..n];
  }

  /** The index merges the manifests `loaded`, all of them listed; if loads do not fail, all that are listed and loadable. */
  ghost predicate Discovers(env: Env, entries: map<string, Bytes>, reliable: bool, keys: seq<string>, loaded: set<string>, ix: Index) {
    && Loadable(env, entries, loaded)
    && (forall id :: id in loaded ==> env.ManifestKey(id) in keys)
    && (reliable ==> forall id :: env.ManifestKey(id) in keys && ReadManifest(env, entries, id).Some? ==> id in loaded)
    && ix == PackedWorld.Discover(env, entries, loaded)
  }

  /** What building a pack says about its blocks. */
  datatype Entries = Entries(cas: seq<ManifestObject>, actions: seq<ManifestAction>)

  /** One entry per selected blob and action, in the order of the batch, with digest, CID and size. */
  function EntriesOf(env: Env, s: Store, b: Batch): Entries
    requires BatchPending(s, b)
  {
    Entries(
      seq(|b.cas|, i requires 0 <= i < |b.cas| => CasEntry(env, s, "", b.cas[i])),
      seq(|b.actions|, i requires 0 <= i < |b.actions| =>
        ManifestAction(b.actions[i], s.pendingActions[b.actions[i]].cid, "", |s.pendingActions[b.actions[i]].data|, [])))
  }

  class PackStore {
    const env: Env
    /** Local files can be read and written. */
    const filesWork: bool
    var packs: map<string, PackDescriptor>
    var cas: map<string, ManifestObject>
    var actions: map<string, ManifestAction>
    var actionConflicts: set<string>
    var heads: set<string>
    var pendingCas: map<string, Bytes>
    var pendingCasOrder: seq<string>
    var pendingActions: map<string, PendingAction>
    var pendingAcOrder: seq<string>
    var pendingBytes: int
    var flushRequested: bool

    function Merged(): Index
      reads this
    {
      Index(packs, cas, actions, actionConflicts, heads)
    }

    function View(): Store
      reads this
    {
      Store(Merged(), pendingCas, pendingCasOrder, pendingActions, pendingAcOrder, pendingBytes)
    }

    constructor (env: Env, filesWork: bool)
      ensures this.env == env && this.filesWork == filesWork && View() == EMPTY_STORE && !flushRequested
    {
      this.env, this.filesWork := env, filesWork;
      packs, cas, actions, actionConflicts, heads := map[], map[], map[], {}, {};
      pendingCas, pendingCasOrder, pendingActions, pendingAcOrder, pendingBytes := map[], [], map[], [], 0;
      flushRequested := false;
    }

    // ----- staging -----

    method RequestFlush()
      modifies this`flushRequested
      ensures flushRequested == (old(flushRequested) || pendingBytes >= env.targetSize)
    {
      if pendingBytes < env.targetSize {
        return;
      }
      flushRequested := true;
    }

    method StageCas(digest: string, data: Bytes)
      modifies this
      ensures View() == Staging.StageCas(old(View()), digest, data)
      ensures flushRequested == (old(flushRequested) || (View() != old(View()) && pendingBytes >= env.targetSize))
    {
      if digest in pendingCas || digest in cas {
        return;
      }
      pendingCas := pendingCas[digest := data];
      pendingCasOrder := pendingCasOrder + [digest];
      pendingBytes := pendingBytes + |data|;
      RequestFlush();
    }

    method StageAction(digest: string, data: Bytes, closure: seq<DigestReference>)
      modifies this
      ensures View() == Staging.StageAction(env, old(View()), digest, data, closure)
      ensures flushRequested ==
        (old(flushRequested) || (digest !in old(pendingActions) && pendingBytes >= env.targetSize))
    {
      var cid := env.CidOf(data);
      if digest in pendingActions {
        if pendingActions[digest].cid != cid {
          pendingActions := pendingActions - {digest};
          actionConflicts := actionConflicts + {digest};
        }
        return;
      }
      var sorted := SortDigestReferences(closure);
      pendingActions := pendingActions[digest := PendingAction(data, sorted, cid)];
      pendingAcOrder := pendingAcOrder + [digest];
      pendingBytes := pendingBytes + |data|;
      RequestFlush();
    }

    // ----- selecting a batch -----

    method SelectCas() returns (selected: seq<string>)
      ensures selected == Select(env.targetSize, View()).cas
    {
      selected := [];
      var size := 0;
      for i := 0 to |pendingCasOrder|
        invariant Staging.SelectCas(pendingCasOrder[i..], pendingCas, env.targetSize, selected, size)
               == Select(env.targetSize, View()).cas
      {
        var digest := pendingCasOrder[i];
        assert pendingCasOrder[i..][0] == digest && pendingCasOrder[i..][1..] == pendingCasOrder[i + 1..];
        if digest !in pendingCas {
          continue;
        }
        var value := pendingCas[digest];
        if |selected| > 0 && size + |value| > env.targetSize {
          return;
        }
        selected := selected + [digest];
        size := size + |value|;
        if size >= env.targetSize {
          return;
        }
      }
    }

    method IsEligible(closure: seq<DigestReference>, selectedCas: set<string>) returns (eligible: bool)
      ensures eligible == Eligible(cas, selectedCas, closure)
    {
      for i := 0 to |closure|
        invariant forall j :: 0 <= j < i && !IsImplicitEmpty(closure[j]) ==> closure[j].hash in selectedCas || closure[j].hash in cas
      {
        if IsImplicitEmpty(closure[i]) || closure[i].hash in selectedCas {
          continue;
        }
        if closure[i].hash !in cas {
          return false;
        }
      }
      eligible := true;
    }

    method SelectActions(selectedCas: set<string>) returns (selected: seq<string>)
      ensures selected == Staging.SelectActions(pendingAcOrder, pendingActions, cas, selectedCas)
    {
      selected := [];
      for i := 0 to |pendingAcOrder|
        invariant selected == Staging.SelectActions(pendingAcOrder[..i], pendingActions, cas, selectedCas)
      {
        var digest := pendingAcOrder[i];
        assert pendingAcOrder[..i + 1][..i] == pendingAcOrder[..i];
        if digest !in pendingActions {
          continue;
        }
        var eligible := IsEligible(pendingActions[digest].closure, selectedCas);
        if eligible {
          selected := selected + [digest];
        }
      }
      assert pendingAcOrder[..|pendingAcOrder|] == pendingAcOrder;
    }

    // ----- building the pack and the manifest -----

    /**
     * Reading a pending file or writing the pack may fail; nothing else does, unless the batch is empty. The entries do
     * not name their pack yet.
     */
    method BuildPack(b: Batch) returns (built: bool, data: Bytes, packId: string, entries: Entries)
      requires BatchPending(View(), b)
      ensures built ==> !NothingToFlush(b)
      ensures filesWork && !NothingToFlush(b) ==> built
      ensures built ==> data == PackData(env, View(), b) && packId == PackIdFor(env, View(), b)
      ensures built ==> entries == EntriesOf(env, View(), b)
    {
      var blocks: seq<Block> := [];
      data, packId, entries := [], "", Entries([], []);
      for i := 0 to |b.cas|
        invariant blocks == Blocks(env, View(), b)[..i]
        invariant entries == Entries(EntriesOf(env, View(), b).cas[..i], [])
      {
        var digest := b.cas[i];
        var readable := *;
        if !readable && !filesWork { return false, data, packId, entries; }
        blocks := blocks + [Block(env.rawCid(digest), pendingCas[digest])];
        entries := entries.(cas := entries.cas + [ManifestObject(digest, env.rawCid(digest), "", |pendingCas[digest]|)]);
      }
      for i := 0 to |b.actions|
        invariant blocks == Blocks(env, View(), b)[..|b.cas| + i]
        invariant entries == Entries(EntriesOf(env, View(), b).cas, EntriesOf(env, View(), b).actions[..i])
      {
        var value := pendingActions[b.actions[i]];
        var readable := *;
        if !readable && !filesWork { return false, data, packId, entries; }
        blocks := blocks + [Block(value.cid, value.data)];
        entries := entries.(actions := entries.actions + [ManifestAction(b.actions[i], value.cid, "", |value.data|, [])]);
      }
      assert blocks == Blocks(env, View(), b);
      if |blocks| == 0 { return false, data, packId, entries; }
      data := env.car(blocks);
      packId := env.sha(data);
      var written := *;
      built := written || filesWork;
    }

    method ClosurePacks(closure: seq<DigestReference>, selectedCas: set<string>, packId: string) returns (sorted: seq<string>)
      ensures sorted == SortedSet(ClosurePackSet(cas, selectedCas, packId, closure))
    {
      var found: set<string> := {};
      for i := 0 to |closure|
        invariant found == ClosurePackSet(cas, selectedCas, packId, closure[..i])
      {
        var reference := closure[i];
        ClosurePackStep(cas, selectedCas, packId, closure, i);
        if IsImplicitEmpty(reference) {
          continue;
        }
        if reference.hash in selectedCas {
          found := found + {packId};
          continue;
        }
        if reference.hash in cas {
          found := found + {cas[reference.hash].packId};
        }
      }
      assert closure[..|closure|] == closure;
      sorted := SortedStrings(found);
    }

    method ManifestForPack(b: Batch, packId: string, size: int, entries: Entries, selectedCas: set<string>) returns (m: Manifest)
      requires BatchPending(View(), b) && selectedCas == ToSet(b.cas) && entries == EntriesOf(env, View(), b)
      requires packId == PackIdFor(env, View(), b) && size == |PackData(env, View(), b)|
      ensures m == ManifestFor(env, View(), b)
    {
      var objects, results := entries.cas, entries.actions;
      for i := 0 to |objects|
        invariant |objects| == |b.cas| && objects[i..] == entries.cas[i..]
        invariant objects[..i] == ManifestFor(env, View(), b).cas[..i]
      {
        objects := objects[i := objects[i].(packId := packId)];
      }
      for i := 0 to |results|
        invariant |results| == |b.actions| && results[i..] == entries.actions[i..]
        invariant results[..i] == ManifestFor(env, View(), b).actions[..i]
      {
        var closurePacks := ClosurePacks(pendingActions[results[i].digest].closure, selectedCas, packId);
        results := results[i := results[i].(packId := packId, closurePacks := closurePacks)];
      }
      var parents := SortedStrings(heads);
      m := Manifest(FORMAT_VERSION, parents, [PackDescriptor(packId, env.PackKey(packId), size)], objects, results);
    }

    // ----- merging a manifest -----

    method MergePacks(descriptors: seq<PackDescriptor>)
      modifies this`packs
      ensures packs == KeepAll(old(packs), descriptors, PackIdOf, PackKeyOf)
    {
      for i := 0 to |descriptors|
        invariant packs == KeepAll(old(packs), descriptors[..i], PackIdOf, PackKeyOf)
      {
        var descriptor := descriptors[i];
        assert descriptors[..i + 1][..i] == descriptors[..i];
        if descriptor.id !in packs || Lt(descriptor.key, packs[descriptor.id].key) {
          packs := packs[descriptor.id := descriptor];
        }
      }
      assert descriptors[..|descriptors|] == descriptors;
    }

    method MergeCas(objects: seq<ManifestObject>)
      modifies this`cas
      ensures cas == KeepAll(old(cas), objects, CasDigestOf, CasPackOf)
    {
      for i := 0 to |objects|
        invariant cas == KeepAll(old(cas), objects[..i], CasDigestOf, CasPackOf)
      {
        var entry := objects[i];
        assert objects[..i + 1][..i] == objects[..i];
        if entry.digest !in cas || Lt(entry.packId, cas[entry.digest].packId) {
          cas := cas[entry.digest := entry];
        }
      }
      assert objects[..|objects|] == objects;
    }

    method MergeActions(results: seq<ManifestAction>)
      modifies this`actions, this`actionConflicts
      ensures ActionTable(actions, actionConflicts) == RecordActions(old(ActionTable(actions, actionConflicts)), results)
    {
      for i := 0 to |results|
        invariant ActionTable(actions, actionConflicts)
               == RecordActions(old(ActionTable(actions, actionConflicts)), results[..i])
      {
        var action := results[i];
        assert results[..i + 1][..i] == results[..i];
        if action.digest in actions {
          if actions[action.digest].cid != action.cid {
            actionConflicts := actionConflicts + {action.digest};
          }
          continue;
        }
        actions := actions[action.digest := action];
      }
      assert results[..|results|] == results;
    }

    method ApplyManifest(id: string, m: Manifest)
      modifies this`packs, this`cas, this`actions, this`actionConflicts, this`heads
      ensures Merged() == PackIndex.ApplyManifest(old(Merged()), id, m)
    {
      MergePacks(m.packs);
      MergeCas(m.cas);
      MergeActions(m.actions);
      for i := 0 to |m.parents|
        modifies this`heads
        invariant heads == old(heads) - (set p | p in m.parents[..i])
      {
        assert m.parents[..i + 1] == m.parents[..i] + [m.parents[i]];
        heads := heads - {m.parents[i]};
      }
      assert m.parents[..|m.parents|] == m.parents;
      heads := heads + {id};
    }

    // ----- dropping a published batch -----

    method DropCas(digests: seq<string>)
      modifies this`pendingCas, this`pendingBytes
      ensures Dropped(pendingCas, pendingBytes) == DropAll(old(Dropped(pendingCas, pendingBytes)), digests, BlobSize)
    {
      for i := 0 to |digests|
        invariant Dropped(pendingCas, pendingBytes) == DropAll(old(Dropped(pendingCas, pendingBytes)), digests[..i], BlobSize)
      {
        var digest := digests[i];
        assert digests[..i + 1][..i] == digests[..i];
        if digest in pendingCas {
          pendingBytes := pendingBytes - |pendingCas[digest]|;
          pendingCas := pendingCas - {digest};
        }
      }
      assert digests[..|digests|] == digests;
    }

    method DropActions(digests: seq<string>)
      modifies this`pendingActions, this`pendingBytes
      ensures Dropped(pendingActions, pendingBytes) == DropAll(old(Dropped(pendingActions, pendingBytes)), digests, ActionSize)
    {
      for i := 0 to |digests|
        invariant Dropped(pendingActions, pendingBytes)
               == DropAll(old(Dropped(pendingActions, pendingBytes)), digests[..i], ActionSize)
      {
        var digest := digests[i];
        assert digests[..i + 1][..i] == digests[..i];
        if digest in pendingActions {
          pendingBytes := pendingBytes - |pendingActions[digest].data|;
          pendingActions := pendingActions - {digest};
        }
      }
      assert digests[..|digests|] == digests;
    }

    method RemovePending(b: Batch)
      modifies this`pendingCas, this`pendingCasOrder, this`pendingActions, this`pendingAcOrder, this`pendingBytes
      ensures View() == Staging.RemovePending(old(View()), b)
    {
      DropCas(b.cas);
      DropActions(b.actions);
      pendingCasOrder := FilterPending(pendingCasOrder, pendingCas);
      pendingAcOrder := FilterPending(pendingAcOrder, pendingActions);
    }

    // ----- flushing -----

    method CommitBatch(id: string, m: Manifest, b: Batch)
      requires BatchPending(View(), b) && id == ManifestIdFor(env, View(), b) && m == ManifestFor(env, View(), b)
      modifies this
      ensures View() == Commit(env, old(View()), b)
    {
      ApplyManifest(id, m);
      RemovePending(b);
    }

    /**
     * Publish one batch: the pack first, then the manifest that commits it. A failure of either leaves the store
     * as it was, so the batch stays pending. If neither files nor the backend fail, whatever can be selected is
     * published, and both keys are.
     */
    method FlushOne(backend: Backend) returns (flushed: bool, ok: bool)
      modifies this, backend
      ensures OneFlush(env, old(backend.State()), old(View()), FlushResult(backend.State(), View(), flushed, ok))
      ensures filesWork && backend.reliable ==> ok && (flushed <==> !NothingToFlush(BatchOf(env, old(View()))))
      ensures flushed ==> BatchPublished(env, old(View()), backend.published)
    {
      ghost var s, p := View(), backend.State();
      var casDigests := SelectCas();
      var selectedCas := set d | d in casDigests;
      var actionDigests := SelectActions(selectedCas);
      var b := Batch(casDigests, actionDigests);
      assert b == BatchOf(env, s);
      if |casDigests| == 0 && |actionDigests| == 0 {
        FlushEnds(env, p, s, NotBuilt, NotBuilt);
        return false, true;
      }
      var built, data, packId, entries := BuildPack(b);
      if !built {
        FlushEnds(env, p, s, NotBuilt, NotBuilt);
        return false, false;
      }
      var saved, packSave := backend.PublishOnce(env.PackKey(packId), data);
      assert backend.State() == SavedPack(env, p, s, Built(packSave));
      ghost var afterPack := backend.published;
      if !saved {
        FlushEnds(env, p, s, Built(packSave), NotBuilt);
        return false, false;
      }
      var m := ManifestForPack(b, packId, |data|, entries, selectedCas);
      flushed := PublishManifest(backend, b, m, s);
      ok := flushed;
      assert afterPack <= backend.published;
      ghost var manifest :| ManifestEnds(env, SavedPack(env, p, s, Built(packSave)), s, manifest, backend.State(), View(), flushed);
      FlushEnds(env, p, s, Built(packSave), manifest);
    }

    /** The commit point; writing the manifest file may fail, and so may saving it. */
    method PublishManifest(backend: Backend, b: Batch, m: Manifest, ghost s: Store) returns (committed: bool)
      requires s == View() && b == BatchOf(env, s) && m == ManifestFor(env, s, b)
      modifies this, backend
      ensures exists a :: ManifestEnds(env, old(backend.State()), s, a, backend.State(), View(), committed)
      ensures filesWork && backend.reliable ==> committed
      ensures old(backend.published) <= backend.published
      ensures committed ==> env.ManifestKey(BatchManifest(env, s).id) in backend.published
    {
      ghost var p := backend.State();
      var encoded := EncodeManifest(env, m).value;
      assert encoded == BatchManifest(env, s);
      var written := *;
      if !written && !filesWork {
        assert ManifestEnds(env, p, s, NotBuilt, p, s, false);
        return false;
      }
      var saved, outcome := backend.PublishOnce(env.ManifestKey(encoded.id), encoded.data);
      committed := saved;
      if committed { CommitBatch(encoded.id, m, b); }
      assert ManifestEnds(env, p, s, Built(outcome), backend.State(), View(), committed);
    }

    /**
     * Flush once, or until nothing is left to publish. Every state the store goes through is a successful flush of
     * the one before it; a drain that reports no error leaves no blob pending, and of the actions exactly those
     * with a closure member that was never held. If neither files nor the backend fail, there is no error, and a single
     * flush publishes a batch unless there is none.
     */
    method Flush(backend: Backend, all: bool) returns (ok: bool, ghost flushes: nat)
      requires Bookkeeping(View()) && env.targetSize > 0
      modifies this, backend
      ensures Bookkeeping(View()) && FlushedTimes(env, old(View()), View(), flushes)
      ensures flushes <= if all then 2 * (PendingBlobBytes(old(View())) / env.targetSize) + 1 else 1
      ensures ok && all ==>
        && pendingCas == map[]
        && pendingActions == old(pendingActions) - Publishable(old(View()))
        && Held(View()) == Held(old(View()))
      ensures filesWork && backend.reliable ==> ok
      ensures ok && !all ==> flushes == if NothingToFlush(BatchOf(env, old(View()))) then 0 else 1
    {
      flushes := 0;
      NotFlushedYet(env, View());
      while true
        invariant FlushedTimes(env, old(View()), View(), flushes) && Bookkeeping(View())
        invariant !all ==> flushes == 0 && View() == old(View())
        decreases |pendingCas| + |pendingActions|
      {
        ghost var s, p := View(), backend.State();
        var flushed, noError := FlushOne(backend);
        FlushedStore(env, p, s, FlushResult(backend.State(), View(), flushed, noError));
        if flushed {
          FlushedOnceMore(env, old(View()), s, View(), flushes);
          flushes := flushes + 1;
        }
        if !noError || !flushed || !all {
          FlushesBounded(env, old(View()), View(), flushes);
          if noError && !flushed { FlushesLeaveUnpublishable(env, old(View()), View(), flushes); }
          return noError, flushes;
        }
      }
    }

    // ----- discovery -----

    /**
     * Load the listed manifests, ignoring those that cannot be loaded, and merge them in the order of their IDs.
     * The index becomes that of some set of loadable listed manifests, and of all of them if loads do not fail.
     */
    method Discover(backend: Backend, keys: seq<string>)
      requires View() == EMPTY_STORE
      modifies this
      ensures exists loaded :: Discovers(env, backend.entries, backend.reliable, keys, loaded, Merged())
      ensures View() == EMPTY_STORE.(index := Merged())
    {
      var manifests, parents := LoadListed(backend, keys);
      MergeLoaded(manifests, parents);
      LoadedInOrder(env, backend.entries, manifests);
      assert Discovers(env, backend.entries, backend.reliable, keys, manifests.Keys, Merged());
    }

    method LoadListed(backend: Backend, keys: seq<string>) returns (manifests: map<string, Manifest>, parents: set<string>)
      ensures forall id :: id in manifests ==>
        env.ManifestKey(id) in keys && ReadManifest(env, backend.entries, id) == Some(manifests[id])
      ensures backend.reliable ==>
        forall id :: env.ManifestKey(id) in keys && ReadManifest(env, backend.entries, id).Some? ==> id in manifests
    {
      manifests, parents := map[], {};
      for i := 0 to |keys|
        invariant forall id :: id in manifests ==>
          env.ManifestKey(id) in keys && ReadManifest(env, backend.entries, id) == Some(manifests[id])
        invariant backend.reliable ==> AllLoaded(env, backend.entries, keys[..i], manifests.Keys)
      {
        ghost var before := manifests.Keys;
        var id := ParseManifestKey(env, keys[i]);
        var m := None;
        if id.Some? {
          m := LoadManifest(backend, id.value);
        }
        if m.Some? {
          manifests := manifests[id.value := m.value];
          parents := parents + set p | p in m.value.parents;
        }
        if backend.reliable { LoadedOneMore(env, backend.entries, keys, i, before, manifests.Keys); }
      }
      assert keys[..|keys|] == keys;
    }

    /** The second assignment to the heads never adds anything: merging has made the ID a head already. */
    method MergeOne(id: string, m: Manifest, parents: set<string>)
      modifies this`packs, this`cas, this`actions, this`actionConflicts, this`heads
      ensures Merged() == PackIndex.ApplyManifest(old(Merged()), id, m)
    {
      ApplyManifest(id, m);
      if id !in parents {
        assert heads + {id} == heads;
        heads := heads + {id};
      }
    }

    method MergeLoaded(manifests: map<string, Manifest>, parents: set<string>)
      requires View() == EMPTY_STORE
      modifies this`packs, this`cas, this`actions, this`actionConflicts, this`heads
      ensures Merged() == ApplyAll(EMPTY_INDEX, InOrder(manifests, SortedKeys(manifests)))
    {
      var ids := SortedStrings(manifests.Keys);
      SortedSetProperties(manifests.Keys);
      ghost var ms := InOrder(manifests, ids);
      for i := 0 to |ids|
        invariant Merged() == ApplyAll(EMPTY_INDEX, ms[..i])
      {
        MergeStep(ms, i);
        MergeOne(ids[i], manifests[ids[i]], parents);
      }
      assert ms[..|ids|] == ms;
    }

    /** A backend load may fail, unless the backend is reliable. */
    method LoadManifest(backend: Backend, id: string) returns (r: Option<Manifest>)
      requires id != "" && env.validCid(id)
      ensures r == None || r == ReadManifest(env, backend.entries, id)
      ensures backend.reliable ==> r == ReadManifest(env, backend.entries, id)
    {
      var fails := *;
      var key := env.ManifestKey(id);
      if (fails && !backend.reliable) || key !in backend.entries || |backend.entries[key]| > env.maxBlobSize {
        return None;
      }
      r := Decode(env, backend.entries[key], id);
    }
  }

  ghost predicate AllLoaded(env: Env, entries: map<string, Bytes>, keys: seq<string>, loaded: set<string>) {
    forall id :: env.ManifestKey(id) in keys && ReadManifest(env, entries, id).Some? ==> id in loaded
  }

  lemma LoadedOneMore(env: Env, entries: map<string, Bytes>, keys: seq<string>, i: nat, before: set<string>, after: set<string>)
    requires i < |keys| && AllLoaded(env, entries, keys[..i], before) && before <= after
    requires forall id :: keys[i] == env.ManifestKey(id) && ReadManifest(env, entries, id).Some? ==> id in after
    ensures AllLoaded(env, entries, keys[..i + 1], after)
  {
    assert keys[..i + 1] == keys[..i] + [keys[i]];
  }

  /** The pack and the manifest of the store's next batch are published. */
  ghost predicate BatchPublished(env: Env, s: Store, published: set<string>) {
    BatchPackKey(env, s) in published && env.ManifestKey(BatchManifest(env, s).id) in published
  }

  /** How the second half of a flush ends. */
  ghost predicate ManifestEnds(env: Env, p: Publications, s: Store, a: Attempt, r: Publications, t: Store, committed: bool) {
    && r == SavedManifest(env, p, s, a)
    && committed == ManifestPublished(env, r, s, a)
    && t == if committed then Commit(env, s, BatchOf(env, s)) else s
  }

  lemma ClosurePackStep(cas: map<string, ManifestObject>, selected: set<string>, packId: string,
                        closure: seq<DigestReference>, i: int)
    requires 0 <= i < |closure|
    ensures var r := closure[i];
      var before := ClosurePackSet(cas, selected, packId, closure[..i]);
      ClosurePackSet(cas, selected, packId, closure[..i + 1]) ==
        if IsImplicitEmpty(r) then before
        else if r.hash in selected then before + {packId}
        else if r.hash in cas then before + {cas[r.hash].packId}
        else before
  {
    assert closure[..i + 1] == closure[..i] + [closure[i]];
  }

  /** The four ways in which a flush ends. */
  lemma FlushEnds(env: Env, p: Publications, s: Store, pack: Attempt, manifest: Attempt)
    ensures var q := SavedPack(env, p, s, pack);
      var r := SavedManifest(env, q, s, manifest);
      if NothingToFlush(BatchOf(env, s)) then OneFlush(env, p, s, FlushResult(p, s, false, true))
      else if !PackPublished(env, q, s, pack) then OneFlush(env, p, s, FlushResult(q, s, false, false))
      else if !ManifestPublished(env, r, s, manifest) then OneFlush(env, p, s, FlushResult(r, s, false, false))
      else OneFlush(env, p, s, FlushResult(r, Commit(env, s, BatchOf(env, s)), true, true))
  {
    assert OneFlush(env, p, s, FlushWith(env, p, s, pack, manifest));
  }

  ghost function SortedKeys(manifests: map<string, Manifest>): (ids: seq<string>)
    ensures forall id :: id in ids <==> id in manifests
  {
    SortedSetProperties(manifests.Keys);
    SortedSet(manifests.Keys)
  }

  ghost function InOrder(manifests: map<string, Manifest>, ids: seq<string>): (ms: seq<Loaded>)
    requires forall id :: id in ids ==> id in manifests
    ensures |ms| == |ids| && forall i :: 0 <= i < |ms| ==> ms[i] == Loaded(ids[i], manifests[ids[i]])
  {
    seq(|ids|, i requires 0 <= i < |ids| => Loaded(ids[i], manifests[ids[i]]))
  }

  lemma LoadedInOrder(env: Env, entries: map<string, Bytes>, manifests: map<string, Manifest>)
    requires forall id :: id in manifests ==> ReadManifest(env, entries, id) == Some(manifests[id])
    ensures Loadable(env, entries, manifests.Keys)
    ensures PackedWorld.Discover(env, entries, manifests.Keys) == ApplyAll(EMPTY_INDEX, InOrder(manifests, SortedKeys(manifests)))
  {
    EachInOrder(env, entries, manifests, SortedKeys(manifests));
  }

  lemma EachInOrder(env: Env, entries: map<string, Bytes>, manifests: map<string, Manifest>, ids: seq<string>)
    requires forall id :: id in ids ==> id in manifests
    requires forall id :: id in manifests ==> ReadManifest(env, entries, id) == Some(manifests[id])
    ensures forall id :: id in ids ==> ReadManifest(env, entries, id).Some?
    ensures LoadEach(env, entries, ids) == InOrder(manifests, ids)
  {
    var loaded, listed := LoadEach(env, entries, ids), InOrder(manifests, ids);
    forall i | 0 <= i < |ids| ensures loaded[i] == listed[i] { assert ids[i] in manifests; }
  }

  lemma MergeStep(ms: seq<Loaded>, i: int)
    requires 0 <= i < |ms|
    ensures ApplyAll(EMPTY_INDEX, ms[..i + 1])
         == PackIndex.ApplyManifest(ApplyAll(EMPTY_INDEX, ms[..i]), ms[i].id, ms[i].manifest)
  {
    assert ms[..i + 1][..i] == ms[..i];
  }

  function ParseManifestKey(env: Env, key: string): (id: Option<string>)
    ensures id.Some? <==> exists i :: i != "" && env.validCid(i) && key == env.ManifestKey(i)
    ensures id.Some? ==> id.value != "" && env.validCid(id.value) && key == env.ManifestKey(id.value)
  {
    var head := env.ManifestKey("");
    assert forall i :: env.ManifestKey(i) == head + i;
    if |key| <= |head| || key[..|head|] != head then None
    else
      assert key == head + key[|head|..];
      if env.validCid(key[|head|..]) then Some(key[|head|..]) else None
  }
}
