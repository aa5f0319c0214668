/** The invariant of the packed protocol holds after every sequence of steps. */
module PackedRuns {
  import opened Common
  import opened Environment
  import opened Manifests
  import opened PackIndex
  import opened Staging
  import opened PackedWorld
  import opened PackedInvariant
  import opened PackedCommit

  ghost predicate ManifestHandled(env: Env, s: Store) {
    env.handled(EncodeManifest(env, ManifestFor(env, s, BatchOf(env, s))).value.data)
  }

  /** A manifest ID is either new to the backend or names a manifest with the same bytes and entries. */
  lemma NewOrSameManifest(env: Env, g: World, s: Store)
    requires env.Good() && SharedInv(env, g) && ManifestHandled(env, s)
    ensures var m := ManifestFor(env, s, BatchOf(env, s));
      var e := EncodeManifest(env, m).value;
      if e.id in g.log then
        SameEntries(g.log[e.id], m) && env.ManifestKey(e.id) in g.backend && g.backend[env.ManifestKey(e.id)] == e.data
      else env.ManifestKey(e.id) !in g.backend
  {
    var m := ManifestFor(env, s, BatchOf(env, s));
    var e := EncodeManifest(env, m).value;
    if e.id in g.log {
      assert LogEntryOk(env, g.backend, g.facts, e.id, g.log[e.id]);
      SameIdSameEntries(env, g.log[e.id], m);
    }
  }

  lemma LogManifestGrows(env: Env, g: World, s: Store)
    ensures var g' := LogManifest(env, g, s, BatchOf(env, s));
      Grows(g.backend, g'.backend) && Grows(g.log, g'.log) && g.facts <= g'.facts
  {
  }

  lemma LoggedAfter(env: Env, g: World, s: Store)
    requires env.Good() && SharedInv(env, g) && ManifestHandled(env, s)
    ensures var g' := LogManifest(env, g, s, BatchOf(env, s)); BatchManifestLogged(env, g'.log, s)
  {
    NewOrSameManifest(env, g, s);
  }

  lemma NewManifestStored(env: Env, g: World, s: Store)
    requires env.Good() && SharedInv(env, g) && ManifestHandled(env, s)
    requires ManifestIdFor(env, s, BatchOf(env, s)) !in g.log
    ensures var g' := LogManifest(env, g, s, BatchOf(env, s));
      var m, id := ManifestFor(env, s, BatchOf(env, s)), ManifestIdFor(env, s, BatchOf(env, s));
      id in g'.log && g'.log[id] == m && ManifestStored(env, g'.backend, id, m)
  {
    NewOrSameManifest(env, g, s);
  }

  lemma NewManifestOk(env: Env, g: World, x: Writer)
    requires env.Good() && SharedInv(env, g) && WriterInv(env, g.backend, g.log, x)
    requires BatchPackStored(env, g.backend, x.store)
    ensures var m := ManifestFor(env, x.store, BatchOf(env, x.store));
      Restorable(env, g.backend, m) && (WithinLimits(m) ==> WellFormed(env, m))
  {
    StoredPackOpens(env, g, x);
    NewManifestRestorable(env, g.backend, x.store, BatchOf(env, x.store));
    if WithinLimits(ManifestFor(env, x.store, BatchOf(env, x.store))) { NewManifestWellFormed(env, g, x); }
  }

  lemma NewLogEntryOk(env: Env, g: World, w: nat)
    requires env.Good() && Inv(env, g) && w in g.writers
    requires BatchPackStored(env, g.backend, g.writers[w].store) && ManifestHandled(env, g.writers[w].store)
    requires ManifestIdFor(env, g.writers[w].store, BatchOf(env, g.writers[w].store)) !in g.log
    ensures var s := g.writers[w].store;
      var g' := LogManifest(env, g, s, BatchOf(env, s));
      var id := ManifestIdFor(env, s, BatchOf(env, s));
      id in g'.log && LogEntryOk(env, g'.backend, g'.facts, id, g'.log[id])
  {
    var x := g.writers[w];
    var s, b := x.store, BatchOf(env, x.store);
    var g' := LogManifest(env, g, s, b);
    NewManifestStored(env, g, s);
    NewManifestOk(env, g, x);
    LogManifestGrows(env, g, s);
    RestorableGrows(env, g.backend, g'.backend, ManifestFor(env, s, b));
    NewEntriesStaged(env, x, b, g'.facts, ManifestIdFor(env, s, b));
  }

  lemma LogEntriesOk(env: Env, g: World, w: nat)
    requires env.Good() && Inv(env, g) && w in g.writers
    requires BatchPackStored(env, g.backend, g.writers[w].store) && ManifestHandled(env, g.writers[w].store)
    ensures var g' := LogManifest(env, g, g.writers[w].store, BatchOf(env, g.writers[w].store));
      forall id :: id in g'.log ==> LogEntryOk(env, g'.backend, g'.facts, id, g'.log[id])
  {
    var s := g.writers[w].store;
    var g' := LogManifest(env, g, s, BatchOf(env, s));
    LogManifestGrows(env, g, s);
    forall id | id in g'.log ensures LogEntryOk(env, g'.backend, g'.facts, id, g'.log[id]) {
      if id in g.log {
        assert LogEntryOk(env, g.backend, g.facts, id, g.log[id]);
        LogEntryGrows(env, g.backend, g'.backend, g.facts, g'.facts, id, g.log[id]);
      } else {
        NewLogEntryOk(env, g, w);
      }
    }
  }

  lemma FactsOk(env: Env, g: World, w: nat)
    requires env.Good() && Inv(env, g) && w in g.writers && ManifestHandled(env, g.writers[w].store)
    ensures var g' := LogManifest(env, g, g.writers[w].store, BatchOf(env, g.writers[w].store));
      forall f :: f in g'.facts ==> FactOk(env, g'.log, f)
  {
    var x := g.writers[w];
    var s, b := x.store, BatchOf(env, x.store);
    var id := ManifestIdFor(env, s, b);
    var g' := LogManifest(env, g, s, b);
    LogManifestGrows(env, g, s);
    LoggedAfter(env, g, s);
    WriterGrows(env, g.backend, g'.backend, g.log, g'.log, x);
    forall f | f in g'.facts ensures FactOk(env, g'.log, f) {
      if f in g.facts {
        FactGrows(env, g.log, g'.log, f);
      } else {
        NewFactOk(env, g'.backend, g'.log, x, id, f);
      }
    }
  }

  lemma BackendKeysOk(env: Env, g: World, s: Store)
    requires env.Good() && SharedInv(env, g) && ManifestHandled(env, s)
    ensures var g' := LogManifest(env, g, s, BatchOf(env, s));
      && (forall id {:trigger env.PackKey(id)} :: env.PackKey(id) in g'.backend ==> PackStored(env, g'.backend, id))
      && (forall id {:trigger env.ManifestKey(id)} :: env.ManifestKey(id) in g'.backend ==> id in g'.log)
  {
    var e := EncodeManifest(env, ManifestFor(env, s, BatchOf(env, s))).value;
    var g' := LogManifest(env, g, s, BatchOf(env, s));
    forall id {:trigger env.PackKey(id)} | env.PackKey(id) in g'.backend ensures PackStored(env, g'.backend, id) {
      KeysDisjoint(env, id, e.id);
      assert PackStored(env, g.backend, id);
    }
    forall id {:trigger env.ManifestKey(id)} | env.ManifestKey(id) in g'.backend ensures id in g'.log {
      if env.ManifestKey(id) == env.ManifestKey(e.id) { ManifestKeyInjective(env, id, e.id); }
    }
  }

  /** Publishing the manifest of a stored pack keeps the invariant, whether or not the key existed. */
  lemma LogManifestKeepsInv(env: Env, g: World, w: nat)
    requires env.Good() && Inv(env, g) && w in g.writers
    requires BatchPackStored(env, g.backend, g.writers[w].store) && ManifestHandled(env, g.writers[w].store)
    ensures Inv(env, LogManifest(env, g, g.writers[w].store, BatchOf(env, g.writers[w].store)))
  {
    var s := g.writers[w].store;
    var g' := LogManifest(env, g, s, BatchOf(env, s));
    LogManifestGrows(env, g, s);
    BackendKeysOk(env, g, s);
    LogEntriesOk(env, g, w);
    FactsOk(env, g, w);
    OthersGrow(env, g, g'.backend, g'.log);
  }

  lemma PhaseKeeps(env: Env, backend: map<string, Bytes>, log: map<string, Manifest>, x: Writer, phase: Phase, published: set<string>)
    requires WriterInv(env, backend, log, x) && published <= backend.Keys && (phase == Idle || phase == ManifestSaved)
    requires phase == ManifestSaved ==> BatchPackStored(env, backend, x.store) && BatchManifestLogged(env, log, x.store)
    ensures WriterInv(env, backend, log, x.(phase := phase, published := published))
  {
    assert Reached(x.(phase := phase, published := published)) == Reached(x);
  }

  lemma ManifestSavedInv(env: Env, g: World, w: nat, phase: Phase, published: set<string>)
    requires Inv(env, g) && w in g.writers && published <= g.backend.Keys
    requires phase == Idle || phase == ManifestSaved
    requires phase == ManifestSaved ==>
      BatchPackStored(env, g.backend, g.writers[w].store) && BatchManifestLogged(env, g.log, g.writers[w].store)
    ensures Inv(env, WithWriter(g, w, g.writers[w].(phase := phase, published := published)))
  {
    var x := g.writers[w];
    PhaseKeeps(env, g.backend, g.log, x, phase, published);
    UpdateWriter(env, g, w, x.(phase := phase, published := published));
  }

  lemma PackStaysStored(env: Env, backend: map<string, Bytes>, backend': map<string, Bytes>, s: Store)
    requires BatchPackStored(env, backend, s) && Grows(backend, backend')
    ensures BatchPackStored(env, backend', s)
  {
  }

  /** What holds once the manifest of a stored pack is on the backend, whatever its writer is told. */
  lemma AfterLogManifest(env: Env, g: World, w: nat)
    requires env.Good() && Inv(env, g) && w in g.writers
    requires g.writers[w].phase == PackSaved && ManifestHandled(env, g.writers[w].store)
    ensures var x := g.writers[w];
      var g' := LogManifest(env, g, x.store, BatchOf(env, x.store));
      && Inv(env, g') && x.published <= g.backend.Keys && x.published <= g'.backend.Keys
      && env.ManifestKey(ManifestIdFor(env, x.store, BatchOf(env, x.store))) in g'.backend
      && BatchPackStored(env, g'.backend, x.store) && BatchManifestLogged(env, g'.log, x.store)
  {
    var x := g.writers[w];
    var g' := LogManifest(env, g, x.store, BatchOf(env, x.store));
    assert WriterInv(env, g.backend, g.log, x);
    LogManifestKeepsInv(env, g, w);
    LogManifestGrows(env, g, x.store);
    LoggedAfter(env, g, x.store);
    PackStaysStored(env, g.backend, g'.backend, x.store);
  }

  lemma SaveManifestKeepsInv(env: Env, g: World, w: nat, outcome: Outcome)
    requires env.Good() && Inv(env, g) && w in g.writers
    ensures Inv(env, DoSaveManifest(env, g, w, outcome))
  {
    var x := g.writers[w];
    if x.phase == PackSaved && ManifestHandled(env, x.store) {
      var key := env.ManifestKey(ManifestIdFor(env, x.store, BatchOf(env, x.store)));
      var g' := LogManifest(env, g, x.store, BatchOf(env, x.store));
      AfterLogManifest(env, g, w);
      if key in x.published {
        ManifestSavedInv(env, g', w, ManifestSaved, x.published);
      } else {
        match outcome
        case Failed => ManifestSavedInv(env, g, w, Idle, x.published);
        case FailedButStored => ManifestSavedInv(env, g', w, Idle, x.published);
        case Saved => ManifestSavedInv(env, g', w, ManifestSaved, x.published + {key});
      }
    }
  }

  lemma LocalKeepsInv(env: Env, g: World, step: Step)
    requires Inv(env, g) && step.w in g.writers
    ensures Inv(env, WithWriter(g, step.w, LocalStep(env, g.writers[step.w], step)))
  {
    var x := g.writers[step.w];
    forall id | id in g.log ensures Restorable(env, g.backend, g.log[id]) {
      assert LogEntryOk(env, g.backend, g.facts, id, g.log[id]);
    }
    LocalStepKeeps(env, g.backend, g.log, x, step);
    UpdateWriter(env, g, step.w, LocalStep(env, x, step));
  }

  lemma LocalDo(env: Env, g: World, step: Step)
    requires step.w in g.writers && !step.Join? && !step.SavePack? && !step.SaveManifest?
    ensures Do(env, g, step) == WithWriter(g, step.w, LocalStep(env, g.writers[step.w], step))
  {
  }

  lemma SaveDo(env: Env, g: World, step: Step)
    requires step.w in g.writers && (step.SavePack? || step.SaveManifest?)
    ensures step.SavePack? ==> Do(env, g, step) == DoSavePack(env, g, step.w, step.outcome)
    ensures step.SaveManifest? ==> Do(env, g, step) == DoSaveManifest(env, g, step.w, step.outcome)
  {
  }

  lemma {:induction false} StepKeepsInv(env: Env, g: World, step: Step)
    requires env.Good() && Inv(env, g)
    ensures Inv(env, Do(env, g, step))
  {
    if step.Join? {
      JoinKeepsInv(env, g, step.w, step.loaded);
    } else if step.w in g.writers {
      if step.SavePack? {
        SaveDo(env, g, step);
        SavePackKeepsInv(env, g, step.w, step.outcome);
      } else if step.SaveManifest? {
        SaveDo(env, g, step);
        SaveManifestKeepsInv(env, g, step.w, step.outcome);
      } else {
        LocalDo(env, g, step);
        LocalKeepsInv(env, g, step);
      }
    }
  }

  lemma {:induction false} RunKeepsInv(env: Env, steps: seq<Step>)
    requires env.Good()
    ensures Inv(env, Run(env, steps))
  {
    if steps != [] {
      RunKeepsInv(env, steps[..|steps| - 1]);
      StepKeepsInv(env, Run(env, steps[..|steps| - 1]), steps[|steps| - 1]);
    }
  }
}
