/** Publishing under an immutable key, and what one flush does to the backend and the store. */
module Publishing {
  import opened Common
  import opened Environment
  import opened Manifests
  import opened Staging
  import opened Draining
  import opened PackedWorld

  /** The backend's entries and the keys this server has published. */
  datatype Publications = Publications(entries: map<string, Bytes>, published: set<string>)

  function Publish(p: Publications, key: string, data: Bytes, outcome: Outcome): Publications {
    if key in p.published then p
    else
      match outcome
      case Failed => p
      case FailedButStored => p.(entries := PutIfAbsent(p.entries, key, data))
      case Saved => Publications(PutIfAbsent(p.entries, key, data), p.published + {key})
  }

  /** The backend together with the publishing server's memory of its successful saves. */
  class Backend {
    var entries: map<string, Bytes>
    var published: set<string>
    /** Neither loads nor saves fail. */
    const reliable: bool

    constructor (entries: map<string, Bytes>, reliable: bool)
      ensures State() == Publications(entries, {}) && this.reliable == reliable
    {
      this.entries, published, this.reliable := entries, {}, reliable;
    }

    function State(): Publications
      reads this
    {
      Publications(entries, published)
    }

    /** A save may fail before or after the backend has stored the object; a stored key never changes. */
    method Save(key: string, data: Bytes) returns (outcome: Outcome)
      modifies this`entries
      ensures entries == if outcome == Failed then old(entries) else PutIfAbsent(old(entries), key, data)
      ensures reliable ==> outcome == Saved
    {
      var reached, acknowledged := *, *;
      if !reached && !reliable {
        return Failed;
      }
      if key !in entries {
        entries := entries[key := data];
      }
      outcome := if acknowledged || reliable then Saved else FailedButStored;
    }

    /** Without a concurrent publisher of the same key. When saves do not fail, the key ends up published. */
    method PublishOnce(key: string, data: Bytes) returns (ok: bool, ghost outcome: Outcome)
      modifies this
      ensures State() == Publish(old(State()), key, data, outcome)
      ensures ok == (key in published)
      ensures reliable ==> ok && old(published) <= published && (key in old(published) || key in entries)
    {
      if key in published {
        return true, Saved;
      }
      var result := Save(key, data);
      if result == Saved {
        published := published + {key};
      }
      return result == Saved, result;
    }
  }

  // ----- one flush -----

  datatype FlushResult = FlushResult(publications: Publications, store: Store, flushed: bool, ok: bool)

  ghost function BatchPackKey(env: Env, s: Store): string { env.PackKey(PackIdFor(env, s, BatchOf(env, s))) }

  ghost function BatchManifest(env: Env, s: Store): Encoded {
    EncodeManifest(env, ManifestFor(env, s, BatchOf(env, s))).value
  }

  /** Building a file to publish may fail before anything is saved. */
  datatype Attempt = NotBuilt | Built(save: Outcome)

  ghost function SavedPack(env: Env, p: Publications, s: Store, a: Attempt): Publications {
    match a
    case NotBuilt => p
    case Built(outcome) => Publish(p, BatchPackKey(env, s), PackData(env, s, BatchOf(env, s)), outcome)
  }

  ghost function SavedManifest(env: Env, p: Publications, s: Store, a: Attempt): Publications {
    match a
    case NotBuilt => p
    case Built(outcome) => Publish(p, env.ManifestKey(BatchManifest(env, s).id), BatchManifest(env, s).data, outcome)
  }

  ghost predicate PackPublished(env: Env, p: Publications, s: Store, a: Attempt) {
    a.Built? && BatchPackKey(env, s) in p.published
  }

  ghost predicate ManifestPublished(env: Env, p: Publications, s: Store, a: Attempt) {
    a.Built? && env.ManifestKey(BatchManifest(env, s).id) in p.published
  }

  /** What one flush comes to, given how its two attempts end. */
  ghost function FlushWith(env: Env, p: Publications, s: Store, pack: Attempt, manifest: Attempt): FlushResult {
    var q := SavedPack(env, p, s, pack);
    var r := SavedManifest(env, q, s, manifest);
    if NothingToFlush(BatchOf(env, s)) then FlushResult(p, s, false, true)
    else if !PackPublished(env, q, s, pack) then FlushResult(q, s, false, false)
    else if !ManifestPublished(env, r, s, manifest) then FlushResult(r, s, false, false)
    else FlushResult(r, Commit(env, s, BatchOf(env, s)), true, true)
  }

  /** The result is that of one flush, however its attempts ended. */
  ghost predicate OneFlush(env: Env, p: Publications, s: Store, r: FlushResult) {
    exists pack, manifest :: r == FlushWith(env, p, s, pack, manifest)
  }

  lemma FlushCases(env: Env, p: Publications, s: Store, r: FlushResult)
    requires OneFlush(env, p, s, r)
    ensures r.flushed ==> r.ok && !NothingToFlush(BatchOf(env, s)) && r.store == Commit(env, s, BatchOf(env, s))
    ensures !r.flushed ==> r.store == s
    ensures r.ok && !r.flushed ==> NothingToFlush(BatchOf(env, s))
  {
  }

  /**
   * A flush that reports an error or nothing to do leaves the store as it was; one that succeeds is a drain step
   * and leaves less pending.
   */
  lemma {:induction false} FlushedStore(env: Env, p: Publications, s: Store, r: FlushResult)
    requires Bookkeeping(s) && OneFlush(env, p, s, r)
    ensures Bookkeeping(r.store) && (!r.flushed ==> r.store == s)
    ensures r.flushed ==> r.ok && Flushes(env, s, r.store)
    ensures r.flushed ==>
      |r.store.pendingCas| + |r.store.pendingActions| < |s.pendingCas| + |s.pendingActions|
    ensures r.ok && !r.flushed ==> NothingToFlush(Select(env.targetSize, s))
  {
    FlushCases(env, p, s, r);
    if r.flushed { FlushedShrinks(env, s); }
  }

  lemma FlushedShrinks(env: Env, s: Store)
    requires Bookkeeping(s) && !NothingToFlush(BatchOf(env, s))
    ensures var t := Commit(env, s, BatchOf(env, s));
      && Flushes(env, s, t) && Bookkeeping(t)
      && |t.pendingCas| + |t.pendingActions| < |s.pendingCas| + |s.pendingActions|
  {
    FlushNextFlushes(env, s);
    FlushShrinks(env.targetSize, s, FlushNext(env, s));
  }

  // ----- refinement of the protocol -----

  /** The batch's pack and manifest are among the byte strings of the run. */
  ghost predicate BatchHandled(env: Env, s: Store) {
    env.handled(PackData(env, s, BatchOf(env, s))) && env.handled(BatchManifest(env, s).data)
  }

  /** The part of the world one flushing runner sees and changes. */
  ghost predicate Sees(g: World, w: nat, phase: Phase, p: Publications, s: Store) {
    && p.published <= p.entries.Keys && w in g.writers && g.writers[w].phase == phase
    && g.backend == p.entries && g.writers[w].published == p.published && g.writers[w].store == s
  }

  ghost function DoLocal(env: Env, g: World, w: nat, step: Step): World
    requires w in g.writers
  {
    WithWriter(g, w, LocalStep(env, g.writers[w], step))
  }

  /** Publishing the pack: the step SavePack, or nothing if the pack could not be built. */
  ghost function DoPack(env: Env, g: World, w: nat, a: Attempt): World
    requires w in g.writers
  {
    match a case NotBuilt => DoLocal(env, g, w, Abort(w)) case Built(outcome) => DoSavePack(env, g, w, outcome)
  }

  /** Publishing the manifest: the step SaveManifest, or Abort if the manifest could not be built. */
  ghost function DoManifest(env: Env, g: World, w: nat, a: Attempt): World
    requires w in g.writers
  {
    match a case NotBuilt => DoLocal(env, g, w, Abort(w)) case Built(outcome) => DoSaveManifest(env, g, w, outcome)
  }

  lemma AbortsOrStays(env: Env, g: World, w: nat, phase: Phase, p: Publications, s: Store)
    requires Sees(g, w, phase, p, s) && (phase == Idle || phase == PackSaved)
    ensures Sees(DoLocal(env, g, w, Abort(w)), w, Idle, p, s)
  {
  }

  lemma SavePackEnds(env: Env, g: World, w: nat, p: Publications, s: Store, outcome: Outcome)
    requires Sees(g, w, Idle, p, s) && !NothingToFlush(BatchOf(env, s)) && BatchHandled(env, s)
    ensures var q := SavedPack(env, p, s, Built(outcome));
      Sees(DoSavePack(env, g, w, outcome), w, if PackPublished(env, q, s, Built(outcome)) then PackSaved else Idle, q, s)
  {
  }

  lemma PackStep(env: Env, g: World, w: nat, p: Publications, s: Store, a: Attempt)
    requires Sees(g, w, Idle, p, s) && !NothingToFlush(BatchOf(env, s)) && BatchHandled(env, s)
    ensures var q := SavedPack(env, p, s, a);
      Sees(DoPack(env, g, w, a), w, if PackPublished(env, q, s, a) then PackSaved else Idle, q, s)
  {
    match a
    case NotBuilt => AbortsOrStays(env, g, w, Idle, p, s);
    case Built(outcome) => SavePackEnds(env, g, w, p, s, outcome);
  }

  lemma NoPackStep(env: Env, g: World, w: nat, p: Publications, s: Store, a: Attempt)
    requires Sees(g, w, Idle, p, s) && NothingToFlush(BatchOf(env, s))
    ensures Sees(DoPack(env, g, w, a), w, Idle, p, s)
  {
    if a.NotBuilt? { AbortsOrStays(env, g, w, Idle, p, s); }
  }

  lemma SaveManifestEnds(env: Env, g: World, w: nat, p: Publications, s: Store, outcome: Outcome)
    requires Sees(g, w, PackSaved, p, s) && BatchHandled(env, s)
    ensures var r := SavedManifest(env, p, s, Built(outcome));
      Sees(DoSaveManifest(env, g, w, outcome), w,
           if ManifestPublished(env, r, s, Built(outcome)) then ManifestSaved else Idle, r, s)
  {
  }

  lemma ManifestStep(env: Env, g: World, w: nat, p: Publications, s: Store, a: Attempt)
    requires Sees(g, w, PackSaved, p, s) && BatchHandled(env, s)
    ensures var r := SavedManifest(env, p, s, a);
      Sees(DoManifest(env, g, w, a), w, if ManifestPublished(env, r, s, a) then ManifestSaved else Idle, r, s)
  {
    match a
    case NotBuilt => AbortsOrStays(env, g, w, PackSaved, p, s);
    case Built(outcome) => SaveManifestEnds(env, g, w, p, s, outcome);
  }

  lemma NoManifestStep(env: Env, g: World, w: nat, p: Publications, s: Store, a: Attempt)
    requires Sees(g, w, Idle, p, s)
    ensures Sees(DoManifest(env, g, w, a), w, Idle, p, s)
  {
    if a.NotBuilt? { AbortsOrStays(env, g, w, Idle, p, s); }
  }

  lemma ApplyStep(env: Env, g: World, w: nat, p: Publications, s: Store)
    requires Sees(g, w, ManifestSaved, p, s)
    ensures Sees(DoLocal(env, g, w, Apply(w)), w, Idle, p, Commit(env, s, BatchOf(env, s)))
  {
  }

  lemma NoApplyStep(env: Env, g: World, w: nat, p: Publications, s: Store)
    requires Sees(g, w, Idle, p, s)
    ensures Sees(DoLocal(env, g, w, Apply(w)), w, Idle, p, s)
  {
  }

  lemma PackKeepsWriter(env: Env, g: World, w: nat, a: Attempt)
    requires w in g.writers
    ensures w in DoPack(env, g, w, a).writers
  {
  }

  lemma ManifestKeepsWriter(env: Env, g: World, w: nat, a: Attempt)
    requires w in g.writers
    ensures w in DoManifest(env, g, w, a).writers
  {
  }

  /** The pack, the manifest and the commit in a row. */
  ghost function FlushSteps(env: Env, g: World, w: nat, pack: Attempt, manifest: Attempt): World
    requires w in g.writers
  {
    PackKeepsWriter(env, g, w, pack);
    var packed := DoPack(env, g, w, pack);
    ManifestKeepsWriter(env, packed, w, manifest);
    DoLocal(env, DoManifest(env, packed, w, manifest), w, Apply(w))
  }

  function PackStepFor(w: nat, a: Attempt): Step {
    match a case NotBuilt => Abort(w) case Built(outcome) => SavePack(w, outcome)
  }

  function ManifestStepFor(w: nat, a: Attempt): Step {
    match a case NotBuilt => Abort(w) case Built(outcome) => SaveManifest(w, outcome)
  }

  lemma PackIsStep(env: Env, g: World, w: nat, a: Attempt)
    requires w in g.writers
    ensures Do(env, g, PackStepFor(w, a)) == DoPack(env, g, w, a)
  {
  }

  lemma ManifestIsStep(env: Env, g: World, w: nat, a: Attempt)
    requires w in g.writers
    ensures Do(env, g, ManifestStepFor(w, a)) == DoManifest(env, g, w, a)
  {
  }

  lemma ApplyIsStep(env: Env, g: World, w: nat)
    requires w in g.writers
    ensures Do(env, g, Apply(w)) == DoLocal(env, g, w, Apply(w))
  {
  }

  lemma FlushStepsAreSteps(env: Env, g: World, w: nat, pack: Attempt, manifest: Attempt)
    requires w in g.writers
    ensures FlushSteps(env, g, w, pack, manifest)
         == Do(env, Do(env, Do(env, g, PackStepFor(w, pack)), ManifestStepFor(w, manifest)), Apply(w))
  {
    var packed := DoPack(env, g, w, pack);
    PackIsStep(env, g, w, pack);
    PackKeepsWriter(env, g, w, pack);
    ManifestIsStep(env, packed, w, manifest);
    ManifestKeepsWriter(env, packed, w, manifest);
    ApplyIsStep(env, DoManifest(env, packed, w, manifest), w);
  }

  /**
   * A flush is steps of the protocol, SavePack, SaveManifest and Apply or their failures: the imperative flush refines
   * the state machine.
   */
  lemma {:induction false} FlushRefinesSteps(env: Env, g: World, w: nat, p: Publications, s: Store, pack: Attempt, manifest: Attempt)
    requires Sees(g, w, Idle, p, s) && BatchHandled(env, s)
    ensures var r := FlushWith(env, p, s, pack, manifest);
      Sees(FlushSteps(env, g, w, pack, manifest), w, Idle, r.publications, r.store)
  {
    var packed := DoPack(env, g, w, pack);
    var q := SavedPack(env, p, s, pack);
    if NothingToFlush(BatchOf(env, s)) {
      NoPackStep(env, g, w, p, s, pack);
      NothingCommitted(env, packed, w, p, s, manifest);
    } else if !PackPublished(env, q, s, pack) {
      PackStep(env, g, w, p, s, pack);
      NothingCommitted(env, packed, w, q, s, manifest);
    } else {
      PackStep(env, g, w, p, s, pack);
      FlushRefinesCommit(env, packed, w, q, s, manifest);
    }
  }

  lemma NothingCommitted(env: Env, g: World, w: nat, p: Publications, s: Store, a: Attempt)
    requires Sees(g, w, Idle, p, s)
    ensures w in DoManifest(env, g, w, a).writers
    ensures Sees(DoLocal(env, DoManifest(env, g, w, a), w, Apply(w)), w, Idle, p, s)
  {
    NoManifestStep(env, g, w, p, s, a);
    NoApplyStep(env, DoManifest(env, g, w, a), w, p, s);
  }

  lemma FlushRefinesCommit(env: Env, g: World, w: nat, p: Publications, s: Store, a: Attempt)
    requires Sees(g, w, PackSaved, p, s) && BatchHandled(env, s)
    ensures w in DoManifest(env, g, w, a).writers
    ensures var r := SavedManifest(env, p, s, a);
      Sees(DoLocal(env, DoManifest(env, g, w, a), w, Apply(w)), w, Idle, r,
           if ManifestPublished(env, r, s, a) then Commit(env, s, BatchOf(env, s)) else s)
  {
    var r := SavedManifest(env, p, s, a);
    var h := DoManifest(env, g, w, a);
    ManifestStep(env, g, w, p, s, a);
    if ManifestPublished(env, r, s, a) { ApplyStep(env, h, w, r, s); } else { NoApplyStep(env, h, w, r, s); }
  }
}
