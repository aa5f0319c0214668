/**
 * The objects a server holds locally, as a state machine: uploads, backend downloads and pack reads of any number
 * of requests race to bind a key, and an action result is validated before it is served. The backend, the merged
 * index and the packs may return anything. A step whose guard does not hold changes nothing.
 */
module ObjectCache {
  import opened Common
  import opened Environment
  import opened ActionResults
  import opened Closures
  import opened Validation
  import opened Validator
  import opened Completeness

  datatype Key = CasKey(digest: string) | AcKey(digest: string)

  datatype Answer = Hit(data: Bytes) | NotFound | Failed | Stored

  /**
   * A read looks its key up, and only after a miss obtains bytes, which it carries until it binds them. An action result
   * it has found is checked before it answers.
   */
  datatype Phase = Arrived | Missed | Carrying(data: Bytes) | Checking(data: Bytes) | Answered(answer: Answer)

  /** `confirmed` is history: the blobs that lookups of the request's validation have found. */
  datatype Request = Request(key: Key, isGet: bool, phase: Phase, confirmed: set<string>)

  /** A server in packs mode or in objects mode, and the digests of the blobs its index lists or its backend holds. */
  datatype World = World(packed: bool, objects: map<Key, Bytes>, persisted: set<string>, requests: map<nat, Request>)

  function Start(packed: bool): World { World(packed, map[], {}, map[]) }

  /** `Persist` is what other servers and the saves of this one do. */
  datatype Step =
    | Persist(h: string)
    | Get(t: nat, key: Key)
    | Put(t: nat, key: Key, body: Bytes)
    | Lookup(t: nat)
    | Absent(t: nat)
    | Download(t: nat, data: Bytes)
    | ReadPack(t: nat, cid: string, size: int, block: Bytes)
    | Bind(t: nat)
    | Fetch(t: nat, h: string, data: Bytes)
    | Confirm(t: nat, h: string)
    | Validate(t: nat)
    | Reject(t: nat)
    | Break(t: nat)

  function Advance(g: World, t: nat, phase: Phase): World
    requires t in g.requests
  {
    g.(requests := g.requests[t := g.requests[t].(phase := phase)])
  }

  function WithConfirmed(g: World, t: nat, confirmed: set<string>): World
    requires t in g.requests
  {
    g.(requests := g.requests[t := g.requests[t].(confirmed := confirmed)])
  }

  /** The integrity check of downloads, pack reads and uploads: bytes for a CAS key hash to its digest. */
  function Fits(env: Env, key: Key, data: Bytes): bool {
    key.CasKey? ==> env.sha(data) == key.digest
  }

  /** The block is the one the index entry describes. */
  function Describes(env: Env, cid: string, size: int, block: Bytes): bool {
    env.CidOf(block) == cid && |block| == size
  }

  /** A blob that has been found is served; an action result is validated first. */
  function Found(key: Key, data: Bytes): Phase {
    if key.AcKey? then Checking(data) else Answered(Hit(data))
  }

  /** The blobs bound locally. */
  function LocalBlobs(objects: map<Key, Bytes>): map<string, Bytes> {
    map k | k in objects && k.CasKey? :: k.digest := objects[k]
  }

  /** Where the lookups of a validation that is not for publication succeed. */
  function Present(g: World): Presence { Presence(LocalBlobs(g.objects).Keys, g.persisted) }

  /** What such a lookup may confirm; in packs mode it reads the blob, which is then bound. */
  predicate CanConfirm(g: World, h: string) { CasKey(h) in g.objects || (!g.packed && h in g.persisted) }

  /**
   * Validation of the bytes passes: everything they reach was confirmed, the trees and directories among it were
   * loaded, and nothing is malformed.
   */
  ghost predicate Passes(env: Env, objects: map<Key, Bytes>, data: Bytes, confirmed: set<string>) {
    && Vouched(env.sha, LocalBlobs(objects), data, confirmed)
    && NodesLoaded(GraphOf(env.sha, LocalBlobs(objects), ActionResultOf(data).value), LocalBlobs(objects).Keys)
  }

  function BindIfAbsent(objects: map<Key, Bytes>, key: Key, data: Bytes): map<Key, Bytes> {
    if key in objects then objects else objects[key := data]
  }

  /** The critical section that binds a key, unless another request has bound it in the meantime. */
  function DoBind(g: World, t: nat, data: Bytes): World
    requires t in g.requests
  {
    var r := g.requests[t];
    var objects := BindIfAbsent(g.objects, r.key, data);
    Advance(g.(objects := objects), t, if r.isGet then Found(r.key, objects[r.key]) else Answered(Stored))
  }

  /** Looking the key up, again also after a miss: a read that was faster may have bound it. */
  function DoLookup(g: World, t: nat): World
    requires t in g.requests
  {
    var r := g.requests[t];
    var waits := r.phase == Arrived || r.phase == Missed || (r.phase.Carrying? && r.isGet);
    if waits && r.key in g.objects then Advance(g, t, Found(r.key, g.objects[r.key]))
    else if r.phase == Arrived then Advance(g, t, Missed)
    else g
  }

  /** A validation reads a tree or a directory, and in packs mode any blob it asks about, and binds it. */
  function DoFetch(env: Env, g: World, t: nat, h: string, data: Bytes): World
    requires t in g.requests
  {
    if g.requests[t].phase.Checking? && Fits(env, CasKey(h), data) then g.(objects := BindIfAbsent(g.objects, CasKey(h), data))
    else g
  }

  function DoConfirm(g: World, t: nat, h: string): World
    requires t in g.requests
  {
    if g.requests[t].phase.Checking? && CanConfirm(g, h) then WithConfirmed(g, t, g.requests[t].confirmed + {h}) else g
  }

  ghost function DoValidate(env: Env, g: World, t: nat): World
    requires t in g.requests
  {
    var r := g.requests[t];
    if r.phase.Checking? && Passes(env, g.objects, r.phase.data, r.confirmed) then Advance(g, t, Answered(Hit(r.phase.data)))
    else g
  }

  /** What a request already there does. */
  ghost function Act(env: Env, g: World, step: Step): World
    requires !step.Persist? && step.t in g.requests
  {
    var r := g.requests[step.t];
    match step
    case Lookup(t) => DoLookup(g, t)
    case Absent(t) => if r.phase == Missed then Advance(g, t, Answered(NotFound)) else g
    case Download(t, data) =>
      if g.packed || r.phase != Missed then g
      else Advance(g, t, if Fits(env, r.key, data) then Carrying(data) else Answered(Failed))
    case ReadPack(t, cid, size, block) =>
      if !g.packed || r.phase != Missed then g
      else
        var ok := Describes(env, cid, size, block) && Fits(env, r.key, block);
        Advance(g, t, if ok then Carrying(block) else Answered(Failed))
    case Bind(t) => if r.phase.Carrying? then DoBind(g, t, r.phase.data) else g
    case Fetch(t, h, data) => DoFetch(env, g, t, h, data)
    case Confirm(t, h) => DoConfirm(g, t, h)
    case Validate(t) => DoValidate(env, g, t)
    case Reject(t) => if r.phase.Checking? then Advance(g, t, Answered(NotFound)) else g
    case Break(t) => if r.phase == Missed || r.phase.Carrying? || r.phase.Checking? then Advance(g, t, Answered(Failed)) else g
    case _ => g
  }

  function Arrive(g: World, t: nat, r: Request): World {
    if t in g.requests then g else g.(requests := g.requests[t := r])
  }

  ghost function Do(env: Env, g: World, step: Step): World {
    match step
    case Persist(h) => g.(persisted := g.persisted + {h})
    case Get(t, key) => Arrive(g, t, Request(key, true, Arrived, {}))
    case Put(t, key, body) =>
      Arrive(g, t, Request(key, false, if Fits(env, key, body) then Carrying(body) else Answered(Failed), {}))
    case _ => if step.t in g.requests then Act(env, g, step) else g
  }

  ghost function RunFrom(env: Env, g: World, steps: seq<Step>): World {
    if steps == [] then g else Do(env, RunFrom(env, g, steps[..|steps| - 1]), steps[|steps| - 1])
  }

  // ----- the verdict of a validation -----

  /** Validation before serving: what the server holds counts, and what its backend holds or its index lists. */
  method ValidateForServing(sha: Bytes -> string, data: Bytes, cas: CasView) returns (v: Verdict)
    requires cas.present.Within(cas.content.Keys)
    modifies cas
    ensures cas.present.Includes(old(cas.present))
    ensures v == Passed ==> Served(sha, cas.content, data, cas.present, cas.packed)
    ensures cas.reliable && cas.present.Available(false) == old(cas.present.Available(false)) ==>
      (v == Passed <==> Vouched(sha, cas.content, data, cas.present.Available(false)))
  {
    var closure;
    v, closure := ValidateActionResultClosure(sha, data, cas, false, false);
  }

  /** What a passing validation says of the storage it looked at. */
  ghost predicate Served(sha: Bytes -> string, view: map<string, Bytes>, data: Bytes, present: Presence, packed: bool) {
    && ActionResultOf(data).Some?
    && Confirms(GraphOf(sha, view, ActionResultOf(data).value), present, false, packed)
  }

  /** The verdict holds of the objects bound locally, whatever else the view held. */
  lemma ServedPasses(env: Env, objects: map<Key, Bytes>, view: map<string, Bytes>, data: Bytes, present: Presence, packed: bool)
    requires Served(env.sha, view, data, present, packed) && present.local <= LocalBlobs(objects).Keys
    requires Certified(env.sha, view, present.local) && Certified(env.sha, LocalBlobs(objects), present.local)
    requires CollisionFree(env.sha, view, LocalBlobs(objects))
    ensures var asked := Asked(GraphOf(env.sha, view, ActionResultOf(data).value), present.Confirmed(false, packed));
      Passes(env, objects, data, asked)
  {
    var refs, local := ActionResultOf(data).value, LocalBlobs(objects);
    var g, k := GraphOf(env.sha, view, refs), GraphOf(env.sha, local, refs);
    var confirmed := present.Confirmed(false, packed);
    SameReaders(env.sha, view, local, refs);
    forall r | ReachesTree(g, r) || ReachesDirectory(g, r) ensures SameContent(g, k, r.hash) {
      assert r.hash in present.local;
    }
    AskedSuffice(env.sha, view, data, confirmed, Asked(g, confirmed));
    VouchedAgrees(env.sha, view, local, data, Asked(g, confirmed));
    SameReach(g, k);
  }

  lemma PresentIsConfirmable(g: World, present: Presence, h: string)
    requires Present(g).Includes(present) && h in present.Confirmed(false, g.packed)
    ensures CanConfirm(g, h)
  {
    if h in present.local { assert h in LocalBlobs(g.objects).Keys; }
  }

  function Confirmations(t: nat, hashes: seq<string>): seq<Step> {
    seq(|hashes|, i requires 0 <= i < |hashes| => Confirm(t, hashes[i]))
  }

  ghost function ToSet(hashes: seq<string>): set<string> { set h | h in hashes }

  lemma ConfirmIsStep(env: Env, g: World, t: nat, h: string)
    requires t in g.requests && g.requests[t].phase.Checking? && CanConfirm(g, h)
    ensures Do(env, g, Confirm(t, h)) == WithConfirmed(g, t, g.requests[t].confirmed + {h})
  {
  }

  lemma ValidateIsStep(env: Env, g: World, t: nat, data: Bytes)
    requires t in g.requests && g.requests[t].phase == Checking(data) && Passes(env, g.objects, data, g.requests[t].confirmed)
    ensures Do(env, g, Validate(t)) == Advance(g, t, Answered(Hit(data)))
  {
    assert DoValidate(env, g, t) == Advance(g, t, Answered(Hit(data)));
    ValidateActs(env, g, t);
  }

  lemma ValidateActs(env: Env, g: World, t: nat)
    requires t in g.requests
    ensures Do(env, g, Validate(t)) == DoValidate(env, g, t)
  {
  }

  lemma RunSnoc(env: Env, g: World, steps: seq<Step>, step: Step)
    ensures RunFrom(env, g, steps + [step]) == Do(env, RunFrom(env, g, steps), step)
  {
    assert (steps + [step])[..|steps|] == steps;
  }

  lemma ConfirmedTwice(g: World, t: nat, a: set<string>, b: set<string>)
    requires t in g.requests
    ensures WithConfirmed(WithConfirmed(g, t, a), t, b) == WithConfirmed(g, t, b)
    ensures WithConfirmed(g, t, g.requests[t].confirmed) == g
  {
    assert g.requests[t := g.requests[t]] == g.requests;
  }

  lemma {:induction false} ConfirmAll(env: Env, g: World, t: nat, hashes: seq<string>)
    requires t in g.requests && g.requests[t].phase.Checking? && forall h :: h in hashes ==> CanConfirm(g, h)
    ensures RunFrom(env, g, Confirmations(t, hashes)) == WithConfirmed(g, t, g.requests[t].confirmed + ToSet(hashes))
  {
    var before := g.requests[t].confirmed;
    ConfirmedTwice(g, t, {}, {});
    if hashes == [] {
      assert before + ToSet(hashes) == before;
    } else {
      var init, last := hashes[..|hashes| - 1], hashes[|hashes| - 1];
      assert hashes == init + [last] && last in hashes;
      ConfirmAll(env, g, t, init);
      assert Confirmations(t, hashes) == Confirmations(t, init) + [Confirm(t, last)];
      RunSnoc(env, g, Confirmations(t, init), Confirm(t, last));
      ConfirmedTwice(g, t, before + ToSet(init), before + ToSet(init) + {last});
      ConfirmIsStep(env, WithConfirmed(g, t, before + ToSet(init)), t, last);
      assert before + ToSet(hashes) == before + ToSet(init) + {last};
    }
  }

  ghost predicate AnswersHit(g: World, t: nat, data: Bytes) {
    t in g.requests && g.requests[t].phase == Answered(Hit(data))
  }

  lemma PassesForMore(env: Env, objects: map<Key, Bytes>, data: Bytes, confirmed: set<string>, more: set<string>)
    requires Passes(env, objects, data, confirmed) && confirmed <= more
    ensures Passes(env, objects, data, more)
  {
  }

  lemma LocalBlobsCertified(env: Env, objects: map<Key, Bytes>, hashes: set<string>)
    requires ObjectsFit(env, objects) && hashes <= LocalBlobs(objects).Keys
    ensures Certified(env.sha, LocalBlobs(objects), hashes)
  {
    forall h | h in hashes ensures env.sha(LocalBlobs(objects)[h]) == h { assert CasKey(h) in objects; }
  }

  /**
   * A passing ValidateForServing is what lets a read answer: the objects it found are bound locally or persisted, so
   * the request's lookups confirm every hash it asked about, in any order, and the step Validate then serves the bytes.
   */
  lemma PassedVerdictIsServed(env: Env, g: World, t: nat, data: Bytes, view: map<string, Bytes>, present: Presence,
                              hashes: seq<string>)
    requires Inv(env, g) && t in g.requests && g.requests[t].phase == Checking(data)
    requires Served(env.sha, view, data, present, g.packed) && Present(g).Includes(present)
    requires Certified(env.sha, view, present.local) && CollisionFree(env.sha, view, LocalBlobs(g.objects))
    requires var graph := GraphOf(env.sha, view, ActionResultOf(data).value);
      forall h :: h in hashes <==> h in Asked(graph, present.Confirmed(false, g.packed))
    ensures AnswersHit(RunFrom(env, g, Confirmations(t, hashes) + [Validate(t)]), t, data)
  {
    var graph := GraphOf(env.sha, view, ActionResultOf(data).value);
    LocalBlobsCertified(env, g.objects, present.local);
    ServedPasses(env, g.objects, view, data, present, g.packed);
    assert ToSet(hashes) == Asked(graph, present.Confirmed(false, g.packed));
    forall h | h in hashes ensures CanConfirm(g, h) { PresentIsConfirmable(g, present, h); }
    ValidateAfterConfirmations(env, g, t, data, hashes);
  }

  lemma ValidateAfterConfirmations(env: Env, g: World, t: nat, data: Bytes, hashes: seq<string>)
    requires t in g.requests && g.requests[t].phase == Checking(data) && forall h :: h in hashes ==> CanConfirm(g, h)
    requires Passes(env, g.objects, data, ToSet(hashes))
    ensures AnswersHit(RunFrom(env, g, Confirmations(t, hashes) + [Validate(t)]), t, data)
  {
    var confirmed := g.requests[t].confirmed + ToSet(hashes);
    ConfirmAll(env, g, t, hashes);
    PassesForMore(env, g.objects, data, ToSet(hashes), confirmed);
    RunSnoc(env, g, Confirmations(t, hashes), Validate(t));
    ValidateIsStep(env, WithConfirmed(g, t, confirmed), t, data);
  }

  // ----- the invariant -----

  ghost predicate PhaseOk(env: Env, objects: map<Key, Bytes>, r: Request) {
    match r.phase
    case Carrying(data) => Fits(env, r.key, data)
    case Checking(data) => r.key in objects && objects[r.key] == data
    case Answered(Hit(data)) =>
      r.key in objects && objects[r.key] == data && (r.key.AcKey? ==> Passes(env, objects, data, r.confirmed))
    case Answered(Stored) => r.key in objects
    case _ => true
  }

  ghost predicate RequestOk(env: Env, g: World, r: Request) {
    (forall h :: h in r.confirmed ==> CanConfirm(g, h)) && PhaseOk(env, g.objects, r)
  }

  ghost predicate ObjectsFit(env: Env, objects: map<Key, Bytes>) { forall k :: k in objects ==> Fits(env, k, objects[k]) }

  ghost predicate Inv(env: Env, g: World) {
    ObjectsFit(env, g.objects) && forall t :: t in g.requests ==> RequestOk(env, g, g.requests[t])
  }

  ghost predicate Bound(objects: map<Key, Bytes>, later: map<Key, Bytes>) {
    forall k :: k in objects ==> k in later && later[k] == objects[k]
  }

  /** Bindings stay and nothing persisted is evicted. */
  ghost predicate Later(g: World, h: World) {
    h.packed == g.packed && Bound(g.objects, h.objects) && g.persisted <= h.persisted
  }

  /** A validation that has passed stays passed: bindings do not change. */
  lemma PassesStays(env: Env, objects: map<Key, Bytes>, later: map<Key, Bytes>, data: Bytes, confirmed: set<string>)
    requires Passes(env, objects, data, confirmed) && Bound(objects, later)
    ensures Passes(env, later, data, confirmed)
  {
    var refs := ActionResultOf(data).value;
    var g, k := GraphOf(env.sha, LocalBlobs(objects), refs), GraphOf(env.sha, LocalBlobs(later), refs);
    SameReaders(env.sha, LocalBlobs(objects), LocalBlobs(later), refs);
    forall r | ReachesTree(g, r) || ReachesDirectory(g, r) ensures SameContent(g, k, r.hash) {
      assert CasKey(r.hash) in objects;
    }
    VouchedAgrees(env.sha, LocalBlobs(objects), LocalBlobs(later), data, confirmed);
    SameReach(g, k);
  }

  lemma RequestStays(env: Env, g: World, h: World, r: Request)
    requires RequestOk(env, g, r) && Later(g, h)
    ensures RequestOk(env, h, r)
  {
    if r.key.AcKey? && r.phase.Answered? && r.phase.answer.Hit? {
      PassesStays(env, g.objects, h.objects, r.phase.answer.data, r.confirmed);
    }
  }

  /** What a step does: it may bind a key or persist a blob, and it changes at most one request. */
  lemma ChangeKeepsInv(env: Env, g: World, h: World, t: nat)
    requires Inv(env, g) && Later(g, h) && ObjectsFit(env, h.objects)
    requires forall u :: u in h.requests && u != t ==> u in g.requests && h.requests[u] == g.requests[u]
    requires t in h.requests ==> RequestOk(env, h, h.requests[t])
    ensures Inv(env, h)
  {
    forall u | u in h.requests ensures RequestOk(env, h, h.requests[u]) {
      if u != t { RequestStays(env, g, h, h.requests[u]); }
    }
  }

  lemma StepIsLater(env: Env, g: World, step: Step)
    requires Inv(env, g)
    ensures var h := Do(env, g, step); Later(g, h) && ObjectsFit(env, h.objects)
  {
    if !step.Persist? && step.t in g.requests { assert RequestOk(env, g, g.requests[step.t]); }
  }

  lemma StepChangesOne(env: Env, g: World, step: Step)
    requires !step.Persist?
    ensures var h := Do(env, g, step);
      forall u :: u in h.requests && u != step.t ==> u in g.requests && h.requests[u] == g.requests[u]
  {
  }

  lemma StepKeepsOwn(env: Env, g: World, step: Step)
    requires Inv(env, g) && !step.Persist? && !step.Get? && !step.Put? && step.t in g.requests
    ensures var h := Do(env, g, step); step.t in h.requests && RequestOk(env, h, h.requests[step.t])
  {
    var r, h := g.requests[step.t], Do(env, g, step);
    assert RequestOk(env, g, r);
    StepIsLater(env, g, step);
    if h.requests[step.t] == r { RequestStays(env, g, h, r); }
  }

  lemma StepKeepsInv(env: Env, g: World, step: Step)
    requires Inv(env, g)
    ensures Inv(env, Do(env, g, step)) && Later(g, Do(env, g, step))
  {
    var h := Do(env, g, step);
    StepIsLater(env, g, step);
    if step.Persist? {
      forall t | t in g.requests ensures RequestOk(env, h, g.requests[t]) { RequestStays(env, g, h, g.requests[t]); }
    } else if h != g {
      StepChangesOne(env, g, step);
      if step.t in g.requests { StepKeepsOwn(env, g, step); }
      ChangeKeepsInv(env, g, h, step.t);
    }
  }

  lemma {:induction false} RunKeepsInv(env: Env, g: World, steps: seq<Step>)
    requires Inv(env, g)
    ensures Inv(env, RunFrom(env, g, steps)) && Later(g, RunFrom(env, g, steps))
  {
    if steps != [] {
      RunKeepsInv(env, g, steps[..|steps| - 1]);
      StepKeepsInv(env, RunFrom(env, g, steps[..|steps| - 1]), steps[|steps| - 1]);
    }
  }

  // ----- a read that arrives when its key is bound -----

  /** Where such a read can be: it finds the bound bytes, and an action result it finds may fail validation. */
  ghost predicate FindsBound(r: Request, key: Key, data: Bytes) {
    r.key == key && r.isGet ==>
      match r.phase
      case Arrived => true
      case Checking(b) => key.AcKey? && b == data
      case Answered(a) => a == Hit(data) || (key.AcKey? && (a == NotFound || a == Failed))
      case _ => false
  }

  lemma StepFindsBound(env: Env, g: World, step: Step, key: Key, u: nat)
    requires key in g.objects && (u in g.requests ==> FindsBound(g.requests[u], key, g.objects[key]))
    ensures var h := Do(env, g, step); u in h.requests ==> FindsBound(h.requests[u], key, g.objects[key])
  {
  }

  lemma {:induction false} RunFindsBound(env: Env, g: World, more: seq<Step>, key: Key, u: nat)
    requires Inv(env, g) && key in g.objects && (u in g.requests ==> FindsBound(g.requests[u], key, g.objects[key]))
    ensures var h := RunFrom(env, g, more); u in h.requests ==> FindsBound(h.requests[u], key, g.objects[key])
  {
    if more != [] {
      RunFindsBound(env, g, more[..|more| - 1], key, u);
      RunKeepsInv(env, g, more[..|more| - 1]);
      StepFindsBound(env, RunFrom(env, g, more[..|more| - 1]), more[|more| - 1], key, u);
    }
  }

  // ----- what every run guarantees -----

  ghost function Run(env: Env, packed: bool, steps: seq<Step>): World { RunFrom(env, Start(packed), steps) }

  /** Once a key is bound, no later upload, download or pack read of any request changes the binding. */
  lemma {:induction false} WriteOnce(env: Env, packed: bool, steps: seq<Step>, more: seq<Step>, key: Key)
    requires key in Run(env, packed, steps).objects
    ensures var g := Run(env, packed, steps);
      var h := RunFrom(env, g, more);
      key in h.objects && h.objects[key] == g.objects[key]
  {
    RunKeepsInv(env, Start(packed), steps);
    RunKeepsInv(env, Run(env, packed, steps), more);
  }

  /** Every hit on a CAS key serves bytes whose SHA-256 is the digest asked for. */
  lemma {:induction false} CasHitsAreIntact(env: Env, packed: bool, steps: seq<Step>, t: nat, data: Bytes)
    requires var g := Run(env, packed, steps);
      AnswersHit(g, t, data) && g.requests[t].key.CasKey?
    ensures env.sha(data) == Run(env, packed, steps).requests[t].key.digest
  {
    RunKeepsInv(env, Start(packed), steps);
    var g := Run(env, packed, steps);
    assert RequestOk(env, g, g.requests[t]);
  }

  lemma ConfirmedIsFound(g: World, h: string)
    requires CanConfirm(g, h)
    ensures h in LocalBlobs(g.objects) || (!g.packed && h in g.persisted)
  {
    if CasKey(h) in g.objects { assert CasKey(h).digest in LocalBlobs(g.objects); }
  }

  /**
   * Validate before serving: the bytes of an action-cache hit are sound, the trees and directories they reach are bound
   * locally, and everything they reach is bound locally or held by the backend; in packs mode all of it is bound locally.
   */
  lemma {:induction false} ActionHitsAreValidated(env: Env, packed: bool, steps: seq<Step>, t: nat, data: Bytes)
    requires var g := Run(env, packed, steps);
      AnswersHit(g, t, data) && g.requests[t].key.AcKey?
    ensures var g := Run(env, packed, steps);
      && ActionResultOf(data).Some?
      && var graph, local := GraphOf(env.sha, LocalBlobs(g.objects), ActionResultOf(data).value), LocalBlobs(g.objects).Keys;
         Sound(graph) && NodesLoaded(graph, local) && AllPresent(graph, if packed then local else local + g.persisted)
  {
    RunKeepsInv(env, Start(packed), steps);
    var g := Run(env, packed, steps);
    assert RequestOk(env, g, g.requests[t]);
    var local := LocalBlobs(g.objects).Keys;
    var found := if packed then local else local + g.persisted;
    forall h | h in g.requests[t].confirmed ensures h in found { ConfirmedIsFound(g, h); }
    VouchedForMore(env.sha, LocalBlobs(g.objects), data, g.requests[t].confirmed, found);
  }

  /** All hits of one server on one key, CAS or action cache, serve the same bytes. */
  lemma {:induction false} HitsAgree(env: Env, packed: bool, steps: seq<Step>, t: nat, u: nat, a: Bytes, b: Bytes)
    requires var g := Run(env, packed, steps);
      AnswersHit(g, t, a) && AnswersHit(g, u, b) && g.requests[t].key == g.requests[u].key
    ensures a == b
  {
    RunKeepsInv(env, Start(packed), steps);
    HitIsBound(env, Run(env, packed, steps), t, a);
    HitIsBound(env, Run(env, packed, steps), u, b);
  }

  lemma HitIsBound(env: Env, g: World, t: nat, data: Bytes)
    requires Inv(env, g) && AnswersHit(g, t, data)
    ensures g.requests[t].key in g.objects && g.objects[g.requests[t].key] == data
  {
    assert RequestOk(env, g, g.requests[t]);
  }

  /**
   * Read your writes: after an upload of its key was answered, whatever any requests do, a read that arrives later is
   * answered, if at all, with the bound bytes; only an action result may instead fail its validation.
   */
  lemma {:induction false} StoredIsServed(env: Env, packed: bool, steps: seq<Step>, more: seq<Step>, t: nat, u: nat, a: Answer)
    requires var g := Run(env, packed, steps);
      t in g.requests && g.requests[t].phase == Answered(Stored) && (u in g.requests ==> g.requests[u].phase == Arrived)
    requires var g := Run(env, packed, steps);
      var h := RunFrom(env, g, more);
      u in h.requests && h.requests[u].key == g.requests[t].key && h.requests[u].isGet && h.requests[u].phase == Answered(a)
    ensures var g := Run(env, packed, steps);
      var key := g.requests[t].key;
      key in g.objects && (a == Hit(g.objects[key]) || (key.AcKey? && (a == NotFound || a == Failed)))
  {
    RunKeepsInv(env, Start(packed), steps);
    var g := Run(env, packed, steps);
    assert RequestOk(env, g, g.requests[t]);
    RunFindsBound(env, g, more, g.requests[t].key, u);
  }

  /**
   * In packs mode an action-cache hit keeps its promise: every later read of any blob it reaches is answered, if at all,
   * with a hit on bytes of that digest, which no other request can change.
   */
  lemma {:induction false} HitBlobsAreServed(env: Env, steps: seq<Step>, more: seq<Step>, t: nat, data: Bytes, r: DigestReference,
                                             u: nat, a: Answer)
    requires var g := Run(env, true, steps);
      && AnswersHit(g, t, data) && g.requests[t].key.AcKey?
      && ActionResultOf(data).Some? && Reaches(GraphOf(env.sha, LocalBlobs(g.objects), ActionResultOf(data).value), r)
      && (u in g.requests ==> g.requests[u].phase == Arrived)
    requires var h := RunFrom(env, Run(env, true, steps), more);
      u in h.requests && h.requests[u].key == CasKey(r.hash) && h.requests[u].isGet && h.requests[u].phase == Answered(a)
    ensures var g := Run(env, true, steps);
      CasKey(r.hash) in g.objects && a == Hit(g.objects[CasKey(r.hash)]) && env.sha(a.data) == r.hash
  {
    ActionHitsAreValidated(env, true, steps, t, data);
    RunKeepsInv(env, Start(true), steps);
    var g := Run(env, true, steps);
    assert r.hash in LocalBlobs(g.objects).Keys;
    assert CasKey(r.hash) in g.objects;
    RunFindsBound(env, g, more, CasKey(r.hash), u);
  }

  // ----- what a read comes to -----

  /** A blob is answered with these bytes; an action result with these bytes goes on to be validated. */
  ghost predicate Finds(r: Request, data: Bytes) {
    r.phase == if r.key.CasKey? then Answered(Hit(data)) else Checking(data)
  }

  /** What is bound under the key, or else these bytes. */
  function BoundOr(objects: map<Key, Bytes>, key: Key, data: Bytes): Bytes {
    if key in objects then objects[key] else data
  }

  ghost predicate IsRead(g: World, t: nat, phase: Phase) {
    t in g.requests && g.requests[t].isGet && g.requests[t].phase == phase
  }

  /** A new request is a read that has just arrived. */
  lemma ReadArrives(env: Env, g: World, t: nat, key: Key)
    requires t !in g.requests
    ensures var h := Do(env, g, Get(t, key)); IsRead(h, t, Arrived) && h.requests[t].key == key && h.objects == g.objects
  {
  }

  /** Looking up finds what is bound, at any time before the read has bound its own bytes, and otherwise misses. */
  lemma LookupFinds(env: Env, g: World, t: nat)
    requires t in g.requests && g.requests[t].isGet
    requires g.requests[t].phase == Arrived || g.requests[t].phase == Missed || g.requests[t].phase.Carrying?
    ensures var r, h := g.requests[t], Do(env, g, Lookup(t));
      && (r.key in g.objects ==> t in h.requests && h.requests[t].key == r.key && Finds(h.requests[t], g.objects[r.key]))
      && (r.key !in g.objects && r.phase == Arrived ==> IsRead(h, t, Missed) && h.requests[t].key == r.key)
  {
  }

  /** The step that fetches bytes from the backend, or in packs mode from a pack. */
  function FetchStep(packed: bool, t: nat, cid: string, size: int, data: Bytes): Step {
    if packed then ReadPack(t, cid, size, data) else Download(t, data)
  }

  /** The bytes are the ones asked for. */
  ghost predicate RightBytes(env: Env, g: World, key: Key, cid: string, size: int, data: Bytes) {
    && (key.CasKey? ==> env.sha(data) == key.digest)
    && (g.packed ==> env.CidOf(data) == cid && |data| == size)
  }

  /** After a miss, the right bytes are carried and wrong ones are an error. */
  lemma FetchCarries(env: Env, g: World, t: nat, cid: string, size: int, data: Bytes)
    requires IsRead(g, t, Missed)
    ensures var r, h := g.requests[t], Do(env, g, FetchStep(g.packed, t, cid, size, data));
      && h.objects == g.objects && t in h.requests && h.requests[t].key == r.key
      && IsRead(h, t, if RightBytes(env, g, r.key, cid, size, data) then Carrying(data) else Answered(Failed))
  {
  }

  /** Binding carried bytes finds them, or what another request has bound meanwhile. */
  lemma BindFinds(env: Env, g: World, t: nat, data: Bytes)
    requires IsRead(g, t, Carrying(data))
    ensures var r, h := g.requests[t], Do(env, g, Bind(t));
      var bytes := BoundOr(g.objects, r.key, data);
      && r.key in h.objects && h.objects[r.key] == bytes
      && t in h.requests && h.requests[t].key == r.key && Finds(h.requests[t], bytes)
  {
  }

  ghost predicate TakesNoStep(t: nat, more: seq<Step>) { forall s :: s in more ==> s.Persist? || s.t != t }

  lemma OtherStep(env: Env, g: World, step: Step, t: nat)
    requires t in g.requests && (step.Persist? || step.t != t)
    ensures t in Do(env, g, step).requests && Do(env, g, step).requests[t] == g.requests[t]
  {
  }

  lemma {:induction false} OthersLeaveRequest(env: Env, g: World, more: seq<Step>, t: nat)
    requires t in g.requests && TakesNoStep(t, more)
    ensures t in RunFrom(env, g, more).requests && RunFrom(env, g, more).requests[t] == g.requests[t]
  {
    if more != [] {
      assert more[|more| - 1] in more;
      OthersLeaveRequest(env, g, more[..|more| - 1], t);
      OtherStep(env, RunFrom(env, g, more[..|more| - 1]), more[|more| - 1], t);
    }
  }

  /**
   * A read that has to fetch its bytes serves them. After a miss, with the right bytes from the backend or from a pack
   * and whatever other requests do before they are bound, the read finds these bytes, or those that another request has
   * bound in the meantime: a blob is a hit, and an action result goes on to be validated.
   */
  lemma {:induction false} FetchedBytesAreFound(env: Env, g: World, more: seq<Step>, t: nat, cid: string, size: int, data: Bytes)
    requires IsRead(g, t, Missed) && RightBytes(env, g, g.requests[t].key, cid, size, data) && TakesNoStep(t, more)
    ensures var r := g.requests[t];
      var fetched := RunFrom(env, Do(env, g, FetchStep(g.packed, t, cid, size, data)), more);
      var h := Do(env, fetched, Bind(t));
      && t in h.requests && h.requests[t].key == r.key && Finds(h.requests[t], BoundOr(fetched.objects, r.key, data))
  {
    FetchCarries(env, g, t, cid, size, data);
    var carrying := Do(env, g, FetchStep(g.packed, t, cid, size, data));
    OthersLeaveRequest(env, carrying, more, t);
    BindFinds(env, RunFrom(env, carrying, more), t, data);
  }

  /**
   * From arrival to answer: a read of a blob that is not bound, with no other request in between, is a hit on the bytes it
   * fetches.
   */
  lemma UnboundReadIsServed(env: Env, g: World, t: nat, digest: string, cid: string, size: int, data: Bytes)
    requires t !in g.requests && CasKey(digest) !in g.objects && RightBytes(env, g, CasKey(digest), cid, size, data)
    ensures var missed := Do(env, Do(env, g, Get(t, CasKey(digest))), Lookup(t));
      var h := Do(env, Do(env, missed, FetchStep(g.packed, t, cid, size, data)), Bind(t));
      AnswersHit(h, t, data)
  {
    var arrived := Do(env, g, Get(t, CasKey(digest)));
    ReadArrives(env, g, t, CasKey(digest));
    LookupFinds(env, arrived, t);
    var missed := Do(env, arrived, Lookup(t));
    LookupKeeps(env, arrived, t);
    FetchCarries(env, missed, t, cid, size, data);
    BindFinds(env, Do(env, missed, FetchStep(g.packed, t, cid, size, data)), t, data);
  }

  lemma LookupKeeps(env: Env, g: World, t: nat)
    ensures var h := Do(env, g, Lookup(t)); h.objects == g.objects && h.packed == g.packed
  {
  }

  /** A validation that reads the right bytes for a hash has it confirmed, and bound from then on, in either mode. */
  lemma FetchedHashIsConfirmed(env: Env, g: World, t: nat, h: string, data: Bytes)
    requires t in g.requests && g.requests[t].phase.Checking? && env.sha(data) == h
    ensures var f := Do(env, Do(env, g, Fetch(t, h, data)), Confirm(t, h));
      && t in f.requests && f.requests[t] == g.requests[t].(confirmed := g.requests[t].confirmed + {h})
      && CasKey(h) in f.objects && f.objects[CasKey(h)] == BoundOr(g.objects, CasKey(h), data)
  {
    var fetched := Do(env, g, Fetch(t, h, data));
    assert fetched == DoFetch(env, g, t, h, data);
    ConfirmIsStep(env, fetched, t, h);
  }

  /** An upload is answered as stored, and binds its body unless the key is bound; a body of another digest is refused. */
  lemma UploadIsStored(env: Env, g: World, t: nat, key: Key, body: Bytes)
    requires t !in g.requests
    ensures var h := Do(env, Do(env, g, Put(t, key, body)), Bind(t));
      && t in h.requests && h.requests[t].key == key && !h.requests[t].isGet
      && if key.CasKey? && env.sha(body) != key.digest then h.requests[t].phase == Answered(Failed) && h.objects == g.objects
         else h.requests[t].phase == Answered(Stored) && h.objects == g.objects[key := BoundOr(g.objects, key, body)]
  {
    if key in g.objects { assert g.objects[key := g.objects[key]] == g.objects; }
  }
}
