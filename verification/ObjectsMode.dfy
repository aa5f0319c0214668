/**
 * Objects mode: every object has its own backend key. Any number of servers upload blobs and action results
 * concurrently; an action result is saved only after its closure was found in the backend, piece by piece.
 */
module ObjectsMode {
  import opened Common
  import opened ActionResults
  import opened Closures
  import opened Validator
  import opened Completeness
  import opened ActionEncoding
  import opened SmallResults

  /** A PUT of an action result, with the hashes the backend has confirmed to it so far. */
  datatype Put =
    | Validating(digest: string, data: Bytes, confirmed: set<string>)
    | Validated(digest: string, data: Bytes)
    | Answered

  /** The CAS entries and the action-cache entries of a backend that evicts nothing, and the action-result PUTs of all servers. */
  datatype World = World(cas: map<string, Bytes>, ac: map<string, Bytes>, puts: map<nat, Put>)

  datatype Step =
    | SaveCas(d: string, data: Bytes)
    | Begin(t: nat, d: string, data: Bytes)
    | Confirm(t: nat, h: string)
    | Judge(t: nat)
    | SaveAc(t: nat, stored: bool)
    | GiveUp(t: nat)

  /**
   * Validation for publication asks the backend about every object, also about those the server holds locally: passing
   * it vouches for the whole closure on what the backend has.
   */
  method ValidateForPublication(sha: Bytes -> string, data: Bytes, cas: CasView) returns (v: Verdict)
    requires cas.present.Within(cas.content.Keys)
    modifies cas
    ensures cas.present.Includes(old(cas.present))
    ensures v == Passed ==> cas.present.persisted <= cas.content.Keys && Vouched(sha, cas.content, data, cas.present.persisted)
    ensures cas.reliable && cas.present.persisted == old(cas.present.persisted) ==>
      (v == Passed <==> Vouched(sha, cas.content, data, cas.present.persisted))
  {
    var closure;
    v, closure := ValidateActionResultClosure(sha, data, cas, true, false);
  }

  /** A blob that only the server holds is enough to serve an action result, and not enough to publish it. */
  lemma LocalIsNotPersisted(sha: Bytes -> string, content: map<string, Bytes>, r: DigestReference)
    requires EncodableDigest(r) && !IsImplicitEmpty(r)
    ensures var data, present := EncodeAction(StreamResult(r)), Presence({r.hash}, {});
      && Vouched(sha, content, data, present.Available(false))
      && !Vouched(sha, content, data, present.Available(true))
  {
    StreamResultReferences(r);
    StreamNeedsItsBlob(sha, content, r, {});
    var g := GraphOf(sha, content, ActionReferences([r], [], []));
    SingleBlobIsSound(g, r);
  }

  lemma SingleBlobIsSound(g: Graph, r: DigestReference)
    requires g.refs == ActionReferences([r], [], []) && !IsImplicitEmpty(r)
    ensures Sound(g) && AllPresent(g, {r.hash})
  {
    forall q ensures !ReachesTree(g, q) && !ReachesDirectory(g, q) && (Reaches(g, q) ==> q == r) { OnlyBlobs(g, q); }
    forall b, t, d | HashesOfGraph(g, b, t, d) ensures |b| + |t| + |d| <= MAX_OBJECTS { OneHash(g, r, b, t, d); }
  }

  ghost function WithPut(g: World, t: nat, put: Put): World { g.(puts := g.puts[t := put]) }

  /** A step whose guard does not hold changes nothing. A blob reaches a key only if it hashes to it. */
  ghost function Do(sha: Bytes -> string, g: World, step: Step): World {
    match step
    case SaveCas(d, data) => if sha(data) == d then g.(cas := PutIfAbsent(g.cas, d, data)) else g
    case Begin(t, d, data) => if t in g.puts then g else WithPut(g, t, Validating(d, data, {}))
    case Confirm(t, h) =>
      if t in g.puts && g.puts[t].Validating? && h in g.cas
      then WithPut(g, t, g.puts[t].(confirmed := g.puts[t].confirmed + {h})) else g
    case Judge(t) =>
      if t in g.puts && g.puts[t].Validating? && Vouched(sha, g.cas, g.puts[t].data, g.puts[t].confirmed)
      then WithPut(g, t, Validated(g.puts[t].digest, g.puts[t].data)) else g
    case SaveAc(t, stored) =>
      if t in g.puts && g.puts[t].Validated? then
        WithPut(if stored then g.(ac := PutIfAbsent(g.ac, g.puts[t].digest, g.puts[t].data)) else g, t, Answered)
      else g
    case GiveUp(t) => if t in g.puts then WithPut(g, t, Answered) else g
  }

  ghost function Run(sha: Bytes -> string, start: World, steps: seq<Step>): World {
    if steps == [] then start else Do(sha, Run(sha, start, steps[..|steps| - 1]), steps[|steps| - 1])
  }

  /** Everything the action result reaches is in the backend, well formed and of the declared size. */
  ghost predicate Complete(sha: Bytes -> string, cas: map<string, Bytes>, data: Bytes) {
    Vouched(sha, cas, data, cas.Keys)
  }

  ghost predicate Closed(sha: Bytes -> string, g: World) {
    forall d :: d in g.ac ==> Complete(sha, g.cas, g.ac[d])
  }

  // ----- the verdict of a validation -----

  ghost predicate Extended(c: map<string, Bytes>, e: map<string, Bytes>) {
    forall h :: h in c ==> h in e && e[h] == c[h]
  }

  /** A closure found complete piece by piece stays complete when the backend grows. */
  lemma {:induction false} VouchedStays(sha: Bytes -> string, c: map<string, Bytes>, e: map<string, Bytes>,
                                        data: Bytes, confirmed: set<string>)
    requires Vouched(sha, c, data, confirmed) && confirmed <= c.Keys && Extended(c, e)
    ensures Vouched(sha, e, data, confirmed) && Complete(sha, e, data)
  {
    AgreeOnPresent(sha, c, e, ActionResultOf(data).value, confirmed);
    VouchedAgrees(sha, c, e, data, confirmed);
  }

  function Confirmations(t: nat, hashes: seq<string>): seq<Step> {
    seq(|hashes|, i requires 0 <= i < |hashes| => Confirm(t, hashes[i]))
  }

  ghost function Members(hashes: seq<string>): set<string> { set h | h in hashes }

  lemma {:induction false} ConfirmAll(sha: Bytes -> string, g: World, t: nat, hashes: seq<string>)
    requires t in g.puts && g.puts[t].Validating? && forall h :: h in hashes ==> h in g.cas
    ensures Run(sha, g, Confirmations(t, hashes))
         == WithPut(g, t, g.puts[t].(confirmed := g.puts[t].confirmed + Members(hashes)))
  {
    if hashes == [] {
      assert g.puts[t := g.puts[t]] == g.puts;
      assert g.puts[t].confirmed + Members(hashes) == g.puts[t].confirmed;
    } else {
      var init, last := hashes[..|hashes| - 1], hashes[|hashes| - 1];
      var steps := Confirmations(t, hashes);
      assert last in hashes && forall h :: h in init ==> h in hashes;
      ConfirmAll(sha, g, t, init);
      assert steps[..|steps| - 1] == Confirmations(t, init) && steps[|steps| - 1] == Confirm(t, last);
      ConfirmOne(sha, g, t, init, last);
      assert init + [last] == hashes;
    }
  }

  lemma ConfirmOne(sha: Bytes -> string, g: World, t: nat, init: seq<string>, last: string)
    requires t in g.puts && g.puts[t].Validating? && last in g.cas
    ensures var before := WithPut(g, t, g.puts[t].(confirmed := g.puts[t].confirmed + Members(init)));
      Do(sha, before, Confirm(t, last))
        == WithPut(g, t, g.puts[t].(confirmed := g.puts[t].confirmed + Members(init + [last])))
  {
    assert g.puts[t].confirmed + Members(init + [last]) == g.puts[t].confirmed + Members(init) + {last};
  }

  /** What the backend confirms to a validation for publication: the hashes it asks about. */
  ghost function AskedOf(sha: Bytes -> string, view: map<string, Bytes>, data: Bytes, persisted: set<string>): set<string>
    requires ActionResultOf(data).Some?
  {
    Asked(GraphOf(sha, view, ActionResultOf(data).value), persisted)
  }

  /**
   * A passing ValidateForPublication is what lets a PUT go on to save. What it found in the backend is in it, so the
   * backend confirms every hash it asked about; with these confirmations, made in any order, the step Judge is enabled.
   */
  lemma PassedVerdictIsJudged(sha: Bytes -> string, g: World, t: nat, view: map<string, Bytes>, persisted: set<string>,
                              hashes: seq<string>)
    requires t in g.puts && g.puts[t].Validating? && Vouched(sha, view, g.puts[t].data, persisted)
    requires persisted <= view.Keys && persisted <= g.cas.Keys
    requires Certified(sha, view, persisted) && Certified(sha, g.cas, persisted) && CollisionFree(sha, view, g.cas)
    requires forall h :: h in hashes <==> h in AskedOf(sha, view, g.puts[t].data, persisted)
    ensures Run(sha, g, Confirmations(t, hashes) + [Judge(t)])
         == WithPut(g, t, Validated(g.puts[t].digest, g.puts[t].data))
  {
    var data, asked := g.puts[t].data, AskedOf(sha, view, g.puts[t].data, persisted);
    AskedSuffice(sha, view, data, persisted, asked);
    VouchedOnCertified(sha, view, g.cas, data, asked);
    assert Members(hashes) == asked;
    JudgeAfterConfirmations(sha, g, t, hashes);
  }

  lemma JudgeAfterConfirmations(sha: Bytes -> string, g: World, t: nat, hashes: seq<string>)
    requires t in g.puts && g.puts[t].Validating? && forall h :: h in hashes ==> h in g.cas
    requires Vouched(sha, g.cas, g.puts[t].data, Members(hashes))
    ensures Run(sha, g, Confirmations(t, hashes) + [Judge(t)])
         == WithPut(g, t, Validated(g.puts[t].digest, g.puts[t].data))
  {
    ConfirmAll(sha, g, t, hashes);
    VouchedForMore(sha, g.cas, g.puts[t].data, Members(hashes), g.puts[t].confirmed + Members(hashes));
    var steps := Confirmations(t, hashes) + [Judge(t)];
    assert steps[..|steps| - 1] == Confirmations(t, hashes);
  }

  /** A blob that hashes to its key is in the backend after its save, and another one is refused. */
  lemma SavedBlobIsThere(sha: Bytes -> string, g: World, d: string, data: Bytes)
    ensures var h := Do(sha, g, SaveCas(d, data));
      if sha(data) == d then d in h.cas && (d !in g.cas ==> h.cas[d] == data) else h == g
  {
  }

  /**
   * Publication. A PUT whose validation passes, and whose save the backend stores, puts its action result into the
   * backend: under a new digest its own bytes, and under one that is taken the bytes already there.
   */
  lemma {:induction false} PassedPutIsPublished(sha: Bytes -> string, g: World, t: nat, d: string, data: Bytes, view: map<string, Bytes>,
                             persisted: set<string>, hashes: seq<string>)
    requires t !in g.puts && Vouched(sha, view, data, persisted)
    requires persisted <= view.Keys && persisted <= g.cas.Keys
    requires Certified(sha, view, persisted) && Certified(sha, g.cas, persisted) && CollisionFree(sha, view, g.cas)
    requires forall h :: h in hashes <==> h in AskedOf(sha, view, data, persisted)
    ensures var h := Run(sha, Do(sha, g, Begin(t, d, data)), Confirmations(t, hashes) + [Judge(t)] + [SaveAc(t, true)]);
      && t in h.puts && h.puts[t] == Answered && h.cas == g.cas
      && d in h.ac && h.ac[d] == if d in g.ac then g.ac[d] else data
  {
    var begun := Do(sha, g, Begin(t, d, data));
    PassedVerdictIsJudged(sha, begun, t, view, persisted, hashes);
    RunSnoc(sha, begun, Confirmations(t, hashes) + [Judge(t)], SaveAc(t, true));
    JudgedIsSaved(sha, WithPut(begun, t, Validated(d, data)), t);
  }

  lemma {:induction false} RunSnoc(sha: Bytes -> string, g: World, steps: seq<Step>, step: Step)
    ensures Run(sha, g, steps + [step]) == Do(sha, Run(sha, g, steps), step)
  {
    assert (steps + [step])[..|steps|] == steps;
  }

  lemma JudgedIsSaved(sha: Bytes -> string, g: World, t: nat)
    requires t in g.puts && g.puts[t].Validated?
    ensures var h := Do(sha, g, SaveAc(t, true));
      var d := g.puts[t].digest;
      && t in h.puts && h.puts[t] == Answered && h.cas == g.cas
      && d in h.ac && h.ac[d] == if d in g.ac then g.ac[d] else g.puts[t].data
  {
  }

  /** What the backend holds stays as it is. */
  lemma {:induction false} EntriesAreImmutable(sha: Bytes -> string, g: World, steps: seq<Step>)
    ensures var h := Run(sha, g, steps); Extended(g.cas, h.cas) && Extended(g.ac, h.ac)
  {
    if steps != [] { EntriesAreImmutable(sha, g, steps[..|steps| - 1]); }
  }

  // ----- every run -----

  ghost predicate PutOk(sha: Bytes -> string, cas: map<string, Bytes>, put: Put) {
    match put
    case Validating(_, _, confirmed) => confirmed <= cas.Keys
    case Validated(_, data) => Complete(sha, cas, data)
    case Answered => true
  }

  ghost predicate Inv(sha: Bytes -> string, g: World) {
    Closed(sha, g) && forall t :: t in g.puts ==> PutOk(sha, g.cas, g.puts[t])
  }

  lemma SaveCasKeepsInv(sha: Bytes -> string, g: World, d: string, data: Bytes)
    requires Inv(sha, g)
    ensures Inv(sha, g.(cas := PutIfAbsent(g.cas, d, data)))
  {
    var cas := PutIfAbsent(g.cas, d, data);
    forall a | a in g.ac ensures Complete(sha, cas, g.ac[a]) {
      VouchedStays(sha, g.cas, cas, g.ac[a], g.cas.Keys);
    }
    forall t | t in g.puts ensures PutOk(sha, cas, g.puts[t]) {
      assert PutOk(sha, g.cas, g.puts[t]);
      if g.puts[t].Validated? { VouchedStays(sha, g.cas, cas, g.puts[t].data, g.cas.Keys); }
    }
  }

  lemma WithPutKeepsInv(sha: Bytes -> string, g: World, t: nat, put: Put)
    requires Inv(sha, g) && PutOk(sha, g.cas, put)
    ensures Inv(sha, WithPut(g, t, put))
  {
  }

  lemma SaveAcKeepsInv(sha: Bytes -> string, g: World, d: string, data: Bytes)
    requires Inv(sha, g) && Complete(sha, g.cas, data)
    ensures Inv(sha, g.(ac := PutIfAbsent(g.ac, d, data)))
  {
  }

  lemma StepKeepsInv(sha: Bytes -> string, g: World, step: Step)
    requires Inv(sha, g)
    ensures Inv(sha, Do(sha, g, step))
  {
    if Do(sha, g, step) != g {
      if !step.SaveCas? && !step.Begin? { assert PutOk(sha, g.cas, g.puts[step.t]); }
      match step
      case SaveCas(d, data) => SaveCasKeepsInv(sha, g, d, data);
      case Begin(t, d, data) => WithPutKeepsInv(sha, g, t, Validating(d, data, {}));
      case Confirm(t, h) => WithPutKeepsInv(sha, g, t, g.puts[t].(confirmed := g.puts[t].confirmed + {h}));
      case Judge(t) =>
        VouchedStays(sha, g.cas, g.cas, g.puts[t].data, g.puts[t].confirmed);
        WithPutKeepsInv(sha, g, t, Validated(g.puts[t].digest, g.puts[t].data));
      case SaveAc(t, stored) =>
        SaveAcKeepsInv(sha, g, g.puts[t].digest, g.puts[t].data);
        WithPutKeepsInv(sha, if stored then g.(ac := PutIfAbsent(g.ac, g.puts[t].digest, g.puts[t].data)) else g, t, Answered);
      case GiveUp(t) => WithPutKeepsInv(sha, g, t, Answered);
    }
  }

  lemma {:induction false} RunKeepsInv(sha: Bytes -> string, start: World, steps: seq<Step>)
    requires Closed(sha, start) && start.puts == map[]
    ensures Inv(sha, Run(sha, start, steps))
  {
    if steps != [] {
      RunKeepsInv(sha, start, steps[..|steps| - 1]);
      StepKeepsInv(sha, Run(sha, start, steps[..|steps| - 1]), steps[|steps| - 1]);
    }
  }

  /**
   * Publish after closure. From a closed backend, whatever any number of servers do, everything an action-cache
   * entry reaches directly, through trees and through directories is in the backend.
   */
  lemma {:induction false} EntriesStayComplete(sha: Bytes -> string, start: World, steps: seq<Step>, d: string)
    requires Closed(sha, start) && start.puts == map[] && d in Run(sha, start, steps).ac
    ensures var g := Run(sha, start, steps);
      && ActionResultOf(g.ac[d]).Some?
      && var graph := GraphOf(sha, g.cas, ActionResultOf(g.ac[d]).value);
         Sound(graph) && forall r :: Reaches(graph, r) ==> r.hash in g.cas
  {
    RunKeepsInv(sha, start, steps);
    assert Complete(sha, Run(sha, start, steps).cas, Run(sha, start, steps).ac[d]);
  }

  /**
   * Local objects are not enough. In every run, a PUT of an action result whose only output is not in the backend is not
   * judged complete, although validation passes for a server that holds the output.
   */
  lemma {:induction false} LocalObjectsAreNotJudged(sha: Bytes -> string, start: World, steps: seq<Step>,
                                                    t: nat, r: DigestReference)
    requires Closed(sha, start) && start.puts == map[] && EncodableDigest(r) && !IsImplicitEmpty(r)
    requires var g := Run(sha, start, steps);
      r.hash !in g.cas && t in g.puts && !g.puts[t].Answered? && g.puts[t].data == EncodeAction(StreamResult(r))
    ensures var g := Run(sha, start, steps);
      && g.puts[t].Validating? && Do(sha, g, Judge(t)) == g
      && Vouched(sha, g.cas, g.puts[t].data, Presence({r.hash}, g.cas.Keys).Available(false))
  {
    RunKeepsInv(sha, start, steps);
    var g := Run(sha, start, steps);
    PutNeedsItsBlob(sha, g, t, r);
    LocalIsNotPersisted(sha, g.cas, r);
    VouchedForMore(sha, g.cas, g.puts[t].data, {r.hash}, {r.hash} + g.cas.Keys);
  }

  lemma PutNeedsItsBlob(sha: Bytes -> string, g: World, t: nat, r: DigestReference)
    requires Inv(sha, g) && EncodableDigest(r) && !IsImplicitEmpty(r) && r.hash !in g.cas
    requires t in g.puts && !g.puts[t].Answered? && g.puts[t].data == EncodeAction(StreamResult(r))
    ensures g.puts[t].Validating? && Do(sha, g, Judge(t)) == g
  {
    assert PutOk(sha, g.cas, g.puts[t]);
    StreamNeedsItsBlob(sha, g.cas, r, if g.puts[t].Validating? then g.puts[t].confirmed else g.cas.Keys);
  }

  lemma StreamNeedsItsBlob(sha: Bytes -> string, content: map<string, Bytes>, r: DigestReference, confirmed: set<string>)
    requires EncodableDigest(r) && !IsImplicitEmpty(r) && r.hash !in confirmed
    ensures !Vouched(sha, content, EncodeAction(StreamResult(r)), confirmed)
  {
    StreamResultReferences(r);
    var g := GraphOf(sha, content, ActionReferences([r], [], []));
    assert ReachesBlob(g, r);
    assert Reaches(g, r);
  }

  /**
   * Blobs stay filed under their own hash, so the bytes a server has for a confirmed hash, from its own files or
   * from the backend, are those of the graph.
   */
  lemma {:induction false} BlobsStayCertified(sha: Bytes -> string, start: World, steps: seq<Step>, h: string, mine: Bytes)
    requires forall d :: d in start.cas ==> sha(start.cas[d]) == d
    requires forall a, b :: sha(a) == sha(b) && sha(a) == h ==> a == b
    requires h in Run(sha, start, steps).cas && sha(mine) == h
    ensures Run(sha, start, steps).cas[h] == mine
    decreases |steps|
  {
    if steps != [] {
      var before := Run(sha, start, steps[..|steps| - 1]);
      if h in before.cas { BlobsStayCertified(sha, start, steps[..|steps| - 1], h, mine); }
    }
  }
}
