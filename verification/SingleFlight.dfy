/**
 * Single-flight publication as a state machine: any number of callers publish any keys; a publication in flight
 * is shared, a failed one is retried by whoever still waits. A step whose guard does not hold changes nothing.
 */
module SingleFlight {
  import opened Common

  /** What `ongoing` records once its channel is closed. */
  datatype Status = Open | Closed(ok: bool)

  datatype Publication = Publication(key: string, leader: nat, status: Status)

  datatype Phase =
    | Start
    | Waiting(p: nat)
    | Leading(p: nat)
    | Saving(p: nat)
    | Finishing(p: nat, saved: bool)
    | Done(deduplicated: bool, ok: bool)

  /** `retried` is history: the failed publications after which the caller went round the loop again. */
  datatype Caller = Caller(key: string, phase: Phase, retried: seq<nat>)

  /** `publications` and `saved` are history: every publication ever created and every key a Save returned nil for. */
  datatype World = World(
    callers: map<nat, Caller>,
    published: set<string>,
    publishing: map<string, nat>,
    publications: seq<Publication>,
    saved: set<string>)

  const EMPTY_WORLD := World(map[], {}, map[], [], {})

  datatype Step =
    | Call(t: nat, key: string)
    | Enter(t: nat)
    | Wake(t: nat)
    | Cancel(t: nat)
    | FailEarly(t: nat)
    | BeginSave(t: nat)
    | EndSave(t: nat, ok: bool)
    | Finish(t: nat)

  function Become(g: World, t: nat, phase: Phase): World
    requires t in g.callers
  {
    g.(callers := g.callers[t := g.callers[t].(phase := phase)])
  }

  // ----- the steps -----

  /** The first critical section of the loop. */
  function DoEnter(g: World, t: nat): World
    requires t in g.callers
  {
    var key := g.callers[t].key;
    if key in g.published then Become(g, t, Done(true, true))
    else if key in g.publishing then Become(g, t, Waiting(g.publishing[key]))
    else
      var p := |g.publications|;
      Become(g.(publishing := g.publishing[key := p],
                publications := g.publications + [Publication(key, t, Open)]), t, Leading(p))
  }

  /** The channel of the awaited publication is closed. */
  function DoWake(g: World, t: nat, p: nat): World
    requires t in g.callers
  {
    if p >= |g.publications| || g.publications[p].status.Open? then g
    else if g.publications[p].status.ok then Become(g, t, Done(true, true))
    else
      var c := g.callers[t];
      g.(callers := g.callers[t := c.(phase := Start, retried := c.retried + [p])])
  }

  /** Backend.Save returned. */
  function DoEndSave(g: World, t: nat, p: nat, ok: bool): World
    requires t in g.callers
  {
    Become(if ok then g.(saved := g.saved + {g.callers[t].key}) else g, t, Finishing(p, ok))
  }

  /** The second critical section, after publish returned. */
  function DoFinish(g: World, t: nat, p: nat, ok: bool): World
    requires t in g.callers
  {
    if p >= |g.publications| then g
    else
      var key := g.callers[t].key;
      Become(g.(published := if ok then g.published + {key} else g.published,
                publishing := g.publishing - {key},
                publications := g.publications[p := g.publications[p].(status := Closed(ok))]), t, Done(false, ok))
  }

  function Do(g: World, step: Step): World {
    if step.Call? then
      if step.t in g.callers then g else g.(callers := g.callers[step.t := Caller(step.key, Start, [])])
    else if step.t !in g.callers then g
    else
      var t, c := step.t, g.callers[step.t];
      match (step, c.phase)
      case (Enter(_), Start) => DoEnter(g, t)
      case (Wake(_), Waiting(p)) => DoWake(g, t, p)
      case (Cancel(_), Waiting(_)) => Become(g, t, Done(false, false))
      case (FailEarly(_), Leading(p)) => Become(g, t, Finishing(p, false))
      case (BeginSave(_), Leading(p)) => Become(g, t, Saving(p))
      case (EndSave(_, ok), Saving(p)) => DoEndSave(g, t, p, ok)
      case (Finish(_), Finishing(p, ok)) => DoFinish(g, t, p, ok)
      case _ => g
  }

  function Run(steps: seq<Step>): World {
    if steps == [] then EMPTY_WORLD else Do(Run(steps[..|steps| - 1]), steps[|steps| - 1])
  }

  // ----- the invariant -----

  predicate Leads(phase: Phase) { phase.Leading? || phase.Saving? || phase.Finishing? }

  /** The registered publications are exactly the open ones, at most one for a key and none for a published key. */
  ghost predicate RegistryOk(g: World) {
    && (forall k :: k in g.publishing ==>
         g.publishing[k] < |g.publications| && g.publications[g.publishing[k]].key == k
         && g.publications[g.publishing[k]].status.Open? && k !in g.published)
    && (forall p :: 0 <= p < |g.publications| && g.publications[p].status.Open? ==>
         g.publications[p].key in g.publishing && g.publishing[g.publications[p].key] == p)
  }

  ghost predicate DistinctLeaders(us: seq<Publication>) {
    forall p, q :: 0 <= p < q < |us| ==> us[p].leader != us[q].leader
  }

  /** A publication is followed by another of its key only after it has failed. */
  ghost predicate OneAfterAnother(us: seq<Publication>) {
    forall p, q :: 0 <= p < q < |us| && us[p].key == us[q].key ==> us[p].status == Closed(false)
  }

  /** A publication belongs to its leader: in flight while it is open, returned once it is closed. */
  ghost predicate LeaderOk(g: World, p: nat)
    requires p < |g.publications|
  {
    var u := g.publications[p];
    && u.leader in g.callers && g.callers[u.leader].key == u.key
    && match u.status
       case Open => Leads(g.callers[u.leader].phase) && g.callers[u.leader].phase.p == p
       case Closed(ok) => g.callers[u.leader].phase == Done(false, ok) && (ok ==> u.key in g.published)
  }

  ghost predicate LeadersOk(g: World) {
    forall p :: 0 <= p < |g.publications| ==> LeaderOk(g, p)
  }

  ghost predicate PublishedBy(us: seq<Publication>, t: nat, key: string) {
    exists p :: 0 <= p < |us| && us[p] == Publication(key, t, Closed(true))
  }

  ghost predicate PhaseOk(g: World, t: nat, c: Caller) {
    match c.phase
    case Start => true
    case Waiting(p) =>
      p < |g.publications| && g.publications[p].key == c.key && g.publications[p].leader != t && p !in c.retried
    case Done(deduplicated, ok) =>
      (deduplicated ==> ok) && (ok ==> c.key in g.published) && (ok && !deduplicated ==> PublishedBy(g.publications, t, c.key))
    case _ =>
      c.phase.p < |g.publications| && g.publications[c.phase.p] == Publication(c.key, t, Open)
      && (c.phase.Finishing? && c.phase.saved ==> c.key in g.saved)
  }

  ghost predicate RetriesOk(us: seq<Publication>, t: nat, c: Caller) {
    && NoRepeats(c.retried)
    && forall p :: p in c.retried ==>
         p < |us| && us[p].key == c.key && us[p].leader != t && us[p].status == Closed(false)
  }

  ghost predicate CallersOk(g: World) {
    forall t :: t in g.callers ==> PhaseOk(g, t, g.callers[t]) && RetriesOk(g.publications, t, g.callers[t])
  }

  /** The save that has returned nil is about to be recorded. */
  ghost predicate JustSaved(g: World, k: string) {
    exists t :: t in g.callers && g.callers[t].key == k && g.callers[t].phase.Finishing? && g.callers[t].phase.saved
  }

  ghost predicate SavesOk(g: World) {
    && (forall k :: k in g.saved ==> k in g.published || JustSaved(g, k))
    && (forall k :: k in g.published ==> k in g.saved && exists t :: PublishedBy(g.publications, t, k))
  }

  ghost predicate Inv(g: World) {
    && RegistryOk(g) && DistinctLeaders(g.publications) && OneAfterAnother(g.publications)
    && LeadersOk(g) && CallersOk(g) && SavesOk(g)
  }

  // ----- a step of one caller leaves the others as they were -----

  /** History only grows, and only caller `t` and the publications it leads change. */
  ghost predicate StepOf(g: World, h: World, t: nat) {
    && g.published <= h.published && g.saved <= h.saved
    && t in h.callers && h.callers.Keys == g.callers.Keys + {t}
    && (forall u :: u in g.callers && u != t ==> h.callers[u] == g.callers[u])
    && |g.publications| <= |h.publications|
    && (forall p :: 0 <= p < |g.publications| && g.publications[p].leader != t ==> h.publications[p] == g.publications[p])
    && (forall p :: 0 <= p < |g.publications| && g.publications[p].status.Closed? ==> h.publications[p] == g.publications[p])
    && (forall p :: 0 <= p < |g.publications| ==>
         h.publications[p].key == g.publications[p].key && h.publications[p].leader == g.publications[p].leader)
  }

  lemma PublishedByKept(us: seq<Publication>, vs: seq<Publication>, t: nat, k: string)
    requires PublishedBy(us, t, k) && |us| <= |vs|
    requires forall p :: 0 <= p < |us| && us[p].status.Closed? ==> vs[p] == us[p]
    ensures PublishedBy(vs, t, k)
  {
    var p :| 0 <= p < |us| && us[p] == Publication(k, t, Closed(true));
    assert vs[p] == us[p];
  }

  lemma OtherCallerKept(g: World, h: World, t: nat, u: nat)
    requires StepOf(g, h, t) && u in g.callers && u != t
    requires PhaseOk(g, u, g.callers[u]) && RetriesOk(g.publications, u, g.callers[u])
    ensures PhaseOk(h, u, h.callers[u]) && RetriesOk(h.publications, u, h.callers[u])
  {
    var c := g.callers[u];
    if c.phase == Done(false, true) { PublishedByKept(g.publications, h.publications, u, c.key); }
  }

  lemma OthersKept(g: World, h: World, t: nat)
    requires StepOf(g, h, t) && CallersOk(g)
    requires PhaseOk(h, t, h.callers[t]) && RetriesOk(h.publications, t, h.callers[t])
    ensures CallersOk(h)
  {
    forall u | u in h.callers ensures PhaseOk(h, u, h.callers[u]) && RetriesOk(h.publications, u, h.callers[u]) {
      if u != t { OtherCallerKept(g, h, t, u); }
    }
  }

  lemma LeadersKept(g: World, h: World, t: nat)
    requires StepOf(g, h, t) && LeadersOk(g)
    requires forall p :: 0 <= p < |h.publications| && (p >= |g.publications| || g.publications[p].leader == t) ==> LeaderOk(h, p)
    ensures LeadersOk(h)
  {
    forall p | 0 <= p < |h.publications| ensures LeaderOk(h, p) {
      if p < |g.publications| && g.publications[p].leader != t { assert LeaderOk(g, p); }
    }
  }

  /** The saves stay accounted for as long as `t` was not the one about to record its own. */
  lemma SavesKept(g: World, h: World, t: nat)
    requires StepOf(g, h, t) && SavesOk(g) && h.published == g.published && h.saved == g.saved
    requires t in g.callers ==> !g.callers[t].phase.Finishing?
    ensures SavesOk(h)
  {
    forall k | k in h.saved ensures k in h.published || JustSaved(h, k) {
      if k !in g.published {
        assert JustSaved(g, k);
        var u :| u in g.callers && g.callers[u].key == k && g.callers[u].phase.Finishing? && g.callers[u].phase.saved;
        assert h.callers[u] == g.callers[u];
      }
    }
    forall k | k in h.published ensures exists u :: PublishedBy(h.publications, u, k) {
      var u :| PublishedBy(g.publications, u, k);
      PublishedByKept(g.publications, h.publications, u, k);
    }
  }

  /** A caller that has not entered the critical section, or waits there, leads nothing. */
  lemma NotYetLeader(g: World, t: nat)
    requires LeadersOk(g) && (t !in g.callers || g.callers[t].phase.Start? || g.callers[t].phase.Waiting?)
    ensures forall p :: 0 <= p < |g.publications| ==> g.publications[p].leader != t
  {
    forall p | 0 <= p < |g.publications| ensures g.publications[p].leader != t { assert LeaderOk(g, p); }
  }

  /** A caller in flight leads exactly its own publication. */
  lemma LeadsOnlyIts(g: World, t: nat)
    requires LeadersOk(g) && CallersOk(g) && RegistryOk(g) && t in g.callers && Leads(g.callers[t].phase)
    ensures var p := g.callers[t].phase.p;
      && p < |g.publications| && g.publications[p] == Publication(g.callers[t].key, t, Open)
      && g.callers[t].key in g.publishing && g.publishing[g.callers[t].key] == p
      && forall q :: 0 <= q < |g.publications| && g.publications[q].leader == t ==> q == p
  {
    assert PhaseOk(g, t, g.callers[t]);
    forall q | 0 <= q < |g.publications| && g.publications[q].leader == t ensures q == g.callers[t].phase.p {
      assert LeaderOk(g, q);
    }
  }

  // ----- every step keeps the invariant -----

  /** The step changes the phase of `t` and at most its list of retries. */
  lemma LocalKeepsInv(g: World, t: nat, c: Caller)
    requires Inv(g) && t in g.callers && c.key == g.callers[t].key
    requires PhaseOk(g, t, c) && RetriesOk(g.publications, t, c)
    requires (g.callers[t].phase.Leading? && Leads(c.phase) && c.phase.p == g.callers[t].phase.p)
      || (g.callers[t].phase.Waiting? && !Leads(c.phase))
    ensures Inv(g.(callers := g.callers[t := c]))
  {
    var h := g.(callers := g.callers[t := c]);
    assert StepOf(g, h, t);
    OthersKept(g, h, t);
    SavesKept(g, h, t);
    if g.callers[t].phase.Waiting? { NotYetLeader(g, t); } else { LeadsOnlyIts(g, t); }
    LeadersKept(g, h, t);
  }

  lemma CallKeepsInv(g: World, t: nat, key: string)
    requires Inv(g) && t !in g.callers
    ensures Inv(g.(callers := g.callers[t := Caller(key, Start, [])]))
  {
    var h := g.(callers := g.callers[t := Caller(key, Start, [])]);
    assert StepOf(g, h, t);
    OthersKept(g, h, t);
    SavesKept(g, h, t);
    NotYetLeader(g, t);
    LeadersKept(g, h, t);
  }

  lemma LeadKeepsInv(g: World, t: nat)
    requires Inv(g) && t in g.callers && g.callers[t].phase == Start
    requires g.callers[t].key !in g.published && g.callers[t].key !in g.publishing
    ensures Inv(DoEnter(g, t))
  {
    var h := DoEnter(g, t);
    NotYetLeader(g, t);
    assert StepOf(g, h, t);
    assert RetriesOk(g.publications, t, g.callers[t]);
    OthersKept(g, h, t);
    SavesKept(g, h, t);
    LeadersKept(g, h, t);
    LeadKeepsRegistry(g, t);
  }

  lemma LeadKeepsRegistry(g: World, t: nat)
    requires RegistryOk(g) && DistinctLeaders(g.publications) && OneAfterAnother(g.publications) && LeadersOk(g)
    requires t in g.callers && g.callers[t].phase == Start
    requires g.callers[t].key !in g.published && g.callers[t].key !in g.publishing
    ensures var h := DoEnter(g, t); RegistryOk(h) && DistinctLeaders(h.publications) && OneAfterAnother(h.publications)
  {
    NotYetLeader(g, t);
    OnlyFailuresYet(g, g.callers[t].key);
  }

  lemma OnlyFailuresYet(g: World, k: string)
    requires LeadersOk(g) && RegistryOk(g) && k !in g.published && k !in g.publishing
    ensures forall p :: 0 <= p < |g.publications| && g.publications[p].key == k ==> g.publications[p].status == Closed(false)
  {
    forall p | 0 <= p < |g.publications| && g.publications[p].key == k ensures g.publications[p].status == Closed(false) {
      assert LeaderOk(g, p);
    }
  }

  lemma JoinKeepsInv(g: World, t: nat)
    requires Inv(g) && t in g.callers && g.callers[t].phase == Start
    requires g.callers[t].key in g.published || g.callers[t].key in g.publishing
    ensures Inv(DoEnter(g, t))
  {
    var h := DoEnter(g, t);
    NotYetLeader(g, t);
    assert StepOf(g, h, t);
    assert RetriesOk(g.publications, t, g.callers[t]);
    OthersKept(g, h, t);
    SavesKept(g, h, t);
    LeadersKept(g, h, t);
  }

  lemma WakeKeepsInv(g: World, t: nat, p: nat)
    requires Inv(g) && t in g.callers && g.callers[t].phase == Waiting(p)
    ensures Inv(DoWake(g, t, p))
  {
    var c := g.callers[t];
    assert PhaseOk(g, t, c) && RetriesOk(g.publications, t, c);
    assert LeaderOk(g, p);
    if g.publications[p].status == Closed(true) {
      LocalKeepsInv(g, t, c.(phase := Done(true, true)));
    } else if g.publications[p].status == Closed(false) {
      LocalKeepsInv(g, t, c.(phase := Start, retried := c.retried + [p]));
    }
  }

  lemma EndSaveKeepsInv(g: World, t: nat, p: nat, ok: bool)
    requires Inv(g) && t in g.callers && g.callers[t].phase == Saving(p)
    ensures Inv(DoEndSave(g, t, p, ok))
  {
    var key := g.callers[t].key;
    var h := DoEndSave(g, t, p, ok);
    assert StepOf(g, h, t);
    LeadsOnlyIts(g, t);
    assert RetriesOk(g.publications, t, g.callers[t]);
    OthersKept(g, h, t);
    LeadersKept(g, h, t);
    EndSaveRecorded(g, h, t, key, ok);
  }

  lemma EndSaveRecorded(g: World, h: World, t: nat, key: string, ok: bool)
    requires SavesOk(g) && StepOf(g, h, t) && t in g.callers && g.callers[t].phase.Saving? && h.publications == g.publications
    requires h.published == g.published && h.saved == if ok then g.saved + {key} else g.saved
    requires h.callers[t].key == key && h.callers[t].phase.Finishing? && h.callers[t].phase.saved == ok
    ensures SavesOk(h)
  {
    forall k | k in h.saved ensures k in h.published || JustSaved(h, k) {
      if k in g.saved && k !in g.published {
        assert JustSaved(g, k);
        var u :| u in g.callers && g.callers[u].key == k && g.callers[u].phase.Finishing? && g.callers[u].phase.saved;
        assert h.callers[u] == g.callers[u];
      }
    }
  }

  lemma FinishKeepsInv(g: World, t: nat, p: nat, ok: bool)
    requires Inv(g) && t in g.callers && g.callers[t].phase == Finishing(p, ok)
    ensures Inv(DoFinish(g, t, p, ok))
  {
    var h := DoFinish(g, t, p, ok);
    LeadsOnlyIts(g, t);
    assert h.publications[p] == Publication(g.callers[t].key, t, Closed(ok));
    assert StepOf(g, h, t);
    assert RetriesOk(g.publications, t, g.callers[t]);
    OthersKept(g, h, t);
    LeadersKept(g, h, t);
    FinishRecorded(g, t, p, ok);
    FinishKeepsRegistry(g, t, p, ok);
  }

  lemma FinishKeepsRegistry(g: World, t: nat, p: nat, ok: bool)
    requires RegistryOk(g) && OneAfterAnother(g.publications) && LeadersOk(g) && t in g.callers
    requires p < |g.publications| && g.publications[p] == Publication(g.callers[t].key, t, Open)
    ensures RegistryOk(DoFinish(g, t, p, ok)) && OneAfterAnother(DoFinish(g, t, p, ok).publications)
  {
  }

  lemma FinishRecorded(g: World, t: nat, p: nat, ok: bool)
    requires SavesOk(g) && CallersOk(g) && LeadersOk(g) && RegistryOk(g)
    requires t in g.callers && g.callers[t].phase == Finishing(p, ok)
    ensures SavesOk(DoFinish(g, t, p, ok))
  {
    var key := g.callers[t].key;
    var h := DoFinish(g, t, p, ok);
    LeadsOnlyIts(g, t);
    assert PhaseOk(g, t, g.callers[t]);
    forall k | k in h.saved ensures k in h.published || JustSaved(h, k) {
      if k !in h.published {
        assert JustSaved(g, k);
        var u :| u in g.callers && g.callers[u].key == k && g.callers[u].phase.Finishing? && g.callers[u].phase.saved;
        assert h.callers[u] == g.callers[u];
      }
    }
    forall k | k in h.published ensures k in h.saved && exists u :: PublishedBy(h.publications, u, k) {
      if k in g.published {
        var u :| PublishedBy(g.publications, u, k);
        PublishedByKept(g.publications, h.publications, u, k);
      } else {
        assert h.publications[p] == Publication(k, t, Closed(true));
        assert PublishedBy(h.publications, t, k);
      }
    }
  }

  lemma StepKeepsInv(g: World, step: Step)
    requires Inv(g)
    ensures Inv(Do(g, step))
  {
    if step.Call? {
      if step.t !in g.callers { CallKeepsInv(g, step.t, step.key); }
    } else if step.t in g.callers {
      var t, c := step.t, g.callers[step.t];
      assert PhaseOk(g, t, c) && RetriesOk(g.publications, t, c);
      match (step, c.phase)
      case (Enter(_), Start) =>
        if c.key in g.published || c.key in g.publishing { JoinKeepsInv(g, t); } else { LeadKeepsInv(g, t); }
      case (Wake(_), Waiting(p)) => WakeKeepsInv(g, t, p);
      case (Cancel(_), Waiting(_)) => LocalKeepsInv(g, t, c.(phase := Done(false, false)));
      case (FailEarly(_), Leading(p)) => LocalKeepsInv(g, t, c.(phase := Finishing(p, false)));
      case (BeginSave(_), Leading(p)) => LocalKeepsInv(g, t, c.(phase := Saving(p)));
      case (EndSave(_, ok), Saving(p)) => EndSaveKeepsInv(g, t, p, ok);
      case (Finish(_), Finishing(p, ok)) => FinishKeepsInv(g, t, p, ok);
      case _ =>
    }
  }

  lemma {:induction false} RunKeepsInv(steps: seq<Step>)
    ensures Inv(Run(steps))
  {
    if steps != [] {
      RunKeepsInv(steps[..|steps| - 1]);
      StepKeepsInv(Run(steps[..|steps| - 1]), steps[|steps| - 1]);
    }
  }

  // ----- what every run guarantees -----

  /** A key has at most one save in flight, and none once a save of it has succeeded. */
  lemma {:induction false} OneSaveInFlight(steps: seq<Step>, t: nat, u: nat)
    requires var g := Run(steps);
      t in g.callers && u in g.callers && g.callers[t].phase.Saving? && g.callers[u].phase.Saving?
      && g.callers[t].key == g.callers[u].key
    ensures t == u && Run(steps).callers[t].key !in Run(steps).saved
  {
    RunKeepsInv(steps);
    var g := Run(steps);
    LeadsOnlyIts(g, t);
    LeadsOnlyIts(g, u);
    var k := g.callers[t].key;
    if k in g.saved {
      assert JustSaved(g, k);
      var v :| v in g.callers && g.callers[v].key == k && g.callers[v].phase.Finishing? && g.callers[v].phase.saved;
      LeadsOnlyIts(g, v);
    }
  }

  /** No caller that begins a save finds its key saved already. */
  lemma {:induction false} NoSaveAfterSuccess(steps: seq<Step>, t: nat)
    requires var g := Run(steps); t in g.callers && Do(g, BeginSave(t)) != g
    ensures Run(steps).callers[t].key !in Run(steps).saved
  {
    RunKeepsInv(steps);
    var g := Run(steps);
    assert Do(g, BeginSave(t)) == Run(steps + [BeginSave(t)]) by { assert (steps + [BeginSave(t)])[..|steps|] == steps; }
    OneSaveInFlight(steps + [BeginSave(t)], t, t);
  }

  /** A caller that gets a nil error returns after its key was saved. */
  lemma {:induction false} NilMeansSaved(steps: seq<Step>, t: nat)
    requires var g := Run(steps); t in g.callers && g.callers[t].phase.Done? && g.callers[t].phase.ok
    ensures Run(steps).callers[t].key in Run(steps).saved
  {
    RunKeepsInv(steps);
    assert PhaseOk(Run(steps), t, Run(steps).callers[t]);
  }

  ghost predicate Uploaded(g: World, t: nat, k: string) {
    t in g.callers && g.callers[t].key == k && g.callers[t].phase == Done(false, true)
  }

  /** Exactly one caller of a published key is told that it was not deduplicated. */
  lemma {:induction false} OneUploaderPerKey(steps: seq<Step>, k: string)
    ensures var g := Run(steps);
      && (k in g.published <==> exists t :: Uploaded(g, t, k))
      && forall t, u :: Uploaded(g, t, k) && Uploaded(g, u, k) ==> t == u
  {
    RunKeepsInv(steps);
    var g := Run(steps);
    if k in g.published {
      var t :| PublishedBy(g.publications, t, k);
      var p :| 0 <= p < |g.publications| && g.publications[p] == Publication(k, t, Closed(true));
      assert LeaderOk(g, p);
      assert Uploaded(g, t, k);
    }
    forall t | Uploaded(g, t, k) ensures k in g.published && PublishedBy(g.publications, t, k) {
      assert PhaseOk(g, t, g.callers[t]);
    }
    forall t, u | Uploaded(g, t, k) && Uploaded(g, u, k) ensures t == u {
      SamePublisher(g.publications, t, u, k);
    }
  }

  lemma SamePublisher(us: seq<Publication>, t: nat, u: nat, k: string)
    requires OneAfterAnother(us) && PublishedBy(us, t, k) && PublishedBy(us, u, k)
    ensures t == u
  {
    var p :| 0 <= p < |us| && us[p] == Publication(k, t, Closed(true));
    var q :| 0 <= q < |us| && us[q] == Publication(k, u, Closed(true));
    assert p == q;
  }

  /** No caller leads two publications. */
  lemma {:induction false} LeadsAtMostOnce(steps: seq<Step>, p: nat, q: nat)
    requires p < q < |Run(steps).publications|
    ensures Run(steps).publications[p].leader != Run(steps).publications[q].leader
  {
    RunKeepsInv(steps);
  }

  /** The other callers of the same key that led a publication and failed; callers that gave up waiting are not among them. */
  ghost function FailedOthers(g: World, t: nat): set<nat>
    requires t in g.callers
  {
    set p | 0 <= p < |g.publications| && FailedLead(g, t, p) :: g.publications[p].leader
  }

  ghost predicate FailedLead(g: World, t: nat, p: nat)
    requires t in g.callers && p < |g.publications|
  {
    var u := g.publications[p];
    u.key == g.callers[t].key && u.status == Closed(false) && u.leader != t
  }

  lemma FailedOthersReturned(g: World, t: nat)
    requires t in g.callers && LeadersOk(g)
    ensures forall u :: u in FailedOthers(g, t) ==>
      u in g.callers && g.callers[u].key == g.callers[t].key && g.callers[u].phase == Done(false, false)
  {
    forall u | u in FailedOthers(g, t)
      ensures u in g.callers && g.callers[u].key == g.callers[t].key && g.callers[u].phase == Done(false, false)
    {
      var p :| 0 <= p < |g.publications| && FailedLead(g, t, p) && g.publications[p].leader == u;
      assert LeaderOk(g, p);
    }
  }

  /** A caller goes round the loop again at most once for every other caller of its key that led and failed. */
  lemma {:induction false} RetriesBoundedByFailures(steps: seq<Step>, t: nat)
    requires t in Run(steps).callers
    ensures var g := Run(steps);
      && |g.callers[t].retried| <= |FailedOthers(g, t)|
      && forall u :: u in FailedOthers(g, t) ==>
           u in g.callers && g.callers[u].key == g.callers[t].key && g.callers[u].phase == Done(false, false)
  {
    RunKeepsInv(steps);
    var g := Run(steps);
    FailedOthersReturned(g, t);
    var c := g.callers[t];
    assert RetriesOk(g.publications, t, c);
    forall p | p in c.retried ensures g.publications[p].leader in FailedOthers(g, t) {
      assert LeaderOk(g, p) && FailedLead(g, t, p);
    }
    CountLeaders(g.publications, c.retried, FailedOthers(g, t));
  }

  lemma {:induction false} CountLeaders(us: seq<Publication>, ps: seq<nat>, leaders: set<nat>)
    requires NoRepeats(ps) && DistinctLeaders(us)
    requires forall p :: p in ps ==> p < |us| && us[p].leader in leaders
    ensures |ps| <= |leaders|
  {
    if ps != [] {
      var init, last := ps[..|ps| - 1], ps[|ps| - 1];
      assert ps == init + [last] && last in ps;
      var rest := leaders - {us[last].leader};
      assert forall p :: p in init ==> p in ps;
      forall p | p in init ensures us[p].leader in rest {
        var i :| 0 <= i < |init| && init[i] == p;
        assert p != last;
      }
      CountLeaders(us, init, rest);
    }
  }

  // ----- what a save comes to -----

  /** The keys that were saved, read off the steps: those of callers that were saving when their save returned nil. */
  ghost function SavedBySteps(steps: seq<Step>): set<string> {
    if steps == [] then {}
    else
      var before, last := steps[..|steps| - 1], steps[|steps| - 1];
      SavedBySteps(before) + if last.EndSave? && last.ok then KeySaving(Run(before), last.t) else {}
  }

  ghost function KeySaving(g: World, t: nat): set<string> {
    if t in g.callers && g.callers[t].phase.Saving? then {g.callers[t].key} else {}
  }

  lemma {:induction false} SavedIsHistory(steps: seq<Step>)
    ensures Run(steps).saved == SavedBySteps(steps)
  {
    if steps != [] { SavedIsHistory(steps[..|steps| - 1]); }
  }

  ghost predicate TakesNoStep(t: nat, more: seq<Step>) { forall s :: s in more ==> s.t != t }

  lemma RunSnoc(steps: seq<Step>, step: Step)
    ensures Run(steps + [step]) == Do(Run(steps), step)
  {
    assert (steps + [step])[..|steps|] == steps;
  }

  lemma OtherStep(g: World, step: Step, t: nat)
    requires t in g.callers && step.t != t
    ensures t in Do(g, step).callers && Do(g, step).callers[t] == g.callers[t]
  {
  }

  lemma {:induction false} OthersLeaveCaller(steps: seq<Step>, more: seq<Step>, t: nat)
    requires t in Run(steps).callers && TakesNoStep(t, more)
    ensures t in Run(steps + more).callers && Run(steps + more).callers[t] == Run(steps).callers[t]
  {
    if more == [] {
      assert steps + more == steps;
    } else {
      var init, last := more[..|more| - 1], more[|more| - 1];
      assert more == init + [last] && last in more;
      OthersLeaveCaller(steps, init, t);
      assert steps + more == (steps + init) + [last];
      RunSnoc(steps + init, last);
      OtherStep(Run(steps + init), last, t);
    }
  }

  /** A publication has ended with this outcome, and everyone is told: its leader, its waiters, and whoever comes later. */
  ghost predicate Ended(h: World, t: nat, key: string, p: nat, ok: bool) {
    && t in h.callers && h.callers[t].key == key && h.callers[t].phase == Done(false, ok)
    && (key in h.published <==> ok) && key !in h.publishing
    && forall u :: u in h.callers && h.callers[u].phase == Waiting(p) ==> Do(h, Wake(u)).callers[u].phase == AfterWaiting(ok)
  }

  function AfterWaiting(ok: bool): Phase { if ok then Done(true, true) else Start }

  lemma FinishEnds(g: World, t: nat)
    requires Inv(g) && t in g.callers && g.callers[t].phase.Finishing?
    ensures Ended(Do(g, Finish(t)), t, g.callers[t].key, g.callers[t].phase.p, g.callers[t].phase.saved)
  {
    var p, ok := g.callers[t].phase.p, g.callers[t].phase.saved;
    var h := Do(g, Finish(t));
    LeadsOnlyIts(g, t);
    assert h == DoFinish(g, t, p, ok);
    assert h.publications[p].status == Closed(ok);
  }

  lemma EndSaveFinishes(g: World, t: nat, ok: bool)
    requires t in g.callers && g.callers[t].phase.Saving?
    ensures var h := Do(g, EndSave(t, ok));
      t in h.callers && h.callers[t] == g.callers[t].(phase := Finishing(g.callers[t].phase.p, ok))
  {
  }

  lemma FailEarlyFinishes(g: World, t: nat)
    requires t in g.callers && g.callers[t].phase.Leading?
    ensures var h := Do(g, FailEarly(t));
      t in h.callers && h.callers[t] == g.callers[t].(phase := Finishing(g.callers[t].phase.p, false))
  {
  }

  /**
   * The outcome of a save is reported. Whatever other callers do between the return of a save and the critical section
   * after it, the saving caller returns nil exactly if the save did, its key is then published, and waiters are told the
   * same; after a failure the key is free for the next caller.
   */
  lemma {:induction false} SaveIsReported(steps: seq<Step>, more: seq<Step>, t: nat, ok: bool)
    requires t in Run(steps).callers && Run(steps).callers[t].phase.Saving? && TakesNoStep(t, more)
    ensures var c := Run(steps).callers[t];
      && Ended(Run(steps + [EndSave(t, ok)] + more + [Finish(t)]), t, c.key, c.phase.p, ok)
      && (ok ==> c.key in SavedBySteps(steps + [EndSave(t, ok)]))
  {
    var saved := steps + [EndSave(t, ok)];
    RunSnoc(steps, EndSave(t, ok));
    EndSaveFinishes(Run(steps), t, ok);
    EndedAfter(saved, more, t);
    assert saved[..|steps|] == steps;
  }

  lemma EndedAfter(steps: seq<Step>, more: seq<Step>, t: nat)
    requires t in Run(steps).callers && Run(steps).callers[t].phase.Finishing? && TakesNoStep(t, more)
    ensures var c := Run(steps).callers[t];
      Ended(Run(steps + more + [Finish(t)]), t, c.key, c.phase.p, c.phase.saved)
  {
    OthersLeaveCaller(steps, more, t);
    RunKeepsInv(steps + more);
    RunSnoc(steps + more, Finish(t));
    FinishEnds(Run(steps + more), t);
  }

  /** A publication that fails before its save is reported as a failure, in the same way. */
  lemma {:induction false} EarlyFailureIsReported(steps: seq<Step>, more: seq<Step>, t: nat)
    requires t in Run(steps).callers && Run(steps).callers[t].phase.Leading? && TakesNoStep(t, more)
    ensures var c := Run(steps).callers[t];
      Ended(Run(steps + [FailEarly(t)] + more + [Finish(t)]), t, c.key, c.phase.p, false)
  {
    RunSnoc(steps, FailEarly(t));
    FailEarlyFinishes(Run(steps), t);
    EndedAfter(steps + [FailEarly(t)], more, t);
  }

  /**
   * What a caller meets: a key that is published is deduplicated at once; otherwise it waits for the caller that leads its
   * key, and if there is none it leads itself.
   */
  lemma {:induction false} CallerMeets(steps: seq<Step>, t: nat, u: nat)
    requires t in Run(steps).callers && Run(steps).callers[t].phase == Start
    ensures var g := Run(steps);
      var phase := Do(g, Enter(t)).callers[t].phase;
      && (g.callers[t].key in g.published ==> phase == Done(true, true))
      && (u in g.callers && g.callers[u].key == g.callers[t].key && Leads(g.callers[u].phase) ==>
           phase == Waiting(g.callers[u].phase.p))
      && (phase.Leading? || phase == Done(true, true)
          || exists v :: v in g.callers && g.callers[v].key == g.callers[t].key && Leads(g.callers[v].phase))
  {
    RunKeepsInv(steps);
    var g := Run(steps);
    var key := g.callers[t].key;
    if u in g.callers && Leads(g.callers[u].phase) { LeadsOnlyIts(g, u); }
    if key in g.publishing { assert LeaderOk(g, g.publishing[key]); }
  }

  lemma FreshCallerSaves(g: World, t: nat, key: string)
    requires t !in g.callers && key !in g.published && key !in g.publishing
    ensures var h := Do(Do(Do(g, Call(t, key)), Enter(t)), BeginSave(t));
      t in h.callers && h.callers[t].key == key && h.callers[t].phase.Saving?
  {
    var called := Do(g, Call(t, key));
    assert called.callers[t] == Caller(key, Start, []);
    var entered := Do(called, Enter(t));
    assert entered == DoEnter(called, t) && entered.callers[t].phase.Leading?;
  }

  ghost function FreshSteps(t: nat, key: string): seq<Step> { [Call(t, key)] + [Enter(t)] + [BeginSave(t)] }

  lemma FreshStepsSave(steps: seq<Step>, t: nat, key: string)
    requires t !in Run(steps).callers && key !in Run(steps).published && key !in Run(steps).publishing
    ensures var g := Run(steps + FreshSteps(t, key)); t in g.callers && g.callers[t].key == key && g.callers[t].phase.Saving?
  {
    RunSnoc(steps, Call(t, key));
    RunSnoc(steps + [Call(t, key)], Enter(t));
    RunSnoc(steps + [Call(t, key)] + [Enter(t)], BeginSave(t));
    FreshCallerSaves(Run(steps), t, key);
    assert steps + FreshSteps(t, key) == steps + [Call(t, key)] + [Enter(t)] + [BeginSave(t)];
  }

  /** A key that nobody has published is published by a caller whose save succeeds. */
  lemma {:induction false} FreshCallerPublishes(steps: seq<Step>, t: nat, key: string)
    requires t !in Run(steps).callers && key !in Run(steps).published && key !in Run(steps).publishing
    ensures var g := Run(steps + FreshSteps(t, key) + [EndSave(t, true)] + [Finish(t)]);
      t in g.callers && g.callers[t].key == key && g.callers[t].phase == Done(false, true) && key in g.published
  {
    var saving := steps + FreshSteps(t, key);
    FreshStepsSave(steps, t, key);
    SaveIsReported(saving, [], t, true);
    assert saving + [EndSave(t, true)] + [] + [Finish(t)] == saving + [EndSave(t, true)] + [Finish(t)];
  }

  /** The step a caller can take next without anyone's help, if it is not waiting. */
  function OwnStep(g: World, t: nat): Step
    requires t in g.callers
  {
    match g.callers[t].phase
    case Start => Enter(t)
    case Leading(_) => BeginSave(t)
    case Saving(_) => EndSave(t, true)
    case Finishing(_, _) => Finish(t)
    case _ => Wake(t)
  }

  /** The caller whose step brings `t` forward: itself, or the leader of the publication it waits for. */
  function Runner(g: World, t: nat): nat
    requires t in g.callers
  {
    match g.callers[t].phase
    case Waiting(p) =>
      if p < |g.publications| && g.publications[p].status.Open? then g.publications[p].leader else t
    case _ => t
  }

  /** Nobody waits in vain: a caller that has not returned can move, or waits for a leader that can. */
  lemma {:induction false} NoOneIsStuck(steps: seq<Step>, t: nat)
    requires t in Run(steps).callers && !Run(steps).callers[t].phase.Done?
    ensures var g := Run(steps);
      var u := Runner(g, t);
      u in g.callers && g.callers[u].key == g.callers[t].key && Do(g, OwnStep(g, u)) != g
      && (u != t ==> Leads(g.callers[u].phase))
  {
    RunKeepsInv(steps);
    var g := Run(steps);
    assert PhaseOk(g, t, g.callers[t]) && RetriesOk(g.publications, t, g.callers[t]);
    var u := Runner(g, t);
    if u != t { assert LeaderOk(g, g.callers[t].phase.p); }
    Moves(g, u);
  }

  lemma Moves(g: World, u: nat)
    requires u in g.callers && CallersOk(g) && LeadersOk(g)
    requires !g.callers[u].phase.Done?
    requires g.callers[u].phase.Waiting? ==>
      g.callers[u].phase.p < |g.publications| && g.publications[g.callers[u].phase.p].status.Closed?
    ensures Do(g, OwnStep(g, u)) != g
  {
    assert PhaseOk(g, u, g.callers[u]);
    var h := Do(g, OwnStep(g, u));
    assert h.callers[u].phase != g.callers[u].phase;
  }
}
