/** The in-memory index a runner merges from manifests, and the ancestry of manifests. */
module PackIndex {
  import opened Sorting
  import opened Manifests

  datatype Index = Index(
    packs: map<string, PackDescriptor>,
    cas: map<string, ManifestObject>,
    actions: map<string, ManifestAction>,
    conflicts: set<string>,
    heads: set<string>)

  const EMPTY_INDEX := Index(map[], map[], map[], {}, {})

  /** A loaded manifest with its ID. */
  datatype Loaded = Loaded(id: string, manifest: Manifest)

  // ----- applying one manifest -----

  /** Keep the entry of lower rank per key; the entry already there wins a tie. */
  function Keep<E>(m: map<string, E>, e: E, key: E -> string, rank: E -> string): map<string, E> {
    if key(e) !in m || Lt(rank(e), rank(m[key(e)])) then m[key(e) := e] else m
  }

  function KeepAll<E>(m: map<string, E>, es: seq<E>, key: E -> string, rank: E -> string): map<string, E> {
    if es == [] then m else Keep(KeepAll(m, es[..|es| - 1], key, rank), es[|es| - 1], key, rank)
  }

  datatype ActionTable = ActionTable(actions: map<string, ManifestAction>, conflicts: set<string>)

  /** The first action result recorded for a digest stays; a different one marks a conflict. */
  function RecordAction(t: ActionTable, a: ManifestAction): ActionTable {
    if a.digest !in t.actions then t.(actions := t.actions[a.digest := a])
    else if t.actions[a.digest].cid != a.cid then t.(conflicts := t.conflicts + {a.digest})
    else t
  }

  function RecordActions(t: ActionTable, es: seq<ManifestAction>): ActionTable {
    if es == [] then t else RecordAction(RecordActions(t, es[..|es| - 1]), es[|es| - 1])
  }

  function ApplyManifest(ix: Index, id: string, m: Manifest): Index {
    var t := RecordActions(ActionTable(ix.actions, ix.conflicts), m.actions);
    Index(KeepAll(ix.packs, m.packs, PackIdOf, PackKeyOf),
          KeepAll(ix.cas, m.cas, CasDigestOf, CasPackOf),
          t.actions,
          t.conflicts,
          ix.heads - (set p | p in m.parents) + {id})
  }

  function ApplyAll(ix: Index, ms: seq<Loaded>): Index {
    if ms == [] then ix
    else
      var last := ms[|ms| - 1];
      ApplyManifest(ApplyAll(ix, ms[..|ms| - 1]), last.id, last.manifest)
  }

  // ----- what merging computes -----

  ghost predicate KeyedBy<E>(m: map<string, E>, key: E -> string) {
    forall k :: k in m ==> key(m[k]) == k
  }

  /** The merge keeps, per key, an entry of least rank among all those offered. */
  lemma {:induction false} KeepAllIsLeast<E>(m: map<string, E>, es: seq<E>, key: E -> string, rank: E -> string)
    requires KeyedBy(m, key)
    ensures var r := KeepAll(m, es, key, rank);
      && KeyedBy(r, key)
      && (forall e :: e in es ==> key(e) in r && !Lt(rank(e), rank(r[key(e)])))
      && (forall k :: k in m ==> k in r && !Lt(rank(m[k]), rank(r[k])))
      && (forall k :: k in r ==> (k in m && r[k] == m[k]) || (r[k] in es && key(r[k]) == k))
  {
    if es == [] {
      forall k | k in m ensures !Lt(rank(m[k]), rank(m[k])) { LtIrreflexive(rank(m[k])); }
    } else {
      var init, last := es[..|es| - 1], es[|es| - 1];
      KeepAllIsLeast(m, init, key, rank);
      var before := KeepAll(m, init, key, rank);
      var r := KeepAll(m, es, key, rank);
      assert es == init + [last];
      KeepLowers(before, last, key, rank);
      forall e | e in es ensures key(e) in r && !Lt(rank(e), rank(r[key(e)])) {
        if e in init {
          NotAfterTransitive(rank(r[key(e)]), rank(before[key(e)]), rank(e));
        }
      }
      forall k | k in m ensures k in r && !Lt(rank(m[k]), rank(r[k])) {
        NotAfterTransitive(rank(r[k]), rank(before[k]), rank(m[k]));
      }
    }
  }

  lemma KeepLowers<E>(m: map<string, E>, e: E, key: E -> string, rank: E -> string)
    ensures var r := Keep(m, e, key, rank);
      && key(e) in r && !Lt(rank(e), rank(r[key(e)]))
      && forall k :: k in m ==> k in r && !Lt(rank(m[k]), rank(r[k]))
  {
    LtIrreflexive(rank(e));
    forall k | k in m ensures !Lt(rank(m[k]), rank(Keep(m, e, key, rank)[k])) {
      LtIrreflexive(rank(m[k]));
      if k == key(e) && Lt(rank(e), rank(m[k])) { LtAsymmetric(rank(e), rank(m[k])); }
    }
  }

  lemma {:induction false} KeepAllConcat<E>(m: map<string, E>, a: seq<E>, b: seq<E>, key: E -> string, rank: E -> string)
    ensures KeepAll(m, a + b, key, rank) == KeepAll(KeepAll(m, a, key, rank), b, key, rank)
  {
    if b == [] {
      assert a + b == a;
    } else {
      KeepAllConcat(m, a, b[..|b| - 1], key, rank);
      assert (a + b)[..|a + b| - 1] == a + b[..|b| - 1];
    }
  }

  lemma {:induction false} RecordActionsConcat(t: ActionTable, a: seq<ManifestAction>, b: seq<ManifestAction>)
    ensures RecordActions(t, a + b) == RecordActions(RecordActions(t, a), b)
  {
    if b == [] {
      assert a + b == a;
    } else {
      RecordActionsConcat(t, a, b[..|b| - 1]);
      assert (a + b)[..|a + b| - 1] == a + b[..|b| - 1];
    }
  }

  ghost predicate Disagree(es: seq<ManifestAction>, d: string) {
    exists a, b :: a in es && b in es && a.digest == d && b.digest == d && a.cid != b.cid
  }

  /** Every offered digest is recorded, nothing else is, and the conflicts are exactly the disagreements. */
  ghost predicate Records(t: ActionTable, es: seq<ManifestAction>) {
    && (forall a :: a in es ==> a.digest in t.actions)
    && (forall d :: d in t.actions ==> t.actions[d] in es && t.actions[d].digest == d)
    && (forall d :: d in t.conflicts <==> Disagree(es, d))
  }

  /** From an empty table, merging records what it is offered. */
  lemma {:induction false} RecordActionsFinds(es: seq<ManifestAction>)
    ensures Records(RecordActions(ActionTable(map[], {}), es), es)
  {
    if es != [] {
      var init, last := es[..|es| - 1], es[|es| - 1];
      RecordActionsFinds(init);
      assert es == init + [last];
      var before := RecordActions(ActionTable(map[], {}), init);
      var t := RecordActions(ActionTable(map[], {}), es);
      forall d ensures d in t.conflicts <==> Disagree(es, d) {
        RecordActionDisagree(init, last, d, before);
      }
    }
  }

  lemma RecordActionDisagree(init: seq<ManifestAction>, last: ManifestAction, d: string, before: ActionTable)
    requires forall a :: a in init ==> a.digest in before.actions
    requires forall d :: d in before.actions ==> before.actions[d] in init && before.actions[d].digest == d
    requires d in before.conflicts <==> Disagree(init, d)
    ensures d in RecordAction(before, last).conflicts <==> Disagree(init + [last], d)
  {
    var es := init + [last];
    if Disagree(init, d) {
      var a, b :| a in init && b in init && a.digest == d && b.digest == d && a.cid != b.cid;
      assert a in es && b in es;
    } else if d == last.digest && d in before.actions {
      assert before.actions[d] in es && last in es;
    }
  }

  // ----- merging many manifests -----

  function AllPacks(ms: seq<Loaded>): seq<PackDescriptor> {
    if ms == [] then [] else AllPacks(ms[..|ms| - 1]) + ms[|ms| - 1].manifest.packs
  }

  function AllCas(ms: seq<Loaded>): seq<ManifestObject> {
    if ms == [] then [] else AllCas(ms[..|ms| - 1]) + ms[|ms| - 1].manifest.cas
  }

  function AllActions(ms: seq<Loaded>): seq<ManifestAction> {
    if ms == [] then [] else AllActions(ms[..|ms| - 1]) + ms[|ms| - 1].manifest.actions
  }

  lemma {:induction false} ApplyAllFlattens(ms: seq<Loaded>)
    ensures var ix := ApplyAll(EMPTY_INDEX, ms);
      && ix.packs == KeepAll(map[], AllPacks(ms), PackIdOf, PackKeyOf)
      && ix.cas == KeepAll(map[], AllCas(ms), CasDigestOf, CasPackOf)
      && ActionTable(ix.actions, ix.conflicts) == RecordActions(ActionTable(map[], {}), AllActions(ms))
  {
    if ms != [] {
      var init, last := ms[..|ms| - 1], ms[|ms| - 1].manifest;
      ApplyAllFlattens(init);
      KeepAllConcat(map[], AllPacks(init), last.packs, PackIdOf, PackKeyOf);
      KeepAllConcat(map[], AllCas(init), last.cas, CasDigestOf, CasPackOf);
      RecordActionsConcat(ActionTable(map[], {}), AllActions(init), last.actions);
    }
  }

  lemma {:induction false} AllMembers(ms: seq<Loaded>)
    ensures forall p :: p in AllPacks(ms) <==> exists l :: l in ms && p in l.manifest.packs
    ensures forall o :: o in AllCas(ms) <==> exists l :: l in ms && o in l.manifest.cas
    ensures forall a :: a in AllActions(ms) <==> exists l :: l in ms && a in l.manifest.actions
  {
    if ms != [] {
      AllMembers(ms[..|ms| - 1]);
      assert ms == ms[..|ms| - 1] + [ms[|ms| - 1]];
    }
  }

  ghost predicate AgreeBy<E>(es: seq<E>, key: E -> string, rank: E -> string) {
    forall e, f :: e in es && f in es && key(e) == key(f) && rank(e) == rank(f) ==> e == f
  }

  lemma KeepAllOrderIndependent<E>(a: seq<E>, b: seq<E>, key: E -> string, rank: E -> string)
    requires forall e :: e in a <==> e in b
    requires AgreeBy(a, key, rank)
    ensures KeepAll(map[], a, key, rank) == KeepAll(map[], b, key, rank)
  {
    var x, y := KeepAll(map[], a, key, rank), KeepAll(map[], b, key, rank);
    KeepAllIsLeast(map[], a, key, rank);
    KeepAllIsLeast(map[], b, key, rank);
    forall k | k in x || k in y ensures k in x && k in y && x[k] == y[k] {
      LtTotal(rank(x[k]), rank(y[k]));
    }
    assert x.Keys == y.Keys;
  }

  /** Tables that record the same actions differ at most in the entries of disputed digests. */
  ghost predicate SameUndisputed(x: ActionTable, y: ActionTable) {
    && x.conflicts == y.conflicts && x.actions.Keys == y.actions.Keys
    && forall d :: d in x.actions && d !in x.conflicts ==> x.actions[d].cid == y.actions[d].cid
  }

  lemma RecordsSame(x: ActionTable, y: ActionTable, a: seq<ManifestAction>, b: seq<ManifestAction>)
    requires Records(x, a) && Records(y, b) && forall e :: e in a <==> e in b
    ensures SameUndisputed(x, y)
  {
    forall d ensures d in x.conflicts <==> d in y.conflicts { DisagreeSameMembers(a, b, d); }
    forall d ensures d in x.actions <==> d in y.actions {
      if d in x.actions { assert x.actions[d] in b; }
      if d in y.actions { assert y.actions[d] in a; }
    }
    forall d | d in x.actions && d !in x.conflicts ensures x.actions[d].cid == y.actions[d].cid {
      assert x.actions[d] in a && y.actions[d] in a && !Disagree(a, d);
    }
  }

  lemma RecordActionsOrderIndependent(a: seq<ManifestAction>, b: seq<ManifestAction>)
    requires forall e :: e in a <==> e in b
    ensures SameUndisputed(RecordActions(ActionTable(map[], {}), a), RecordActions(ActionTable(map[], {}), b))
  {
    RecordActionsFinds(a);
    RecordActionsFinds(b);
    RecordsSame(RecordActions(ActionTable(map[], {}), a), RecordActions(ActionTable(map[], {}), b), a, b);
  }

  lemma SameEntriesOverall(a: seq<Loaded>, b: seq<Loaded>)
    requires forall l :: l in a <==> l in b
    ensures forall p :: p in AllPacks(a) <==> p in AllPacks(b)
    ensures forall o :: o in AllCas(a) <==> o in AllCas(b)
    ensures forall e :: e in AllActions(a) <==> e in AllActions(b)
  {
    AllMembers(a);
    AllMembers(b);
  }

  /**
   * Merging the same manifests in any order, and any number of times each, gives the same packs,
   * CAS entries, action digests and conflicts, and the same CID for every action without conflict.
   */
  lemma MergeOrderIndependent(a: seq<Loaded>, b: seq<Loaded>)
    requires forall l :: l in a <==> l in b
    requires AgreeBy(AllPacks(a), PackIdOf, PackKeyOf) && AgreeBy(AllCas(a), CasDigestOf, CasPackOf)
    ensures var x, y := ApplyAll(EMPTY_INDEX, a), ApplyAll(EMPTY_INDEX, b);
      && x.packs == y.packs && x.cas == y.cas
      && x.conflicts == y.conflicts && x.actions.Keys == y.actions.Keys
      && forall d :: d in x.actions && d !in x.conflicts ==> x.actions[d].cid == y.actions[d].cid
  {
    ApplyAllFlattens(a);
    ApplyAllFlattens(b);
    SameEntriesOverall(a, b);
    KeepAllOrderIndependent(AllPacks(a), AllPacks(b), PackIdOf, PackKeyOf);
    KeepAllOrderIndependent(AllCas(a), AllCas(b), CasDigestOf, CasPackOf);
    RecordActionsOrderIndependent(AllActions(a), AllActions(b));
  }

  lemma DisagreeSameMembers(a: seq<ManifestAction>, b: seq<ManifestAction>, d: string)
    requires forall e :: e in a <==> e in b
    ensures Disagree(a, d) <==> Disagree(b, d)
  {
    if Disagree(a, d) {
      var e, f :| e in a && f in a && e.digest == d && f.digest == d && e.cid != f.cid;
      assert e in b && f in b;
    }
    if Disagree(b, d) {
      var e, f :| e in b && f in b && e.digest == d && f.digest == d && e.cid != f.cid;
      assert e in a && f in a;
    }
  }

  /** Two of the manifests give the action digest different CIDs. */
  ghost predicate Disputed(ms: seq<Loaded>, d: string) {
    exists k, l, a, b :: k in ms && l in ms && a in k.manifest.actions && b in l.manifest.actions
      && a.digest == d && b.digest == d && a.cid != b.cid
  }

  lemma ActionSource(ms: seq<Loaded>, a: ManifestAction) returns (l: Loaded)
    requires a in AllActions(ms)
    ensures l in ms && a in l.manifest.actions
  {
    AllMembers(ms);
    l :| l in ms && a in l.manifest.actions;
  }

  lemma ActionIncluded(ms: seq<Loaded>, l: Loaded, a: ManifestAction)
    requires l in ms && a in l.manifest.actions
    ensures a in AllActions(ms)
  {
    AllMembers(ms);
  }

  lemma DisputedIffDisagree(ms: seq<Loaded>, d: string)
    ensures Disputed(ms, d) <==> Disagree(AllActions(ms), d)
  {
    if Disagree(AllActions(ms), d) {
      var a, b :| a in AllActions(ms) && b in AllActions(ms) && a.digest == d && b.digest == d && a.cid != b.cid;
      var k := ActionSource(ms, a);
      var l := ActionSource(ms, b);
    }
    if Disputed(ms, d) {
      var k, l, a, b :| k in ms && l in ms && a in k.manifest.actions && b in l.manifest.actions
        && a.digest == d && b.digest == d && a.cid != b.cid;
      ActionIncluded(ms, k, a);
      ActionIncluded(ms, l, b);
    }
  }

  /** A digest is in conflict exactly when two of the merged manifests give it different CIDs. */
  lemma ConflictIffDisputed(ms: seq<Loaded>, d: string)
    ensures d in ApplyAll(EMPTY_INDEX, ms).conflicts <==> Disputed(ms, d)
  {
    ApplyAllFlattens(ms);
    RecordActionsFinds(AllActions(ms));
    DisputedIffDisagree(ms, d);
  }

  // ----- heads -----

  /** Position `i` is the last place at which its ID is applied or listed as a parent. */
  ghost predicate LastWord(ms: seq<Loaded>, i: int, id: string) {
    0 <= i < |ms| && ms[i].id == id && forall j :: i < j < |ms| ==> id !in ms[j].manifest.parents
  }

  /** An ID is a head exactly when it was applied and nothing applied later lists it as a parent. */
  lemma {:induction false} HeadIffNotListedLater(ms: seq<Loaded>, id: string)
    ensures id in ApplyAll(EMPTY_INDEX, ms).heads <==> exists i :: LastWord(ms, i, id)
  {
    if ms != [] {
      var init, last := ms[..|ms| - 1], ms[|ms| - 1];
      HeadIffNotListedLater(init, id);
      if id == last.id {
        assert LastWord(ms, |ms| - 1, id);
      } else if id in last.manifest.parents {
        assert forall i :: LastWord(ms, i, id) ==> i == |ms| - 1;
      } else {
        forall i | 0 <= i < |init| ensures LastWord(init, i, id) <==> LastWord(ms, i, id) {
          assert forall j :: 0 <= j < |init| ==> init[j] == ms[j];
        }
      }
    }
  }

  /** The heads the design describes: loaded manifests that no other loaded manifest lists as a parent. */
  ghost predicate DocumentedHead(ms: seq<Loaded>, i: int) {
    0 <= i < |ms| && forall j :: 0 <= j < |ms| && j != i ==> ms[i].id !in ms[j].manifest.parents
  }

  ghost predicate Listed(ms: seq<Loaded>, i: int, from: int)
    requires 0 <= i < |ms|
  {
    exists j :: from <= j < |ms| && 0 <= j && j != i && ms[i].id in ms[j].manifest.parents
  }

  /** Discovery keeps exactly the documented heads if and only if every listed manifest is also listed by a later one. */
  lemma {:induction false} HeadsMatchDocumentation(ms: seq<Loaded>)
    requires forall i, j :: 0 <= i < j < |ms| ==> ms[i].id != ms[j].id
    ensures (forall i :: 0 <= i < |ms| ==> (ms[i].id in ApplyAll(EMPTY_INDEX, ms).heads <==> DocumentedHead(ms, i)))
      <==> (forall i :: 0 <= i < |ms| && Listed(ms, i, 0) ==> Listed(ms, i, i + 1))
  {
    forall i | 0 <= i < |ms|
      ensures ms[i].id in ApplyAll(EMPTY_INDEX, ms).heads <==> !Listed(ms, i, i + 1)
      ensures DocumentedHead(ms, i) <==> !Listed(ms, i, 0)
      ensures Listed(ms, i, i + 1) ==> Listed(ms, i, 0)
    {
      HeadIffNotListedLater(ms, ms[i].id);
      if !Listed(ms, i, i + 1) {
        assert LastWord(ms, i, ms[i].id);
      }
    }
  }

  lemma SortedPair(a: string, b: string)
    requires Lt(a, b)
    ensures SortedSet({a, b}) == [a, b]
  {
    LtIrreflexive(a);
    LtAsymmetric(a, b);
    assert multiset([a, b]) == multiset({a, b});
    assert SortBy([b], Identity) == [b] by { assert [b][1..] == []; }
    assert [a, b][1..] == [b];
    SortedSetUnique({a, b}, [a, b]);
  }

  lemma HeadsOfPair(first: Loaded, second: Loaded)
    requires first.id != second.id
    ensures ApplyAll(EMPTY_INDEX, [first, second]).heads
         == {second.id} + if first.id in second.manifest.parents then {} else {first.id}
  {
    assert [first, second][..1] == [first] && [first][..0] == [];
    assert ApplyAll(EMPTY_INDEX, [first]).heads == {first.id};
  }

  /**
   * A child and its parent, merged in the order of their IDs: if the child's ID comes first, discovery keeps both as
   * heads, and otherwise the child alone.
   */
  lemma HeadsKeepAParent(child: Loaded, parent: Loaded, ids: seq<string>, ms: seq<Loaded>)
    requires child.id != parent.id && child.manifest.parents == [parent.id] && parent.manifest.parents == []
    requires ids == SortedSet({child.id, parent.id}) && |ms| == |ids|
    requires forall i :: 0 <= i < |ids| ==> ms[i] == if ids[i] == child.id then child else parent
    ensures ApplyAll(EMPTY_INDEX, ms).heads == if Lt(child.id, parent.id) then {child.id, parent.id} else {child.id}
  {
    if Lt(child.id, parent.id) {
      SortedPair(child.id, parent.id);
    } else {
      LtTotal(child.id, parent.id);
      SortedPair(parent.id, child.id);
      assert {child.id, parent.id} == {parent.id, child.id};
    }
    assert ms == [ms[0], ms[1]];
    HeadsOfPair(ms[0], ms[1]);
  }

  // ----- ancestry -----

  ghost predicate IsPath(log: map<string, Manifest>, path: seq<string>, a: string, b: string) {
    && |path| > 0 && path[0] == a && path[|path| - 1] == b
    && forall i :: 0 <= i < |path| - 1 ==> IsLink(log, path, i)
  }

  ghost predicate IsLink(log: map<string, Manifest>, path: seq<string>, i: int)
    requires 0 <= i < |path| - 1
  {
    path[i] in log && path[i + 1] in log[path[i]].parents
  }

  /** `b` is reachable from `a` through zero or more Parents links. */
  ghost predicate Ancestor(log: map<string, Manifest>, a: string, b: string) {
    exists path :: IsPath(log, path, a, b)
  }

  ghost predicate Grows<K, V>(m: map<K, V>, n: map<K, V>) {
    forall k :: k in m ==> k in n && n[k] == m[k]
  }

  lemma AncestorSelf(log: map<string, Manifest>, a: string)
    ensures Ancestor(log, a, a)
  {
    assert IsPath(log, [a], a, a);
  }

  lemma AncestorStep(log: map<string, Manifest>, a: string, p: string, b: string)
    requires a in log && p in log[a].parents && Ancestor(log, p, b)
    ensures Ancestor(log, a, b)
  {
    var path :| IsPath(log, path, p, b);
    var longer := [a] + path;
    forall i | 0 <= i < |longer| - 1 ensures IsLink(log, longer, i) {
      if i > 0 { assert IsLink(log, path, i - 1); }
    }
    assert IsPath(log, longer, a, b);
  }

  lemma AncestorGrows(log: map<string, Manifest>, log': map<string, Manifest>, a: string, b: string)
    requires Ancestor(log, a, b) && Grows(log, log')
    ensures Ancestor(log', a, b)
  {
    var path :| IsPath(log, path, a, b);
    forall i | 0 <= i < |path| - 1 ensures IsLink(log', path, i) {
      assert IsLink(log, path, i);
    }
    assert IsPath(log', path, a, b);
  }

  ghost predicate CoveredAt(log: map<string, Manifest>, heads: set<string>, x: string) {
    exists h :: h in heads && Ancestor(log, h, x)
  }

  /** Every applied manifest is a head or an ancestor of one. */
  ghost predicate Covered(log: map<string, Manifest>, heads: set<string>, applied: set<string>) {
    forall x {:trigger CoveredAt(log, heads, x)} :: x in applied ==> CoveredAt(log, heads, x)
  }

  lemma CoveredGrows(log: map<string, Manifest>, log': map<string, Manifest>, heads: set<string>, applied: set<string>)
    requires Covered(log, heads, applied) && Grows(log, log')
    ensures Covered(log', heads, applied)
  {
    forall x {:trigger CoveredAt(log', heads, x)} | x in applied ensures CoveredAt(log', heads, x) {
      assert CoveredAt(log, heads, x);
      var h :| h in heads && Ancestor(log, h, x);
      AncestorGrows(log, log', h, x);
    }
  }

  /** Applying a manifest keeps every applied manifest covered, whatever its parents are. */
  lemma ApplyKeepsCover(log: map<string, Manifest>, ix: Index, applied: set<string>, id: string, m: Manifest)
    requires Covered(log, ix.heads, applied)
    requires id in log && forall p :: p in log[id].parents <==> p in m.parents
    ensures Covered(log, ApplyManifest(ix, id, m).heads, applied + {id})
  {
    var heads' := ApplyManifest(ix, id, m).heads;
    forall x {:trigger CoveredAt(log, heads', x)} | x in applied + {id} ensures CoveredAt(log, heads', x) {
      if x == id {
        AncestorSelf(log, id);
      } else {
        assert CoveredAt(log, ix.heads, x);
        var h :| h in ix.heads && Ancestor(log, h, x);
        if h in m.parents {
          AncestorStep(log, id, h, x);
        }
      }
    }
  }
}
