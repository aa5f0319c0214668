/** The pending side of the packed store: staging, batch selection, commit and bookkeeping. */
module Staging {
  import opened Common
  import opened Sorting
  import opened Environment
  import opened Manifests
  import opened PackIndex
  import opened References

  datatype PendingAction = PendingAction(data: Bytes, closure: seq<DigestReference>, cid: string)

  /** The state of a packed store. File contents stand for the files that hold them. */
  datatype Store = Store(
    index: Index,
    pendingCas: map<string, Bytes>,
    casOrder: seq<string>,
    pendingActions: map<string, PendingAction>,
    acOrder: seq<string>,
    pendingBytes: int)

  function BlobSize(b: Bytes): int { |b| }
  function ActionSize(a: PendingAction): int { |a.data| }

  // ----- staging -----

  function StageCas(s: Store, d: string, data: Bytes): Store {
    if d in s.pendingCas || d in s.index.cas then s
    else s.(pendingCas := s.pendingCas[d := data],
            casOrder := s.casOrder + [d],
            pendingBytes := s.pendingBytes + |data|)
  }

  function StageAction(env: Env, s: Store, d: string, data: Bytes, closure: seq<DigestReference>): Store {
    if d in s.pendingActions then
      if s.pendingActions[d].cid != env.CidOf(data) then
        s.(pendingActions := s.pendingActions - {d},
           index := s.index.(conflicts := s.index.conflicts + {d}))
      else s
    else s.(pendingActions := s.pendingActions[d := PendingAction(data, SortReferences(closure), env.CidOf(data))],
            acOrder := s.acOrder + [d],
            pendingBytes := s.pendingBytes + |data|)
  }

  // ----- batch selection -----

  datatype Batch = Batch(cas: seq<string>, actions: seq<string>)

  function SelectCas(order: seq<string>, pending: map<string, Bytes>, target: int, taken: seq<string>, size: int): seq<string>
    decreases |order|
  {
    if order == [] then taken
    else if order[0] !in pending then SelectCas(order[1..], pending, target, taken, size)
    else
      var size' := size + |pending[order[0]]|;
      if taken != [] && size' > target then taken
      else if size' >= target then taken + [order[0]]
      else SelectCas(order[1..], pending, target, taken + [order[0]], size')
  }

  predicate Eligible(cas: map<string, ManifestObject>, selected: set<string>, closure: seq<DigestReference>) {
    forall i :: 0 <= i < |closure| && !IsImplicitEmpty(closure[i]) ==> closure[i].hash in selected || closure[i].hash in cas
  }

  function SelectActions(order: seq<string>, pending: map<string, PendingAction>,
                         cas: map<string, ManifestObject>, selected: set<string>): seq<string>
  {
    if order == [] then []
    else
      var init := SelectActions(order[..|order| - 1], pending, cas, selected);
      var d := order[|order| - 1];
      if d in pending && Eligible(cas, selected, pending[d].closure) then init + [d] else init
  }

  function ToSet(s: seq<string>): set<string> { set d | d in s }

  function Select(target: int, s: Store): Batch {
    var cas := SelectCas(s.casOrder, s.pendingCas, target, [], 0);
    Batch(cas, SelectActions(s.acOrder, s.pendingActions, s.index.cas, ToSet(cas)))
  }

  predicate NothingToFlush(b: Batch) { b.cas == [] && b.actions == [] }

  /** Every digest of the batch is pending. */
  ghost predicate BatchPending(s: Store, b: Batch) {
    (forall d :: d in b.cas ==> d in s.pendingCas) && (forall d :: d in b.actions ==> d in s.pendingActions)
  }

  // ----- the pack and the manifest of a batch -----

  function CasBlock(env: Env, s: Store, d: string): Block
    requires d in s.pendingCas
  {
    Block(env.rawCid(d), s.pendingCas[d])
  }

  function ActionBlock(s: Store, d: string): Block
    requires d in s.pendingActions
  {
    Block(s.pendingActions[d].cid, s.pendingActions[d].data)
  }

  function Blocks(env: Env, s: Store, b: Batch): seq<Block>
    requires BatchPending(s, b)
  {
    seq(|b.cas|, i requires 0 <= i < |b.cas| => CasBlock(env, s, b.cas[i])) +
    seq(|b.actions|, i requires 0 <= i < |b.actions| => ActionBlock(s, b.actions[i]))
  }

  function PackData(env: Env, s: Store, b: Batch): Bytes
    requires BatchPending(s, b)
  {
    env.car(Blocks(env, s, b))
  }

  function PackIdFor(env: Env, s: Store, b: Batch): string
    requires BatchPending(s, b)
  {
    env.sha(PackData(env, s, b))
  }

  function CasEntry(env: Env, s: Store, packId: string, d: string): ManifestObject
    requires d in s.pendingCas
  {
    ManifestObject(d, env.rawCid(d), packId, |s.pendingCas[d]|)
  }

  /** The packs that hold the closure of a pending action. */
  ghost function ClosurePackSet(cas: map<string, ManifestObject>, selected: set<string>, packId: string,
                                closure: seq<DigestReference>): set<string>
  {
    (set r | r in closure && !IsImplicitEmpty(r) && r.hash in selected :: packId) +
    (set r | r in closure && !IsImplicitEmpty(r) && r.hash !in selected && r.hash in cas :: cas[r.hash].packId)
  }

  ghost function ActionEntry(s: Store, packId: string, selected: set<string>, d: string): ManifestAction
    requires d in s.pendingActions
  {
    var a := s.pendingActions[d];
    ManifestAction(d, a.cid, packId, |a.data|, SortedSet(ClosurePackSet(s.index.cas, selected, packId, a.closure)))
  }

  ghost function ManifestFor(env: Env, s: Store, b: Batch): Manifest
    requires BatchPending(s, b)
  {
    var id := PackIdFor(env, s, b);
    Manifest(FORMAT_VERSION,
             SortedSet(s.index.heads),
             [PackDescriptor(id, env.PackKey(id), |PackData(env, s, b)|)],
             seq(|b.cas|, i requires 0 <= i < |b.cas| => CasEntry(env, s, id, b.cas[i])),
             seq(|b.actions|, i requires 0 <= i < |b.actions| => ActionEntry(s, id, ToSet(b.cas), b.actions[i])))
  }

  ghost function ManifestIdFor(env: Env, s: Store, b: Batch): string
    requires BatchPending(s, b)
  {
    EncodeManifest(env, ManifestFor(env, s, b)).value.id
  }

  // ----- commit -----

  datatype Dropped<T> = Dropped(pending: map<string, T>, bytes: int)

  function DropOne<T>(p: Dropped<T>, d: string, size: T -> int): Dropped<T> {
    if d in p.pending then Dropped(p.pending - {d}, p.bytes - size(p.pending[d])) else p
  }

  function DropAll<T>(p: Dropped<T>, ds: seq<string>, size: T -> int): Dropped<T> {
    if ds == [] then p else DropOne(DropAll(p, ds[..|ds| - 1], size), ds[|ds| - 1], size)
  }

  function Filter(order: seq<string>, keep: set<string>): seq<string> {
    if order == [] then []
    else
      var init := Filter(order[..|order| - 1], keep);
      if order[|order| - 1] in keep then init + [order[|order| - 1]] else init
  }

  function RemovePending(s: Store, b: Batch): Store {
    var c := DropAll(Dropped(s.pendingCas, s.pendingBytes), b.cas, BlobSize);
    var a := DropAll(Dropped(s.pendingActions, c.bytes), b.actions, ActionSize);
    s.(pendingCas := c.pending, casOrder := Filter(s.casOrder, c.pending.Keys),
       pendingActions := a.pending, acOrder := Filter(s.acOrder, a.pending.Keys),
       pendingBytes := a.bytes)
  }

  /** The store after a flushed batch: its manifest merged, the batch no longer pending. */
  ghost function Commit(env: Env, s: Store, b: Batch): Store
    requires BatchPending(s, b)
  {
    var m := ManifestFor(env, s, b);
    RemovePending(s.(index := ApplyManifest(s.index, ManifestIdFor(env, s, b), m)), b)
  }

  // ----- facts about selection -----

  lemma {:induction false} SelectCasPending(order: seq<string>, pending: map<string, Bytes>, target: int,
                                            taken: seq<string>, size: int)
    requires forall d :: d in taken ==> d in pending
    ensures forall d :: d in SelectCas(order, pending, target, taken, size) ==> d in pending
    decreases |order|
  {
    if order == [] {
    } else if order[0] !in pending {
      SelectCasPending(order[1..], pending, target, taken, size);
    } else {
      var size' := size + |pending[order[0]]|;
      if !(taken != [] && size' > target) && size' < target {
        SelectCasPending(order[1..], pending, target, taken + [order[0]], size');
      }
    }
  }

  lemma {:induction false} SelectActionsMembers(order: seq<string>, pending: map<string, PendingAction>,
                                                cas: map<string, ManifestObject>, selected: set<string>)
    ensures forall d :: d in SelectActions(order, pending, cas, selected) <==>
      d in order && d in pending && Eligible(cas, selected, pending[d].closure)
  {
    if order != [] {
      SelectActionsMembers(order[..|order| - 1], pending, cas, selected);
      assert order == order[..|order| - 1] + [order[|order| - 1]];
    }
  }

  lemma {:induction false} SelectActionsNoRepeats(order: seq<string>, pending: map<string, PendingAction>,
                                                  cas: map<string, ManifestObject>, selected: set<string>)
    requires NoRepeats(order)
    ensures NoRepeats(SelectActions(order, pending, cas, selected))
  {
    if order != [] {
      var init := order[..|order| - 1];
      SelectActionsNoRepeats(init, pending, cas, selected);
      SelectActionsMembers(init, pending, cas, selected);
    }
  }

  lemma SelectPending(target: int, s: Store)
    ensures BatchPending(s, Select(target, s))
  {
    SelectCasPending(s.casOrder, s.pendingCas, target, [], 0);
    SelectActionsMembers(s.acOrder, s.pendingActions, s.index.cas, ToSet(Select(target, s).cas));
  }

  // ----- sums of pending sizes -----

  /** The sizes of the pending entries listed by `order`. */
  function Sum<T>(order: seq<string>, pending: map<string, T>, size: T -> int): int {
    if order == [] then 0
    else
      var d := order[|order| - 1];
      Sum(order[..|order| - 1], pending, size) + if d in pending then size(pending[d]) else 0
  }

  lemma {:induction false} SumWithout<T>(order: seq<string>, pending: map<string, T>, size: T -> int, d: string)
    requires NoRepeats(order) && d in pending
    ensures Sum(order, pending - {d}, size) == Sum(order, pending, size) - if d in order then size(pending[d]) else 0
  {
    if order != [] {
      var init, last := order[..|order| - 1], order[|order| - 1];
      SumWithout(init, pending, size, d);
      assert order == init + [last];
    }
  }

  lemma {:induction false} SumWith<T>(order: seq<string>, pending: map<string, T>, size: T -> int, d: string, v: T)
    requires d !in order
    ensures Sum(order, pending[d := v], size) == Sum(order, pending, size)
  {
    if order != [] {
      SumWith(order[..|order| - 1], pending, size, d, v);
    }
  }

  lemma {:induction false} SumFilter<T>(order: seq<string>, pending: map<string, T>, size: T -> int)
    ensures Sum(Filter(order, pending.Keys), pending, size) == Sum(order, pending, size)
  {
    if order != [] {
      SumFilter(order[..|order| - 1], pending, size);
      var init := Filter(order[..|order| - 1], pending.Keys);
      var d := order[|order| - 1];
      assert (init + [d])[..|init|] == init;
    }
  }

  lemma {:induction false} SumConcat<T>(a: seq<string>, b: seq<string>, pending: map<string, T>, size: T -> int)
    ensures Sum(a + b, pending, size) == Sum(a, pending, size) + Sum(b, pending, size)
  {
    if b == [] {
      assert a + b == a;
    } else {
      assert (a + b)[..|a + b| - 1] == a + b[..|b| - 1];
      SumConcat(a, b[..|b| - 1], pending, size);
    }
  }

  lemma {:induction false} SumAgrees<T>(order: seq<string>, p: map<string, T>, q: map<string, T>, size: T -> int)
    requires forall d :: d in order ==> d in p && d in q && p[d] == q[d]
    ensures Sum(order, p, size) == Sum(order, q, size)
  {
    if order != [] {
      SumAgrees(order[..|order| - 1], p, q, size);
    }
  }

  lemma {:induction false} DropAllSum<T>(p: Dropped<T>, ds: seq<string>, size: T -> int, order: seq<string>, extra: int)
    requires NoRepeats(order) && ToSet(order) == p.pending.Keys
    requires p.bytes == Sum(order, p.pending, size) + extra
    ensures var q := DropAll(p, ds, size);
      && q.pending == p.pending - ToSet(ds)
      && q.bytes == Sum(order, q.pending, size) + extra
  {
    if ds == [] {
      assert p.pending - ToSet(ds) == p.pending;
    } else {
      var init, d := ds[..|ds| - 1], ds[|ds| - 1];
      DropAllSum(p, init, size, order, extra);
      var q := DropAll(p, init, size);
      assert ds == init + [d];
      assert ToSet(ds) == ToSet(init) + {d};
      assert p.pending - ToSet(ds) == q.pending - {d};
      if d in q.pending {
        SumWithout(order, q.pending, size, d);
        assert d in ToSet(order);
      } else {
        assert q.pending - {d} == q.pending;
      }
    }
  }

  lemma {:induction false} FilterProperties(order: seq<string>, keep: set<string>)
    ensures forall d :: d in Filter(order, keep) <==> d in order && d in keep
    ensures NoRepeats(order) ==> NoRepeats(Filter(order, keep))
  {
    if order != [] {
      FilterProperties(order[..|order| - 1], keep);
      assert order == order[..|order| - 1] + [order[|order| - 1]];
    }
  }

  // ----- bookkeeping -----

  ghost predicate Enumerates<T>(order: seq<string>, pending: map<string, T>) {
    NoRepeats(order) && ToSet(order) == pending.Keys
  }

  /** The order lists enumerate the pending maps, nothing pending is already indexed, and the byte count is exact. */
  ghost predicate Bookkeeping(s: Store) {
    && Enumerates(s.casOrder, s.pendingCas)
    && Enumerates(s.acOrder, s.pendingActions)
    && s.pendingCas.Keys !! s.index.cas.Keys
    && s.pendingBytes == Sum(s.casOrder, s.pendingCas, BlobSize) + Sum(s.acOrder, s.pendingActions, ActionSize)
  }

  lemma EnumeratesAppend<T>(order: seq<string>, pending: map<string, T>, size: T -> int, d: string, v: T)
    requires Enumerates(order, pending) && d !in pending
    ensures Enumerates(order + [d], pending[d := v])
    ensures Sum(order + [d], pending[d := v], size) == Sum(order, pending, size) + size(v)
  {
    assert d !in ToSet(order);
    SumWith(order, pending, size, d, v);
    assert (order + [d])[..|order|] == order;
    assert ToSet(order + [d]) == ToSet(order) + {d};
  }

  lemma StageCasKeepsBooks(s: Store, d: string, data: Bytes)
    requires Bookkeeping(s)
    ensures Bookkeeping(StageCas(s, d, data))
    ensures d in StageCas(s, d, data).pendingCas || d in s.index.cas
  {
    if d !in s.pendingCas && d !in s.index.cas {
      EnumeratesAppend(s.casOrder, s.pendingCas, BlobSize, d, data);
    }
  }

  /**
   * Staging an action keeps the books exactly when the digest is not already pending with another CID.
   * In that branch the digest leaves the map but stays in the order list.
   */
  lemma StageActionKeepsBooksIff(env: Env, s: Store, d: string, data: Bytes, closure: seq<DigestReference>)
    requires Bookkeeping(s)
    ensures Bookkeeping(StageAction(env, s, d, data, closure)) <==>
      !(d in s.pendingActions && s.pendingActions[d].cid != env.CidOf(data))
  {
    if d in s.pendingActions {
      assert d in ToSet(s.acOrder);
    } else {
      EnumeratesAppend(s.acOrder, s.pendingActions, ActionSize, d,
                       PendingAction(data, SortReferences(closure), env.CidOf(data)));
    }
  }

  /** A second, different value for a pending action makes it disputed: neither value is published or served any more. */
  lemma DifferentValueIsDisputed(env: Env, s: Store, d: string, data: Bytes, closure: seq<DigestReference>, target: int)
    requires d in s.pendingActions && s.pendingActions[d].cid != env.CidOf(data)
    ensures var t := StageAction(env, s, d, data, closure);
      d in t.index.conflicts && d !in t.pendingActions && d !in Select(target, t).actions
  {
    SelectPending(target, StageAction(env, s, d, data, closure));
  }

  lemma {:induction false} KeepAllKeys<E>(m: map<string, E>, es: seq<E>, key: E -> string, rank: E -> string)
    ensures forall k :: k in KeepAll(m, es, key, rank) <==> k in m || exists e :: e in es && key(e) == k
  {
    if es != [] {
      KeepAllKeys(m, es[..|es| - 1], key, rank);
      assert es == es[..|es| - 1] + [es[|es| - 1]];
    }
  }

  lemma CommitIndexesBatch(env: Env, s: Store, b: Batch)
    requires BatchPending(s, b)
    ensures Commit(env, s, b).index.cas.Keys == s.index.cas.Keys + ToSet(b.cas)
  {
    var m := ManifestFor(env, s, b);
    var cas := Commit(env, s, b).index.cas;
    KeepAllKeys(s.index.cas, m.cas, CasDigestOf, CasPackOf);
    forall d ensures (exists o :: o in m.cas && CasDigestOf(o) == d) <==> d in b.cas {
      if d in b.cas {
        var i :| 0 <= i < |b.cas| && b.cas[i] == d;
        assert CasDigestOf(m.cas[i]) == d;
      }
    }
  }

  lemma RemoveKeepsBooks(s: Store, t: Store, b: Batch)
    requires Bookkeeping(s) && t == s.(index := t.index)
    requires t.index.cas.Keys == s.index.cas.Keys + ToSet(b.cas)
    ensures Bookkeeping(RemovePending(t, b))
    ensures RemovePending(t, b).pendingCas == s.pendingCas - ToSet(b.cas)
    ensures RemovePending(t, b).pendingActions == s.pendingActions - ToSet(b.actions)
  {
    var acBytes := Sum(s.acOrder, s.pendingActions, ActionSize);
    DropAllSum(Dropped(s.pendingCas, s.pendingBytes), b.cas, BlobSize, s.casOrder, acBytes);
    var c := DropAll(Dropped(s.pendingCas, s.pendingBytes), b.cas, BlobSize);
    var casBytes := Sum(s.casOrder, c.pending, BlobSize);
    DropAllSum(Dropped(s.pendingActions, c.bytes), b.actions, ActionSize, s.acOrder, casBytes);
    var a := DropAll(Dropped(s.pendingActions, c.bytes), b.actions, ActionSize);
    SumFilter(s.casOrder, c.pending, BlobSize);
    SumFilter(s.acOrder, a.pending, ActionSize);
    FilterEnumerates(s.casOrder, s.pendingCas, c.pending);
    FilterEnumerates(s.acOrder, s.pendingActions, a.pending);
  }

  lemma FilterEnumerates<T>(order: seq<string>, pending: map<string, T>, rest: map<string, T>)
    requires Enumerates(order, pending) && rest.Keys <= pending.Keys
    ensures Enumerates(Filter(order, rest.Keys), rest)
  {
    FilterProperties(order, rest.Keys);
    assert forall d :: d in pending ==> d in ToSet(order);
  }

  /** A flushed batch moves its blobs from the pending map to the index and keeps the books. */
  lemma CommitKeepsBooks(env: Env, s: Store, b: Batch)
    requires Bookkeeping(s) && BatchPending(s, b)
    ensures Bookkeeping(Commit(env, s, b))
    ensures Commit(env, s, b).pendingCas == s.pendingCas - ToSet(b.cas)
    ensures Commit(env, s, b).pendingActions == s.pendingActions - ToSet(b.actions)
    ensures Commit(env, s, b).index.cas.Keys == s.index.cas.Keys + ToSet(b.cas)
    ensures Commit(env, s, b).index.heads == {ManifestIdFor(env, s, b)}
  {
    CommitIndexesBatch(env, s, b);
    var t := s.(index := ApplyManifest(s.index, ManifestIdFor(env, s, b), ManifestFor(env, s, b)));
    RemoveKeepsBooks(s, t, b);
    SortedSetProperties(s.index.heads);
    assert s.index.heads - (set p | p in ManifestFor(env, s, b).parents) == {};
  }
}
