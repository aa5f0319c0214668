/** Repeated flushing: what is left when nothing more can be flushed, and how many packs it takes. */
module Draining {
  import opened Common
  import opened Environment
  import opened Staging

  /** One successful flush. */
  ghost function FlushNext(env: Env, s: Store): Store {
    SelectPending(env.targetSize, s);
    Commit(env, s, Select(env.targetSize, s))
  }

  // ----- runs of steps -----

  ghost predicate Link<T>(run: seq<T>, i: int, step: (T, T) -> bool)
    requires 0 <= i < |run| - 1
  {
    step(run[i], run[i + 1])
  }

  ghost predicate Chain<T>(run: seq<T>, step: (T, T) -> bool) {
    |run| > 0 && forall i :: 0 <= i < |run| - 1 ==> Link(run, i, step)
  }

  lemma ChainExtends<T>(run: seq<T>, t: T, step: (T, T) -> bool)
    requires Chain(run, step) && step(run[|run| - 1], t)
    ensures Chain(run + [t], step)
  {
    var longer := run + [t];
    forall i | 0 <= i < |longer| - 1 ensures Link(longer, i, step) {
      if i < |run| - 1 { assert Link(run, i, step); }
    }
  }

  lemma {:induction false} ChainKeeps<T(!new)>(run: seq<T>, step: (T, T) -> bool, inv: T -> bool, i: nat)
    requires Chain(run, step) && inv(run[0]) && i < |run|
    requires forall s, t :: inv(s) && step(s, t) ==> inv(t)
    ensures inv(run[i])
  {
    if i > 0 {
      ChainKeeps(run, step, inv, i - 1);
      assert Link(run, i - 1, step);
    }
  }

  /** `n` steps lead from `s` to `t`. */
  ghost predicate Leads<T(!new)>(s: T, t: T, n: nat, step: (T, T) -> bool) {
    exists run: seq<T> :: Chain(run, step) && run[0] == s && run[|run| - 1] == t && |run| == n + 1
  }

  lemma OneStepMore<T(!new)>(s: T, u: T, t: T, n: nat, step: (T, T) -> bool)
    requires Leads(s, u, n, step) && step(u, t)
    ensures Leads(s, t, n + 1, step)
  {
    var run: seq<T> :| Chain(run, step) && run[0] == s && run[|run| - 1] == u && |run| == n + 1;
    ChainExtends(run, t, step);
    var longer := run + [t];
    assert longer[0] == s && longer[|longer| - 1] == t && |longer| == n + 2;
  }

  /** A flush that had something to publish and succeeded. */
  ghost predicate Flushes(env: Env, s: Store, t: Store) {
    !NothingToFlush(Select(env.targetSize, s)) && t == FlushNext(env, s)
  }

  ghost function FlushStep(env: Env): (Store, Store) -> bool { (s, t) => Flushes(env, s, t) }

  /** Successive states of one drain. */
  ghost predicate FlushRun(env: Env, run: seq<Store>) { Chain(run, FlushStep(env)) }

  // ----- batches are consecutive first-in first-out runs -----

  /**
   * The next `k` blobs of `order`, after blobs of `size` bytes have been taken: within the target unless it is the very
   * first blob, and stopping only when the target is reached or the next blob does not fit.
   */
  ghost predicate Continues(order: seq<string>, pending: map<string, Bytes>, target: int, first: bool, size: int, k: nat) {
    && k <= |order| && (order != [] && first ==> k >= 1)
    && (k >= 1 ==> size + Sum(order[..k], pending, BlobSize) <= target || (first && k == 1))
    && (k < |order| && k >= 1 ==>
         size + Sum(order[..k], pending, BlobSize) >= target || size + Sum(order[..k + 1], pending, BlobSize) > target)
    && (k < |order| && k == 0 ==> !first && size + Sum(order[..1], pending, BlobSize) > target)
  }

  lemma ContinuesFrom(order: seq<string>, pending: map<string, Bytes>, target: int, first: bool, size: int, k: nat)
    requires order != [] && order[0] in pending
    requires Continues(order[1..], pending, target, false, size + |pending[order[0]]|, k)
    requires size + |pending[order[0]]| < target
    ensures Continues(order, pending, target, first, size, k + 1)
  {
    var d, rest := order[0], order[1..];
    SumFirst(order, pending);
    assert order[..k + 1] == [d] + rest[..k];
    SumCons(d, rest[..k], pending);
    if k < |rest| {
      assert order[..k + 2] == [d] + rest[..k + 1];
      SumCons(d, rest[..k + 1], pending);
    }
  }

  lemma {:induction false} SelectCasPrefix(order: seq<string>, pending: map<string, Bytes>, target: int,
                                           taken: seq<string>, size: int) returns (k: nat)
    requires forall d :: d in order ==> d in pending
    ensures Continues(order, pending, target, taken == [], size, k)
    ensures SelectCas(order, pending, target, taken, size) == taken + order[..k]
    decreases |order|
  {
    if order == [] {
      return 0;
    }
    var size' := size + |pending[order[0]]|;
    if size' >= target || (taken != [] && size' > target) {
      k := if taken != [] && size' > target then 0 else 1;
      SumFirst(order, pending);
      assert order[..1] == [order[0]];
      return;
    }
    var rest := SelectCasPrefix(order[1..], pending, target, taken + [order[0]], size');
    ContinuesFrom(order, pending, target, taken == [], size, rest);
    TakeOneMore(taken, order, rest);
    k := rest + 1;
  }

  lemma TakeOneMore(taken: seq<string>, order: seq<string>, k: nat)
    requires k < |order|
    ensures (taken + [order[0]]) + order[1..][..k] == taken + order[..k + 1]
  {
    assert order[..k + 1] == [order[0]] + order[1..][..k];
  }

  lemma SumFirst(order: seq<string>, pending: map<string, Bytes>)
    requires order != [] && order[0] in pending
    ensures Sum(order[..1], pending, BlobSize) == |pending[order[0]]|
  {
    assert order[..1][..0] == [];
  }

  lemma SumCons(d: string, rest: seq<string>, pending: map<string, Bytes>)
    requires d in pending
    ensures Sum([d] + rest, pending, BlobSize) == |pending[d]| + Sum(rest, pending, BlobSize)
  {
    SumConcat([d], rest, pending, BlobSize);
    assert [d][..0] == [];
  }

  /**
   * `k` blobs from the front: at least one if there is any, a single one or at most the target size, and stopping
   * only when the next blob would not fit.
   */
  ghost predicate FifoRun(order: seq<string>, pending: map<string, Bytes>, target: int, k: nat) {
    && k <= |order| && (order != [] ==> k >= 1)
    && (k > 1 ==> Sum(order[..k], pending, BlobSize) <= target)
    && (k < |order| ==> Sum(order[..k], pending, BlobSize) >= target || Sum(order[..k + 1], pending, BlobSize) > target)
  }

  lemma SelectCasIsRun(order: seq<string>, pending: map<string, Bytes>, target: int) returns (k: nat)
    requires Enumerates(order, pending)
    ensures FifoRun(order, pending, target, k) && SelectCas(order, pending, target, [], 0) == order[..k]
  {
    forall d | d in order ensures d in pending { assert d in ToSet(order); }
    k := SelectCasPrefix(order, pending, target, [], 0);
  }

  /** A batch takes a first-in first-out run of the pending blobs. */
  lemma BatchIsFifoRun(env: Env, s: Store) returns (k: nat)
    requires Bookkeeping(s)
    ensures FifoRun(s.casOrder, s.pendingCas, env.targetSize, k) && Select(env.targetSize, s).cas == s.casOrder[..k]
  {
    k := SelectCasIsRun(s.casOrder, s.pendingCas, env.targetSize);
  }

  lemma {:induction false} FilterAll(order: seq<string>, keep: set<string>)
    requires forall d :: d in order ==> d in keep
    ensures Filter(order, keep) == order
  {
    if order != [] { FilterAll(order[..|order| - 1], keep); }
  }

  lemma {:induction false} FilterConcat(a: seq<string>, b: seq<string>, keep: set<string>)
    ensures Filter(a + b, keep) == Filter(a, keep) + Filter(b, keep)
  {
    if b == [] {
      assert a + b == a;
    } else {
      assert (a + b)[..|a + b| - 1] == a + b[..|b| - 1];
      FilterConcat(a, b[..|b| - 1], keep);
    }
  }

  lemma {:induction false} FilterNone(order: seq<string>, keep: set<string>)
    requires forall d :: d in order ==> d !in keep
    ensures Filter(order, keep) == []
  {
    if order != [] { FilterNone(order[..|order| - 1], keep); }
  }

  lemma TailNotInHead(order: seq<string>, k: nat, d: string)
    requires NoRepeats(order) && k <= |order| && d in order[k..]
    ensures d !in order[..k]
  {
    var j :| 0 <= j < |order[k..]| && order[k..][j] == d;
    assert order[k + j] == d;
  }

  /** Dropping a front run from the pending map and filtering the order list leaves the tail. */
  lemma DropRun(order: seq<string>, k: nat, pending: map<string, Bytes>, rest: map<string, Bytes>)
    requires Enumerates(order, pending) && k <= |order| && rest == pending - ToSet(order[..k])
    ensures Filter(order, rest.Keys) == order[k..]
    ensures Sum(order[k..], rest, BlobSize) == Sum(order, pending, BlobSize) - Sum(order[..k], pending, BlobSize)
    ensures forall d :: d in order[k..] ==> d in rest && rest[d] == pending[d]
  {
    var head, tail := order[..k], order[k..];
    assert order == head + tail;
    forall d | d in tail ensures d in rest && rest[d] == pending[d] {
      assert d in ToSet(order);
      TailNotInHead(order, k, d);
    }
    FilterConcat(head, tail, rest.Keys);
    FilterNone(head, rest.Keys);
    FilterAll(tail, rest.Keys);
    SumConcat(head, tail, pending, BlobSize);
    SumAgrees(tail, pending, rest, BlobSize);
  }

  /** What a successful flush of the selected batch does to the pending side. */
  ghost predicate Flushed(target: int, s: Store, t: Store) {
    var b := Select(target, s);
    && |b.cas| <= |s.casOrder| && b.cas == s.casOrder[..|b.cas|]
    && Bookkeeping(t)
    && t.pendingCas == s.pendingCas - ToSet(b.cas)
    && t.casOrder == s.casOrder[|b.cas|..]
    && t.pendingActions == s.pendingActions - ToSet(b.actions)
    && t.index.cas.Keys == s.index.cas.Keys + ToSet(b.cas)
  }

  lemma {:induction false} FlushNextFlushes(env: Env, s: Store)
    requires Bookkeeping(s)
    ensures Flushed(env.targetSize, s, FlushNext(env, s))
  {
    var b := Select(env.targetSize, s);
    SelectPending(env.targetSize, s);
    CommitKeepsBooks(env, s, b);
    var k := BatchIsFifoRun(env, s);
    assert |b.cas| == k;
    CommitOrder(env, s, b);
    DropRun(s.casOrder, k, s.pendingCas, Commit(env, s, b).pendingCas);
  }

  lemma CommitOrder(env: Env, s: Store, b: Batch)
    requires BatchPending(s, b)
    ensures Commit(env, s, b).casOrder == Filter(s.casOrder, Commit(env, s, b).pendingCas.Keys)
  {
  }

  lemma {:induction false} SumNonNegative(order: seq<string>, pending: map<string, Bytes>)
    ensures Sum(order, pending, BlobSize) >= 0
  {
    if order != [] { SumNonNegative(order[..|order| - 1], pending); }
  }

  lemma {:induction false} SumMonotone(order: seq<string>, pending: map<string, Bytes>, j: nat, k: nat)
    requires j <= k <= |order|
    ensures Sum(order[..j], pending, BlobSize) <= Sum(order[..k], pending, BlobSize)
  {
    assert order[..k] == order[..j] + order[j..k];
    SumConcat(order[..j], order[j..k], pending, BlobSize);
    SumNonNegative(order[j..k], pending);
  }

  // ----- when no blob is pending any more -----

  /** No pending action is publishable with what the index holds. */
  ghost predicate NoneEligible(s: Store) {
    forall d :: d in s.pendingActions ==> !Eligible(s.index.cas, {}, s.pendingActions[d].closure)
  }

  lemma NothingWhenNoneEligible(target: int, s: Store)
    requires Bookkeeping(s) && s.casOrder == [] && NoneEligible(s)
    ensures NothingToFlush(Select(target, s))
  {
    var b := Select(target, s);
    SelectActionsMembers(s.acOrder, s.pendingActions, s.index.cas, ToSet(b.cas));
    assert ToSet(b.cas) == {};
    FirstMember(b.actions);
  }

  /** A flush that takes the last pending blobs takes every action that is publishable after it. */
  lemma LastRunTakesActions(target: int, s: Store, t: Store)
    requires Bookkeeping(s) && Select(target, s).cas == s.casOrder && Flushed(target, s, t)
    ensures t.casOrder == [] && NoneEligible(t)
  {
    var b := Select(target, s);
    SelectActionsMembers(s.acOrder, s.pendingActions, s.index.cas, ToSet(b.cas));
    forall d | d in t.pendingActions ensures !Eligible(t.index.cas, {}, t.pendingActions[d].closure) {
      assert d in ToSet(s.acOrder) && d !in ToSet(b.actions);
      assert !Eligible(s.index.cas, ToSet(b.cas), s.pendingActions[d].closure);
    }
  }

  // ----- the number of packs -----

  /** A run that stops short of the whole order, together with the blob after it, fills the target. */
  lemma RunAndNextFill(order: seq<string>, pending: map<string, Bytes>, k: nat, target: int)
    requires FifoRun(order, pending, target, k) && k < |order| && order[k] in pending
    ensures Sum(order[..k], pending, BlobSize) + |pending[order[k]]| >= target
  {
    assert order[..k + 1][..k] == order[..k];
  }

  /** What is left after such a run, without the blob left first. */
  lemma RunLeavesNext(order: seq<string>, pending: map<string, Bytes>, rest: map<string, Bytes>, k: nat, target: int)
    requires Enumerates(order, pending) && FifoRun(order, pending, target, k) && k < |order|
    requires rest == pending - ToSet(order[..k])
    ensures order[k] in rest
    ensures Sum(order[k..], rest, BlobSize) - |rest[order[k]]| <= Sum(order, pending, BlobSize) - target
  {
    DropRun(order, k, pending, rest);
    assert order[k..][0] == order[k] && order[k] in order[k..];
    RunAndNextFill(order, pending, k, target);
  }

  lemma RunHoldsFirst(order: seq<string>, pending: map<string, Bytes>, l: nat)
    requires 1 <= l <= |order| && order[0] in pending
    ensures Sum(order[..l], pending, BlobSize) >= |pending[order[0]]|
  {
    SumMonotone(order, pending, 1, l);
    SumFirst(order, pending);
  }

  /** A flush that leaves blobs behind, with the blob it leaves first, accounts for the target size. */
  lemma FlushLeavesNext(env: Env, s: Store, u: Store)
    requires Bookkeeping(s) && Select(env.targetSize, s).cas != s.casOrder && Flushed(env.targetSize, s, u)
    ensures u.casOrder != [] && u.casOrder[0] in u.pendingCas
    ensures Sum(u.casOrder, u.pendingCas, BlobSize) - |u.pendingCas[u.casOrder[0]]|
      <= Sum(s.casOrder, s.pendingCas, BlobSize) - env.targetSize
  {
    var k := BatchIsFifoRun(env, s);
    assert k == |Select(env.targetSize, s).cas|;
    assert k < |s.casOrder| by { assert s.casOrder[..|s.casOrder|] == s.casOrder; }
    RunLeavesNext(s.casOrder, s.pendingCas, u.pendingCas, k, env.targetSize);
  }

  /** A flush publishes at least the first pending blob. */
  lemma FlushTakesFirst(env: Env, u: Store, t: Store)
    requires Bookkeeping(u) && u.casOrder != [] && u.casOrder[0] in u.pendingCas && Flushed(env.targetSize, u, t)
    ensures Sum(t.casOrder, t.pendingCas, BlobSize)
      <= Sum(u.casOrder, u.pendingCas, BlobSize) - |u.pendingCas[u.casOrder[0]]|
  {
    var l := BatchIsFifoRun(env, u);
    assert l == |Select(env.targetSize, u).cas|;
    DropRun(u.casOrder, l, u.pendingCas, t.pendingCas);
    RunHoldsFirst(u.casOrder, u.pendingCas, l);
  }

  lemma StopsAfterLastRun(target: int, s: Store, u: Store)
    requires Bookkeeping(s) && Select(target, s).cas == s.casOrder && Flushed(target, s, u)
    ensures NothingToFlush(Select(target, u))
  {
    LastRunTakesActions(target, s, u);
    NothingWhenNoneEligible(target, u);
  }

  lemma TwoFlushesFill(env: Env, s: Store, u: Store, t: Store)
    requires Bookkeeping(s) && Flushed(env.targetSize, s, u) && Flushed(env.targetSize, u, t)
    requires !NothingToFlush(Select(env.targetSize, u))
    ensures Sum(t.casOrder, t.pendingCas, BlobSize) <= Sum(s.casOrder, s.pendingCas, BlobSize) - env.targetSize
  {
    if Select(env.targetSize, s).cas == s.casOrder {
      StopsAfterLastRun(env.targetSize, s, u);
    } else {
      FlushLeavesNext(env, s, u);
      FlushTakesFirst(env, u, t);
    }
  }

  /** The states of a drain, by what each flush does to the pending side. */
  ghost predicate Draining(target: int, run: seq<Store>) {
    && |run| > 0
    && (forall i :: 0 <= i < |run| ==> Bookkeeping(run[i]))
    && (forall i :: 0 <= i < |run| - 1 ==> DrainStep(target, run, i))
  }

  ghost predicate DrainStep(target: int, run: seq<Store>, i: int)
    requires 0 <= i < |run| - 1
  {
    !NothingToFlush(Select(target, run[i])) && Flushed(target, run[i], run[i + 1])
  }

  lemma FlushKeepsBooks(env: Env, s: Store, t: Store)
    requires Bookkeeping(s) && Flushes(env, s, t)
    ensures Bookkeeping(t) && !NothingToFlush(Select(env.targetSize, s)) && Flushed(env.targetSize, s, t)
  {
    FlushNextFlushes(env, s);
  }

  ghost function BooksTest(): Store -> bool { s => Bookkeeping(s) }

  lemma BooksAlongRun(env: Env, run: seq<Store>, i: nat)
    requires FlushRun(env, run) && Bookkeeping(run[0]) && i < |run|
    ensures Bookkeeping(run[i])
  {
    forall s, t | BooksTest()(s) && FlushStep(env)(s, t) ensures BooksTest()(t) { FlushKeepsBooks(env, s, t); }
    ChainKeeps(run, FlushStep(env), BooksTest(), i);
  }

  lemma DrainStepAlongRun(env: Env, run: seq<Store>, i: int)
    requires FlushRun(env, run) && 0 <= i < |run| - 1 && Bookkeeping(run[i])
    ensures DrainStep(env.targetSize, run, i)
  {
    assert Link(run, i, FlushStep(env));
    FlushKeepsBooks(env, run[i], run[i + 1]);
  }

  lemma FlushRunDrains(env: Env, run: seq<Store>)
    requires FlushRun(env, run) && Bookkeeping(run[0])
    ensures Draining(env.targetSize, run)
  {
    forall i | 0 <= i < |run| ensures Bookkeeping(run[i]) {
      BooksAlongRun(env, run, i);
    }
    forall i | 0 <= i < |run| - 1 ensures DrainStep(env.targetSize, run, i) {
      DrainStepAlongRun(env, run, i);
    }
  }

  function PendingBlobBytes(s: Store): int { Sum(s.casOrder, s.pendingCas, BlobSize) }

  lemma DrainStepAt(target: int, run: seq<Store>, i: int, j: int)
    requires Draining(target, run) && 0 <= i && j == i + 1 < |run|
    ensures Bookkeeping(run[i]) && !NothingToFlush(Select(target, run[i])) && Flushed(target, run[i], run[j])
  {
    assert DrainStep(target, run, i);
  }

  /** Every two flushes in a row account for the target size. */
  lemma TwoStepsFill(env: Env, run: seq<Store>, i: int, k: int)
    requires Draining(env.targetSize, run) && 0 <= i && k == i + 2 < |run|
    ensures PendingBlobBytes(run[k]) <= PendingBlobBytes(run[i]) - env.targetSize
  {
    DrainStepAt(env.targetSize, run, i, i + 1);
    DrainStepAt(env.targetSize, run, i + 1, k);
    TwoFlushesFill(env, run[i], run[i + 1], run[k]);
  }

  lemma {:induction false} HalvesBound(bytes: seq<int>, t: int)
    requires |bytes| > 0 && forall i :: 0 <= i < |bytes| ==> bytes[i] >= 0
    requires forall i, j :: 0 <= i && j == i + 2 < |bytes| ==> bytes[j] <= bytes[i] - t
    ensures Halves(|bytes| - 1, t) <= bytes[0]
    decreases |bytes|
  {
    if |bytes| >= 3 {
      HalvesBound(bytes[2..], t);
    }
  }

  /** One target size for every two flushes. */
  function Halves(n: nat, t: int): int {
    if n < 2 then 0 else t + Halves(n - 2, t)
  }

  lemma {:induction false} HalvesIsProduct(n: nat, t: int)
    ensures Halves(n, t) == (n / 2) * t
  {
    if n >= 2 {
      HalvesIsProduct(n - 2, t);
      assert n / 2 == (n - 2) / 2 + 1;
    }
  }

  lemma MultiplyMonotone(p: int, q: int, t: int)
    requires t > 0 && p <= q
    ensures p * t <= q * t
  {
  }

  lemma QuotientBound(q: int, t: int, b: int)
    requires t > 0 && q * t <= b
    ensures q <= b / t
  {
    var r := b / t;
    assert b < (r + 1) * t;
    if q > r { MultiplyMonotone(r + 1, q, t); }
  }

  /** Draining blobs of B bytes in total with target T publishes at most 2 * (B / T) + 1 packs, actions included. */
  lemma PackCountBound(env: Env, run: seq<Store>)
    requires env.targetSize > 0 && FlushRun(env, run) && Bookkeeping(run[0])
    ensures |run| - 1 <= 2 * (PendingBlobBytes(run[0]) / env.targetSize) + 1
  {
    FlushRunDrains(env, run);
    var bytes := seq(|run|, i requires 0 <= i < |run| => PendingBlobBytes(run[i]));
    forall i | 0 <= i < |run| ensures bytes[i] >= 0 {
      SumNonNegative(run[i].casOrder, run[i].pendingCas);
    }
    forall i, j | 0 <= i && j == i + 2 < |run| ensures bytes[j] <= bytes[i] - env.targetSize {
      TwoStepsFill(env, run, i, j);
    }
    HalvesBound(bytes, env.targetSize);
    HalvesIsProduct(|run| - 1, env.targetSize);
    QuotientBound((|run| - 1) / 2, env.targetSize, PendingBlobBytes(run[0]));
  }

  // ----- what draining leaves behind -----

  /** The blobs the store holds, pending or published. */
  ghost function Held(s: Store): set<string> { s.pendingCas.Keys + s.index.cas.Keys }

  /** Every real member of the closure is held. */
  ghost predicate ClosureHeld(s: Store, closure: seq<DigestReference>) {
    RealHashes(closure) <= Held(s)
  }

  /** The actions that some flush will be able to publish. */
  ghost function Publishable(s: Store): set<string> {
    set d | d in s.pendingActions && ClosureHeld(s, s.pendingActions[d].closure)
  }

  lemma EligibleHeld(s: Store, selected: set<string>, closure: seq<DigestReference>)
    requires selected <= s.pendingCas.Keys && Eligible(s.index.cas, selected, closure)
    ensures ClosureHeld(s, closure)
  {
    forall h | h in RealHashes(closure) ensures h in Held(s) {
      var r :| r in closure && !IsImplicitEmpty(r) && r.hash == h;
      var i :| 0 <= i < |closure| && closure[i] == r;
    }
  }

  /** A flush changes neither the held blobs nor which of the remaining actions are publishable. */
  lemma FlushKeepsHeld(target: int, s: Store, t: Store)
    requires Bookkeeping(s) && Flushed(target, s, t)
    ensures Held(t) == Held(s)
    ensures t.pendingActions - Publishable(t) == s.pendingActions - Publishable(s)
  {
    var b := Select(target, s);
    SelectPending(target, s);
    assert ToSet(b.cas) <= s.pendingCas.Keys;
    assert Held(t) == Held(s);
    forall d | d in s.pendingActions && d !in t.pendingActions ensures d in Publishable(s) {
      FlushedWasPublishable(target, s, d);
    }
    SamePublishable(s, t);
  }

  lemma FlushedWasPublishable(target: int, s: Store, d: string)
    requires d in s.pendingActions && d in Select(target, s).actions
    ensures d in Publishable(s)
  {
    var b := Select(target, s);
    SelectPending(target, s);
    SelectActionsMembers(s.acOrder, s.pendingActions, s.index.cas, ToSet(b.cas));
    EligibleHeld(s, ToSet(b.cas), s.pendingActions[d].closure);
  }

  lemma SamePublishable(s: Store, t: Store)
    requires Held(t) == Held(s)
    requires forall d :: d in t.pendingActions ==> d in s.pendingActions && t.pendingActions[d] == s.pendingActions[d]
    requires forall d :: d in s.pendingActions && d !in t.pendingActions ==> d in Publishable(s)
    ensures t.pendingActions - Publishable(t) == s.pendingActions - Publishable(s)
  {
    forall d | d in t.pendingActions ensures d in Publishable(t) <==> d in Publishable(s) {
      assert ClosureHeld(t, t.pendingActions[d].closure) <==> ClosureHeld(s, s.pendingActions[d].closure);
    }
  }

  /** A flush that had something to publish leaves less pending. */
  lemma {:induction false} FlushShrinks(target: int, s: Store, t: Store)
    requires Bookkeeping(s) && !NothingToFlush(Select(target, s)) && Flushed(target, s, t)
    ensures |t.pendingCas| + |t.pendingActions| < |s.pendingCas| + |s.pendingActions|
  {
    var b := Select(target, s);
    SelectPending(target, s);
    assert t.pendingCas.Keys == s.pendingCas.Keys - ToSet(b.cas);
    assert t.pendingActions.Keys == s.pendingActions.Keys - ToSet(b.actions);
    SubsetCardinality(t.pendingCas.Keys, s.pendingCas.Keys);
    SubsetCardinality(t.pendingActions.Keys, s.pendingActions.Keys);
    if b.cas != [] {
      assert b.cas[0] in b.cas;
      SubsetSmaller(t.pendingCas.Keys, s.pendingCas.Keys, b.cas[0]);
    } else {
      assert b.actions[0] in b.actions;
      SubsetSmaller(t.pendingActions.Keys, s.pendingActions.Keys, b.actions[0]);
    }
  }

  lemma SubsetSmaller<T>(a: set<T>, b: set<T>, x: T)
    requires a <= b && x in b && x !in a
    ensures |a| < |b|
  {
    SubsetCardinality(a, b - {x});
  }

  lemma {:induction false} DrainKeepsHeld(target: int, run: seq<Store>)
    requires Draining(target, run)
    ensures var s, t := run[0], run[|run| - 1];
      Held(t) == Held(s) && t.pendingActions - Publishable(t) == s.pendingActions - Publishable(s)
    decreases |run|
  {
    if |run| > 1 {
      var rest := run[1..];
      forall i | 0 <= i < |rest| - 1 ensures DrainStep(target, rest, i) {
        assert DrainStep(target, run, i + 1);
      }
      assert DrainStep(target, run, 0);
      FlushKeepsHeld(target, run[0], run[1]);
      DrainKeepsHeld(target, rest);
    }
  }

  /**
   * When a drained store has nothing left to flush, no blob is pending, and an action is still pending
   * exactly when some member of its closure was never held.
   */
  lemma DrainLeavesUnpublishable(env: Env, run: seq<Store>)
    requires env.targetSize > 0 && FlushRun(env, run) && Bookkeeping(run[0])
    requires NothingToFlush(Select(env.targetSize, run[|run| - 1]))
    ensures var s, t := run[0], run[|run| - 1];
      && t.pendingCas == map[]
      && t.pendingActions == s.pendingActions - Publishable(s)
      && Held(t) == Held(s) && Bookkeeping(t)
  {
    FlushRunDrains(env, run);
    DrainKeepsHeld(env.targetSize, run);
    var t := run[|run| - 1];
    IdleStore(env, t);
    assert t.pendingActions - Publishable(t) == t.pendingActions;
  }

  lemma IdleStore(env: Env, s: Store)
    requires env.targetSize > 0 && Bookkeeping(s) && NothingToFlush(Select(env.targetSize, s))
    ensures s.pendingCas == map[] && Publishable(s) == {}
  {
    var k := BatchIsFifoRun(env, s);
    assert s.casOrder == [];
    assert s.pendingCas.Keys == {};
    var b := Select(env.targetSize, s);
    SelectActionsMembers(s.acOrder, s.pendingActions, s.index.cas, ToSet(b.cas));
    forall d | d in s.pendingActions ensures d !in Publishable(s) {
      assert d in ToSet(s.acOrder) && d !in b.actions;
      var closure := s.pendingActions[d].closure;
      var i :| 0 <= i < |closure| && !IsImplicitEmpty(closure[i]) && closure[i].hash !in s.index.cas;
      assert closure[i].hash in RealHashes(closure);
    }
  }

  // ----- so many flushes in a row -----

  /** `n` successful flushes lead from `s` to `t`. */
  ghost predicate FlushedTimes(env: Env, s: Store, t: Store, n: nat) { Leads(s, t, n, FlushStep(env)) }

  lemma NotFlushedYet(env: Env, s: Store)
    ensures FlushedTimes(env, s, s, 0)
  {
    assert Chain([s], FlushStep(env));
  }

  lemma FlushedOnceMore(env: Env, s: Store, u: Store, t: Store, n: nat)
    requires FlushedTimes(env, s, u, n) && Flushes(env, u, t)
    ensures FlushedTimes(env, s, t, n + 1)
  {
    OneStepMore(s, u, t, n, FlushStep(env));
  }

  lemma FlushesBounded(env: Env, s: Store, t: Store, n: nat)
    requires FlushedTimes(env, s, t, n) && Bookkeeping(s) && env.targetSize > 0
    ensures n <= 2 * (PendingBlobBytes(s) / env.targetSize) + 1
  {
    var run :| FlushRun(env, run) && run[0] == s && run[|run| - 1] == t && |run| == n + 1;
    PackCountBound(env, run);
  }

  lemma FlushesLeaveUnpublishable(env: Env, s: Store, t: Store, n: nat)
    requires FlushedTimes(env, s, t, n) && Bookkeeping(s) && env.targetSize > 0
    requires NothingToFlush(Select(env.targetSize, t))
    ensures t.pendingCas == map[] && t.pendingActions == s.pendingActions - Publishable(s) && Held(t) == Held(s)
  {
    var run :| FlushRun(env, run) && run[0] == s && run[|run| - 1] == t && |run| == n + 1;
    DrainLeavesUnpublishable(env, run);
  }
}
