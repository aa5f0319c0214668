/** When the closure of an action result is complete, and why it does not matter in which copy of the storage. */
module Completeness {
  import opened Common
  import opened Sorting
  import opened References
  import opened Messages
  import opened Trees
  import opened ActionResults
  import opened Closures
  import opened Validation
  import opened Validator

  /** What a validator that has only been told about `confirmed` can vouch for. */
  ghost predicate Vouched(sha: Bytes -> string, content: map<string, Bytes>, data: Bytes, confirmed: set<string>) {
    && ActionResultOf(data).Some?
    && var g := GraphOf(sha, content, ActionResultOf(data).value); AllPresent(g, confirmed) && Sound(g)
  }

  // ----- graphs that hold the same trees and directories -----

  ghost predicate SameContent(g: Graph, k: Graph, h: string) {
    h in g.content && h in k.content && k.content[h] == g.content[h]
  }

  /** The graphs read messages alike, and hold the same bytes for every tree and directory the first one reaches. */
  ghost predicate SameNodes(g: Graph, k: Graph) {
    && k.treeOf == g.treeOf && k.directoryOf == g.directoryOf && k.refs == g.refs
    && forall r :: ReachesTree(g, r) || ReachesDirectory(g, r) ==> SameContent(g, k, r.hash)
  }

  lemma PrefixIsPath(g: Graph, path: seq<DigestReference>, r: DigestReference)
    requires DirectoryPath(g, path, r) && |path| > 1
    ensures DirectoryPath(g, path[..|path| - 1], path[|path| - 2])
    ensures ReachesDirectory(g, path[|path| - 2]) && Subdirectory(g, path, |path| - 2)
  {
    var init := path[..|path| - 1];
    forall i | 0 <= i < |init| - 1 ensures Subdirectory(g, init, i) { assert Subdirectory(g, path, i); }
    assert DirectoryPath(g, init, path[|path| - 2]);
  }

  lemma PathGoesOn(g: Graph, path: seq<DigestReference>, r: DigestReference)
    requires |path| > 1 && DirectoryPath(g, path[..|path| - 1], path[|path| - 2])
    requires Subdirectory(g, path, |path| - 2) && path[|path| - 1] == r
    ensures DirectoryPath(g, path, r)
  {
    forall i | 0 <= i < |path| - 1 ensures Subdirectory(g, path, i) {
      if i < |path| - 2 { assert Subdirectory(g, path[..|path| - 1], i); }
    }
  }

  lemma {:induction false} PathAgrees(g: Graph, k: Graph, path: seq<DigestReference>, r: DigestReference)
    requires SameNodes(g, k)
    ensures DirectoryPath(g, path, r) <==> DirectoryPath(k, path, r)
    decreases |path|
  {
    if |path| > 1 {
      var init, last := path[..|path| - 1], path[|path| - 2];
      PathAgrees(g, k, init, last);
      if DirectoryPath(g, path, r) { PrefixIsPath(g, path, r); }
      if DirectoryPath(k, path, r) { PrefixIsPath(k, path, r); }
      if DirectoryPath(g, init, last) {
        assert ReachesDirectory(g, last);
        assert DirectoryAt(g, last) == DirectoryAt(k, last);
        if Subdirectory(g, path, |path| - 2) && path[|path| - 1] == r {
          PathGoesOn(g, path, r);
          PathGoesOn(k, path, r);
        }
      }
    }
  }

  /** Then they reach the same trees, directories and blobs. */
  lemma SameReach(g: Graph, k: Graph)
    requires SameNodes(g, k)
    ensures forall r :: ReachesDirectory(g, r) <==> ReachesDirectory(k, r)
    ensures forall r :: ReachesBlob(g, r) <==> ReachesBlob(k, r)
  {
    forall r ensures ReachesDirectory(g, r) <==> ReachesDirectory(k, r) {
      if ReachesDirectory(g, r) {
        var path :| DirectoryPath(g, path, r);
        PathAgrees(g, k, path, r);
      }
      if ReachesDirectory(k, r) {
        var path :| DirectoryPath(k, path, r);
        PathAgrees(g, k, path, r);
      }
    }
    forall r ensures FileOfTree(g, r) <==> FileOfTree(k, r) { SameTreeFiles(g, k, r); }
    forall r ensures FileOfDirectory(g, r) <==> FileOfDirectory(k, r) { SameDirectoryFiles(g, k, r); }
  }

  lemma SameTreeFiles(g: Graph, k: Graph, r: DigestReference)
    requires SameNodes(g, k)
    ensures FileOfTree(g, r) <==> FileOfTree(k, r)
  {
    forall t | ReachesTree(g, t) ensures TreeFilesAt(g, t) == TreeFilesAt(k, t) { assert SameContent(g, k, t.hash); }
    if FileOfTree(g, r) {
      var t :| ReachesTree(g, t) && r in TreeFilesAt(g, t);
      assert ReachesTree(k, t) && r in TreeFilesAt(k, t);
    }
    if FileOfTree(k, r) {
      var t :| ReachesTree(k, t) && r in TreeFilesAt(k, t);
      assert ReachesTree(g, t);
    }
  }

  lemma SameDirectoryFiles(g: Graph, k: Graph, r: DigestReference)
    requires SameNodes(g, k) && forall d :: ReachesDirectory(g, d) <==> ReachesDirectory(k, d)
    ensures FileOfDirectory(g, r) <==> FileOfDirectory(k, r)
  {
    forall d | ReachesDirectory(g, d) ensures DirectoryAt(g, d) == DirectoryAt(k, d) { assert SameContent(g, k, d.hash); }
    if FileOfDirectory(g, r) {
      var d :| ReachesDirectory(g, d) && r in DirectoryAt(g, d).files;
      assert ReachesDirectory(k, d) && r in DirectoryAt(k, d).files;
    }
    if FileOfDirectory(k, r) {
      var d :| ReachesDirectory(k, d) && r in DirectoryAt(k, d).files;
      assert ReachesDirectory(g, d);
    }
  }

  lemma SameHashes(g: Graph, k: Graph)
    requires k.refs == g.refs
    requires forall r :: ReachesDirectory(g, r) <==> ReachesDirectory(k, r)
    requires forall r :: ReachesBlob(g, r) <==> ReachesBlob(k, r)
    ensures forall h :: BlobHash(g, h) <==> BlobHash(k, h)
    ensures forall h :: TreeHash(g, h) <==> TreeHash(k, h)
    ensures forall h :: DirectoryHash(g, h) <==> DirectoryHash(k, h)
  {
    forall h ensures BlobHash(g, h) <==> BlobHash(k, h) {
      if BlobHash(g, h) { var r :| ReachesBlob(g, r) && r.hash == h; assert ReachesBlob(k, r); }
      if BlobHash(k, h) { var r :| ReachesBlob(k, r) && r.hash == h; assert ReachesBlob(g, r); }
    }
    forall h ensures TreeHash(g, h) <==> TreeHash(k, h) {
      if TreeHash(g, h) { var r :| ReachesTree(g, r) && r.hash == h; assert ReachesTree(k, r); }
      if TreeHash(k, h) { var r :| ReachesTree(k, r) && r.hash == h; assert ReachesTree(g, r); }
    }
    forall h ensures DirectoryHash(g, h) <==> DirectoryHash(k, h) {
      if DirectoryHash(g, h) { var r :| ReachesDirectory(g, r) && r.hash == h; assert ReachesDirectory(k, r); }
      if DirectoryHash(k, h) { var r :| ReachesDirectory(k, r) && r.hash == h; assert ReachesDirectory(g, r); }
    }
  }

  lemma NotTooManyAgrees(g: Graph, k: Graph)
    requires !TooMany(g) && k.refs == g.refs
    requires forall r :: ReachesDirectory(g, r) <==> ReachesDirectory(k, r)
    requires forall r :: ReachesBlob(g, r) <==> ReachesBlob(k, r)
    ensures !TooMany(k)
  {
    SameHashes(g, k);
    forall b, t, d | HashesOfGraph(k, b, t, d) ensures HashesOfGraph(g, b, t, d) {}
  }

  /** Soundness and presence are the same in both. */
  lemma SoundAgrees(g: Graph, k: Graph, present: set<string>)
    requires SameNodes(g, k) && Sound(g)
    ensures Sound(k) && (AllPresent(g, present) <==> AllPresent(k, present))
  {
    SameReach(g, k);
    NotTooManyAgrees(g, k);
    forall t | ReachesTree(k, t) && t.hash in k.content
      ensures |k.content[t.hash]| == t.size && k.treeOf(k.content[t.hash]).Some?
    {
      assert ReachesTree(g, t) && SameContent(g, k, t.hash);
    }
    forall d | ReachesDirectory(k, d) && d.hash in k.content
      ensures |k.content[d.hash]| == d.size && k.directoryOf(k.content[d.hash]).Some?
    {
      assert ReachesDirectory(g, d) && SameContent(g, k, d.hash);
    }
    forall r ensures Reaches(g, r) <==> Reaches(k, r) {}
  }

  /** Contents that agree on what the validator looked at give the same verdict. */
  lemma VouchedAgrees(sha: Bytes -> string, c: map<string, Bytes>, e: map<string, Bytes>, data: Bytes, confirmed: set<string>)
    requires Vouched(sha, c, data, confirmed)
    requires SameNodes(GraphOf(sha, c, ActionResultOf(data).value), GraphOf(sha, e, ActionResultOf(data).value))
    ensures Vouched(sha, e, data, confirmed)
  {
    var refs := ActionResultOf(data).value;
    SoundAgrees(GraphOf(sha, c, refs), GraphOf(sha, e, refs), confirmed);
  }

  lemma AgreeOnPresent(sha: Bytes -> string, c: map<string, Bytes>, e: map<string, Bytes>, refs: ActionReferences,
                       present: set<string>)
    requires AllPresent(GraphOf(sha, c, refs), present)
    requires forall h :: h in present ==> h in c && h in e && e[h] == c[h]
    ensures SameNodes(GraphOf(sha, c, refs), GraphOf(sha, e, refs))
  {
    var g, k := GraphOf(sha, c, refs), GraphOf(sha, e, refs);
    SameReaders(sha, c, e, refs);
    forall r | ReachesTree(g, r) || ReachesDirectory(g, r) ensures SameContent(g, k, r.hash) { assert Reaches(g, r); }
  }

  lemma SameReaders(sha: Bytes -> string, c: map<string, Bytes>, e: map<string, Bytes>, refs: ActionReferences)
    ensures GraphOf(sha, e, refs) == GraphOf(sha, c, refs).(content := e)
  {
  }

  // ----- certified copies -----

  /** The entries of the listed hashes are filed under their own hash. */
  ghost predicate Certified(sha: Bytes -> string, content: map<string, Bytes>, hashes: set<string>) {
    forall h :: h in hashes ==> h in content && sha(content[h]) == h
  }

  ghost predicate CollisionFree(sha: Bytes -> string, c: map<string, Bytes>, e: map<string, Bytes>) {
    forall h, l :: h in c && l in e && sha(c[h]) == sha(e[l]) ==> c[h] == e[l]
  }

  /**
   * A verdict about one copy of the storage holds of every other that has certified entries for what was confirmed,
   * whatever else it holds.
   */
  lemma VouchedOnCertified(sha: Bytes -> string, view: map<string, Bytes>, backend: map<string, Bytes>, data: Bytes,
                           confirmed: set<string>)
    requires Vouched(sha, view, data, confirmed)
    requires Certified(sha, view, confirmed) && Certified(sha, backend, confirmed) && CollisionFree(sha, view, backend)
    ensures Vouched(sha, backend, data, confirmed)
  {
    AgreeOnPresent(sha, view, backend, ActionResultOf(data).value, confirmed);
    VouchedAgrees(sha, view, backend, data, confirmed);
  }

  /** The hashes a passing validation asks about. */
  ghost function Asked(g: Graph, present: set<string>): set<string> {
    set h | h in present && HashReached(g, h)
  }

  ghost predicate HashReached(g: Graph, h: string) { exists r :: Reaches(g, r) && r.hash == h }

  /** Only those count. */
  lemma AskedSuffice(sha: Bytes -> string, content: map<string, Bytes>, data: Bytes, present: set<string>, confirmed: set<string>)
    requires Vouched(sha, content, data, present)
    requires Asked(GraphOf(sha, content, ActionResultOf(data).value), present) <= confirmed
    ensures Vouched(sha, content, data, confirmed)
  {
    var g := GraphOf(sha, content, ActionResultOf(data).value);
    forall r | Reaches(g, r) ensures r.hash in confirmed { assert HashReached(g, r.hash); }
  }

  // ----- collected closures -----

  /** Every entry is filed under its own hash, and its bytes are among those that occur. */
  ghost predicate Genuine(sha: Bytes -> string, handled: Bytes -> bool, content: map<string, Bytes>) {
    forall h :: h in content ==> sha(content[h]) == h && handled(content[h])
  }

  /** The closure that a passing validation of the bytes against this storage collects. */
  ghost predicate CollectedFrom(sha: Bytes -> string, handled: Bytes -> bool, content: map<string, Bytes>, data: Bytes,
                                closure: seq<DigestReference>)
  {
    && Genuine(sha, handled, content) && Vouched(sha, content, data, content.Keys)
    && ExactClosure(GraphOf(sha, content, ActionResultOf(data).value), closure)
  }

  ghost predicate AreRealHashes(g: Graph, hashes: set<string>) { forall h :: h in hashes <==> RealHash(g, h) }

  /** The hashes are exactly those of the real objects the bytes reach, in some storage where all of them are sound. */
  ghost predicate ClosureHashes(sha: Bytes -> string, handled: Bytes -> bool, data: Bytes, hashes: set<string>) {
    exists content ::
      && Genuine(sha, handled, content) && Vouched(sha, content, data, content.Keys)
      && AreRealHashes(GraphOf(sha, content, ActionResultOf(data).value), hashes)
  }

  lemma ExactClosureHashes(g: Graph, closure: seq<DigestReference>)
    requires ExactClosure(g, closure)
    ensures AreRealHashes(g, RealHashes(closure)) && DistinctHashes(closure)
  {
    forall h ensures h in RealHashes(closure) <==> RealHash(g, h) {
      if h in RealHashes(closure) {
        var r :| r in closure && !IsImplicitEmpty(r) && r.hash == h;
        assert Reaches(g, r);
      }
      if RealHash(g, h) {
        assert HasHash(closure, h);
        var i :| 0 <= i < |closure| && closure[i].hash == h;
        assert closure[i] in closure;
      }
    }
    forall i, j | 0 <= i < j < |closure| ensures closure[i].hash != closure[j].hash { LtIrreflexive(closure[i].hash); }
  }

  lemma SortedClosureHashes(closure: seq<DigestReference>)
    ensures RealHashes(SortReferences(closure)) <= RealHashes(closure)
    ensures DistinctHashes(closure) ==> RealHashes(SortReferences(closure)) == RealHashes(closure)
  {
    SortReferencesMembers(closure);
    if DistinctHashes(closure) {
      forall r, q | r in closure && q in closure && r.hash == q.hash ensures r.size == q.size {
        DistinctHashesInjective(closure, r, q);
      }
    }
  }

  /** Staging sorts the collected closure; its hashes stay those of the real objects the bytes reach. */
  lemma CollectedHashes(sha: Bytes -> string, handled: Bytes -> bool, content: map<string, Bytes>, data: Bytes,
                        closure: seq<DigestReference>)
    requires CollectedFrom(sha, handled, content, data, closure)
    ensures ClosureHashes(sha, handled, data, RealHashes(SortReferences(closure)))
    ensures RealHashes(SortReferences(closure)) == RealHashes(closure) <= content.Keys
  {
    var g := GraphOf(sha, content, ActionResultOf(data).value);
    ExactClosureHashes(g, closure);
    SortedClosureHashes(closure);
    forall h | h in RealHashes(closure) ensures h in content.Keys {
      assert RealHash(g, h);
      var r :| Reaches(g, r) && !IsImplicitEmpty(r) && r.hash == h;
    }
  }

  lemma SameRealHashes(g: Graph, k: Graph)
    requires SameNodes(g, k)
    ensures forall h :: RealHash(g, h) <==> RealHash(k, h)
  {
    SameReach(g, k);
    forall h ensures RealHash(g, h) <==> RealHash(k, h) {
      if RealHash(g, h) { var r :| Reaches(g, r) && !IsImplicitEmpty(r) && r.hash == h; assert Reaches(k, r); }
      if RealHash(k, h) { var r :| Reaches(k, r) && !IsImplicitEmpty(r) && r.hash == h; assert Reaches(g, r); }
    }
  }

  lemma ExactClosureAgrees(g: Graph, k: Graph, closure: seq<DigestReference>)
    requires SameNodes(g, k) && ExactClosure(g, closure)
    ensures ExactClosure(k, closure)
  {
    SameReach(g, k);
    SameRealHashes(g, k);
  }

  function Restrict(content: map<string, Bytes>, hashes: set<string>): map<string, Bytes> {
    map h | h in content && h in hashes :: content[h]
  }

  /** What a passing validation of a larger storage collects can be collected from the objects it was told about. */
  lemma PassedCollects(sha: Bytes -> string, handled: Bytes -> bool, content: map<string, Bytes>, data: Bytes,
                       present: set<string>, closure: seq<DigestReference>)
    requires Vouched(sha, content, data, present) && present <= content.Keys
    requires ExactClosure(GraphOf(sha, content, ActionResultOf(data).value), closure)
    requires Genuine(sha, handled, Restrict(content, present))
    ensures CollectedFrom(sha, handled, Restrict(content, present), data, closure)
  {
    var small := Restrict(content, present);
    var refs := ActionResultOf(data).value;
    AgreeOnPresent(sha, content, small, refs, present);
    VouchedAgrees(sha, content, small, data, present);
    assert small.Keys == present;
    ExactClosureAgrees(GraphOf(sha, content, refs), GraphOf(sha, small, refs), closure);
  }

  /** An object that is reached only as the implicit empty one is empty. */
  lemma UnrealIsEmpty(g: Graph, h: string)
    requires Sound(g) && HashReached(g, h) && h in g.content && !RealHash(g, h)
    ensures h == EMPTY_SHA256 && g.content[h] == []
  {
    var r :| Reaches(g, r) && r.hash == h;
    assert IsImplicitEmpty(r) && !ReachesBlob(g, r);
  }

  /**
   * Any genuine storage that holds the real objects, together with the implicit empty blob, holds a complete and
   * sound closure of the bytes.
   */
  lemma RealHashesSuffice(sha: Bytes -> string, handled: Bytes -> bool, data: Bytes,
                          hashes: set<string>, blobs: map<string, Bytes>)
    requires ClosureHashes(sha, handled, data, hashes) && Genuine(sha, handled, blobs) && hashes <= blobs.Keys
    requires forall a, b :: handled(a) && handled(b) && sha(a) == sha(b) ==> a == b
    ensures var full := PutIfAbsent(blobs, EMPTY_SHA256, []);
      Vouched(sha, full, data, full.Keys) && AreRealHashes(GraphOf(sha, full, ActionResultOf(data).value), hashes)
  {
    var content :|
      && Genuine(sha, handled, content) && Vouched(sha, content, data, content.Keys)
      && AreRealHashes(GraphOf(sha, content, ActionResultOf(data).value), hashes);
    var full := PutIfAbsent(blobs, EMPTY_SHA256, []);
    var g := GraphOf(sha, content, ActionResultOf(data).value);
    var asked := Asked(g, content.Keys);
    AskedSuffice(sha, content, data, content.Keys, asked);
    forall h | h in asked ensures h in content && h in full && full[h] == content[h] {
      if !RealHash(g, h) { UnrealIsEmpty(g, h); }
    }
    AgreeOnPresent(sha, content, full, ActionResultOf(data).value, asked);
    VouchedAgrees(sha, content, full, data, asked);
    VouchedForMore(sha, full, data, asked, full.Keys);
    SameRealHashes(g, GraphOf(sha, full, ActionResultOf(data).value));
  }

  lemma VouchedForMore(sha: Bytes -> string, content: map<string, Bytes>, data: Bytes, confirmed: set<string>, more: set<string>)
    requires Vouched(sha, content, data, confirmed) && confirmed <= more
    ensures Vouched(sha, content, data, more)
  {
  }

  // ----- storage without the empty blob -----

  ghost predicate ReachesEmptyDirectory(g: Graph) { exists r :: ReachesDirectory(g, r) && r.hash == EMPTY_SHA256 }

  /** Both graphs hold everything they reach, and agree where they overlap. */
  ghost predicate BothComplete(g: Graph, k: Graph) {
    && k.treeOf == g.treeOf && k.directoryOf == g.directoryOf && k.refs == g.refs
    && AllPresent(g, g.content.Keys) && AllPresent(k, k.content.Keys)
    && forall h :: h in g.content && h in k.content ==> g.content[h] == k.content[h]
  }

  lemma {:induction false} PathInBoth(g: Graph, k: Graph, path: seq<DigestReference>, r: DigestReference)
    requires BothComplete(g, k) && DirectoryPath(g, path, r)
    ensures DirectoryPath(k, path, r)
    decreases |path|
  {
    if |path| > 1 {
      var init, last := path[..|path| - 1], path[|path| - 2];
      PrefixIsPath(g, path, r);
      PathInBoth(g, k, init, last);
      assert ReachesDirectory(g, last) && ReachesDirectory(k, last);
      assert Reaches(g, last) && Reaches(k, last);
      assert DirectoryAt(g, last) == DirectoryAt(k, last);
      PathGoesOn(k, path, r);
    }
  }

  lemma CompleteAgree(g: Graph, k: Graph)
    requires BothComplete(g, k)
    ensures SameNodes(g, k)
  {
    forall r | ReachesTree(g, r) || ReachesDirectory(g, r) ensures SameContent(g, k, r.hash) {
      if ReachesDirectory(g, r) {
        var path :| DirectoryPath(g, path, r);
        PathInBoth(g, k, path, r);
        assert ReachesDirectory(k, r);
      }
      assert Reaches(g, r) && Reaches(k, r);
    }
  }

  /** Genuine storage with a complete closure holds all the real hashes. */
  lemma CompleteHoldsReal(sha: Bytes -> string, handled: Bytes -> bool, data: Bytes,
                          hashes: set<string>, blobs: map<string, Bytes>)
    requires ClosureHashes(sha, handled, data, hashes) && Genuine(sha, handled, blobs) && Vouched(sha, blobs, data, blobs.Keys)
    requires forall a, b :: handled(a) && handled(b) && sha(a) == sha(b) ==> a == b
    ensures hashes <= blobs.Keys
  {
    var content :|
      && Genuine(sha, handled, content) && Vouched(sha, content, data, content.Keys)
      && AreRealHashes(GraphOf(sha, content, ActionResultOf(data).value), hashes);
    var refs := ActionResultOf(data).value;
    var g, k := GraphOf(sha, content, refs), GraphOf(sha, blobs, refs);
    SameReaders(sha, content, blobs, refs);
    CompleteAgree(g, k);
    SameRealHashes(g, k);
    forall h | h in hashes ensures h in blobs { assert RealHash(k, h); }
  }

  lemma EmptyDirectoryAddsNothing(g: Graph, k: Graph)
    requires EMPTY_SHA256 !in k.content && g == k.(content := k.content[EMPTY_SHA256 := []])
    requires g.directoryOf([]) == Some(Directory([], [])) && g.treeOf([]) == None
    ensures forall r :: ReachesDirectory(g, r) <==> ReachesDirectory(k, r)
    ensures forall r :: ReachesBlob(g, r) <==> ReachesBlob(k, r)
  {
    forall r ensures DirectoryAt(g, r) == DirectoryAt(k, r) && TreeFilesAt(g, r) == TreeFilesAt(k, r) {}
    forall r ensures ReachesDirectory(g, r) <==> ReachesDirectory(k, r) {
      if ReachesDirectory(g, r) { var path :| DirectoryPath(g, path, r); SameSteps(g, k, path, r); }
      if ReachesDirectory(k, r) { var path :| DirectoryPath(k, path, r); SameSteps(g, k, path, r); }
    }
    forall r ensures FileOfTree(g, r) <==> FileOfTree(k, r) {}
    forall r ensures FileOfDirectory(g, r) <==> FileOfDirectory(k, r) {}
  }

  lemma SameSteps(g: Graph, k: Graph, path: seq<DigestReference>, r: DigestReference)
    requires k.refs == g.refs && forall d :: DirectoryAt(g, d) == DirectoryAt(k, d)
    ensures DirectoryPath(g, path, r) <==> DirectoryPath(k, path, r)
  {
    forall i | 0 <= i < |path| - 1 ensures Subdirectory(g, path, i) <==> Subdirectory(k, path, i) {}
  }

  /** A graph complete with the empty blob is complete without it, unless it reaches the empty directory. */
  lemma CompleteWithoutEmpty(g: Graph, k: Graph)
    requires EMPTY_SHA256 !in k.content && g == k.(content := k.content[EMPTY_SHA256 := []])
    requires g.directoryOf([]) == Some(Directory([], [])) && g.treeOf([]) == None
    requires Sound(g) && AllPresent(g, g.content.Keys) && !RealHash(g, EMPTY_SHA256) && !ReachesEmptyDirectory(k)
    ensures Sound(k) && AllPresent(k, k.content.Keys)
  {
    EmptyDirectoryAddsNothing(g, k);
    NotTooManyAgrees(g, k);
    forall r | Reaches(k, r) ensures r.hash in k.content {
      assert Reaches(g, r);
      assert r.hash in g.content;
    }
  }

  /**
   * Which genuine storage holds a complete and sound closure of the bytes: it holds the real objects and, if the bytes
   * reach the empty directory, the empty blob as well.
   */
  lemma CompleteIff(sha: Bytes -> string, handled: Bytes -> bool, data: Bytes,
                    hashes: set<string>, blobs: map<string, Bytes>)
    requires ClosureHashes(sha, handled, data, hashes) && Genuine(sha, handled, blobs)
    requires forall a, b :: handled(a) && handled(b) && sha(a) == sha(b) ==> a == b
    ensures ActionResultOf(data).Some?
    ensures Vouched(sha, blobs, data, blobs.Keys) <==>
      hashes <= blobs.Keys
      && (EMPTY_SHA256 in blobs || !ReachesEmptyDirectory(GraphOf(sha, blobs, ActionResultOf(data).value)))
  {
    if Vouched(sha, blobs, data, blobs.Keys) {
      CompleteHoldsReal(sha, handled, data, hashes, blobs);
      PresentReachesNoOther(GraphOf(sha, blobs, ActionResultOf(data).value), blobs.Keys);
    } else if hashes <= blobs.Keys {
      RealHashesSuffice(sha, handled, data, hashes, blobs);
      if EMPTY_SHA256 !in blobs && !ReachesEmptyDirectory(GraphOf(sha, blobs, ActionResultOf(data).value)) {
        VouchedWithoutEmpty(sha, data, hashes, blobs);
      }
    }
  }

  lemma PresentReachesNoOther(g: Graph, present: set<string>)
    requires AllPresent(g, present)
    ensures EMPTY_SHA256 in present || !ReachesEmptyDirectory(g)
  {
    if ReachesEmptyDirectory(g) {
      var r :| ReachesDirectory(g, r) && r.hash == EMPTY_SHA256;
      assert Reaches(g, r);
    }
  }

  lemma VouchedWithoutEmpty(sha: Bytes -> string, data: Bytes, hashes: set<string>, blobs: map<string, Bytes>)
    requires EMPTY_SHA256 !in blobs && hashes <= blobs.Keys
    requires var full := blobs[EMPTY_SHA256 := []];
      Vouched(sha, full, data, full.Keys) && AreRealHashes(GraphOf(sha, full, ActionResultOf(data).value), hashes)
    requires !ReachesEmptyDirectory(GraphOf(sha, blobs, ActionResultOf(data).value))
    ensures Vouched(sha, blobs, data, blobs.Keys)
  {
    var refs := ActionResultOf(data).value;
    var g, k := GraphOf(sha, blobs[EMPTY_SHA256 := []], refs), GraphOf(sha, blobs, refs);
    SameReaders(sha, blobs, blobs[EMPTY_SHA256 := []], refs);
    EmptyMessages(sha);
    CompleteWithoutEmpty(g, k);
  }
}
