/** What the validator has looked at so far, and what that says about the graph. */
module Validation {
  import opened Common
  import opened References
  import opened Closures

  /** The validator's record: how many objects it reserved, and the digests it validated per class. */
  datatype Record = Record(
    objects: int,
    blobs: map<string, int>,
    trees: map<string, int>,
    directories: map<string, int>,
    closure: map<string, DigestReference>)

  const EMPTY_RECORD := Record(0, map[], map[], map[], map[])

  function Ref(m: map<string, int>, h: string): DigestReference
    requires h in m
  {
    DigestReference(h, m[h])
  }

  ghost predicate RecordedReached(g: Graph, s: Record) {
    && (forall h :: h in s.blobs ==> ReachesBlob(g, Ref(s.blobs, h)))
    && (forall h :: h in s.trees ==> ReachesTree(g, Ref(s.trees, h)))
    && (forall h :: h in s.directories ==> ReachesDirectory(g, Ref(s.directories, h)))
  }

  ghost predicate Counted(s: Record) {
    s.objects == |s.blobs| + |s.trees| + |s.directories|
  }

  /** The hashes whose references belong to the collected closure. */
  ghost predicate Collectable(s: Record, h: string) {
    || h in s.blobs
    || (h in s.trees && !IsImplicitEmpty(Ref(s.trees, h)))
    || (h in s.directories && !IsImplicitEmpty(Ref(s.directories, h)))
  }

  ghost predicate ClosureCollected(g: Graph, collect: bool, s: Record) {
    if collect then
      && (forall h :: h in s.closure <==> Collectable(s, h))
      && (forall h :: h in s.closure ==>
           s.closure[h].hash == h && Reaches(g, s.closure[h]) && !IsImplicitEmpty(s.closure[h]))
    else s.closure == map[]
  }

  ghost predicate BlobDone(s: Record, r: DigestReference) { IsImplicitEmpty(r) || Recorded(s.blobs, r) }

  ghost predicate BlobsDone(s: Record, refs: seq<DigestReference>) { forall r :: r in refs ==> BlobDone(s, r) }

  /** The object is present with the declared size. */
  ghost predicate Stored(g: Graph, present: set<string>, r: DigestReference) {
    r.hash in present && r.hash in g.content && |g.content[r.hash]| == r.size
  }

  ghost predicate TreeDone(g: Graph, s: Record, present: set<string>, r: DigestReference) {
    Stored(g, present, r) && g.treeOf(g.content[r.hash]).Some? && BlobsDone(s, TreeFilesAt(g, r))
  }

  ghost predicate DirectoryDone(g: Graph, s: Record, present: set<string>, r: DigestReference) {
    Stored(g, present, r) && g.directoryOf(g.content[r.hash]).Some? && BlobsDone(s, DirectoryAt(g, r).files)
  }

  /** Trees and directories whose contents are being looked at. */
  datatype Busy = Busy(trees: set<string>, directories: set<string>)

  const NONE_BUSY := Busy({}, {})

  ghost predicate ObjectsDone(g: Graph, s: Record, present: set<string>, busy: Busy) {
    && (forall h :: h in s.blobs ==> h in present)
    && (forall h :: h in s.trees && h !in busy.trees ==> TreeDone(g, s, present, Ref(s.trees, h)))
    && (forall h :: h in s.directories && h !in busy.directories ==> DirectoryDone(g, s, present, Ref(s.directories, h)))
  }

  /** The trees and directories looked at were loaded, so they are held locally. */
  ghost predicate NodesHeld(s: Record, local: set<string>, busy: Busy) {
    && (forall h :: h in s.trees && h !in busy.trees ==> h in local)
    && (forall h :: h in s.directories && h !in busy.directories ==> h in local)
  }

  ghost predicate NodesLoaded(g: Graph, local: set<string>) {
    forall r :: ReachesTree(g, r) || ReachesDirectory(g, r) ==> r.hash in local
  }

  /** Everything recorded is reached, counted, collected and, unless busy, validated. */
  ghost predicate RecordOk(g: Graph, collect: bool, s: Record, present: set<string>, busy: Busy) {
    && RecordedReached(g, s) && Counted(s) && s.objects <= MAX_OBJECTS && ClosureCollected(g, collect, s)
    && ObjectsDone(g, s, present, busy)
  }

  ghost predicate MapGrows(m: map<string, int>, n: map<string, int>) {
    forall h :: h in m ==> h in n && n[h] == m[h]
  }

  lemma BlobsDoneGrows(s: Record, t: Record, refs: seq<DigestReference>)
    requires MapGrows(s.blobs, t.blobs) && BlobsDone(s, refs)
    ensures BlobsDone(t, refs)
  {
  }

  lemma BlobsDoneNext(s: Record, t: Record, refs: seq<DigestReference>, i: nat)
    requires i < |refs| && BlobsDone(s, refs[..i]) && MapGrows(s.blobs, t.blobs) && BlobDone(t, refs[i])
    ensures BlobsDone(t, refs[..i + 1])
  {
    BlobsDoneGrows(s, t, refs[..i]);
    assert refs[..i + 1] == refs[..i] + [refs[i]];
  }

  lemma TreeDoneGrows(g: Graph, s: Record, t: Record, p: set<string>, q: set<string>, r: DigestReference)
    requires MapGrows(s.blobs, t.blobs) && p <= q && TreeDone(g, s, p, r)
    ensures TreeDone(g, t, q, r)
  {
    BlobsDoneGrows(s, t, TreeFilesAt(g, r));
  }

  lemma DirectoryDoneGrows(g: Graph, s: Record, t: Record, p: set<string>, q: set<string>, r: DigestReference)
    requires MapGrows(s.blobs, t.blobs) && p <= q && DirectoryDone(g, s, p, r)
    ensures DirectoryDone(g, t, q, r)
  {
    BlobsDoneGrows(s, t, DirectoryAt(g, r).files);
  }

  /** More blobs and later additions to the storage keep what is done done. */
  lemma ObjectsDoneGrow(g: Graph, s: Record, t: Record, p: set<string>, q: set<string>, busy: Busy)
    requires ObjectsDone(g, s, p, busy) && p <= q && MapGrows(s.blobs, t.blobs)
    requires t.trees == s.trees && t.directories == s.directories
    requires forall h :: h in t.blobs ==> h in s.blobs || h in q
    ensures ObjectsDone(g, t, q, busy)
  {
    forall h | h in t.trees && h !in busy.trees ensures TreeDone(g, t, q, Ref(t.trees, h)) {
      TreeDoneGrows(g, s, t, p, q, Ref(s.trees, h));
    }
    forall h | h in t.directories && h !in busy.directories ensures DirectoryDone(g, t, q, Ref(t.directories, h)) {
      DirectoryDoneGrows(g, s, t, p, q, Ref(s.directories, h));
    }
  }

  lemma RecordOkLater(g: Graph, collect: bool, s: Record, p: set<string>, q: set<string>, busy: Busy)
    requires RecordOk(g, collect, s, p, busy) && p <= q
    ensures RecordOk(g, collect, s, q, busy)
  {
    ObjectsDoneGrow(g, s, s, p, q, busy);
  }

  // ----- recording one more object -----

  function CollectInto(collect: bool, closure: map<string, DigestReference>, r: DigestReference): map<string, DigestReference> {
    if collect && !IsImplicitEmpty(r) then closure[r.hash := r] else closure
  }

  function WithBlob(collect: bool, s: Record, r: DigestReference): Record {
    s.(objects := s.objects + 1, blobs := s.blobs[r.hash := r.size], closure := CollectInto(collect, s.closure, r))
  }

  function WithTree(collect: bool, s: Record, r: DigestReference): Record {
    s.(objects := s.objects + 1, trees := s.trees[r.hash := r.size], closure := CollectInto(collect, s.closure, r))
  }

  function WithDirectory(collect: bool, s: Record, r: DigestReference): Record {
    s.(objects := s.objects + 1, directories := s.directories[r.hash := r.size], closure := CollectInto(collect, s.closure, r))
  }

  lemma WithBlobCollected(g: Graph, collect: bool, s: Record, r: DigestReference)
    requires ClosureCollected(g, collect, s) && r.hash !in s.blobs && ReachesBlob(g, r)
    ensures ClosureCollected(g, collect, WithBlob(collect, s, r))
  {
    var t := WithBlob(collect, s, r);
    assert Reaches(g, r);
    forall h ensures Collectable(t, h) <==> Collectable(s, h) || h == r.hash {}
  }

  lemma WithTreeCollected(g: Graph, collect: bool, s: Record, r: DigestReference)
    requires ClosureCollected(g, collect, s) && r.hash !in s.trees && ReachesTree(g, r)
    ensures ClosureCollected(g, collect, WithTree(collect, s, r))
  {
    var t := WithTree(collect, s, r);
    assert Reaches(g, r);
    forall h ensures Collectable(t, h) <==> Collectable(s, h) || (h == r.hash && !IsImplicitEmpty(r)) {}
  }

  lemma WithDirectoryCollected(g: Graph, collect: bool, s: Record, r: DigestReference)
    requires ClosureCollected(g, collect, s) && r.hash !in s.directories && ReachesDirectory(g, r)
    ensures ClosureCollected(g, collect, WithDirectory(collect, s, r))
  {
    var t := WithDirectory(collect, s, r);
    assert Reaches(g, r);
    forall h ensures Collectable(t, h) <==> Collectable(s, h) || (h == r.hash && !IsImplicitEmpty(r)) {}
  }

  lemma CountOneMore(m: map<string, int>, h: string, n: int)
    requires h !in m
    ensures |m[h := n]| == |m| + 1
  {
    assert m[h := n].Keys == m.Keys + {h};
  }

  lemma ReachedWithBlob(g: Graph, collect: bool, s: Record, r: DigestReference)
    requires RecordedReached(g, s) && Counted(s) && r.hash !in s.blobs && ReachesBlob(g, r)
    ensures RecordedReached(g, WithBlob(collect, s, r)) && Counted(WithBlob(collect, s, r))
  {
    var t := WithBlob(collect, s, r);
    CountOneMore(s.blobs, r.hash, r.size);
    forall h | h in t.blobs ensures ReachesBlob(g, Ref(t.blobs, h)) {
      if h == r.hash { assert Ref(t.blobs, h) == r; } else { assert Ref(t.blobs, h) == Ref(s.blobs, h); }
    }
  }

  lemma ReachedWithTree(g: Graph, collect: bool, s: Record, r: DigestReference)
    requires RecordedReached(g, s) && Counted(s) && r.hash !in s.trees && ReachesTree(g, r)
    ensures RecordedReached(g, WithTree(collect, s, r)) && Counted(WithTree(collect, s, r))
  {
    var t := WithTree(collect, s, r);
    CountOneMore(s.trees, r.hash, r.size);
    forall h | h in t.trees ensures ReachesTree(g, Ref(t.trees, h)) {
      if h == r.hash { assert Ref(t.trees, h) == r; } else { assert Ref(t.trees, h) == Ref(s.trees, h); }
    }
  }

  lemma ReachedWithDirectory(g: Graph, collect: bool, s: Record, r: DigestReference)
    requires RecordedReached(g, s) && Counted(s) && r.hash !in s.directories && ReachesDirectory(g, r)
    ensures RecordedReached(g, WithDirectory(collect, s, r)) && Counted(WithDirectory(collect, s, r))
  {
    var t := WithDirectory(collect, s, r);
    CountOneMore(s.directories, r.hash, r.size);
    forall h | h in t.directories ensures ReachesDirectory(g, Ref(t.directories, h)) {
      if h == r.hash { assert Ref(t.directories, h) == r; } else { assert Ref(t.directories, h) == Ref(s.directories, h); }
    }
  }

  /** A new blob that is present. */
  lemma BlobRecorded(g: Graph, collect: bool, s: Record, p: set<string>, q: set<string>, busy: Busy, r: DigestReference)
    requires RecordOk(g, collect, s, p, busy) && p <= q && r.hash !in s.blobs && ReachesBlob(g, r) && r.hash in q
    requires s.objects + 1 <= MAX_OBJECTS
    ensures RecordOk(g, collect, WithBlob(collect, s, r), q, busy)
  {
    ReachedWithBlob(g, collect, s, r);
    WithBlobCollected(g, collect, s, r);
    ObjectsDoneGrow(g, s, WithBlob(collect, s, r), p, q, busy);
  }

  /** A new tree, whose contents are about to be looked at. */
  lemma TreeRecorded(g: Graph, collect: bool, s: Record, p: set<string>, r: DigestReference)
    requires RecordOk(g, collect, s, p, NONE_BUSY) && r.hash !in s.trees && ReachesTree(g, r)
    requires s.objects + 1 <= MAX_OBJECTS
    ensures RecordOk(g, collect, WithTree(collect, s, r), p, Busy({r.hash}, {}))
  {
    var t := WithTree(collect, s, r);
    ReachedWithTree(g, collect, s, r);
    WithTreeCollected(g, collect, s, r);
    forall h | h in t.trees && h != r.hash ensures TreeDone(g, t, p, Ref(t.trees, h)) {
      TreeDoneGrows(g, s, t, p, p, Ref(s.trees, h));
    }
    forall h | h in t.directories ensures DirectoryDone(g, t, p, Ref(t.directories, h)) {
      DirectoryDoneGrows(g, s, t, p, p, Ref(s.directories, h));
    }
  }

  lemma DirectoryRecorded(g: Graph, collect: bool, s: Record, p: set<string>, r: DigestReference)
    requires RecordOk(g, collect, s, p, NONE_BUSY) && r.hash !in s.directories && ReachesDirectory(g, r)
    requires s.objects + 1 <= MAX_OBJECTS
    ensures RecordOk(g, collect, WithDirectory(collect, s, r), p, Busy({}, {r.hash}))
  {
    var t := WithDirectory(collect, s, r);
    ReachedWithDirectory(g, collect, s, r);
    WithDirectoryCollected(g, collect, s, r);
    forall h | h in t.trees ensures TreeDone(g, t, p, Ref(t.trees, h)) {
      TreeDoneGrows(g, s, t, p, p, Ref(s.trees, h));
    }
    forall h | h in t.directories && h != r.hash ensures DirectoryDone(g, t, p, Ref(t.directories, h)) {
      DirectoryDoneGrows(g, s, t, p, p, Ref(s.directories, h));
    }
  }

  // ----- failures -----

  /** More objects recorded than the limit means the graph has too many. */
  lemma {:induction false} OverLimit(g: Graph, s: Record)
    requires RecordedReached(g, s) && Counted(s) && s.objects > MAX_OBJECTS
    ensures TooMany(g)
  {
    forall h | h in s.blobs.Keys ensures BlobHash(g, h) { assert Ref(s.blobs, h).hash == h; }
    forall h | h in s.trees.Keys ensures TreeHash(g, h) { assert Ref(s.trees, h).hash == h; }
    forall h | h in s.directories.Keys ensures DirectoryHash(g, h) { assert Ref(s.directories, h).hash == h; }
    assert HashesOfGraph(g, s.blobs.Keys, s.trees.Keys, s.directories.Keys);
  }

  // ----- the limit -----

  /** The hashes of the listed references, which are as many. */
  lemma {:induction false} HashesOfDistinct(refs: seq<DigestReference>) returns (hashes: set<string>)
    requires DistinctHashes(refs)
    ensures |hashes| == |refs| && forall h :: h in hashes <==> exists r :: r in refs && r.hash == h
  {
    if refs == [] {
      hashes := {};
    } else {
      var init, last := refs[..|refs| - 1], refs[|refs| - 1];
      assert refs == init + [last];
      var before := HashesOfDistinct(init);
      hashes := before + {last.hash};
      forall r | r in init ensures r.hash != last.hash {
        var i :| 0 <= i < |init| && init[i] == r;
        assert refs[i].hash != refs[|refs| - 1].hash;
      }
      assert last.hash !in before;
    }
  }

  /** The hashes of a graph that names nothing but these blobs. */
  lemma OnlyTheseHashes(g: Graph, hashes: set<string>)
    requires g.refs.trees == [] && g.refs.directories == []
    requires forall r :: r in g.refs.blobs ==> !IsImplicitEmpty(r)
    requires forall h :: h in hashes <==> exists r :: r in g.refs.blobs && r.hash == h
    ensures HashesOfGraph(g, hashes, {}, {})
    ensures forall b, t, d :: HashesOfGraph(g, b, t, d) ==> b <= hashes && t == {} && d == {}
  {
    forall q ensures !ReachesTree(g, q) && !ReachesDirectory(g, q) && (ReachesBlob(g, q) ==> q in g.refs.blobs) {
      OnlyBlobs(g, q);
    }
    forall h | h in hashes ensures BlobHash(g, h) {
      var r :| r in g.refs.blobs && r.hash == h;
      assert ReachesBlob(g, r);
    }
    forall h ensures !TreeHash(g, h) && !DirectoryHash(g, h) {}
    forall b, t, d | HashesOfGraph(g, b, t, d) ensures b <= hashes && t == {} && d == {} {
      forall h | h in b ensures h in hashes { assert BlobHash(g, h); }
      assert forall h :: h !in t && h !in d;
    }
  }

  /**
   * The limit in numbers: an action result that names nothing but different blobs is sound, and so passes validation once
   * they are all there, exactly if there are at most a hundred thousand of them.
   */
  lemma SoundUpToTheLimit(g: Graph)
    requires g.refs.trees == [] && g.refs.directories == [] && DistinctHashes(g.refs.blobs)
    requires forall r :: r in g.refs.blobs ==> !IsImplicitEmpty(r)
    ensures Sound(g) <==> |g.refs.blobs| <= 100_000
  {
    var hashes := HashesOfDistinct(g.refs.blobs);
    OnlyTheseHashes(g, hashes);
    forall q ensures !ReachesTree(g, q) && !ReachesDirectory(g, q) && (ReachesBlob(g, q) ==> q in g.refs.blobs) {
      OnlyBlobs(g, q);
    }
    SizesOfDistinct(g.refs.blobs);
    forall b, t, d | HashesOfGraph(g, b, t, d) ensures |b| + |t| + |d| <= |hashes| { SubsetCardinality(b, hashes); }
  }

  lemma SizesOfDistinct(refs: seq<DigestReference>)
    requires DistinctHashes(refs)
    ensures forall r, q :: r in refs && q in refs && r.hash == q.hash ==> r.size == q.size
  {
    forall r, q | r in refs && q in refs && r.hash == q.hash ensures r == q { DistinctHashesInjective(refs, r, q); }
  }

  // ----- success -----

  /** When everything reachable is recorded, the graph is no larger than the record. */
  lemma WithinLimit(g: Graph, s: Record)
    requires Counted(s) && s.objects <= MAX_OBJECTS
    requires forall r :: ReachesBlob(g, r) ==> Recorded(s.blobs, r)
    requires forall r :: ReachesTree(g, r) ==> Recorded(s.trees, r)
    requires forall r :: ReachesDirectory(g, r) ==> Recorded(s.directories, r)
    ensures !TooMany(g)
  {
    forall blobs, trees, directories | HashesOfGraph(g, blobs, trees, directories)
      ensures |blobs| + |trees| + |directories| <= MAX_OBJECTS
    {
      forall h | h in blobs ensures h in s.blobs.Keys { assert BlobHash(g, h); }
      forall h | h in trees ensures h in s.trees.Keys { assert TreeHash(g, h); }
      forall h | h in directories ensures h in s.directories.Keys { assert DirectoryHash(g, h); }
      SubsetCardinality(blobs, s.blobs.Keys);
      SubsetCardinality(trees, s.trees.Keys);
      SubsetCardinality(directories, s.directories.Keys);
    }
  }

  /** The blobs, trees and root directories of the action result, and every subdirectory, are validated. */
  ghost predicate Finished(g: Graph, s: Record) {
    && BlobsDone(s, g.refs.blobs)
    && (forall r :: r in g.refs.trees ==> Recorded(s.trees, r))
    && (forall r :: r in g.refs.directories ==> Recorded(s.directories, r))
    && (forall d, q :: Recorded(s.directories, d) && q in DirectoryAt(g, d).directories ==> Recorded(s.directories, q))
  }

  lemma FinishedRecordsBlob(g: Graph, collect: bool, s: Record, present: set<string>, r: DigestReference)
    requires RecordOk(g, collect, s, present, NONE_BUSY) && Finished(g, s) && ReachesBlob(g, r)
    requires forall d :: ReachesDirectory(g, d) ==> Recorded(s.directories, d)
    ensures Recorded(s.blobs, r)
  {
    if r in g.refs.blobs {
      assert BlobDone(s, r);
    } else if FileOfTree(g, r) {
      var t :| ReachesTree(g, t) && r in TreeFilesAt(g, t);
      assert Ref(s.trees, t.hash) == t;
      assert TreeDone(g, s, present, t);
    } else {
      var d :| ReachesDirectory(g, d) && r in DirectoryAt(g, d).files;
      assert Recorded(s.directories, d);
      assert Ref(s.directories, d.hash) == d;
      assert DirectoryDone(g, s, present, d);
    }
  }

  lemma FinishedRecordsAll(g: Graph, collect: bool, s: Record, present: set<string>)
    requires RecordOk(g, collect, s, present, NONE_BUSY) && Finished(g, s)
    ensures forall r :: ReachesBlob(g, r) ==> Recorded(s.blobs, r)
    ensures forall r :: ReachesTree(g, r) ==> Recorded(s.trees, r)
    ensures forall r :: ReachesDirectory(g, r) ==> Recorded(s.directories, r)
  {
    ClosedCoversReachable(g, s.directories);
    forall r | ReachesBlob(g, r) ensures Recorded(s.blobs, r) {
      FinishedRecordsBlob(g, collect, s, present, r);
    }
  }

  /** A finished validation shows that everything reachable is present and sound. */
  lemma {:induction false} FinishedMeansComplete(g: Graph, collect: bool, s: Record, present: set<string>)
    requires RecordOk(g, collect, s, present, NONE_BUSY) && Finished(g, s)
    ensures AllPresent(g, present) && Sound(g)
  {
    FinishedRecordsAll(g, collect, s, present);
    WithinLimit(g, s);
    forall t | ReachesTree(g, t) ensures TreeDone(g, s, present, t) {
      assert Ref(s.trees, t.hash) == t;
    }
    forall d | ReachesDirectory(g, d) ensures DirectoryDone(g, s, present, d) {
      assert Recorded(s.directories, d);
      assert Ref(s.directories, d.hash) == d;
    }
  }

  lemma FinishedMeansLoaded(g: Graph, collect: bool, s: Record, present: set<string>, local: set<string>)
    requires RecordOk(g, collect, s, present, NONE_BUSY) && Finished(g, s) && NodesHeld(s, local, NONE_BUSY)
    ensures NodesLoaded(g, local)
  {
    FinishedRecordsAll(g, collect, s, present);
  }

  /** The hash of a reachable object other than the implicit empty blob. */
  ghost predicate RealHash(g: Graph, h: string) {
    exists r :: Reaches(g, r) && !IsImplicitEmpty(r) && r.hash == h
  }

  /** The collected closure names exactly the real hashes of the graph. */
  lemma {:induction false} ClosureIsExact(g: Graph, s: Record, present: set<string>)
    requires RecordOk(g, true, s, present, NONE_BUSY) && Finished(g, s)
    ensures forall h :: h in s.closure <==> RealHash(g, h)
  {
    FinishedRecordsAll(g, true, s, present);
    forall h ensures h in s.closure <==> RealHash(g, h) {
      if RealHash(g, h) {
        var r :| Reaches(g, r) && !IsImplicitEmpty(r) && r.hash == h;
        assert Recorded(s.blobs, r) || Recorded(s.trees, r) || Recorded(s.directories, r);
        assert Collectable(s, h);
      }
    }
  }
}

/** The action-result validator: a worklist over a possibly cyclic graph with a bound on the objects it looks at. */
module Validator {
  import opened Common
  import opened Sorting
  import opened References
  import opened Messages
  import opened ActionResults
  import opened Trees
  import opened Closures
  import opened Validation

  datatype Lookup = Found | Missing | Fault

  /** The hashes of the objects a server holds locally, and of those its backend holds or its merged index lists. */
  datatype Presence = Presence(local: set<string>, persisted: set<string>)
  {
    predicate Includes(earlier: Presence) { earlier.local <= local && earlier.persisted <= persisted }

    predicate Within(hashes: set<string>) { local <= hashes && persisted <= hashes }

    /** Where a lookup succeeds: for publication the backend alone is asked. */
    function Available(requirePersisted: bool): set<string> { if requirePersisted then persisted else local + persisted }

    /** Where an object is known to be after a lookup succeeded: a packed store reads an object to see if it exists. */
    function Confirmed(requirePersisted: bool, packed: bool): set<string> {
      if requirePersisted then persisted else if packed then local else local + persisted
    }
  }

  /**
   * The content-addressed storage a validator looks at: a hash resolves only to the content behind it.
   * Other requests may add objects between two lookups; unreliable storage may fail.
   */
  class CasView {
    const content: map<string, Bytes>
    const packed: bool
    const reliable: bool
    var present: Presence

    constructor (content: map<string, Bytes>, present: Presence, packed: bool, reliable: bool)
      requires present.Within(content.Keys)
      ensures this.content == content && this.present == present && this.packed == packed && this.reliable == reliable
    {
      this.content, this.present, this.packed, this.reliable := content, present, packed, reliable;
    }

    /** What other requests do between two lookups. */
    method Wait()
      requires present.Within(content.Keys)
      modifies this
      ensures present.Within(content.Keys) && present.Includes(old(present))
    {
      var stored: set<string>, published: set<string> := *, *;
      present := Presence(present.local + (stored * content.Keys), present.persisted + (published * content.Keys));
    }

    method BackendExists(hash: string) returns (r: Lookup)
      requires present.Within(content.Keys)
      modifies this
      ensures present.Within(content.Keys) && present.Includes(old(present))
      ensures r == Found ==> hash in present.persisted
      ensures r == Missing ==> hash !in old(present.persisted)
      ensures r == Fault ==> !reliable
    {
      Wait();
      var fails: bool := *;
      if !reliable && fails { return Fault; }
      r := if hash in present.persisted then Found else Missing;
    }

    /** An object that is not held locally is looked for in the backend; a packed store reads it there. */
    method Exists(hash: string) returns (r: Lookup)
      requires present.Within(content.Keys)
      modifies this
      ensures present.Within(content.Keys) && present.Includes(old(present))
      ensures r == Found ==> hash in present.Confirmed(false, packed)
      ensures r == Missing ==> hash !in old(present.Available(false))
      ensures r == Fault ==> !reliable
    {
      Wait();
      if hash in present.local { return Found; }
      if packed {
        var data;
        r, data := Load(hash);
      } else {
        r := BackendExists(hash);
      }
    }

    /** An object that is not held locally is read from the backend and kept. */
    method Load(hash: string) returns (r: Lookup, data: Bytes)
      requires present.Within(content.Keys)
      modifies this
      ensures present.Within(content.Keys) && present.Includes(old(present))
      ensures r == Found ==> hash in present.local && data == content[hash]
      ensures r == Missing ==> hash !in old(present.Available(false))
      ensures r == Fault ==> !reliable
    {
      Wait();
      if hash in present.local { return Found, content[hash]; }
      data := [];
      r := BackendExists(hash);
      if r == Found {
        present := present.(local := present.local + {hash});
        data := content[hash];
      }
    }
  }

  datatype Verdict = Passed | Incomplete | Invalid | Faulted

  /** What a verdict other than Passed says about the graph and the storage at the start. */
  ghost predicate Justified(v: Verdict, g: Graph, start: set<string>, reliable: bool) {
    && (v == Incomplete ==> !AllPresent(g, start))
    && (v == Invalid ==> !Sound(g))
    && (v == Faulted ==> !reliable)
  }

  /** The graph over the storage, read with the message parsers. */
  ghost predicate GraphReads(sha: Bytes -> string, cas: CasView, g: Graph) {
    && g.content == cas.content
    && (forall b :: g.treeOf(b) == TreeOf(sha, b))
    && (forall b :: g.directoryOf(b) == DirectoryOf(b))
  }

  class ActionResultValidator {
    const cas: CasView
    const requirePersisted: bool
    const collectClosure: bool
    const sha: Bytes -> string
    var validatedObjects: int
    var validatedBlobs: map<string, int>
    var validatedTrees: map<string, int>
    var validatedDirectories: map<string, int>
    var closure: map<string, DigestReference>
    ghost const g: Graph
    ghost const start: set<string>

    constructor (sha: Bytes -> string, cas: CasView, requirePersisted: bool, collectClosure: bool, ghost g: Graph)
      requires GraphReads(sha, cas, g)
      ensures this.cas == cas && this.g == g && this.sha == sha && this.start == cas.present.Available(requirePersisted)
      ensures this.requirePersisted == requirePersisted && this.collectClosure == collectClosure
      ensures View() == EMPTY_RECORD
    {
      this.sha, this.cas, this.requirePersisted, this.collectClosure := sha, cas, requirePersisted, collectClosure;
      this.g, this.start := g, cas.present.Available(requirePersisted);
      validatedObjects, validatedBlobs, validatedTrees, validatedDirectories := 0, map[], map[], map[];
      closure := map[];
    }

    ghost function View(): Record
      reads this
    {
      Record(validatedObjects, validatedBlobs, validatedTrees, validatedDirectories, closure)
    }

    ghost predicate Valid(busy: Busy)
      reads this, cas
    {
      && GraphReads(sha, cas, g)
      && start <= cas.present.Available(requirePersisted) && cas.present.Within(cas.content.Keys)
      && RecordOk(g, collectClosure, View(), Seen(), busy) && NodesHeld(View(), cas.present.local, busy)
    }

    /** Where the objects looked up so far are known to be. */
    ghost function Seen(): set<string>
      reads this, cas
    {
      cas.present.Confirmed(requirePersisted, cas.packed)
    }

    /** Count one more object against the limit. */
    method ReserveObject() returns (ok: bool)
      modifies this`validatedObjects
      ensures validatedObjects == old(validatedObjects) + 1
      ensures ok <==> validatedObjects <= MAX_OBJECTS
    {
      validatedObjects := validatedObjects + 1;
      ok := validatedObjects <= MAX_OBJECTS;
    }

    method Collect(r: DigestReference)
      modifies this`closure
      ensures closure == CollectInto(collectClosure, old(closure), r)
    {
      if collectClosure && !IsImplicitEmpty(r) {
        closure := closure[r.hash := r];
      }
    }

    /** Remember a new blob, count it and collect it. */
    method RecordBlob(r: DigestReference) returns (ok: bool)
      modifies this
      ensures ok <==> old(validatedObjects) + 1 <= MAX_OBJECTS
      ensures ok ==> View() == WithBlob(collectClosure, old(View()), r)
      ensures validatedTrees == old(validatedTrees) && validatedDirectories == old(validatedDirectories)
    {
      validatedBlobs := validatedBlobs[r.hash := r.size];
      ok := ReserveObject();
      if ok { Collect(r); }
    }

    /** A blob only has to exist; its size is not looked up. */
    method ValidateBlob(r: DigestReference, ghost busy: Busy) returns (v: Verdict)
      requires Valid(busy) && (IsImplicitEmpty(r) || ReachesBlob(g, r))
      modifies this, cas
      ensures cas.present.Includes(old(cas.present))
      ensures v == Passed ==> Valid(busy) && BlobDone(View(), r)
      ensures v == Passed ==> MapGrows(old(validatedBlobs), validatedBlobs)
      ensures v == Passed ==> validatedObjects >= old(validatedObjects)
      ensures validatedTrees == old(validatedTrees) && validatedDirectories == old(validatedDirectories)
      ensures Justified(v, g, start, cas.reliable)
    {
      if IsImplicitEmpty(r) { return Passed; }
      if r.hash in validatedBlobs {
        assert ReachesBlob(g, Ref(validatedBlobs, r.hash));
        return if validatedBlobs[r.hash] == r.size then Passed else Invalid;
      }
      v := ValidateNewBlob(r, busy);
    }

    method ValidateNewBlob(r: DigestReference, ghost busy: Busy) returns (v: Verdict)
      requires Valid(busy) && ReachesBlob(g, r) && r.hash !in validatedBlobs
      modifies this, cas
      ensures cas.present.Includes(old(cas.present))
      ensures v == Passed ==> Valid(busy) && View() == WithBlob(collectClosure, old(View()), r)
      ensures validatedTrees == old(validatedTrees) && validatedDirectories == old(validatedDirectories)
      ensures Justified(v, g, start, cas.reliable)
    {
      ghost var before := View();
      ghost var p := Seen();
      ReachedWithBlob(g, collectClosure, before, r);
      var ok := RecordBlob(r);
      if !ok {
        OverLimit(g, WithBlob(collectClosure, before, r));
        return Invalid;
      }
      assert Reaches(g, r);
      var found := CasExists(r.hash);
      if found != Found { return if found == Missing then Incomplete else Faulted; }
      BlobRecorded(g, collectClosure, before, p, Seen(), busy, r);
      v := Passed;
    }

    /** The blobs of a list, all of them reached. */
    method ValidateBlobs(refs: seq<DigestReference>, ghost busy: Busy) returns (v: Verdict)
      requires Valid(busy) && forall r :: r in refs ==> IsImplicitEmpty(r) || ReachesBlob(g, r)
      modifies this, cas
      ensures cas.present.Includes(old(cas.present))
      ensures v == Passed ==> Valid(busy) && BlobsDone(View(), refs)
      ensures v == Passed ==> MapGrows(old(validatedBlobs), validatedBlobs)
      ensures v == Passed ==> validatedObjects >= old(validatedObjects)
      ensures validatedTrees == old(validatedTrees) && validatedDirectories == old(validatedDirectories)
      ensures Justified(v, g, start, cas.reliable)
    {
      for i := 0 to |refs|
        invariant Valid(busy) && BlobsDone(View(), refs[..i]) && cas.present.Includes(old(cas.present))
        invariant MapGrows(old(validatedBlobs), validatedBlobs) && validatedObjects >= old(validatedObjects)
        invariant validatedTrees == old(validatedTrees) && validatedDirectories == old(validatedDirectories)
      {
        ghost var before := View();
        v := ValidateBlob(refs[i], busy);
        if v != Passed { return; }
        BlobsDoneNext(before, View(), refs, i);
      }
      assert refs[..|refs|] == refs;
      v := Passed;
    }

    method CasExists(hash: string) returns (r: Lookup)
      requires cas.present.Within(cas.content.Keys)
      modifies cas
      ensures cas.present.Within(cas.content.Keys) && cas.present.Includes(old(cas.present))
      ensures r == Found ==> hash in Seen()
      ensures r == Missing ==> hash !in old(cas.present.Available(requirePersisted))
      ensures r == Fault ==> !cas.reliable
    {
      if requirePersisted {
        r := cas.BackendExists(hash);
      } else {
        r := cas.Exists(hash);
      }
    }

    /** Load an object that has to be there with the declared size. */
    method LoadCas(r: DigestReference) returns (v: Verdict, data: Bytes)
      requires start <= cas.present.Available(requirePersisted) && cas.present.Within(cas.content.Keys)
      requires g.content == cas.content && Reaches(g, r)
      modifies cas
      ensures cas.present.Within(cas.content.Keys) && cas.present.Includes(old(cas.present))
      ensures v == Passed ==> Stored(g, Seen(), r) && r.hash in cas.present.local && data == g.content[r.hash]
      ensures v == Incomplete ==> !AllPresent(g, start)
      ensures v == Faulted ==> !cas.reliable
      ensures v == Invalid ==> r.hash in g.content && |g.content[r.hash]| != r.size
    {
      data := [];
      if requirePersisted {
        var found := cas.BackendExists(r.hash);
        if found != Found { return if found == Missing then Incomplete else Faulted, []; }
      }
      var found, bytes := cas.Load(r.hash);
      if found != Found { return if found == Missing then Incomplete else Faulted, []; }
      if |bytes| != r.size { return Invalid, []; }
      v, data := Passed, bytes;
    }

    // ----- trees -----

    method RecordTree(r: DigestReference) returns (ok: bool)
      modifies this
      ensures ok <==> old(validatedObjects) + 1 <= MAX_OBJECTS
      ensures ok ==> View() == WithTree(collectClosure, old(View()), r)
    {
      validatedTrees := validatedTrees[r.hash := r.size];
      Collect(r);
      ok := ReserveObject();
    }

    method ValidateTree(r: DigestReference) returns (v: Verdict)
      requires Valid(NONE_BUSY) && ReachesTree(g, r)
      modifies this, cas
      ensures cas.present.Includes(old(cas.present))
      ensures v == Passed ==> Valid(NONE_BUSY) && Recorded(validatedTrees, r)
      ensures v == Passed ==> MapGrows(old(validatedTrees), validatedTrees) && MapGrows(old(validatedBlobs), validatedBlobs)
      ensures v == Passed ==> validatedDirectories == old(validatedDirectories)
      ensures Justified(v, g, start, cas.reliable)
    {
      if r.hash in validatedTrees {
        assert TreeDone(g, View(), Seen(), Ref(validatedTrees, r.hash));
        return if validatedTrees[r.hash] == r.size then Passed else Invalid;
      }
      v := ValidateNewTree(r);
    }

    method ValidateNewTree(r: DigestReference) returns (v: Verdict)
      requires Valid(NONE_BUSY) && ReachesTree(g, r) && r.hash !in validatedTrees
      modifies this, cas
      ensures cas.present.Includes(old(cas.present))
      ensures v == Passed ==> Valid(NONE_BUSY) && validatedTrees == old(validatedTrees)[r.hash := r.size]
      ensures v == Passed ==> MapGrows(old(validatedBlobs), validatedBlobs)
      ensures v == Passed ==> validatedDirectories == old(validatedDirectories)
      ensures Justified(v, g, start, cas.reliable)
    {
      ghost var before, p := View(), Seen();
      ReachedWithTree(g, collectClosure, before, r);
      var ok := RecordTree(r);
      if !ok {
        OverLimit(g, WithTree(collectClosure, before, r));
        return Invalid;
      }
      TreeRecorded(g, collectClosure, before, p, r);
      assert Reaches(g, r);
      var data;
      v, data := LoadCas(r);
      if v != Passed { return; }
      RecordOkLater(g, collectClosure, View(), p, Seen(), Busy({r.hash}, {}));
      v := ValidateTreeFiles(r, data);
    }

    method ValidateTreeFiles(r: DigestReference, data: Bytes) returns (v: Verdict)
      requires Valid(Busy({r.hash}, {})) && ReachesTree(g, r) && Recorded(validatedTrees, r)
      requires Stored(g, Seen(), r) && r.hash in cas.present.local && data == g.content[r.hash]
      modifies this, cas
      ensures cas.present.Includes(old(cas.present))
      ensures v == Passed ==> Valid(NONE_BUSY)
      ensures v == Passed ==> MapGrows(old(validatedBlobs), validatedBlobs)
      ensures validatedTrees == old(validatedTrees) && validatedDirectories == old(validatedDirectories)
      ensures Justified(v, g, start, cas.reliable)
    {
      var files := ParseTree(sha, data);
      if files.None? { return Invalid; }
      TreeFilesReached(g, r);
      v := ValidateBlobs(files.value, Busy({r.hash}, {}));
      if v == Passed {
        TreeFinished(g, View(), Seen(), r);
      }
    }

    method ValidateTrees(refs: seq<DigestReference>) returns (v: Verdict)
      requires Valid(NONE_BUSY) && forall r :: r in refs ==> ReachesTree(g, r)
      modifies this, cas
      ensures cas.present.Includes(old(cas.present))
      ensures v == Passed ==> Valid(NONE_BUSY) && AllRecorded(validatedTrees, refs)
      ensures v == Passed ==> MapGrows(old(validatedBlobs), validatedBlobs)
      ensures v == Passed ==> validatedDirectories == old(validatedDirectories)
      ensures Justified(v, g, start, cas.reliable)
    {
      for i := 0 to |refs|
        invariant Valid(NONE_BUSY) && AllRecorded(validatedTrees, refs[..i])
        invariant cas.present.Includes(old(cas.present))
        invariant MapGrows(old(validatedBlobs), validatedBlobs)
        invariant validatedDirectories == old(validatedDirectories)
      {
        ghost var trees := validatedTrees;
        v := ValidateTree(refs[i]);
        if v != Passed { return; }
        RecordOneMore(trees, validatedTrees, refs, i);
      }
      assert refs[..|refs|] == refs;
      v := Passed;
    }

    // ----- directories -----

    method RecordDirectory(r: DigestReference) returns (ok: bool)
      modifies this
      ensures ok <==> old(validatedObjects) + 1 <= MAX_OBJECTS
      ensures ok ==> View() == WithDirectory(collectClosure, old(View()), r)
    {
      validatedDirectories := validatedDirectories[r.hash := r.size];
      Collect(r);
      ok := ReserveObject();
    }

    /** A directory taken from the queue: its subdirectories, unless it was validated before. */
    method ValidateDirectory(r: DigestReference) returns (v: Verdict, more: seq<DigestReference>)
      requires Valid(NONE_BUSY) && ReachesDirectory(g, r)
      modifies this, cas
      ensures cas.present.Includes(old(cas.present))
      ensures v == Passed ==> Valid(NONE_BUSY)
      ensures v == Passed ==> MapGrows(old(validatedBlobs), validatedBlobs)
      ensures v == Passed ==> validatedTrees == old(validatedTrees)
      ensures v == Passed ==>
        if Recorded(old(validatedDirectories), r) then
          more == [] && validatedDirectories == old(validatedDirectories) && validatedObjects == old(validatedObjects)
        else
          && more == DirectoryAt(g, r).directories && r.hash !in old(validatedDirectories)
          && validatedDirectories == old(validatedDirectories)[r.hash := r.size]
          && validatedObjects > old(validatedObjects)
      ensures Justified(v, g, start, cas.reliable)
    {
      more := [];
      if r.hash in validatedDirectories {
        assert DirectoryDone(g, View(), Seen(), Ref(validatedDirectories, r.hash));
        v := if validatedDirectories[r.hash] == r.size then Passed else Invalid;
        return;
      }
      v, more := ValidateNewDirectory(r);
    }

    method ValidateNewDirectory(r: DigestReference) returns (v: Verdict, more: seq<DigestReference>)
      requires Valid(NONE_BUSY) && ReachesDirectory(g, r) && r.hash !in validatedDirectories
      modifies this, cas
      ensures cas.present.Includes(old(cas.present))
      ensures v == Passed ==> Valid(NONE_BUSY) && validatedDirectories == old(validatedDirectories)[r.hash := r.size]
      ensures v == Passed ==> MapGrows(old(validatedBlobs), validatedBlobs)
      ensures v == Passed ==> validatedTrees == old(validatedTrees)
      ensures v == Passed ==> more == DirectoryAt(g, r).directories && validatedObjects > old(validatedObjects)
      ensures Justified(v, g, start, cas.reliable)
    {
      more := [];
      ghost var before, p := View(), Seen();
      ReachedWithDirectory(g, collectClosure, before, r);
      var ok := RecordDirectory(r);
      if !ok {
        OverLimit(g, WithDirectory(collectClosure, before, r));
        v := Invalid;
        return;
      }
      DirectoryRecorded(g, collectClosure, before, p, r);
      assert Reaches(g, r);
      var data;
      v, data := LoadCas(r);
      if v != Passed { return; }
      RecordOkLater(g, collectClosure, View(), p, Seen(), Busy({}, {r.hash}));
      v, more := ValidateDirectoryFiles(r, data);
    }

    method ValidateDirectoryFiles(r: DigestReference, data: Bytes) returns (v: Verdict, more: seq<DigestReference>)
      requires Valid(Busy({}, {r.hash})) && ReachesDirectory(g, r) && Recorded(validatedDirectories, r)
      requires Stored(g, Seen(), r) && r.hash in cas.present.local && data == g.content[r.hash]
      modifies this, cas
      ensures cas.present.Includes(old(cas.present))
      ensures v == Passed ==> Valid(NONE_BUSY) && more == DirectoryAt(g, r).directories
      ensures v == Passed ==> MapGrows(old(validatedBlobs), validatedBlobs) && validatedObjects >= old(validatedObjects)
      ensures validatedTrees == old(validatedTrees) && validatedDirectories == old(validatedDirectories)
      ensures Justified(v, g, start, cas.reliable)
    {
      more := [];
      var directory := ParseDirectory(data);
      if directory.None? { v := Invalid; return; }
      DirectoryFilesReached(g, r);
      v := ValidateBlobs(directory.value.files, Busy({}, {r.hash}));
      if v == Passed {
        DirectoryFinished(g, View(), Seen(), r);
        more := directory.value.directories;
      }
    }

    /** The worklist. Cycles end because a directory is expanded once; the object limit bounds the rest. */
    method ValidateDirectoryClosure(roots: seq<DigestReference>) returns (v: Verdict)
      requires Valid(NONE_BUSY) && validatedDirectories == map[] && roots == g.refs.directories
      modifies this, cas
      ensures cas.present.Includes(old(cas.present))
      ensures v == Passed ==> Valid(NONE_BUSY) && MapGrows(old(validatedBlobs), validatedBlobs)
      ensures v == Passed ==> validatedTrees == old(validatedTrees)
      ensures v == Passed ==> DirectoriesClosed(g, validatedDirectories, [])
      ensures Justified(v, g, start, cas.reliable)
    {
      var queue := roots;
      forall r | r in roots ensures ReachesDirectory(g, r) { RootReached(g, r); }
      while queue != []
        invariant Valid(NONE_BUSY) && MapGrows(old(validatedBlobs), validatedBlobs)
        invariant cas.present.Includes(old(cas.present))
        invariant validatedTrees == old(validatedTrees)
        invariant forall r :: r in queue ==> ReachesDirectory(g, r)
        invariant DirectoriesClosed(g, validatedDirectories, queue)
        decreases MAX_OBJECTS - validatedObjects, |queue|
      {
        var r := queue[0];
        ghost var before := validatedDirectories;
        var more;
        v, more := ValidateDirectory(r);
        if v != Passed { return; }
        HeadAndTail(queue);
        SubdirectoriesReached(g, queue[1..], r, more);
        ExpandDirectory(g, before, queue[1..], r, more);
        queue := queue[1..] + more;
      }
      v := Passed;
    }
  }

  /** Roots and subdirectories of recorded directories are recorded or waiting. */
  ghost predicate DirectoriesClosed(g: Graph, m: map<string, int>, queue: seq<DigestReference>) {
    && (forall r :: r in g.refs.directories ==> Recorded(m, r) || r in queue)
    && (forall d, q :: Recorded(m, d) && q in DirectoryAt(g, d).directories ==> Recorded(m, q) || q in queue)
  }

  ghost predicate AllRecorded(m: map<string, int>, refs: seq<DigestReference>) { forall r :: r in refs ==> Recorded(m, r) }

  lemma RecordOneMore(m: map<string, int>, n: map<string, int>, refs: seq<DigestReference>, i: nat)
    requires i < |refs| && AllRecorded(m, refs[..i]) && MapGrows(m, n) && Recorded(n, refs[i])
    ensures AllRecorded(n, refs[..i + 1])
  {
    assert refs[..i + 1] == refs[..i] + [refs[i]];
  }

  lemma HeadAndTail(queue: seq<DigestReference>)
    requires queue != []
    ensures queue == [queue[0]] + queue[1..]
  {
  }

  lemma SubdirectoriesReached(g: Graph, queue: seq<DigestReference>, r: DigestReference, more: seq<DigestReference>)
    requires ReachesDirectory(g, r) && (more == [] || more == DirectoryAt(g, r).directories)
    requires forall q :: q in queue ==> ReachesDirectory(g, q)
    ensures forall q :: q in queue + more ==> ReachesDirectory(g, q)
  {
    forall q | q in more ensures ReachesDirectory(g, q) {
      SubdirectoryReached(g, r, q);
    }
  }

  /** Taking a directory from the front of the queue and putting its subdirectories at the back. */
  lemma ExpandDirectory(g: Graph, m: map<string, int>, rest: seq<DigestReference>, r: DigestReference, more: seq<DigestReference>)
    requires DirectoriesClosed(g, m, [r] + rest)
    requires if Recorded(m, r) then more == [] else more == DirectoryAt(g, r).directories && r.hash !in m
    ensures DirectoriesClosed(g, if Recorded(m, r) then m else m[r.hash := r.size], rest + more)
  {
    var n := if Recorded(m, r) then m else m[r.hash := r.size];
    assert Recorded(n, r);
    forall q ensures q in [r] + rest <==> q == r || q in rest {}
    forall q | Recorded(m, q) ensures Recorded(n, q) {}
    forall d, q | Recorded(n, d) && q in DirectoryAt(g, d).directories
      ensures Recorded(n, q) || q in rest + more
    {
      if !Recorded(m, d) {
        assert d == r && q in more;
      } else {
        assert Recorded(m, q) || q in [r] + rest;
      }
    }
    forall q | q in g.refs.directories ensures Recorded(n, q) || q in rest + more {
      assert Recorded(m, q) || q in [r] + rest;
    }
  }

  lemma TreeFilesReached(g: Graph, r: DigestReference)
    requires ReachesTree(g, r)
    ensures forall f :: f in TreeFilesAt(g, r) ==> IsImplicitEmpty(f) || ReachesBlob(g, f)
  {
    forall f | f in TreeFilesAt(g, r) && !IsImplicitEmpty(f) ensures ReachesBlob(g, f) {
      assert FileOfTree(g, f);
    }
  }

  lemma DirectoryFilesReached(g: Graph, r: DigestReference)
    requires ReachesDirectory(g, r)
    ensures forall f :: f in DirectoryAt(g, r).files ==> IsImplicitEmpty(f) || ReachesBlob(g, f)
  {
    forall f | f in DirectoryAt(g, r).files && !IsImplicitEmpty(f) ensures ReachesBlob(g, f) {
      assert FileOfDirectory(g, f);
    }
  }

  lemma TreeFinished(g: Graph, s: Record, present: set<string>, r: DigestReference)
    requires ObjectsDone(g, s, present, Busy({r.hash}, {})) && Recorded(s.trees, r) && TreeDone(g, s, present, r)
    ensures ObjectsDone(g, s, present, NONE_BUSY)
  {
    forall h | h in s.trees ensures TreeDone(g, s, present, Ref(s.trees, h)) {
      if h == r.hash { assert Ref(s.trees, h) == r; } else { assert h !in Busy({r.hash}, {}).trees; }
    }
  }

  lemma DirectoryFinished(g: Graph, s: Record, present: set<string>, r: DigestReference)
    requires ObjectsDone(g, s, present, Busy({}, {r.hash})) && Recorded(s.directories, r)
    requires DirectoryDone(g, s, present, r)
    ensures ObjectsDone(g, s, present, NONE_BUSY)
  {
    forall h | h in s.directories ensures DirectoryDone(g, s, present, Ref(s.directories, h)) {
      if h == r.hash { assert Ref(s.directories, h) == r; } else { assert h !in Busy({}, {r.hash}).directories; }
    }
  }

  // ----- the whole validation -----

  ghost function GraphOf(sha: Bytes -> string, content: map<string, Bytes>, refs: ActionReferences): Graph {
    Graph(b => TreeOf(sha, b), DirectoryOf, content, refs)
  }

  /** The list names exactly the real hashes of the graph, sorted and each once, by references the graph holds. */
  ghost predicate ExactClosure(g: Graph, closure: seq<DigestReference>) {
    && (forall h :: HasHash(closure, h) <==> RealHash(g, h))
    && (forall r :: r in closure ==> Reaches(g, r) && !IsImplicitEmpty(r))
    && (forall i, j :: 0 <= i < j < |closure| ==> Lt(closure[i].hash, closure[j].hash))
  }

  lemma SortedClosureExact(g: Graph, closure: map<string, DigestReference>, values: seq<DigestReference>)
    requires forall h :: h in closure ==>
      closure[h].hash == h && Reaches(g, closure[h]) && !IsImplicitEmpty(closure[h])
    requires forall h :: h in closure <==> RealHash(g, h)
    requires DistinctHashes(values) && forall r :: r in values <==> r.hash in closure && closure[r.hash] == r
    ensures ExactClosure(g, SortReferences(values))
  {
    var sorted := SortReferences(values);
    SortReferencesMembers(values);
    forall r, q | r in values && q in values && r.hash == q.hash ensures r.size == q.size {}
    assert forall r :: r in sorted <==> r in values;
    forall h ensures HasHash(sorted, h) <==> RealHash(g, h) {
      if HasHash(sorted, h) {
        var i :| 0 <= i < |sorted| && sorted[i].hash == h;
        assert sorted[i] in values;
      }
      if RealHash(g, h) {
        assert closure[h] in sorted;
        var i :| 0 <= i < |sorted| && sorted[i] == closure[h];
      }
    }
  }

  ghost predicate ClosureReturned(g: Graph, collect: bool, closure: seq<DigestReference>) {
    if collect then ExactClosure(g, closure) else closure == []
  }

  /** Everything reachable is sound and confirmed, and trees and directories are held locally. */
  ghost predicate Confirms(g: Graph, present: Presence, requirePersisted: bool, packed: bool) {
    && present.Within(g.content.Keys) && AllPresent(g, present.Confirmed(requirePersisted, packed)) && Sound(g)
    && NodesLoaded(g, present.local)
  }

  /** Without faults and without changes meanwhile, the verdict is whether everything is available and sound. */
  ghost predicate Decides(v: Verdict, g: Graph, before: set<string>, after: set<string>, reliable: bool) {
    reliable && after == before ==> (v == Passed <==> AllPresent(g, after) && Sound(g))
  }

  /**
   * Validate an action result. It passes only if everything reachable is sound and confirmed: in the backend when
   * `requirePersisted` is set, otherwise in the backend or locally, and in a packed store locally. Trees and directories
   * are then held locally, and the collected closure is exact. Each failure is justified; on reliable storage that does
   * not change meanwhile, validation passes exactly when everything reachable is available and sound.
   */
  method ValidateActionResultClosure(sha: Bytes -> string, data: Bytes, cas: CasView, requirePersisted: bool, collect: bool)
    returns (v: Verdict, closure: seq<DigestReference>)
    requires cas.present.Within(cas.content.Keys)
    modifies cas
    ensures cas.present.Includes(old(cas.present))
    ensures ActionResultOf(data).None? ==> v == Invalid
    ensures ActionResultOf(data).Some? ==>
      var g := GraphOf(sha, cas.content, ActionResultOf(data).value);
      var before, after := old(cas.present.Available(requirePersisted)), cas.present.Available(requirePersisted);
      && Justified(v, g, before, cas.reliable) && Decides(v, g, before, after, cas.reliable)
      && (v == Passed ==> Confirms(g, cas.present, requirePersisted, cas.packed) && ClosureReturned(g, collect, closure))
  {
    closure := [];
    var references := ParseActionResult(data);
    if references.None? { v := Invalid; return; }
    ghost var g := GraphOf(sha, cas.content, references.value);
    v, closure := ValidateReferences(sha, references.value, cas, requirePersisted, collect, g);
  }

  method ValidateReferences(sha: Bytes -> string, refs: ActionReferences, cas: CasView, requirePersisted: bool, collect: bool,
                            ghost g: Graph)
    returns (v: Verdict, closure: seq<DigestReference>)
    requires cas.present.Within(cas.content.Keys) && GraphReads(sha, cas, g) && g.refs == refs
    modifies cas
    ensures cas.present.Includes(old(cas.present))
    ensures Justified(v, g, old(cas.present.Available(requirePersisted)), cas.reliable)
    ensures Decides(v, g, old(cas.present.Available(requirePersisted)), cas.present.Available(requirePersisted), cas.reliable)
    ensures v == Passed ==> Confirms(g, cas.present, requirePersisted, cas.packed) && ClosureReturned(g, collect, closure)
  {
    closure := [];
    var validator := new ActionResultValidator(sha, cas, requirePersisted, collect, g);
    v := RunValidator(validator, refs);
    if v != Passed { return; }
    FinishedConfirms(g, collect, validator.View(), cas.present, requirePersisted, cas.packed);
    closure := ListClosure(validator);
  }

  method ListClosure(validator: ActionResultValidator) returns (closure: seq<DigestReference>)
    requires validator.Valid(NONE_BUSY) && Finished(validator.g, validator.View())
    ensures ClosureReturned(validator.g, validator.collectClosure, closure)
  {
    var values := ListValues(validator.closure);
    closure := SortDigestReferences(values);
    ClosureListed(validator.g, validator.collectClosure, validator.View(), validator.Seen(), values);
  }

  lemma FinishedConfirms(g: Graph, collect: bool, s: Record, present: Presence, requirePersisted: bool, packed: bool)
    requires RecordOk(g, collect, s, present.Confirmed(requirePersisted, packed), NONE_BUSY) && Finished(g, s)
    requires NodesHeld(s, present.local, NONE_BUSY) && present.Within(g.content.Keys)
    ensures Confirms(g, present, requirePersisted, packed)
  {
    FinishedMeansComplete(g, collect, s, present.Confirmed(requirePersisted, packed));
    FinishedMeansLoaded(g, collect, s, present.Confirmed(requirePersisted, packed), present.local);
  }

  lemma ClosureListed(g: Graph, collect: bool, s: Record, present: set<string>, values: seq<DigestReference>)
    requires RecordOk(g, collect, s, present, NONE_BUSY) && Finished(g, s)
    requires DistinctHashes(values) && forall r :: r in values <==> r.hash in s.closure && s.closure[r.hash] == r
    ensures ClosureReturned(g, collect, SortReferences(values))
  {
    if collect {
      ClosureIsExact(g, s, present);
      SortedClosureExact(g, s.closure, values);
    } else {
      assert forall r :: r !in values;
      EmptyByMembers(values);
    }
  }

  lemma EmptyByMembers(values: seq<DigestReference>)
    requires forall r :: r !in values
    ensures values == [] && SortReferences(values) == []
  {
    FirstMember(values);
  }

  /** Blobs, then trees, then the directories. */
  method RunValidator(validator: ActionResultValidator, refs: ActionReferences) returns (v: Verdict)
    requires validator.Valid(NONE_BUSY) && validator.View() == EMPTY_RECORD && refs == validator.g.refs
    modifies validator, validator.cas
    ensures v == Passed ==> validator.Valid(NONE_BUSY) && Finished(validator.g, validator.View())
    ensures validator.cas.present.Includes(old(validator.cas.present))
    ensures Justified(v, validator.g, validator.start, validator.cas.reliable)
  {
    v := validator.ValidateBlobs(refs.blobs, NONE_BUSY);
    if v != Passed { return; }
    ghost var afterBlobs := validator.View();
    v := validator.ValidateTrees(refs.trees);
    if v != Passed { return; }
    v := validator.ValidateDirectoryClosure(refs.directories);
    if v != Passed { return; }
    BlobsDoneGrows(afterBlobs, validator.View(), refs.blobs);
    AllStagesFinish(validator.g, validator.View());
  }

  lemma AllStagesFinish(g: Graph, s: Record)
    requires BlobsDone(s, g.refs.blobs) && AllRecorded(s.trees, g.refs.trees) && DirectoriesClosed(g, s.directories, [])
    ensures Finished(g, s)
  {
  }
}
